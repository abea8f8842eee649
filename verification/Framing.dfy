/** Neitris messages on a byte stream: packing (neitris_utils.py), the two ways the client and the
    server cut a stream into messages, and the client's reader thread (`ChatRead`). */
module Framing {
  import opened Basics
  import opened Sequences

  // ---------------------------------------------------------------- packing

  /** A 16-bit number, most significant byte first. */
  function Word(hi: Byte, lo: Byte): nat {
    256 * hi + lo
  }

  function Header(length: nat, cmd: Byte, dst: Byte, src: Byte): seq<Byte>
    requires length < 0x1_0000
  {
    [length / 256, length % 256, cmd, dst, src]
  }

  /** `MsgPack`; it fails when the length does not fit its 16 bits. */
  function MsgPack(cmd: Byte, data: seq<Byte>, dst: Byte, src: Byte): Option<seq<Byte>> {
    if |data| + 3 >= 0x1_0000 then None else Some(Header(|data| + 3, cmd, dst, src) + data)
  }

  datatype Message = Message(length: int, data: seq<Byte>, cmd: Byte, dst: Byte, src: Byte)

  /** `MsgUnpack` of a header with whatever follows it in the buffer. */
  function MsgUnpack(msg: seq<Byte>): Message
    requires |msg| >= 5
  {
    Message(Word(msg[0], msg[1]) - 3, msg[5..], msg[2], msg[3], msg[4])
  }

  /** What `MsgPack` can produce. */
  predicate IsFrame(f: seq<Byte>) {
    |f| >= 5 && Word(f[0], f[1]) + 2 == |f|
  }

  lemma WordBytes(hi: Byte, lo: Byte)
    ensures Word(hi, lo) / 256 == hi && Word(hi, lo) % 256 == lo && Word(hi, lo) < 0x1_0000
  {
  }

  /** Unpacking the front of a buffer and packing the fields again gives the frame back. */
  lemma UnpackPack(f: seq<Byte>, rest: seq<Byte>)
    requires IsFrame(f)
    ensures var m := MsgUnpack(f + rest);
            && m.length == |f| - 5
            && m.data[..m.length] == f[5..]
            && MsgPack(m.cmd, m.data[..m.length], m.dst, m.src) == Some(f)
  {
    assert (f + rest)[5..][..|f| - 5] == f[5..];
    WordBytes(f[0], f[1]);
    assert f == Header(|f| - 2, f[2], f[3], f[4]) + f[5..];
  }

  /** Frames are exactly what `MsgPack` can produce. */
  lemma FramesArePacked(f: seq<Byte>)
    ensures IsFrame(f) <==> exists cmd, data, dst, src :: MsgPack(cmd, data, dst, src) == Some(f)
  {
    if IsFrame(f) {
      UnpackPack(f, []);
      assert f + [] == f;
      assert MsgPack(f[2], f[5..], f[3], f[4]) == Some(f);
    }
  }

  // ---------------------------------------------------------------- cutting a stream

  /** A stream cut up: the frames that are there, and what is left. `need` is how many bytes a
      reader wants to see before it looks at the length: 2 for the client, 5 for the server. */
  datatype Cut = Cut(frames: seq<seq<Byte>>, rest: seq<Byte>)

  /** The front frame of a buffer is complete. */
  predicate Ready(buf: seq<Byte>, need: nat)
    requires need >= 2
  {
    |buf| >= need && |buf| >= Word(buf[0], buf[1]) + 2
  }

  function CutUp(stream: seq<Byte>, need: nat): Cut
    requires need >= 2
    decreases |stream|
  {
    if !Ready(stream, need) then Cut([], stream)
    else
      var n := Word(stream[0], stream[1]) + 2;
      var more := CutUp(stream[n..], need);
      Cut([stream[..n]] + more.frames, more.rest)
  }

  /** A cut, behind frames that have been taken off before. */
  function Behind(taken: seq<seq<Byte>>, c: Cut): Cut {
    Cut(taken + c.frames, c.rest)
  }

  lemma CutUpOnce(buf: seq<Byte>, need: nat)
    requires need >= 2 && Ready(buf, need)
    ensures var n := Word(buf[0], buf[1]) + 2;
            CutUp(buf, need) == Behind([buf[..n]], CutUp(buf[n..], need))
  {
  }

  lemma Rejoined(s: seq<Byte>, n: nat)
    requires n <= |s|
    ensures s[..n] + s[n..] == s
  {
  }

  lemma BehindKeeps(head: seq<Byte>, more: Cut)
    ensures Flatten(Behind([head], more).frames) + more.rest == head + (Flatten(more.frames) + more.rest)
  {
    FlattenCons(head, more.frames);
    Associate(head, Flatten(more.frames), more.rest);
  }

  /** Nothing is lost or invented: the frames and the rest make up the stream. */
  lemma {:induction false} CutUpKeeps(stream: seq<Byte>, need: nat)
    requires need >= 2
    ensures Flatten(CutUp(stream, need).frames) + CutUp(stream, need).rest == stream
    decreases |stream|
  {
    if Ready(stream, need) {
      var n := Word(stream[0], stream[1]) + 2;
      CutUpKeeps(stream[n..], need);
      CutUpOnce(stream, need);
      BehindKeeps(stream[..n], CutUp(stream[n..], need));
      Rejoined(stream, n);
    }
  }

  lemma BehindBoth(head: seq<Byte>, taken: seq<seq<Byte>>, c: Cut)
    ensures Behind([head], Behind(taken, c)) == Behind([head] + taken, c)
  {
    Associate([head], taken, c.frames);
  }

  /** Cutting what has arrived and then the rest with what arrives next is cutting it all. */
  lemma {:induction false} CutUpLater(a: seq<Byte>, b: seq<Byte>, need: nat)
    requires need >= 2
    ensures var first := CutUp(a, need);
            CutUp(a + b, need) == Behind(first.frames, CutUp(first.rest + b, need))
    decreases |a|
  {
    if Ready(a, need) {
      var n := Word(a[0], a[1]) + 2;
      var more := CutUp(a[n..], need);
      CutUpLater(a[n..], b, need);
      assert (a + b)[..n] == a[..n] && (a + b)[n..] == a[n..] + b;
      CutUpOnce(a, need);
      CutUpOnce(a + b, need);
      BehindBoth(a[..n], more.frames, CutUp(more.rest + b, need));
    }
  }

  /** Taking one more frame off the front of the buffer. */
  lemma CutUpStep(taken: seq<seq<Byte>>, buf: seq<Byte>, need: nat)
    requires need >= 2 && Ready(buf, need)
    ensures var n := Word(buf[0], buf[1]) + 2;
            Behind(taken, CutUp(buf, need)) == Behind(taken + [buf[..n]], CutUp(buf[n..], need))
  {
    var n := Word(buf[0], buf[1]) + 2;
    var more := CutUp(buf[n..], need);
    assert taken + ([buf[..n]] + more.frames) == taken + [buf[..n]] + more.frames;
  }

  lemma CutUpAll(taken: seq<seq<Byte>>, a: seq<Byte>, b: seq<Byte>, need: nat)
    requires need >= 2 && Cut(taken, CutUp(a, need).rest) == CutUp(a, need)
    ensures Behind(taken, CutUp(CutUp(a, need).rest + b, need)) == CutUp(a + b, need)
  {
    CutUpLater(a, b, need);
  }

  predicate ProperPrefix(p: seq<Byte>, f: seq<Byte>) {
    |p| < |f| && p == f[..|p|]
  }

  lemma CutUpFront(f: seq<Byte>, tail: seq<Byte>, need: nat)
    requires 2 <= need <= 5 && IsFrame(f)
    ensures CutUp(f + tail, need) == Behind([f], CutUp(tail, need))
  {
    assert (f + tail)[..|f|] == f && (f + tail)[|f|..] == tail;
  }

  /** Both readers find exactly the frames that were sent and keep only the start of the next
      one, wherever the stream has been cut. */
  lemma {:induction false} FramesFound(frames: seq<seq<Byte>>, partial: seq<Byte>, next: seq<Byte>, need: nat)
    requires 2 <= need <= 5
    requires forall f :: f in frames ==> IsFrame(f)
    requires IsFrame(next) && ProperPrefix(partial, next)
    ensures CutUp(Flatten(frames) + partial, need) == Cut(frames, partial)
  {
    if frames == [] {
      assert Flatten(frames) + partial == partial;
    } else {
      var f := frames[0];
      var tail := Flatten(frames[1..]) + partial;
      FramesFound(frames[1..], partial, next, need);
      Associate(f, Flatten(frames[1..]), partial);
      CutUpFront(f, tail, need);
      assert frames == [f] + frames[1..];
    }
  }

  /** Hence they agree on the frame boundaries of everything `MsgPack` produces. */
  lemma ReadersAgree(frames: seq<seq<Byte>>, partial: seq<Byte>, next: seq<Byte>)
    requires forall f :: f in frames ==> IsFrame(f)
    requires IsFrame(next) && ProperPrefix(partial, next)
    ensures CutUp(Flatten(frames) + partial, 2) == CutUp(Flatten(frames) + partial, 5)
  {
    FramesFound(frames, partial, next, 2);
    FramesFound(frames, partial, next, 5);
  }

  // ---------------------------------------------------------------- the client

  /** `ChatRead`: the buffer and the queue of complete frames. */
  class ChatReader {
    var buf: seq<Byte>
    var queue: seq<seq<Byte>>
    ghost var received: seq<Byte>

    /** The queue and the buffer are what cutting everything received so far gives. */
    ghost predicate Valid()
      reads this
    {
      Cut(queue, buf) == CutUp(received, 2)
    }

    constructor ()
      ensures Valid() && received == []
    {
      buf, queue, received := [], [], [];
    }

    method Receive(data: seq<Byte>)
      requires Valid()
      modifies this
      ensures Valid() && received == old(received) + data
      ensures |buf| < 2 || |buf| < Word(buf[0], buf[1]) + 2
    {
      CutUpAll(queue, received, data, 2);
      received := received + data;
      buf := buf + data;
      ghost var goal := CutUp(received, 2);
      while Ready(buf, 2)
        invariant received == old(received) + data
        invariant Behind(queue, CutUp(buf, 2)) == goal
        decreases |buf|
      {
        TakeFrame();
      }
    }

    /** One turn of the loop: put the front frame into the queue. */
    method TakeFrame()
      requires Ready(buf, 2)
      modifies this`buf, this`queue
      ensures |buf| < |old(buf)|
      ensures Behind(queue, CutUp(buf, 2)) == old(Behind(queue, CutUp(buf, 2)))
    {
      CutUpStep(queue, buf, 2);
      var n := Word(buf[0], buf[1]) + 2;
      queue := queue + [buf[..n]];
      buf := buf[n..];
    }
  }
}
