/** What the Neitris server does with a client's stream of messages, in whatever pieces the stream
    arrives: which messages raise an exception, what is queued for whom along the changing state of
    the game, and exactly when arriving in parts makes no difference. */
module GameStreams {
  import opened Basics
  import opened Sequences
  import opened Framing
  import opened GameServer

  // What is said here of messages is said of their bytes. The commands are 1 for a state, 2 for
  // joining, 4 for a request to start, 7 for the end of one's game and 8 for a powerup; the server's
  // own are 3 and 11 for the answers to joining, 5 for the list of players and 10 for a victory.

  // ---------------------------------------------------------------- one frame

  /** What a frame does. */
  function FrameEffect(s: State, from: int, f: seq<Byte>): Outcome
    requires IsFrame(f)
  {
    Effect(s, from, f[2], f[5..], f[5..], f[3], f[4])
  }

  /** Bytes the players take up in the message that lists them. */
  function Size(clients: seq<Client>): nat {
    if clients == [] then 0 else Size(clients[..|clients| - 1]) + 3 + |clients[|clients| - 1].name|
  }

  predicate OthersReady(clients: seq<Client>, from: int) {
    forall i :: 0 <= i < |clients| && clients[i].sock != from ==> clients[i].ready
  }

  /** The frames that raise an exception: a request to start or an end of game from somebody who is
      not registered, a request to start a game whose players do not fit one message, and joining a
      second time while a game is on. */
  predicate Raises(s: State, from: int, f: seq<Byte>)
    requires IsFrame(f)
  {
    || (f[2] == 2 && s.phase != Idle && from !in s.reading)
    || (f[2] == 4 && s.phase == Idle &&
        (Registered(s, from) ==> OthersReady(s.clients, from) && Size(s.clients) + 4 >= 0x1_0000))
    || (f[2] == 7 && s.phase == Playing && !Registered(s, from))
  }

  lemma {:induction false} NamesSize(clients: seq<Client>)
    ensures |Names(clients)| == Size(clients)
  {
    if clients != [] {
      NamesSize(clients[..|clients| - 1]);
    }
  }

  lemma {:induction false} SizeReady(clients: seq<Client>, k: nat, ready: bool)
    requires k < |clients|
    ensures Size(WithReady(clients, k, ready)) == Size(clients)
  {
    var last := |clients| - 1;
    var changed := WithReady(clients, k, ready);
    if k < last {
      SizeReady(clients[..last], k, ready);
      assert changed[..last] == WithReady(clients[..last], k, ready);
    } else {
      assert changed[..last] == clients[..last];
    }
  }

  function Pids(clients: seq<Client>): set<int> {
    set i | 0 <= i < |clients| :: clients[i].pid as int
  }

  lemma {:induction false} PidsCount(clients: seq<Client>)
    requires forall i, j :: 0 <= i < j < |clients| ==> clients[i].pid != clients[j].pid
    ensures |Pids(clients)| == |clients|
  {
    if clients != [] {
      var last := |clients| - 1;
      var front := clients[..last];
      PidsCount(front);
      assert Pids(clients) == Pids(front) + {clients[last].pid as int};
    }
  }

  lemma {:induction false} Bounded(s: set<int>, n: nat)
    requires forall x :: x in s ==> 1 <= x <= n
    ensures |s| <= n
  {
    if n == 0 {
      assert forall x: int :: x !in s;
    } else {
      Bounded(s - {n}, n - 1);
      assert |s| <= |s - {n}| + 1;
    }
  }

  /** There are never more players than fit the message's count. */
  lemma FewPlayers(s: State)
    requires Valid(s)
    ensures |s.clients| <= 255
  {
    PidsCount(s.clients);
    Bounded(Pids(s.clients), 255);
  }

  lemma ReadyThen(s: State, k: nat)
    requires Valid(s) && k < |s.clients|
    ensures AllReady(WithReady(s.clients, k, true)) <==> OthersReady(s.clients, s.clients[k].sock)
  {
    var clients := WithReady(s.clients, k, true);
    forall i | 0 <= i < |clients| && i != k
      ensures clients[i] == s.clients[i] && s.clients[i].sock != s.clients[k].sock
    {
      assert if i < k then s.clients[i].sock != s.clients[k].sock else s.clients[k].sock != s.clients[i].sock;
    }
  }

  lemma StartRaises(s: State, from: int)
    requires Valid(s)
    ensures Start(s, from).ok <==>
              Registered(s, from) && (OthersReady(s.clients, from) ==> Size(s.clients) + 4 < 0x1_0000)
  {
    var k := Find(s.clients, from);
    if k < |s.clients| {
      var clients := WithReady(s.clients, k, true);
      FewPlayers(s);
      NamesSize(clients);
      SizeReady(s.clients, k, true);
      ReadyThen(s, k);
    }
  }

  /** A frame at the front of the buffer is taken off it whole, does what its fields say, and
      raises an exception exactly if it is one of those above. */
  lemma TurnOfFrame(s: State, from: int, f: seq<Byte>, rest: seq<Byte>)
    requires Valid(s) && IsFrame(f)
    ensures Ready(f + rest, 5)
    ensures Turn(s, from, f + rest) == Served(!Raises(s, from, f), rest, FrameEffect(s, from, f).server)
    ensures FrameEffect(s, from, f).ok == !Raises(s, from, f)
  {
    UnpackPack(f, rest);
    assert (f + rest)[|f|..] == rest;
    StartRaises(s, from);
  }

  // ---------------------------------------------------------------- who gets what

  predicate Is(s: State, sock: int, pid: Byte) {
    Registered(s, sock) && s.clients[Find(s.clients, sock)].pid == pid
  }

  function If(condition: bool, f: seq<Byte>): seq<seq<Byte>> {
    if condition then [f] else []
  }

  /** Nobody but `from` is still in the game. */
  predicate LastOne(clients: seq<Client>, from: int) {
    forall i :: 0 <= i < |clients| && clients[i].sock != from ==> !clients[i].ready
  }

  function InfoFrame(clients: seq<Client>): seq<Byte>
    requires Size(clients) + 4 < 0x1_0000
  {
    [(Size(clients) + 4) / 256, (Size(clients) + 4) % 256, 5, 0, 0] + ([|clients| % 256] + Names(clients))
  }

  /** The reason a player is refused. */
  lemma ReasonGiven(i: nat)
    requires i < 16
    ensures |IN_PROGRESS| == 16 && IN_PROGRESS[i] == "Game in progress"[i] as int
  {
  }

  lemma AckIs(pid: Byte)
    ensures Ack(pid) == [0, 4, 3, pid, 0, pid]
  {
  }

  lemma EndsAre(src: Byte, pid: Byte)
    ensures OverFrame(src) == [0, 3, 7, 0, src] && WinFrame(pid) == [0, 3, 10, pid, 0]
  {
  }

  /** When one stops, the others are told; when the last one does, all are, and it also learns that
      it has won. */
  function StopSent(s: State, from: int, src: Byte, c: int): seq<seq<Byte>> {
    var told := If(Registered(s, c) && c != from, [0, 3, 7, 0, src]);
    if Registered(s, from) && LastOne(s.clients, from) then
      var pid := s.clients[Find(s.clients, from)].pid;
      told + (If(Registered(s, c), [0, 3, 7, 0, 0]) + If(c == from, [0, 3, 10, pid, 0]))
    else
      told
  }

  /** What a frame from `from` queues for the connection `c`: a state for every player but its
      sender; during a game a powerup for the player it is addressed to; the list of players for
      every player when the last one becomes ready; and ends of games. */
  function Sent(s: State, from: int, f: seq<Byte>, c: int): seq<seq<Byte>>
    requires IsFrame(f)
  {
    if f[2] == 1 then If(Registered(s, c) && c != from, f)
    else if f[2] == 8 && s.phase == Playing then If(Is(s, c, f[3]), f)
    else if f[2] == 4 && s.phase == Idle then
      if Registered(s, from) && Registered(s, c) && OthersReady(s.clients, from) && Size(s.clients) + 4 < 0x1_0000
      then [InfoFrame(s.clients)] else []
    else if f[2] == 7 && s.phase == Playing then StopSent(s, from, f[4], c)
    else []
  }

  lemma FindOnly(s: State, i: nat)
    requires Valid(s) && i < |s.clients|
    ensures Find(s.clients, s.clients[i].sock) == i
  {
  }

  /** Whom a message reaches. */
  lemma ReachedBy(s: State, a: Audience, c: int)
    requires Valid(s)
    ensures Reached(s.clients, a, c) <==> Registered(s, c) && Hears(a, s.clients[Find(s.clients, c)])
  {
    var k := Find(s.clients, c);
    if Reached(s.clients, a, c) {
      var i :| 0 <= i < |s.clients| && s.clients[i].sock == c && Hears(a, s.clients[i]);
      FindOnly(s, i);
    }
  }

  lemma {:induction false} NamesReady(clients: seq<Client>, k: nat, ready: bool)
    requires k < |clients|
    ensures Names(WithReady(clients, k, ready)) == Names(clients)
  {
    var last := |clients| - 1;
    var changed := WithReady(clients, k, ready);
    if k < last {
      NamesReady(clients[..last], k, ready);
      assert changed[..last] == WithReady(clients[..last], k, ready);
    } else {
      assert changed[..last] == clients[..last];
    }
  }

  lemma FindReady(s: State, k: nat, ready: bool, c: int)
    requires Valid(s) && k < |s.clients|
    ensures Valid(s.(clients := WithReady(s.clients, k, ready)))
    ensures Find(WithReady(s.clients, k, ready), c) == Find(s.clients, c)
  {
    var t := s.(clients := WithReady(s.clients, k, ready));
    ReadyKeeps(s, k, ready);
    var i := Find(s.clients, c);
    if i < |s.clients| {
      FindOnly(t, i);
    } else {
      assert forall j :: 0 <= j < |s.clients| ==> t.clients[j].sock != c;
    }
  }

  lemma InfoIs(s: State, k: nat)
    requires Valid(s) && k < |s.clients|
    ensures GameInfo(WithReady(s.clients, k, true))
            == if Size(s.clients) + 4 < 0x1_0000 then Some(InfoFrame(s.clients)) else None
  {
    FewPlayers(s);
    NamesSize(s.clients);
    NamesReady(s.clients, k, true);
  }

  lemma StartQueues(s: State, from: int, f: seq<Byte>, c: int)
    requires Valid(s) && IsFrame(f) && c in s.out && f[2] == STARTREQ && s.phase == Idle
    ensures c in Start(s, from).server.out
    ensures Start(s, from).server.out[c] == s.out[c] + Sent(s, from, f, c)
  {
    var k := Find(s.clients, from);
    if k < |s.clients| {
      ReadyThen(s, k);
      InfoIs(s, k);
      FindReady(s, k, true, c);
      ReachedBy(s.(clients := WithReady(s.clients, k, true)), Everyone, c);
    }
  }

  lemma StoppedThen(s: State, k: nat)
    requires Valid(s) && k < |s.clients|
    ensures NoneReady(WithReady(s.clients, k, false)) <==> LastOne(s.clients, s.clients[k].sock)
  {
    var clients := WithReady(s.clients, k, false);
    forall i | 0 <= i < |clients| && i != k
      ensures clients[i] == s.clients[i] && s.clients[i].sock != s.clients[k].sock
    {
      assert if i < k then s.clients[i].sock != s.clients[k].sock else s.clients[k].sock != s.clients[i].sock;
    }
  }

  lemma QueuedFor(s: State, a: Audience, f: seq<Byte>, c: int)
    requires Valid(s) && c in s.out
    ensures Queued(s.out, s.clients, a, f)[c]
            == s.out[c] + If(Registered(s, c) && Hears(a, s.clients[Find(s.clients, c)]), f)
  {
    ReachedBy(s, a, c);
  }

  lemma OverQueues(s: State, from: int, pid: Byte, c: int)
    requires Valid(s) && c in s.out && Registered(s, from)
    ensures Over(s, from, pid).out.Keys == s.out.Keys
    ensures Over(s, from, pid).out[c]
            == s.out[c] + (If(Registered(s, c), OverFrame(0)) + If(c == from, WinFrame(pid)))
  {
    QueuedFor(s, Everyone, OverFrame(0), c);
    var told := Queued(s.out, s.clients, Everyone, OverFrame(0));
    QueuedFor(s.(out := told), Only(from), WinFrame(pid), c);
    Associate(s.out[c], If(Registered(s, c), OverFrame(0)), If(c == from, WinFrame(pid)));
  }

  lemma StoppedQueues(s: State, from: int, k: nat, src: Byte, c: int)
    requires Valid(s) && c in s.out && k == Find(s.clients, from) < |s.clients|
    ensures var next := Stopped(s, from, k, src);
            && Valid(next) && c in next.out
            && Stop(s, from, src)
               == Outcome(true, if LastOne(s.clients, from) then Over(next, from, s.clients[k].pid) else next)
            && (Registered(next, c) <==> Registered(s, c)) && Registered(next, from)
            && next.out[c] == s.out[c] + If(Registered(s, c) && c != from, OverFrame(src))
  {
    QueuedFor(s, AllBut(from), OverFrame(src), c);
    StoppedThen(s, k);
    FindReady(s, k, false, c);
    FindReady(s, k, false, from);
  }

  lemma StopQueues(s: State, from: int, src: Byte, c: int)
    requires Valid(s) && c in s.out
    ensures c in Stop(s, from, src).server.out
    ensures Stop(s, from, src).server.out[c] == s.out[c] + StopSent(s, from, src, c)
  {
    var k := Find(s.clients, from);
    if k == |s.clients| {
      QueuedFor(s, AllBut(from), OverFrame(src), c);
    } else {
      EndsAre(src, 0);
      StoppedQueues(s, from, k, src, c);
      if LastOne(s.clients, from) {
        var pid := s.clients[k].pid;
        EndsAre(src, pid);
        EndsAre(0, pid);
        OverQueues(Stopped(s, from, k, src), from, pid, c);
        Associate(s.out[c], If(Registered(s, c) && c != from, OverFrame(src)),
                  If(Registered(s, c), OverFrame(0)) + If(c == from, WinFrame(pid)));
      }
    }
  }

  function Waiting(s: State, c: int): seq<seq<Byte>> {
    if c in s.out then s.out[c] else []
  }

  /** What a connection's queue becomes: joining starts one's own queue anew. */
  function QueueAfter(s: State, from: int, f: seq<Byte>, c: int, queue: seq<seq<Byte>>): seq<seq<Byte>>
    requires IsFrame(f)
  {
    if f[2] != 2 || c != from then queue + Sent(s, from, f, c)
    else if s.phase != Idle then [[0, 19, 11, 0, 0] + IN_PROGRESS]
    else match FreePid(s.clients, 1)
      case None => queue
      case Some(pid) => [[0, 4, 3, pid, 0, pid]]
  }

  lemma KnownQueues(s: State, from: int, f: seq<Byte>, c: int)
    requires Valid(s) && IsFrame(f) && c in s.out && f[2] != REGPLAYER
    ensures c in FrameEffect(s, from, f).server.out
    ensures FrameEffect(s, from, f).server.out[c] == s.out[c] + Sent(s, from, f, c)
  {
    if f[2] == STARTREQ && s.phase == Idle {
      StartQueues(s, from, f, c);
    } else if f[2] == GAMEOVER && s.phase == Playing {
      StopQueues(s, from, f[4], c);
    } else {
      UnpackPack(f, []);
      assert f + [] == f;
      ReachedBy(s, AllBut(from), c);
      ReachedBy(s, Player(f[3]), c);
    }
  }

  lemma UnknownQueues(s: State, from: int, f: seq<Byte>, c: int)
    requires Valid(s) && IsFrame(f) && c !in s.out && f[2] != REGPLAYER
    ensures c !in FrameEffect(s, from, f).server.out && Sent(s, from, f, c) == []
  {
    assert !Registered(s, c);
  }

  /** So every frame changes the queue of every connection exactly like that. */
  lemma FrameQueues(s: State, from: int, f: seq<Byte>, c: int)
    requires Valid(s) && IsFrame(f)
    ensures Waiting(FrameEffect(s, from, f).server, c) == QueueAfter(s, from, f, c, Waiting(s, c))
  {
    if f[2] == 2 {
      if FreePid(s.clients, 1).Some? {
        AckIs(FreePid(s.clients, 1).value);
      }
    } else {
      if c in s.out {
        KnownQueues(s, from, f, c);
      } else {
        UnknownQueues(s, from, f, c);
      }
    }
  }

  // ---------------------------------------------------------------- who plays

  /** Joining before a game: the smallest number that is free, under the name sent, with only the
      number waiting to be sent. Nobody else is affected. When no number is free nothing happens. */
  lemma Joined(s: State, from: int, f: seq<Byte>, d: int)
    requires Valid(s) && IsFrame(f) && f[2] == 2 && s.phase == Idle && d != from
    ensures var t := FrameEffect(s, from, f).server;
            if forall pid: Byte :: pid > 0 ==> Taken(s.clients, pid) then t == s
            else
              && Registered(t, from) && from in t.out
              && (var c := t.clients[Find(t.clients, from)];
                  && c.name == f[5..] && !c.ready && t.out[from] == [[0, 4, 3, c.pid, 0, c.pid]]
                  && c.pid > 0 && !Taken(s.clients, c.pid)
                  && forall pid: Byte :: 0 < pid < c.pid ==> Taken(s.clients, pid))
              && (Registered(t, d) <==> Registered(s, d))
              && (Registered(s, d) ==> t.clients[Find(t.clients, d)] == s.clients[Find(s.clients, d)])
              && t.phase == Idle && t.reading == s.reading
  {
    var t, pid := FrameEffect(s, from, f).server, FreePid(s.clients, 1);
    if pid.Some? {
      AckIs(pid.value);
      RegistrationKeeps(s, from, f[5..]);
      var k, i := Find(s.clients, from), Find(s.clients, d);
      assert t.clients[k].sock == from;
      FindOnly(t, k);
      if i < |s.clients| {
        assert t.clients[i] == s.clients[i];
        FindOnly(t, i);
      }
    }
  }

  /** What a client unpacks after joining: command 3, with the number the player is entered under as
      its payload. */
  lemma JoinUnpacked(s: State, from: int, f: seq<Byte>, free: Byte)
    requires Valid(s) && IsFrame(f) && f[2] == 2 && s.phase == Idle && free > 0 && !Taken(s.clients, free)
    ensures var t := FrameEffect(s, from, f).server;
            && Registered(t, from) && from in t.out && |t.out[from]| == 1 && |t.out[from][0]| >= 5
            && var pid := t.clients[Find(t.clients, from)].pid;
               MsgUnpack(t.out[from][0]) == Message(1, [pid], 3, pid, 0)
  {
    Joined(s, from, f, from + 1);
  }

  /** After asking too late: command 11 with the reason. */
  lemma RefusalUnpacked(s: State, from: int)
    ensures var t := Refusal(s, from).server;
            && from in t.out && |t.out[from]| == 1 && |t.out[from][0]| >= 5
            && MsgUnpack(t.out[from][0]) == Message(16, IN_PROGRESS, 11, 0, 0)
  {
    ReasonGiven(0);
    assert Nack()[5..] == IN_PROGRESS;
  }

  /** And at the end of games: commands 7 and 10. */
  lemma EndUnpacked(src: Byte, pid: Byte)
    ensures MsgUnpack(OverFrame(src)) == Message(0, [], 7, 0, src)
    ensures MsgUnpack(WinFrame(pid)) == Message(0, [], 10, pid, 0)
  {
  }

  /** Everybody plays on as before, except that `from` is now ready, or not. */
  predicate OnlyReady(s: State, t: State, from: int, ready: bool, d: int) {
    && |t.clients| == |s.clients| && Find(t.clients, d) == Find(s.clients, d)
    && (Registered(s, d) ==>
          var c := s.clients[Find(s.clients, d)];
          t.clients[Find(s.clients, d)] == if d == from then c.(ready := ready) else c)
  }

  /** When one asks to start and all others are ready, the game starts. */
  lemma PlayersStart(s: State, from: int, d: int)
    requires Valid(s) && Start(s, from).ok
    ensures var t := Start(s, from).server;
            && OnlyReady(s, t, from, true, d) && t.reading == s.reading
            && t.phase == if OthersReady(s.clients, from) then Starting else s.phase
  {
    var k := Find(s.clients, from);
    ReadyThen(s, k);
    FindReady(s, k, true, d);
  }

  /** When one stops and nobody else is still playing, the game ends. */
  lemma PlayersStop(s: State, from: int, src: Byte, d: int)
    requires Valid(s) && Stop(s, from, src).ok
    ensures var t := Stop(s, from, src).server;
            && OnlyReady(s, t, from, false, d) && t.reading == s.reading
            && t.phase == if LastOne(s.clients, from) then Idle else s.phase
  {
    var k := Find(s.clients, from);
    StoppedThen(s, k);
    FindReady(s, k, false, d);
  }

  /** The other commands change nothing but queues. */
  lemma PlayersElse(s: State, from: int, f: seq<Byte>)
    requires IsFrame(f) && f[2] != 2 && !(f[2] == 4 && s.phase == Idle) && !(f[2] == 7 && s.phase == Playing)
    ensures var t := FrameEffect(s, from, f).server; t == s.(out := t.out)
  {
  }

  /** Joining with a length field below 3 is joining without a name. */
  lemma JoinsNameless(s: State, from: int, buf: seq<Byte>)
    requires Valid(s) && Ready(buf, 5) && Word(buf[0], buf[1]) < 3 && buf[2] == 2 && s.phase == Idle
    ensures Turn(s, from, buf).server == FrameEffect(s, from, [0, 3, 2, 0, 0]).server
  {
    var f: seq<Byte> := [0, 3, 2, 0, 0];
    assert f[5..] == [];
  }

  // ---------------------------------------------------------------- arrivals cut anywhere

  /** The commands whose message is passed on. */
  predicate Relayed(s: State, cmd: Byte) {
    cmd == 1 || (cmd == 8 && s.phase == Playing)
  }

  /** Only a message that is passed on looks at the payload as the relayed commands take it. */
  lemma EffectSame(s: State, from: int, cmd: Byte, name: seq<Byte>, x: seq<Byte>, y: seq<Byte>, dst: Byte, src: Byte)
    requires !Relayed(s, cmd) || x == y || (|x| + 3 >= 0x1_0000 && |y| + 3 >= 0x1_0000)
    ensures Effect(s, from, cmd, name, x, dst, src) == Effect(s, from, cmd, name, y, dst, src)
  {
  }

  lemma UnpackLater(a: seq<Byte>, b: seq<Byte>)
    requires Ready(a, 5)
    ensures Ready(a + b, 5)
    ensures var m := MsgUnpack(a);
            && MsgUnpack(a + b) == m.(data := m.data + b)
            && (a + b)[m.length + 5..] == a[m.length + 5..] + b
            && -3 <= m.length <= |m.data|
  {
  }

  lemma TakeLater(data: seq<Byte>, b: seq<Byte>, n: int)
    requires -3 <= n <= |data|
    ensures Payload(data + b, n) == Payload(data, n)
    ensures if n >= 0 then Take(data + b, n) == Take(data, n) else |Take(data + b, n)| >= |Take(data, n)|
    ensures n < 0 && |b| >= 4 ==> |Take(data + b, n)| == |data| + |b| + n > |Take(data, n)|
  {
  }

  /** What arrives later does not change what a message does, unless it is passed on and its length
      field is below 3, the length of the part of the header that the field counts. */
  lemma TurnSame(s: State, from: int, a: seq<Byte>, b: seq<Byte>)
    requires Ready(a, 5)
    requires Turn(s, from, a).ok && Relayed(s, a[2]) ==> Word(a[0], a[1]) >= 3
    ensures Ready(a + b, 5)
    ensures var turn := Turn(s, from, a);
            Turn(s, from, a + b) == turn.(rest := turn.rest + b)
  {
    var m := MsgUnpack(a);
    UnpackLater(a, b);
    TakeLater(m.data, b, m.length);
    var name, x, y := Payload(m.data, m.length), Take(m.data, m.length), Take(m.data + b, m.length);
    EffectSame(s, from, m.cmd, name, x, y, m.dst, m.src);
  }

  /** What serving two parts one after the other comes to. */
  function InParts(s: State, from: int, a: seq<Byte>, b: seq<Byte>): Served {
    var first := Turns(s, from, a);
    if first.ok && from in first.server.reading then Turns(first.server, from, first.rest + b)
    else first.(rest := first.rest + b)
  }

  predicate Splits(s: State, from: int, a: seq<Byte>, b: seq<Byte>) {
    Turns(s, from, a + b) == InParts(s, from, a, b)
  }

  /** Up to the end of the stream or an exception, no message that is passed on has a short length
      field; and the socket is still read from at the end. */
  predicate Smooth(s: State, from: int, stream: seq<Byte>)
    decreases |stream|
  {
    if !Ready(stream, 5) then from in s.reading
    else
      var turn := Turn(s, from, stream);
      turn.ok ==>
        && (Relayed(s, stream[2]) ==> Word(stream[0], stream[1]) >= 3)
        && Smooth(turn.server, from, turn.rest)
  }

  /** Serving what has arrived and then the rest with what arrives next is serving it all. */
  lemma {:induction false} TurnsLater(s: State, from: int, a: seq<Byte>, b: seq<Byte>)
    requires Smooth(s, from, a)
    ensures Splits(s, from, a, b)
    decreases |a|
  {
    if Ready(a, 5) {
      TurnSame(s, from, a, b);
      TurnsStep(s, from, a);
      TurnsStep(s, from, a + b);
      var turn := Turn(s, from, a);
      if turn.ok {
        TurnsLater(turn.server, from, turn.rest, b);
      }
    }
  }

  /** Serving takes something off a buffer with a complete message, and always before it raises an
      exception. */
  lemma {:induction false} TurnsTake(s: State, from: int, buf: seq<Byte>)
    ensures |Turns(s, from, buf).rest| <= |buf|
    ensures Ready(buf, 5) || !Turns(s, from, buf).ok ==> |Turns(s, from, buf).rest| < |buf|
    ensures var rest := Turns(s, from, buf).rest;
            Turns(s, from, buf).ok ==> |rest| < 5 || |rest| < Word(rest[0], rest[1]) + 2
    decreases |buf|
  {
    if Ready(buf, 5) {
      TurnsStep(s, from, buf);
      var turn := Turn(s, from, buf);
      if turn.ok {
        TurnsTake(turn.server, from, turn.rest);
      }
    }
  }

  /** With enough behind it, passing on a message with a short length field raises an exception. */
  lemma ShortRaises(s: State, from: int, a: seq<Byte>, b: seq<Byte>)
    requires Ready(a, 5) && Relayed(s, a[2]) && Word(a[0], a[1]) < 3 && |b| >= 0x1_0000
    ensures Ready(a + b, 5)
    ensures !Turn(s, from, a + b).ok && |Turn(s, from, a + b).rest| == |Turn(s, from, a).rest| + |b|
  {
    UnpackLater(a, b);
    TakeLater(MsgUnpack(a).data, b, MsgUnpack(a).length);
  }

  lemma ShortDiffers(s: State, from: int, a: seq<Byte>, b: seq<Byte>)
    requires Ready(a, 5) && Relayed(s, a[2]) && Word(a[0], a[1]) < 3 && |b| >= 0x1_0000
    requires Turn(s, from, a).ok
    ensures !Splits(s, from, a, b)
  {
    var turn, first := Turn(s, from, a), Turns(s, from, a);
    ShortRaises(s, from, a, b);
    TurnsStep(s, from, a);
    TurnsStep(s, from, a + b);
    TurnsTake(turn.server, from, turn.rest);
    TurnsTake(first.server, from, first.rest + b);
  }

  /** Otherwise the two ways of serving differ. */
  lemma {:induction false} RoughDiffers(s: State, from: int, a: seq<Byte>, b: seq<Byte>)
    requires !Smooth(s, from, a) && |b| > 0x1_0000
    ensures !Splits(s, from, a, b)
    decreases |a|
  {
    if !Ready(a, 5) {
      WordBytes((a + b)[0], (a + b)[1]);
      TurnsTake(s, from, a + b);
    } else if Relayed(s, a[2]) && Word(a[0], a[1]) < 3 {
      ShortDiffers(s, from, a, b);
    } else {
      TurnSame(s, from, a, b);
      TurnsStep(s, from, a);
      TurnsStep(s, from, a + b);
      var turn := Turn(s, from, a);
      RoughDiffers(turn.server, from, turn.rest, b);
    }
  }

  function Zeros(n: nat): (zeros: seq<Byte>)
    ensures |zeros| == n
  {
    seq(n, _ => 0)
  }

  /** In every state of the server, a stream can be served in parts exactly if it is smooth. */
  lemma SplitsExactly(s: State, from: int, a: seq<Byte>)
    ensures (forall b :: Splits(s, from, a, b)) <==> Smooth(s, from, a)
  {
    if Smooth(s, from, a) {
      forall b ensures Splits(s, from, a, b) {
        TurnsLater(s, from, a, b);
      }
    } else {
      RoughDiffers(s, from, a, Zeros(0x1_0001));
      assert !Splits(s, from, a, Zeros(0x1_0001));
    }
  }

  lemma StopExtends(s: State, from: int, src: Byte, c: int)
    requires c in s.out
    ensures var t := Stop(s, from, src).server; c in t.out && s.out[c] <= t.out[c]
  {
  }

  /** Nobody loses a message that waits for them, except by joining themselves. */
  lemma EffectExtends(s: State, from: int, cmd: Byte, name: seq<Byte>, data: seq<Byte>, dst: Byte, src: Byte, c: int)
    requires c in s.out && c != from
    ensures var t := Effect(s, from, cmd, name, data, dst, src).server; c in t.out && s.out[c] <= t.out[c]
  {
    if cmd == GAMEOVER {
      StopExtends(s, from, src, c);
    }
  }

  lemma {:induction false} TurnsExtend(s: State, from: int, buf: seq<Byte>, c: int)
    requires c in s.out && c != from
    ensures var t := Turns(s, from, buf).server; c in t.out && s.out[c] <= t.out[c]
    decreases |buf|
  {
    if Ready(buf, 5) {
      TurnsStep(s, from, buf);
      var m, turn := MsgUnpack(buf), Turn(s, from, buf);
      EffectExtends(s, from, m.cmd, Payload(m.data, m.length), Take(m.data, m.length), m.dst, m.src, c);
      if turn.ok {
        TurnsExtend(turn.server, from, turn.rest, c);
      }
    }
  }

  /** The players a message is passed on to. */
  function Listeners(from: int, cmd: Byte, dst: Byte): Audience {
    if cmd == SENDSTATE then AllBut(from) else Player(dst)
  }

  lemma ShortTurn(s: State, from: int, a: seq<Byte>, c: int)
    requires Ready(a, 5) && Relayed(s, a[2]) && Word(a[0], a[1]) < 3 && Turn(s, from, a).ok
    requires c in s.out && Reached(s.clients, Listeners(from, a[2], a[3]), c)
    ensures var out := Turn(s, from, a).server.out;
            && c in out && |out[c]| == |s.out[c]| + 1 && s.out[c] <= out[c]
            && |out[c][|s.out[c]|]| == 5 + |Take(a[5..], Word(a[0], a[1]) - 3)|
  {
  }

  lemma PartsHave(s: State, from: int, a: seq<Byte>, b: seq<Byte>, c: int)
    requires Ready(a, 5) && Relayed(s, a[2]) && Word(a[0], a[1]) < 3 && Turn(s, from, a).ok
    requires c in s.out && c != from && Reached(s.clients, Listeners(from, a[2], a[3]), c)
    ensures var out := InParts(s, from, a, b).server.out;
            c in out && |out[c]| > |s.out[c]|
            && |out[c][|s.out[c]|]| == 5 + |Take(a[5..], Word(a[0], a[1]) - 3)|
  {
    var turn, first := Turn(s, from, a), Turns(s, from, a);
    ShortTurn(s, from, a, c);
    TurnsStep(s, from, a);
    TurnsExtend(turn.server, from, turn.rest, c);
    TurnsExtend(first.server, from, first.rest + b, c);
  }

  lemma WholeHas(s: State, from: int, buf: seq<Byte>, c: int)
    requires Ready(buf, 5) && Relayed(s, buf[2]) && Word(buf[0], buf[1]) < 3
    requires c in s.out && c != from && Reached(s.clients, Listeners(from, buf[2], buf[3]), c)
    ensures var out := Turns(s, from, buf).server.out;
            c in out && (|out[c]| > |s.out[c]| ==>
                           |out[c][|s.out[c]|]| == 5 + |Take(buf[5..], Word(buf[0], buf[1]) - 3)|)
  {
    var turn := Turn(s, from, buf);
    TurnsStep(s, from, buf);
    if turn.ok {
      ShortTurn(s, from, buf, c);
      TurnsExtend(turn.server, from, turn.rest, c);
    }
  }

  /** A message with a short length field that another player gets is different already with four
      more bytes behind it. */
  lemma HeardDiffers(s: State, from: int, a: seq<Byte>, b: seq<Byte>, c: int)
    requires Ready(a, 5) && Relayed(s, a[2]) && Word(a[0], a[1]) < 3 && Turn(s, from, a).ok
    requires c in s.out && c != from && Reached(s.clients, Listeners(from, a[2], a[3]), c)
    requires |b| >= 4
    ensures !Splits(s, from, a, b)
  {
    PartsHave(s, from, a, b, c);
    UnpackLater(a, b);
    WholeHas(s, from, a + b, c);
    TakeLater(a[5..], b, Word(a[0], a[1]) - 3);
  }

  /** Joining while a game is on: what came in the same piece is still served, what comes later is
      not read. */
  lemma LateJoin(s: State, from: int, f: seq<Byte>, pieces: seq<seq<Byte>>)
    requires Valid(s) && IsFrame(f) && f[2] == 2 && s.phase != Idle && from in s.reading
    ensures TurnsOver(s, from, [], [f] + pieces)
            == Served(true, Flatten(pieces),
                      s.(out := s.out[from := [[0, 19, 11, 0, 0] + IN_PROGRESS]], reading := s.reading - {from}))
  {
    TurnOfFrame(s, from, f, []);
    assert f + [] == f && [] + f == f && [] + Flatten(pieces) == Flatten(pieces);
    TurnsStep(s, from, f);
    assert ([f] + pieces)[1..] == pieces;
  }

  /** So a stream that joins late and then sends a state is not served alike in one part and two. */
  lemma LateJoinDiffers()
    ensures var s := State([Client(1, 1, [], true)], map[1 := []], Playing, {1, 2});
            !Splits(s, 2, [0, 3, 2, 0, 0], [0, 3, 1, 0, 2])
  {
    var s := State([Client(1, 1, [], true)], map[1 := []], Playing, {1, 2});
    var join, state: seq<Byte> := [0, 3, 2, 0, 0], [0, 3, 1, 0, 2];
    TurnOfFrame(s, 2, join, []);
    TurnOfFrame(s, 2, join, state);
    assert join + [] == join;
    TurnsStep(s, 2, join);
    TurnsStep(s, 2, join + state);
    TurnsTake(Refusal(s, 2).server, 2, state);
  }

  // ---------------------------------------------------------------- frames in any pieces

  /** Along the whole stream, no message that is passed on has a short length field, and none stands
      behind one that took the socket off those that are read from. */
  predicate Steady(s: State, from: int, stream: seq<Byte>)
    decreases |stream|
  {
    Ready(stream, 5) ==>
      && from in s.reading
      && (Relayed(s, stream[2]) ==> Word(stream[0], stream[1]) >= 3)
      && var turn := Turn(s, from, stream); (turn.ok ==> Steady(turn.server, from, turn.rest))
  }

  lemma {:induction false} SteadyParts(s: State, from: int, a: seq<Byte>, b: seq<Byte>)
    requires Steady(s, from, a + b)
    ensures Splits(s, from, a, b)
    ensures var first := Turns(s, from, a);
            first.ok ==> !Ready(first.rest, 5) && Steady(first.server, from, first.rest + b)
    decreases |a|
  {
    if Ready(a, 5) {
      UnpackLater(a, b);
      TurnSame(s, from, a, b);
      TurnsStep(s, from, a);
      TurnsStep(s, from, a + b);
      var turn := Turn(s, from, a);
      if turn.ok {
        SteadyParts(turn.server, from, turn.rest, b);
      }
    }
  }

  lemma SteadyEnd(s: State, from: int, buf: seq<Byte>, later: seq<Byte>)
    requires Steady(s, from, buf + later) && from !in s.reading
    ensures Turns(s, from, buf + later) == Served(true, buf + later, s)
  {
  }

  /** Wherever a steady stream is cut, and into however many pieces, it is served as a whole. */
  lemma {:induction false} TurnsOverPieces(s: State, from: int, buf: seq<Byte>, pieces: seq<seq<Byte>>)
    requires !Ready(buf, 5) && Steady(s, from, buf + Flatten(pieces))
    ensures TurnsOver(s, from, buf, pieces) == Turns(s, from, buf + Flatten(pieces))
    decreases |pieces|
  {
    if pieces == [] {
      assert buf + Flatten(pieces) == buf;
    } else if from in s.reading {
      var now, later := buf + pieces[0], Flatten(pieces[1..]);
      Associate(buf, pieces[0], later);
      SteadyParts(s, from, now, later);
      var first := Turns(s, from, now);
      if first.ok {
        TurnsOverPieces(first.server, from, first.rest, pieces[1..]);
        if from !in first.server.reading {
          SteadyEnd(first.server, from, first.rest, later);
        }
      }
    } else {
      SteadyEnd(s, from, buf, Flatten(pieces));
    }
  }

  /** Frames served one after the other, up to an exception, and the frames left then. */
  datatype Course = Course(ok: bool, left: seq<seq<Byte>>, server: State)

  predicate AllFrames(frames: seq<seq<Byte>>) {
    forall f :: f in frames ==> IsFrame(f)
  }

  function Serving(s: State, from: int, frames: seq<seq<Byte>>): Course
    requires AllFrames(frames)
    decreases |frames|
  {
    if frames == [] then Course(true, [], s)
    else
      var e := FrameEffect(s, from, frames[0]);
      if Raises(s, from, frames[0]) then Course(false, frames[1..], e.server)
      else Serving(e.server, from, frames[1..])
  }

  /** The same, with the start of another frame behind them. */
  function ServingAll(s: State, from: int, frames: seq<seq<Byte>>, partial: seq<Byte>): Served
    requires AllFrames(frames)
  {
    var all := Serving(s, from, frames);
    Served(all.ok, Flatten(all.left) + partial, all.server)
  }

  /** A frame that asks to join while a game is on, and is refused. */
  predicate Refused(s: State, f: seq<Byte>)
    requires IsFrame(f)
  {
    f[2] == 2 && s.phase != Idle
  }

  /** Up to an exception, no frame but the last is refused. */
  predicate JoinsInTime(s: State, from: int, frames: seq<seq<Byte>>)
    requires AllFrames(frames)
    decreases |frames|
  {
    |frames| > 1 && !Raises(s, from, frames[0]) ==>
      !Refused(s, frames[0]) && JoinsInTime(FrameEffect(s, from, frames[0]).server, from, frames[1..])
  }

  lemma ReadingKept(s: State, from: int, f: seq<Byte>)
    requires Valid(s) && IsFrame(f)
    ensures Valid(FrameEffect(s, from, f).server)
    ensures !Refused(s, f) ==> FrameEffect(s, from, f).server.reading == s.reading
  {
    EffectKeeps(s, from, f[2], f[5..], f[5..], f[3], f[4]);
  }

  lemma TurnOfFirst(s: State, from: int, frames: seq<seq<Byte>>, partial: seq<Byte>)
    requires Valid(s) && AllFrames(frames) && frames != []
    ensures IsFrame(frames[0]) && AllFrames(frames[1..])
    ensures var f, tail := frames[0], Flatten(frames[1..]) + partial;
            && Flatten(frames) + partial == f + tail && Ready(f + tail, 5)
            && Turn(s, from, f + tail) == Served(!Raises(s, from, f), tail, FrameEffect(s, from, f).server)
  {
    var f := frames[0];
    assert IsFrame(f);
    Associate(f, Flatten(frames[1..]), partial);
    TurnOfFrame(s, from, f, Flatten(frames[1..]) + partial);
  }

  /** In one piece, frames are served one after the other. */
  lemma {:induction false} TurnsOfFrames(s: State, from: int, frames: seq<seq<Byte>>, partial: seq<Byte>)
    requires Valid(s) && AllFrames(frames) && !Ready(partial, 5)
    ensures Turns(s, from, Flatten(frames) + partial) == ServingAll(s, from, frames, partial)
    decreases |frames|
  {
    if frames == [] {
      assert Flatten(frames) + partial == partial;
    } else {
      var f := frames[0];
      TurnOfFirst(s, from, frames, partial);
      TurnsStep(s, from, Flatten(frames) + partial);
      ReadingKept(s, from, f);
      if !Raises(s, from, f) {
        TurnsOfFrames(FrameEffect(s, from, f).server, from, frames[1..], partial);
      }
    }
  }

  lemma {:induction false} FramesSteady(s: State, from: int, frames: seq<seq<Byte>>, partial: seq<Byte>)
    requires Valid(s) && AllFrames(frames) && !Ready(partial, 5)
    requires from in s.reading && JoinsInTime(s, from, frames)
    ensures Steady(s, from, Flatten(frames) + partial)
    decreases |frames|
  {
    if frames == [] {
      assert Flatten(frames) + partial == partial;
    } else {
      var f := frames[0];
      TurnOfFirst(s, from, frames, partial);
      ReadingKept(s, from, f);
      if frames[1..] == [] {
        assert Flatten(frames[1..]) + partial == partial;
      } else if !Raises(s, from, f) {
        FramesSteady(FrameEffect(s, from, f).server, from, frames[1..], partial);
      }
    }
  }

  lemma FlattenTwo(x: seq<Byte>, y: seq<Byte>)
    ensures Flatten([x, y]) == x + y && Flatten([y]) == y && [x, y] == [x] + [y]
  {
    assert [x, y] == [x] + [y] && [y] == [y] + [];
    FlattenCons(x, [y]);
    FlattenCons(y, []);
    assert y + Flatten<Byte>([]) == y;
  }

  /** Cut behind a refused frame, what follows it is never served. */
  lemma LateDiffers(s: State, from: int, frames: seq<seq<Byte>>, partial: seq<Byte>)
    requires Valid(s) && AllFrames(frames) && !Ready(partial, 5) && from in s.reading
    requires |frames| > 1 && Refused(s, frames[0])
    ensures var pieces := [frames[0], Flatten(frames[1..]) + partial];
            && Flatten(pieces) == Flatten(frames) + partial
            && TurnsOver(s, from, [], pieces) != ServingAll(s, from, frames, partial)
  {
    var f, tail := frames[0], Flatten(frames[1..]) + partial;
    TurnOfFirst(s, from, frames, partial);
    FlattenTwo(f, tail);
    LateJoin(s, from, f, [tail]);
    ReadingKept(s, from, f);
    var t := FrameEffect(s, from, f).server;
    assert Serving(s, from, frames) == Serving(t, from, frames[1..]);
    TurnOfFirst(t, from, frames[1..], partial);
    TurnsOfFrames(t, from, frames[1..], partial);
    TurnsTake(t, from, tail);
  }

  lemma PieceServed(s: State, from: int, f: seq<Byte>, pieces: seq<seq<Byte>>)
    requires Valid(s) && IsFrame(f) && !Raises(s, from, f) && !Refused(s, f) && from in s.reading
    ensures TurnsOver(s, from, [], [f] + pieces) == TurnsOver(FrameEffect(s, from, f).server, from, [], pieces)
  {
    TurnOfFrame(s, from, f, []);
    assert f + [] == f && [] + f == f;
    TurnsStep(s, from, f);
    assert ([f] + pieces)[1..] == pieces;
  }

  lemma {:induction false} SomeCutDiffers(s: State, from: int, frames: seq<seq<Byte>>, partial: seq<Byte>)
    returns (pieces: seq<seq<Byte>>)
    requires Valid(s) && AllFrames(frames) && !Ready(partial, 5) && from in s.reading
    requires !JoinsInTime(s, from, frames)
    ensures Flatten(pieces) == Flatten(frames) + partial
    ensures TurnsOver(s, from, [], pieces) != ServingAll(s, from, frames, partial)
    decreases |frames|
  {
    var f := frames[0];
    TurnOfFirst(s, from, frames, partial);
    if Refused(s, f) {
      LateDiffers(s, from, frames, partial);
      pieces := [f, Flatten(frames[1..]) + partial];
    } else {
      ReadingKept(s, from, f);
      var later := SomeCutDiffers(FrameEffect(s, from, f).server, from, frames[1..], partial);
      PieceServed(s, from, f, later);
      FlattenCons(f, later);
      pieces := [f] + later;
    }
  }

  ghost predicate ServedInAnyPieces(s: State, from: int, frames: seq<seq<Byte>>, partial: seq<Byte>)
    requires AllFrames(frames)
  {
    forall pieces: seq<seq<Byte>> :: Flatten(pieces) == Flatten(frames) + partial ==>
                       TurnsOver(s, from, [], pieces) == ServingAll(s, from, frames, partial)
  }

  /** In whatever pieces a client's frames and the start of another arrive, they are served one by
      one, each in the state the ones before it left, up to the first that raises an exception: this
      holds exactly if no frame follows one that is refused. */
  lemma PiecesExactly(s: State, from: int, frames: seq<seq<Byte>>, partial: seq<Byte>, next: seq<Byte>)
    requires Valid(s) && AllFrames(frames) && IsFrame(next) && ProperPrefix(partial, next) && from in s.reading
    ensures ServedInAnyPieces(s, from, frames, partial) <==> JoinsInTime(s, from, frames)
  {
    if JoinsInTime(s, from, frames) {
      FramesSteady(s, from, frames, partial);
      TurnsOfFrames(s, from, frames, partial);
      forall pieces: seq<seq<Byte>> | Flatten(pieces) == Flatten(frames) + partial
        ensures TurnsOver(s, from, [], pieces) == ServingAll(s, from, frames, partial)
      {
        assert [] + Flatten(pieces) == Flatten(pieces);
        TurnsOverPieces(s, from, [], pieces);
      }
    } else {
      var pieces := SomeCutDiffers(s, from, frames, partial);
    }
  }

  /** What a connection's queue becomes along the way. */
  function QueueAlong(s: State, from: int, frames: seq<seq<Byte>>, c: int, queue: seq<seq<Byte>>): seq<seq<Byte>>
    requires AllFrames(frames)
    decreases |frames|
  {
    if frames == [] then queue
    else
      var now := QueueAfter(s, from, frames[0], c, queue);
      if Raises(s, from, frames[0]) then now
      else QueueAlong(FrameEffect(s, from, frames[0]).server, from, frames[1..], c, now)
  }

  lemma {:induction false} ServingQueues(s: State, from: int, frames: seq<seq<Byte>>, c: int)
    requires Valid(s) && AllFrames(frames)
    ensures Waiting(Serving(s, from, frames).server, c) == QueueAlong(s, from, frames, c, Waiting(s, c))
    decreases |frames|
  {
    if frames != [] {
      var f := frames[0];
      FrameQueues(s, from, f, c);
      ReadingKept(s, from, f);
      if !Raises(s, from, f) {
        ServingQueues(FrameEffect(s, from, f).server, from, frames[1..], c);
      }
    }
  }

  lemma {:induction false} ServingEnds(s: State, from: int, frames: seq<seq<Byte>>)
    requires AllFrames(frames) && Serving(s, from, frames).ok
    ensures Serving(s, from, frames).left == []
    decreases |frames|
  {
    if frames != [] {
      ServingEnds(FrameEffect(s, from, frames[0]).server, from, frames[1..]);
    }
  }

  /** The server end to end: whatever the pieces, each connection gets exactly what the frames send
      it, in order and with relayed frames byte for byte, behind what was waiting for it; and the
      start of the next frame stays in the buffer. */
  lemma ServerRelays(s: State, from: int, frames: seq<seq<Byte>>, partial: seq<Byte>, next: seq<Byte>,
                     pieces: seq<seq<Byte>>, c: int)
    requires Valid(s) && AllFrames(frames) && IsFrame(next) && ProperPrefix(partial, next)
    requires from in s.reading && JoinsInTime(s, from, frames)
    requires Flatten(pieces) == Flatten(frames) + partial
    ensures var all := TurnsOver(s, from, [], pieces);
            && Waiting(all.server, c) == QueueAlong(s, from, frames, c, Waiting(s, c))
            && (all.ok ==> all.rest == partial)
  {
    PiecesExactly(s, from, frames, partial, next);
    assert ServedInAnyPieces(s, from, frames, partial);
    ServingQueues(s, from, frames, c);
    if Serving(s, from, frames).ok {
      ServingEnds(s, from, frames);
      assert Flatten<Byte>([]) + partial == partial;
    }
  }

  // ---------------------------------------------------------------- the list of players at a client

  function Least(a: nat, b: nat): nat {
    if a <= b then a else b
  }

  /** The players a client reads from a list, by number; an entry too short for its header raises an
      exception, a name that is cut off does not. */
  function ReadEntries(n: nat, data: seq<Byte>, players: map<Byte, seq<Byte>>): Option<map<Byte, seq<Byte>>> {
    if n == 0 then Some(players)
    else if |data| < 3 then None
    else
      var end := Least(Word(data[1], data[2]) + 3, |data|);
      ReadEntries(n - 1, data[end..], players[data[0] := data[3..end]])
  }

  /** The loop in which a client takes in the list. */
  method ReadInfo(info: seq<Byte>) returns (players: Option<map<Byte, seq<Byte>>>)
    ensures players == if info == [] then None else ReadEntries(info[0], info[1..], map[])
  {
    if info == [] {
      return None;
    }
    var data, found: map<Byte, seq<Byte>>, i := info[1..], map[], 0;
    while i < info[0]
      invariant 0 <= i <= info[0]
      invariant ReadEntries(info[0], info[1..], map[]) == ReadEntries(info[0] - i, data, found)
    {
      if |data| < 3 {
        return None;
      }
      var end := Least(Word(data[1], data[2]) + 3, |data|);
      found := found[data[0] := data[3..end]];
      data := data[end..];
      i := i + 1;
    }
    return Some(found);
  }

  lemma {:induction false} NamesFirst(c: Client, rest: seq<Client>)
    ensures Names([c] + rest) == Entry(c) + Names(rest)
    decreases |rest|
  {
    if rest == [] {
      assert [c] + rest == [c] && [c][..0] == [];
      assert Names([c]) == Names([]) + Entry(c);
    } else {
      var all, front, last := [c] + rest, rest[..|rest| - 1], rest[|rest| - 1];
      assert all[..|all| - 1] == [c] + front;
      NamesFirst(c, front);
      Associate(Entry(c), Names(front), Entry(last));
    }
  }

  function ByPid(clients: seq<Client>, players: map<Byte, seq<Byte>>): map<Byte, seq<Byte>> {
    if clients == [] then players else ByPid(clients[1..], players[clients[0].pid := clients[0].name])
  }

  lemma EntryRead(c: Client, n: nat, rest: seq<Byte>, players: map<Byte, seq<Byte>>)
    requires n > 0 && |c.name| < 0x1_0000
    ensures ReadEntries(n, Entry(c) + rest, players) == ReadEntries(n - 1, rest, players[c.pid := c.name])
  {
    var data, end := Entry(c) + rest, |c.name| + 3;
    assert data[..3] == Entry(c)[..3];
    assert Word(data[1], data[2]) == |c.name|;
    assert data[3..end] == c.name && data[end..] == rest;
  }

  lemma {:induction false} EntriesRead(clients: seq<Client>, players: map<Byte, seq<Byte>>)
    requires forall c :: c in clients ==> |c.name| < 0x1_0000
    ensures ReadEntries(|clients|, Names(clients), players) == Some(ByPid(clients, players))
    decreases |clients|
  {
    if clients != [] {
      var c, rest := clients[0], clients[1..];
      assert clients == [c] + rest;
      NamesFirst(c, rest);
      EntryRead(c, |clients|, Names(rest), players);
      EntriesRead(rest, players[c.pid := c.name]);
    }
  }

  lemma {:induction false} ByPidMeans(clients: seq<Client>, players: map<Byte, seq<Byte>>, pid: Byte)
    requires forall i, j :: 0 <= i < j < |clients| ==> clients[i].pid != clients[j].pid
    ensures var all := ByPid(clients, players);
            && (pid in all <==> pid in players || Taken(clients, pid))
            && (forall i :: 0 <= i < |clients| && clients[i].pid == pid ==> pid in all && all[pid] == clients[i].name)
            && (pid in players && !Taken(clients, pid) ==> all[pid] == players[pid])
    decreases |clients|
  {
    if clients != [] {
      var first, rest := clients[0], clients[1..];
      assert forall i :: 0 <= i < |rest| ==> rest[i] == clients[i + 1];
      assert Taken(clients, pid) <==> first.pid == pid || Taken(rest, pid);
      ByPidMeans(rest, players[first.pid := first.name], pid);
    }
  }

  lemma {:induction false} NameShort(clients: seq<Client>, i: nat)
    requires i < |clients|
    ensures |clients[i].name| <= Size(clients)
  {
    var last := |clients| - 1;
    if i < last {
      NameShort(clients[..last], i);
    }
  }

  /** What the server packs when a game starts, a client reads back: under each number, the name of
      the player with that number, and nobody else. */
  lemma PlayersLearned(s: State, pid: Byte)
    requires Valid(s) && Size(s.clients) + 4 < 0x1_0000
    ensures var data := MsgUnpack(InfoFrame(s.clients)).data;
            && data != [] && ReadEntries(data[0], data[1..], map[]).Some?
            && var players := ReadEntries(data[0], data[1..], map[]).value;
               && (pid in players <==> Taken(s.clients, pid))
               && forall i :: 0 <= i < |s.clients| && s.clients[i].pid == pid ==> players[pid] == s.clients[i].name
  {
    FewPlayers(s);
    var data := MsgUnpack(InfoFrame(s.clients)).data;
    assert data == [|s.clients|] + Names(s.clients);
    assert data[1..] == Names(s.clients);
    forall c | c in s.clients ensures |c.name| < 0x1_0000 {
      var i :| 0 <= i < |s.clients| && s.clients[i] == c;
      NameShort(s.clients, i);
    }
    EntriesRead(s.clients, map[]);
    ByPidMeans(s.clients, map[], pid);
  }
}
