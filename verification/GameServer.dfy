/** The Neitris server's treatment of what its clients send (the data branch of `ServeIt`): every
    command, with the players, the phase of the game, the queues of messages to send and the
    sockets still read from, and with the exceptions that end the server. */
module GameServer {
  import opened Basics
  import opened Sequences
  import opened Framing

  const SENDSTATE: Byte := 1
  const REGPLAYER: Byte := 2
  const REGPLAYERACK: Byte := 3
  const STARTREQ: Byte := 4
  const GAMEINFO: Byte := 5
  const GAMEOVER: Byte := 7
  const POWERUP: Byte := 8
  const INCRVICTS: Byte := 10
  const REGPLAYERNACK: Byte := 11

  /** "Game in progress". */
  const IN_PROGRESS: seq<Byte> := [71, 97, 109, 101, 32, 105, 110, 32, 112, 114, 111, 103, 114, 101, 115, 115]

  // ---------------------------------------------------------------- the state

  datatype Phase = Idle | Starting | Playing

  /** A registered player: its socket, number, name, and whether it is ready (or still in the game). */
  datatype Client = Client(sock: int, pid: Byte, name: seq<Byte>, ready: bool)

  type Queues = map<int, seq<seq<Byte>>>

  /** The players in the order of their entries, the messages waiting for each socket, the phase of
      the game, and the sockets that are read from. */
  datatype State = State(clients: seq<Client>, out: Queues, phase: Phase, reading: set<int>)

  /** Where a socket's player is in the list; the list's length if it has none. */
  function Find(clients: seq<Client>, sock: int): (k: nat)
    ensures k <= |clients|
    ensures k < |clients| ==> clients[k].sock == sock
    ensures forall i :: 0 <= i < k ==> clients[i].sock != sock
  {
    if clients == [] || clients[0].sock == sock then 0 else 1 + Find(clients[1..], sock)
  }

  predicate Registered(s: State, sock: int) {
    Find(s.clients, sock) < |s.clients|
  }

  /** No socket and no number twice, numbers in range, and a queue for every player. */
  predicate Valid(s: State) {
    && (forall i, j :: 0 <= i < j < |s.clients| ==>
          s.clients[i].sock != s.clients[j].sock && s.clients[i].pid != s.clients[j].pid)
    && (forall i :: 0 <= i < |s.clients| ==> s.clients[i].pid > 0 && s.clients[i].sock in s.out)
  }

  // ---------------------------------------------------------------- queueing

  datatype Audience = Everyone | AllBut(sock: int) | Only(sock: int) | Player(pid: Byte)

  predicate Hears(a: Audience, c: Client) {
    match a
    case Everyone => true
    case AllBut(sock) => c.sock != sock
    case Only(sock) => c.sock == sock
    case Player(pid) => c.pid == pid
  }

  /** A player on the list has this socket and hears the message. */
  predicate Reached(clients: seq<Client>, a: Audience, sock: int) {
    exists i :: 0 <= i < |clients| && clients[i].sock == sock && Hears(a, clients[i])
  }

  function Extended(sent: seq<seq<Byte>>, f: seq<Byte>, more: bool): seq<seq<Byte>> {
    if more then sent + [f] else sent
  }

  function Queued(out: Queues, clients: seq<Client>, a: Audience, f: seq<Byte>): Queues {
    map c | c in out :: Extended(out[c], f, Reached(clients, a, c))
  }

  // ---------------------------------------------------------------- the commands

  predicate Taken(clients: seq<Client>, pid: Byte) {
    exists i :: 0 <= i < |clients| && clients[i].pid == pid
  }

  /** The smallest player number from `pid` on that is not taken. */
  function FreePid(clients: seq<Client>, pid: Byte): (p: Option<Byte>)
    requires pid > 0
    ensures p.Some? ==> p.value >= pid && !Taken(clients, p.value)
    ensures forall q: Byte :: pid <= q && (p.Some? ==> q < p.value) ==> Taken(clients, q)
    decreases 256 - pid
  {
    if !Taken(clients, pid) then Some(pid)
    else if pid == 255 then None
    else FreePid(clients, pid + 1)
  }

  function Entered(clients: seq<Client>, c: Client): seq<Client> {
    var k := Find(clients, c.sock);
    if k < |clients| then clients[k := c] else clients + [c]
  }

  function Ack(pid: Byte): seq<Byte> {
    Header(4, REGPLAYERACK, pid, 0) + [pid]
  }

  function Nack(): seq<Byte> {
    Header(19, REGPLAYERNACK, 0, 0) + IN_PROGRESS
  }

  /** What a message does to the server; not `ok` when an exception leaves the server's loop. */
  datatype Outcome = Outcome(ok: bool, server: State)

  /** `REGPLAYER` before a game: the player gets a number, if there is one, and a new queue. */
  function Registration(s: State, from: int, name: seq<Byte>): State {
    match FreePid(s.clients, 1)
    case None => s
    case Some(pid) =>
      s.(clients := Entered(s.clients, Client(from, pid, name, false)), out := s.out[from := [Ack(pid)]])
  }

  /** `REGPLAYER` at any other time: the socket is not read from any more. Removing it from the
      list a second time raises an exception. */
  function Refusal(s: State, from: int): Outcome {
    Outcome(from in s.reading, s.(out := s.out[from := [Nack()]], reading := s.reading - {from}))
  }

  function WithReady(clients: seq<Client>, k: nat, ready: bool): seq<Client>
    requires k < |clients|
  {
    clients[k := clients[k].(ready := ready)]
  }

  predicate AllReady(clients: seq<Client>) {
    forall i :: 0 <= i < |clients| ==> clients[i].ready
  }

  predicate NoneReady(clients: seq<Client>) {
    forall i :: 0 <= i < |clients| ==> !clients[i].ready
  }

  /** A player as it is listed in a message: number, length of the name, name. */
  function Entry(c: Client): seq<Byte> {
    [c.pid, |c.name| / 256 % 256, |c.name| % 256] + c.name
  }

  function Names(clients: seq<Client>): seq<Byte> {
    if clients == [] then [] else Names(clients[..|clients| - 1]) + Entry(clients[|clients| - 1])
  }

  function GameInfo(clients: seq<Client>): Option<seq<Byte>> {
    if |clients| > 255 then None else MsgPack(GAMEINFO, [|clients|] + Names(clients), 0, 0)
  }

  /** `STARTREQ` before a game: when everybody is ready the game starts and all are told who plays. */
  function Start(s: State, from: int): Outcome {
    var k := Find(s.clients, from);
    if k == |s.clients| then Outcome(false, s)
    else
      var clients := WithReady(s.clients, k, true);
      if !AllReady(clients) then Outcome(true, s.(clients := clients))
      else match GameInfo(clients)
        case None => Outcome(false, s.(clients := clients, phase := Starting))
        case Some(f) =>
          Outcome(true, s.(clients := clients, phase := Starting, out := Queued(s.out, clients, Everyone, f)))
  }

  function OverFrame(src: Byte): seq<Byte> {
    Header(3, GAMEOVER, 0, src)
  }

  function WinFrame(pid: Byte): seq<Byte> {
    Header(3, INCRVICTS, pid, 0)
  }

  /** Nobody is left playing: everybody is told, and the last one to stop also that it has won. */
  function Over(s: State, last: int, pid: Byte): State {
    var told := Queued(s.out, s.clients, Everyone, OverFrame(0));
    s.(out := Queued(told, s.clients, Only(last), WinFrame(pid)), phase := Idle)
  }

  /** One player stops, and the others are told. */
  function Stopped(s: State, from: int, k: nat, src: Byte): State
    requires k < |s.clients|
  {
    s.(clients := WithReady(s.clients, k, false), out := Queued(s.out, s.clients, AllBut(from), OverFrame(src)))
  }

  /** `GAMEOVER` during a game. */
  function Stop(s: State, from: int, src: Byte): Outcome {
    var k := Find(s.clients, from);
    if k == |s.clients| then Outcome(false, s.(out := Queued(s.out, s.clients, AllBut(from), OverFrame(src))))
    else
      var next := Stopped(s, from, k, src);
      Outcome(true, if NoneReady(next.clients) then Over(next, from, s.clients[k].pid) else next)
  }

  /** Passing a message on; packing it again fails when it is too long. */
  function Pass(s: State, a: Audience, cmd: Byte, data: seq<Byte>, dst: Byte, src: Byte): Outcome {
    match MsgPack(cmd, data, dst, src)
    case None => Outcome(false, s)
    case Some(f) => Outcome(true, s.(out := Queued(s.out, s.clients, a, f)))
  }

  /** Every command: `name` is the payload as `REGPLAYER` takes it, `data` as the relayed commands
      take it. */
  function Effect(s: State, from: int, cmd: Byte, name: seq<Byte>, data: seq<Byte>, dst: Byte, src: Byte): Outcome {
    if cmd == REGPLAYER then
      if s.phase == Idle then Outcome(true, Registration(s, from, name)) else Refusal(s, from)
    else if cmd == STARTREQ && s.phase == Idle then Start(s, from)
    else if cmd == SENDSTATE then Pass(s, AllBut(from), cmd, data, dst, src)
    else if cmd == GAMEOVER && s.phase == Playing then Stop(s, from, src)
    else if cmd == POWERUP && s.phase == Playing then Pass(s, Player(dst), cmd, data, dst, src)
    else Outcome(true, s)
  }

  // ---------------------------------------------------------------- the input loop

  /** Python's `s[:n]`. */
  function Take(s: seq<Byte>, n: int): seq<Byte> {
    if n < -|s| then [] else if n < 0 then s[..|s| + n] else if n <= |s| then s[..n] else s
  }

  /** The payload of a complete message, and nothing if its length is negative. */
  function Payload(data: seq<Byte>, n: int): seq<Byte> {
    if 0 <= n <= |data| then data[..n] else []
  }

  /** A connection's input and the server after serving messages. */
  datatype Served = Served(ok: bool, rest: seq<Byte>, server: State)

  /** Serving the front message of a buffer. A length field below 3 gives a negative payload
      length, which Python counts from the end of the buffer. */
  function Turn(s: State, from: int, buf: seq<Byte>): Served
    requires Ready(buf, 5)
  {
    var m := MsgUnpack(buf);
    var e := Effect(s, from, m.cmd, Payload(m.data, m.length), Take(m.data, m.length), m.dst, m.src);
    Served(e.ok, buf[m.length + 5..], e.server)
  }

  function Turns(s: State, from: int, buf: seq<Byte>): Served
    decreases |buf|
  {
    if !Ready(buf, 5) then Served(true, buf, s)
    else
      var turn := Turn(s, from, buf);
      if turn.ok then Turns(turn.server, from, turn.rest) else turn
  }

  /** Serving what has arrived whenever another piece comes in. Pieces that come in after an
      exception, or on a socket that is not read from any more, stay unread. */
  function TurnsOver(s: State, from: int, buf: seq<Byte>, pieces: seq<seq<Byte>>): Served
    decreases |pieces|
  {
    if pieces == [] || from !in s.reading then Served(true, buf + Flatten(pieces), s)
    else
      var now := Turns(s, from, buf + pieces[0]);
      if now.ok then TurnsOver(now.server, from, now.rest, pieces[1..])
      else now.(rest := now.rest + Flatten(pieces[1..]))
  }

  lemma TurnsStep(s: State, from: int, buf: seq<Byte>)
    requires Ready(buf, 5)
    ensures var turn := Turn(s, from, buf);
            && |turn.rest| < |buf|
            && Turns(s, from, buf) == if turn.ok then Turns(turn.server, from, turn.rest) else turn
  {
  }

  function Pending(inbuf: map<int, seq<Byte>>, from: int): seq<Byte> {
    if from in inbuf then inbuf[from] else []
  }

  // ---------------------------------------------------------------- what every message keeps

  lemma RegistrationKeeps(s: State, from: int, name: seq<Byte>)
    requires Valid(s)
    ensures Valid(Registration(s, from, name))
  {
  }

  lemma ReadyKeeps(s: State, k: nat, ready: bool)
    requires Valid(s) && k < |s.clients|
    ensures Valid(s.(clients := WithReady(s.clients, k, ready)))
  {
  }

  lemma StartKeeps(s: State, from: int)
    requires Valid(s)
    ensures Valid(Start(s, from).server)
  {
    var k := Find(s.clients, from);
    if k < |s.clients| {
      ReadyKeeps(s, k, true);
    }
  }

  lemma StopKeeps(s: State, from: int, src: Byte)
    requires Valid(s)
    ensures Valid(Stop(s, from, src).server)
  {
    var k := Find(s.clients, from);
    if k < |s.clients| {
      ReadyKeeps(s, k, false);
    }
  }

  /** No message breaks the invariant: two players never share a number. */
  lemma EffectKeeps(s: State, from: int, cmd: Byte, name: seq<Byte>, data: seq<Byte>, dst: Byte, src: Byte)
    requires Valid(s)
    ensures Valid(Effect(s, from, cmd, name, data, dst, src).server)
  {
    if cmd == REGPLAYER {
      RegistrationKeeps(s, from, name);
    } else if cmd == STARTREQ {
      StartKeeps(s, from);
    } else if cmd == GAMEOVER {
      StopKeeps(s, from, src);
    }
  }

  // ---------------------------------------------------------------- the server

  lemma ReachedNext(clients: seq<Client>, i: nat, a: Audience, sock: int)
    requires i < |clients|
    ensures Reached(clients[..i + 1], a, sock) <==>
              Reached(clients[..i], a, sock) || (clients[i].sock == sock && Hears(a, clients[i]))
  {
    var next := clients[..i + 1];
    if Reached(clients[..i], a, sock) {
      var j :| 0 <= j < i && clients[..i][j].sock == sock && Hears(a, clients[..i][j]);
      assert next[j] == clients[..i][j];
    }
    if Reached(next, a, sock) {
      var j :| 0 <= j < |next| && next[j].sock == sock && Hears(a, next[j]);
      assert j < i ==> clients[..i][j] == next[j];
    }
    assert next[i] == clients[i];
  }

  lemma ReachedOnce(s: State, i: nat, a: Audience, sock: int)
    requires Valid(s) && i < |s.clients|
    ensures !Reached(s.clients[..i], a, s.clients[i].sock)
    ensures Reached(s.clients[..i + 1], a, sock) ==
              if sock == s.clients[i].sock then Hears(a, s.clients[i]) else Reached(s.clients[..i], a, sock)
  {
    ReachedNext(s.clients, i, a, sock);
  }

  lemma QueuedNext(s: State, i: nat, a: Audience, f: seq<Byte>)
    requires Valid(s) && i < |s.clients|
    ensures var c, q := s.clients[i], Queued(s.out, s.clients[..i], a, f);
            && c.sock in q
            && Queued(s.out, s.clients[..i + 1], a, f) == if Hears(a, c) then q[c.sock := q[c.sock] + [f]] else q
  {
    var c := s.clients[i];
    var q, r := Queued(s.out, s.clients[..i], a, f), Queued(s.out, s.clients[..i + 1], a, f);
    forall d | d in s.out
      ensures r[d] == if d == c.sock && Hears(a, c) then q[d] + [f] else q[d]
    {
      ReachedOnce(s, i, a, d);
    }
  }

  lemma NamesNext(clients: seq<Client>, i: nat)
    requires i < |clients|
    ensures Names(clients[..i + 1]) == Names(clients[..i]) + Entry(clients[i])
  {
    assert clients[..i + 1][..i] == clients[..i];
  }

  /** The part of the server that reads from its clients. */
  class Server {
    var inbuf: map<int, seq<Byte>>
    var outbuf: Queues
    var clients: seq<Client>
    var phase: Phase
    var readsocks: set<int>

    function View(): State
      reads this
    {
      State(clients, outbuf, phase, readsocks)
    }

    /** A message is put into the queues of those it is for. */
    method QueueFor(a: Audience, f: seq<Byte>)
      requires Valid(View())
      modifies this`outbuf
      ensures outbuf == Queued(old(outbuf), clients, a, f)
      ensures Valid(View())
    {
      assert outbuf == Queued(outbuf, clients[..0], a, f);
      for i := 0 to |clients|
        invariant outbuf == Queued(old(outbuf), clients[..i], a, f)
      {
        var c := clients[i];
        QueuedNext(old(View()), i, a, f);
        if Hears(a, c) {
          outbuf := outbuf[c.sock := outbuf[c.sock] + [f]];
        }
      }
      assert clients[..|clients|] == clients;
    }

    /** The smallest number no player has. */
    method FindPid() returns (pid: Option<Byte>)
      ensures pid == FreePid(clients, 1)
    {
      var reg: Byte := 1;
      while true
        invariant reg > 0
        invariant FreePid(clients, 1) == FreePid(clients, reg)
        decreases 256 - reg
      {
        var found := true;
        for i := 0 to |clients|
          invariant found ==> forall j :: 0 <= j < i ==> clients[j].pid != reg
          invariant !found ==> Taken(clients, reg)
        {
          if clients[i].pid == reg {
            found := false;
            break;
          }
        }
        if found {
          return Some(reg);
        }
        if reg == 255 {
          return None;
        }
        reg := reg + 1;
      }
    }

    method Register(from: int, name: seq<Byte>)
      requires Valid(View())
      modifies this`clients, this`outbuf
      ensures View() == Registration(old(View()), from, name) && Valid(View())
    {
      RegistrationKeeps(View(), from, name);
      var pid := FindPid();
      if pid != None {
        clients := Entered(clients, Client(from, pid.value, name, false));
        outbuf := outbuf[from := []];
        outbuf := outbuf[from := outbuf[from] + [Ack(pid.value)]];
        assert outbuf[from] == [Ack(pid.value)];
      }
    }

    method Refuse(from: int) returns (ok: bool)
      requires Valid(View())
      modifies this`outbuf, this`readsocks
      ensures Outcome(ok, View()) == Refusal(old(View()), from) && Valid(View())
    {
      outbuf := outbuf[from := []];
      outbuf := outbuf[from := outbuf[from] + [Nack()]];
      assert outbuf[from] == [Nack()];
      ok := from in readsocks;
      readsocks := readsocks - {from};
    }

    method Everybody(ready: bool) returns (yes: bool)
      ensures yes == if ready then AllReady(clients) else NoneReady(clients)
    {
      for i := 0 to |clients|
        invariant forall j :: 0 <= j < i ==> clients[j].ready == ready
      {
        if clients[i].ready != ready {
          return false;
        }
      }
      return true;
    }

    /** The message that lists the players, packed again for each of them. */
    method PackInfo() returns (f: Option<seq<Byte>>)
      requires clients != []
      ensures f == GameInfo(clients)
    {
      if |clients| > 255 {
        return None;
      }
      var data: seq<Byte> := [|clients|];
      f := None;
      for i := 0 to |clients|
        invariant data == [|clients|] + Names(clients[..i])
        invariant i > 0 ==> f == MsgPack(GAMEINFO, data, 0, 0)
      {
        NamesNext(clients, i);
        data := data + Entry(clients[i]);
        f := MsgPack(GAMEINFO, data, 0, 0);
      }
      assert clients[..|clients|] == clients;
    }

    method StartRequest(from: int) returns (ok: bool)
      requires Valid(View())
      modifies this`clients, this`outbuf, this`phase
      ensures Outcome(ok, View()) == Start(old(View()), from) && Valid(View())
    {
      var k := Find(clients, from);
      if k == |clients| {
        return false;
      }
      ReadyKeeps(View(), k, true);
      clients := WithReady(clients, k, true);
      var start := Everybody(true);
      if start {
        phase := Starting;
        var f := PackInfo();
        if f == None {
          return false;
        }
        QueueFor(Everyone, f.value);
      }
      return true;
    }

    method EndGame(last: int, pid: Byte)
      requires Valid(View())
      modifies this`outbuf, this`phase
      ensures View() == Over(old(View()), last, pid) && Valid(View())
    {
      QueueFor(Everyone, OverFrame(0));
      QueueFor(Only(last), WinFrame(pid));
      phase := Idle;
    }

    method GameOver(from: int, src: Byte) returns (ok: bool)
      requires Valid(View())
      modifies this`clients, this`outbuf, this`phase
      ensures Outcome(ok, View()) == Stop(old(View()), from, src) && Valid(View())
    {
      QueueFor(AllBut(from), OverFrame(src));
      var k := Find(clients, from);
      if k == |clients| {
        return false;
      }
      ReadyKeeps(View(), k, false);
      clients := WithReady(clients, k, false);
      var end := Everybody(false);
      if end {
        EndGame(from, clients[k].pid);
      }
      return true;
    }

    method PassOn(a: Audience, cmd: Byte, data: seq<Byte>, dst: Byte, src: Byte) returns (ok: bool)
      requires Valid(View())
      modifies this`outbuf
      ensures Outcome(ok, View()) == Pass(old(View()), a, cmd, data, dst, src) && Valid(View())
    {
      var f := MsgPack(cmd, data, dst, src);
      if f == None {
        return false;
      }
      QueueFor(a, f.value);
      return true;
    }

    method Act(from: int, m: Message) returns (ok: bool)
      requires Valid(View())
      modifies this`clients, this`outbuf, this`phase, this`readsocks
      ensures Valid(View())
      ensures Outcome(ok, View())
              == Effect(old(View()), from, m.cmd, Payload(m.data, m.length), Take(m.data, m.length), m.dst, m.src)
    {
      ok := true;
      if m.cmd == REGPLAYER {
        if phase == Idle {
          Register(from, Payload(m.data, m.length));
        } else {
          ok := Refuse(from);
        }
      } else if m.cmd == STARTREQ && phase == Idle {
        ok := StartRequest(from);
      } else if m.cmd == SENDSTATE {
        ok := PassOn(AllBut(from), m.cmd, Take(m.data, m.length), m.dst, m.src);
      } else if m.cmd == GAMEOVER && phase == Playing {
        ok := GameOver(from, m.src);
      } else if m.cmd == POWERUP && phase == Playing {
        ok := PassOn(Player(m.dst), m.cmd, Take(m.data, m.length), m.dst, m.src);
      }
    }

    /** One turn of the input loop: take the front message off the buffer and act on it. */
    method Serve(from: int) returns (ok: bool)
      requires Valid(View()) && from in inbuf && Ready(inbuf[from], 5)
      modifies this
      ensures Valid(View())
      ensures var turn := Turn(old(View()), from, old(inbuf)[from]);
              && inbuf == old(inbuf)[from := turn.rest]
              && View() == turn.server
              && ok == turn.ok
    {
      var buf := inbuf[from];
      var m := MsgUnpack(buf);
      inbuf := inbuf[from := buf[m.length + 5..]];
      ok := Act(from, m);
    }

    /** Data from a client: every complete message is taken off the buffer and acted on. The result
        is false when an exception leaves the loop. */
    method Receive(from: int, data: seq<Byte>) returns (ok: bool)
      requires Valid(View())
      modifies this
      ensures Valid(View())
      ensures var all := Turns(old(View()), from, Pending(old(inbuf), from) + data);
              && inbuf == old(inbuf)[from := all.rest]
              && View() == all.server
              && ok == all.ok
    {
      inbuf := inbuf[from := Pending(inbuf, from) + data];
      ok := true;
      ghost var goal := Turns(View(), from, inbuf[from]);
      while ok && Ready(inbuf[from], 5)
        invariant Valid(View()) && from in inbuf
        invariant inbuf == old(inbuf)[from := inbuf[from]]
        invariant goal == if ok then Turns(View(), from, inbuf[from]) else Served(false, inbuf[from], View())
        decreases ok, |inbuf[from]|
      {
        TurnsStep(View(), from, inbuf[from]);
        ok := Serve(from);
      }
    }

    /** Data from a client, piece by piece, until an exception or until the socket is not read from
        any more; `n` is how many pieces were read. */
    method ReceiveAll(from: int, pieces: seq<seq<Byte>>) returns (ok: bool, n: nat)
      requires Valid(View())
      modifies this
      ensures Valid(View()) && n <= |pieces|
      ensures TurnsOver(old(View()), from, Pending(old(inbuf), from), pieces)
              == Served(ok, Pending(inbuf, from) + Flatten(pieces[n..]), View())
      ensures forall c :: c != from ==> Pending(inbuf, c) == Pending(old(inbuf), c)
    {
      ok, n := true, 0;
      ghost var goal := TurnsOver(View(), from, Pending(inbuf, from), pieces);
      while n < |pieces| && ok && from in readsocks
        invariant 0 <= n <= |pieces| && Valid(View())
        invariant goal == if ok then TurnsOver(View(), from, Pending(inbuf, from), pieces[n..])
                          else Served(false, Pending(inbuf, from) + Flatten(pieces[n..]), View())
        invariant forall c :: c != from ==> Pending(inbuf, c) == Pending(old(inbuf), c)
      {
        assert pieces[n..][1..] == pieces[n + 1..];
        ok := Receive(from, pieces[n]);
        n := n + 1;
      }
    }
  }
}
