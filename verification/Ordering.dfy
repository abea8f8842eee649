/** The overlay with channels that keep their order also from an RP to a host: along one route,
    commands arrive in the order in which they were sent. */
module Ordering {
  import opened Basics
  import opened Sequences
  import opened Overlay
  import opened Delivery

  /** A system, with the commands sent so far in order; `air`: the copies between an RP and a host,
      in order; `got`: the commands a host has taken in along a route, in order. */
  datatype Paths = Paths(
    system: System,
    log: seq<nat>,
    air: map<(Dag, Dag), seq<nat>>,
    got: map<(Route, Dag), seq<nat>>)

  const Outset := Paths(Start, [], map[], map[])

  function Air(p: Paths, rp: Dag, host: Dag): seq<nat> {
    Lookup(p.air, (rp, host), [])
  }

  function Got(p: Paths, route: Route, host: Dag): seq<nat> {
    Lookup(p.got, (route, host), [])
  }

  /** Any step of the system but the arrival of a copy, or the arrival of the oldest copy between
      an RP and a host. */
  datatype Move = Act(action: Action) | Arrive(rp: Dag, host: Dag)

  predicate Allowed(p: Paths, m: Move) {
    match m
    case Act(a) => Possible(p.system, a) && !a.CopyArrives?
    case Arrive(rp, host) => Air(p, rp, host) != []
  }

  function ActionOf(p: Paths, m: Move): Action
    requires Allowed(p, m)
  {
    match m
    case Act(a) => a
    case Arrive(rp, host) => CopyArrives(Air(p, rp, host)[0], host)
  }

  function Launched(p: Paths, rp: Dag, id: nat): map<(Dag, Dag), seq<nat>> {
    var hosts := Table(p.system, rp);
    map k | k in p.air.Keys + (set h | h in hosts :: (rp, h)) ::
      if k.0 == rp && k.1 in hosts then Air(p, rp, k.1) + [id] else Air(p, k.0, k.1)
  }

  function TakenIn(p: Paths, route: Route, host: Dag, id: nat): map<(Route, Dag), seq<nat>> {
    p.got[(route, host) := Got(p, route, host) + [id]]
  }

  function AfterAct(p: Paths, a: Action): Paths
    requires Possible(p.system, a)
  {
    var q := p.(system := Next(p.system, a));
    match a
    case Multicast(id) => q.(log := p.log + [id])
    case RpReceives(rp) =>
      var m := Queue(p.system, rp)[0];
      if m.Relay? then q.(air := Launched(p, rp, m.id)) else q
    case HostReceives(host) =>
      var m := Mail(p.system, host)[0];
      if m.Command? then q.(got := TakenIn(p, Direct, host, m.id)) else q
    case _ => q
  }

  function AfterArrive(p: Paths, rp: Dag, host: Dag): Paths
    requires Air(p, rp, host) != []
  {
    var ids := Air(p, rp, host);
    Paths(AfterCopyArrives(p.system, ids[0], host), p.log, p.air[(rp, host) := ids[1..]],
          TakenIn(p, Via(rp), host, ids[0]))
  }

  function After(p: Paths, m: Move): Paths
    requires Allowed(p, m)
  {
    match m
    case Act(a) => AfterAct(p, a)
    case Arrive(rp, host) => AfterArrive(p, rp, host)
  }

  // ---------------------------------------------------------------- what is still to come

  /** The commands an RP will send on to `host` when it reads its queue. */
  function Coming(table: set<Dag>, queue: seq<ToRp>, host: Dag): seq<nat>
    decreases |queue|
  {
    if queue == [] then []
    else (if queue[0].Relay? && host in table then [queue[0].id] else [])
         + Coming(Apply(table, queue[0]), queue[1..], host)
  }

  function Written(mail: seq<ToHost>): seq<nat> {
    if mail == [] then [] else (if mail[0].Command? then [mail[0].id] else []) + Written(mail[1..])
  }

  lemma {:induction false} ComingAppend(table: set<Dag>, queue: seq<ToRp>, m: ToRp, host: Dag)
    ensures Coming(table, queue + [m], host)
            == Coming(table, queue, host) + if m.Relay? && host in Replay(table, queue) then [m.id] else []
    decreases |queue|
  {
    if queue == [] {
      assert (queue + [m])[1..] == [];
    } else {
      assert (queue + [m])[1..] == queue[1..] + [m];
      ComingAppend(Apply(table, queue[0]), queue[1..], m, host);
      Associate(if queue[0].Relay? && host in table then [queue[0].id] else [],
                Coming(Apply(table, queue[0]), queue[1..], host),
                if m.Relay? && host in Replay(table, queue) then [m.id] else []);
    }
  }

  lemma {:induction false} WrittenAppend(mail: seq<ToHost>, m: ToHost)
    ensures Written(mail + [m]) == Written(mail) + if m.Command? then [m.id] else []
  {
    if mail == [] {
      assert (mail + [m])[1..] == [];
    } else {
      assert (mail + [m])[1..] == mail[1..] + [m];
      WrittenAppend(mail[1..], m);
      Associate(if mail[0].Command? then [mail[0].id] else [], Written(mail[1..]), if m.Command? then [m.id] else []);
    }
  }

  /** The commands of a log that were to reach `host` along `route`. */
  function Along(s: System, log: seq<nat>, route: Route, host: Dag): seq<nat> {
    if log == [] then []
    else
      var last := log[|log| - 1];
      Along(s, log[..|log| - 1], route, host) + if RouteOf(s, last, host) == route then [last] else []
  }

  // ---------------------------------------------------------------- the invariant

  function Under(p: Paths, rp: Dag, host: Dag): seq<nat> {
    Coming(Table(p.system, rp), Queue(p.system, rp), host)
  }

  /** Taken in, and still in the mail. */
  function DirectLine(p: Paths, host: Dag): seq<nat> {
    Got(p, Direct, host) + Written(Mail(p.system, host))
  }

  /** Taken in, in the air, and still to be sent on. */
  function Line(p: Paths, rp: Dag, host: Dag): seq<nat> {
    Got(p, Via(rp), host) + Air(p, rp, host) + Under(p, rp, host)
  }

  /** That is exactly what was sent along the route, in that order. */
  ghost predicate InLine(p: Paths, host: Dag) {
    && DirectLine(p, host) == Along(p.system, p.log, Direct, host)
    && forall rp :: Line(p, rp, host) == Along(p.system, p.log, Via(rp), host)
  }

  ghost predicate Logged(p: Paths) {
    && (forall id :: id in p.log <==> id in p.system.routes)
    && (forall i, j :: 0 <= i < j < |p.log| ==> p.log[i] != p.log[j])
  }

  /** The copies in the air are the system's. */
  ghost predicate Flying(p: Paths) {
    forall id: nat, host :: (id, host) in p.system.flight <==> exists rp :: id in Air(p, rp, host)
  }

  ghost predicate Ordered(p: Paths) {
    Invariant(p.system) && Logged(p) && Flying(p) && forall host :: InLine(p, host)
  }

  lemma OutsetOrdered()
    ensures Ordered(Outset)
  {
    StartInvariant();
  }

  // ---------------------------------------------------------------- logs

  lemma {:induction false} AlongMember(s: System, log: seq<nat>, route: Route, host: Dag, id: nat)
    ensures id in Along(s, log, route, host) <==> id in log && RouteOf(s, id, host) == route
  {
    if log != [] {
      var front, last := log[..|log| - 1], log[|log| - 1];
      AlongMember(s, front, route, host, id);
      assert log == front + [last];
    }
  }

  ghost predicate Distinct(ids: seq<nat>) {
    forall i, j :: 0 <= i < j < |ids| ==> ids[i] != ids[j]
  }

  lemma {:induction false} AlongDistinct(s: System, log: seq<nat>, route: Route, host: Dag)
    requires Distinct(log)
    ensures Distinct(Along(s, log, route, host))
  {
    if log != [] {
      var front, last := log[..|log| - 1], log[|log| - 1];
      AlongDistinct(s, front, route, host);
      AlongMember(s, front, route, host, last);
      assert last !in front;
    }
  }

  /** What was sent before a command is not affected by it. */
  lemma {:induction false} AlongSame(s: System, t: System, log: seq<nat>, route: Route, host: Dag)
    requires forall id :: id in log ==> RouteOf(t, id, host) == RouteOf(s, id, host)
    ensures Along(t, log, route, host) == Along(s, log, route, host)
  {
    if log != [] {
      var front, last := log[..|log| - 1], log[|log| - 1];
      assert forall id :: id in front ==> id in log;
      AlongSame(s, t, front, route, host);
      assert last in log;
    }
  }

  // ---------------------------------------------------------------- every step keeps it

  /** Steps of the source that send nothing but table updates. */
  ghost predicate SameOrder(s: System, t: System) {
    && t.routes == s.routes && t.flight == s.flight
    && (forall host :: Written(Mail(t, host)) == Written(Mail(s, host)))
    && (forall rp, host :: Coming(Table(t, rp), Queue(t, rp), host) == Coming(Table(s, rp), Queue(s, rp), host))
  }

  lemma ToldOrder(s: System, rp: Dag, m: ToRp)
    requires !m.Relay?
    ensures SameOrder(s, Told(s, rp, m))
  {
    var t := Told(s, rp, m);
    forall r, host
      ensures Coming(Table(t, r), Queue(t, r), host) == Coming(Table(s, r), Queue(s, r), host)
    {
      ComingAppend(Table(s, rp), Queue(s, rp), m, host);
    }
  }

  lemma PostedOrder(s: System, hosts: set<Dag>, m: ToHost)
    requires !m.Command?
    ensures SameOrder(s, Posted(s, hosts, m))
  {
    var t := Posted(s, hosts, m);
    forall host
      ensures Written(Mail(t, host)) == Written(Mail(s, host))
    {
      WrittenAppend(Mail(s, host), m);
    }
  }

  lemma SourceOrder(s: System, a: Action)
    requires Possible(s, a) && SourceAction(a)
    ensures SameOrder(s, Next(s, a))
  {
    match a {
      case HostJoins(host, found) =>
        var s1 := Joining(s, host, found);
        if found.Some? {
          ToldOrder(s1, found.value, EndhostJoin(host));
          PostedOrder(Told(s1, found.value, EndhostJoin(host)), {host}, SetRp(found.value));
        }
      case HostLeaves(host) =>
        var s1 := s.(source := HostLeft(s.source, host));
        if host in s.source.hosts && s.source.hosts[host].Some? {
          ToldOrder(s1, s.source.hosts[host].value, EndhostLeft(host));
        }
      case RpJoins(rp, list) =>
        var s1 := s.(source := RpJoined(s.source, rp), everRp := s.everRp + {rp});
        ToldOrder(s1, rp, EhList(list));
        PostedOrder(Told(s1, rp, EhList(list)), AssignedTo(s1.source, rp), SetRp(rp));
      case RpLeaves(rp) =>
        if rp in s.source.rps {
          PostedOrder(s.(source := RpLeft(s.source, rp)), AssignedTo(s.source, rp), RemoveRp);
        }
    }
  }

  /** A step that moves commands along their lines only. */
  lemma LinesKept(p: Paths, q: Paths, host: Dag)
    requires InLine(p, host) && q.log == p.log && q.system.routes == p.system.routes
    requires DirectLine(q, host) == DirectLine(p, host)
    requires forall rp :: Line(q, rp, host) == Line(p, rp, host)
    ensures InLine(q, host)
  {
    AlongSame(p.system, q.system, p.log, Direct, host);
    forall rp
      ensures Line(q, rp, host) == Along(q.system, q.log, Via(rp), host)
    {
      AlongSame(p.system, q.system, p.log, Via(rp), host);
    }
  }

  lemma SourceInLine(p: Paths, a: Action, host: Dag)
    requires Possible(p.system, a) && SourceAction(a) && InLine(p, host)
    ensures InLine(AfterAct(p, a), host)
  {
    SourceOrder(p.system, a);
    LinesKept(p, AfterAct(p, a), host);
  }

  /** Reading a letter moves a command from the mail to what was taken in. */
  lemma HostReadsOn(p: Paths, host: Dag, h: Dag)
    requires Mail(p.system, host) != []
    ensures DirectLine(AfterAct(p, HostReceives(host)), h) == DirectLine(p, h)
  {
    var q, mail := AfterAct(p, HostReceives(host)), Mail(p.system, host);
    if h != host {
      assert Mail(q.system, h) == Mail(p.system, h) && Got(q, Direct, h) == Got(p, Direct, h);
    } else if mail[0].Command? {
      assert Got(q, Direct, host) == Got(p, Direct, host) + [mail[0].id];
      Associate(Got(p, Direct, host), [mail[0].id], Written(mail[1..]));
    } else {
      assert Written(mail) == Written(mail[1..]);
    }
  }

  lemma HostReadsAside(p: Paths, host: Dag, rp: Dag, h: Dag)
    requires Mail(p.system, host) != []
    ensures Line(AfterAct(p, HostReceives(host)), rp, h) == Line(p, rp, h)
  {
  }

  lemma HostReceivesInLine(p: Paths, host: Dag, h: Dag)
    requires Mail(p.system, host) != [] && InLine(p, h)
    ensures InLine(AfterAct(p, HostReceives(host)), h)
  {
    HostReadsOn(p, host, h);
    forall rp ensures Line(AfterAct(p, HostReceives(host)), rp, h) == Line(p, rp, h) {
      HostReadsAside(p, host, rp, h);
    }
    LinesKept(p, AfterAct(p, HostReceives(host)), h);
  }

  /** Reading a message moves what it holds for a host from the queue into the air. */
  lemma RpReadsOn(p: Paths, rp: Dag, r: Dag, host: Dag)
    requires Queue(p.system, rp) != []
    ensures var q := AfterAct(p, RpReceives(rp));
            Air(q, r, host) + Under(q, r, host) == Air(p, r, host) + Under(p, r, host)
  {
    var q, m := AfterAct(p, RpReceives(rp)), Queue(p.system, rp)[0];
    if r == rp && m.Relay? && host in Table(p.system, rp) {
      assert (rp, host) in q.air && Air(q, rp, host) == Air(p, rp, host) + [m.id];
      Associate(Air(p, rp, host), [m.id], Under(q, rp, host));
    } else {
      assert Air(q, r, host) == Air(p, r, host);
    }
  }

  lemma RpReadsLine(p: Paths, rp: Dag, r: Dag, host: Dag)
    requires Queue(p.system, rp) != []
    ensures Line(AfterAct(p, RpReceives(rp)), r, host) == Line(p, r, host)
  {
    var q := AfterAct(p, RpReceives(rp));
    RpReadsOn(p, rp, r, host);
    Associate(Got(p, Via(r), host), Air(q, r, host), Under(q, r, host));
    Associate(Got(p, Via(r), host), Air(p, r, host), Under(p, r, host));
  }

  lemma RpReceivesInLine(p: Paths, rp: Dag, host: Dag)
    requires Queue(p.system, rp) != [] && InLine(p, host)
    ensures InLine(AfterAct(p, RpReceives(rp)), host)
  {
    forall r ensures Line(AfterAct(p, RpReceives(rp)), r, host) == Line(p, r, host) {
      RpReadsLine(p, rp, r, host);
    }
    LinesKept(p, AfterAct(p, RpReceives(rp)), host);
  }

  lemma ArriveInLine(p: Paths, rp: Dag, host: Dag, h: Dag)
    requires Air(p, rp, host) != [] && InLine(p, h)
    ensures InLine(AfterArrive(p, rp, host), h)
  {
    var q := AfterArrive(p, rp, host);
    forall r
      ensures Line(q, r, h) == Line(p, r, h)
    {
      if r == rp && h == host {
        var id := Air(p, rp, host)[0];
        assert Air(p, rp, host) == [id] + Air(q, rp, host);
        Associate(Got(p, Via(rp), host), [id], Air(q, rp, host));
      }
    }
    LinesKept(p, q, h);
  }

  lemma MulticastWritten(s: System, id: nat, host: Dag)
    requires Invariant(s)
    ensures Written(Mail(AfterMulticast(s, id), host)) == Written(Mail(s, host))
            + if host in s.source.hosts && s.source.hosts[host] == None then [id] else []
  {
    RecipientKinds(s);
    WrittenAppend(Mail(s, host), Command(id));
  }

  lemma MulticastComing(s: System, id: nat, host: Dag, rp: Dag)
    requires Invariant(s)
    ensures var t := AfterMulticast(s, id);
            Coming(Table(t, rp), Queue(t, rp), host) == Coming(Table(s, rp), Queue(s, rp), host)
            + if host in s.source.hosts && s.source.hosts[host] == Some(rp) then [id] else []
  {
    RecipientKinds(s);
    ComingAppend(Table(s, rp), Queue(s, rp), Relay(id), host);
    if host in AssignedTo(s.source, rp) {
      assert rp in s.source.rps;
    }
  }

  lemma MulticastAlong(p: Paths, id: nat, route: Route, host: Dag)
    requires Logged(p) && id !in p.system.routes
    ensures var q := AfterAct(p, Multicast(id));
            Along(q.system, q.log, route, host)
            == Along(p.system, p.log, route, host) + if RouteOf(q.system, id, host) == route then [id] else []
  {
    var q := AfterAct(p, Multicast(id));
    assert q.log[..|q.log| - 1] == p.log;
    forall i | i in p.log ensures RouteOf(q.system, i, host) == RouteOf(p.system, i, host) {
      MulticastRoute(p.system, id, i, host);
    }
    AlongSame(p.system, q.system, p.log, route, host);
  }

  lemma MulticastInLine(p: Paths, id: nat, host: Dag)
    requires Ordered(p) && id !in p.system.routes
    ensures InLine(AfterAct(p, Multicast(id)), host)
  {
    var q := AfterAct(p, Multicast(id));
    assert InLine(p, host);
    MulticastRoute(p.system, id, id, host);
    MulticastWritten(p.system, id, host);
    MulticastAlong(p, id, Direct, host);
    Associate(Got(p, Direct, host), Written(Mail(p.system, host)),
              if RouteOf(q.system, id, host) == Direct then [id] else []);
    forall rp
      ensures Line(q, rp, host) == Along(q.system, q.log, Via(rp), host)
    {
      MulticastComing(p.system, id, host, rp);
      MulticastAlong(p, id, Via(rp), host);
      Associate(Got(p, Via(rp), host) + Air(p, rp, host), Under(p, rp, host),
                if RouteOf(q.system, id, host) == Via(rp) then [id] else []);
    }
  }

  lemma ActInLine(p: Paths, a: Action, host: Dag)
    requires Ordered(p) && Possible(p.system, a) && !a.CopyArrives?
    ensures InLine(AfterAct(p, a), host)
  {
    assert InLine(p, host);
    match a {
      case Multicast(id) => MulticastInLine(p, id, host);
      case RpReceives(rp) => RpReceivesInLine(p, rp, host);
      case HostReceives(h) => HostReceivesInLine(p, h, host);
      case _ => SourceInLine(p, a, host);
    }
  }

  lemma ActLogged(p: Paths, a: Action)
    requires Logged(p) && Possible(p.system, a) && !a.CopyArrives?
    ensures Logged(AfterAct(p, a))
  {
    if SourceAction(a) {
      SourceOrder(p.system, a);
    }
  }

  lemma RpReceivesFlying(p: Paths, rp: Dag)
    requires Flying(p) && Queue(p.system, rp) != []
    ensures Flying(AfterAct(p, RpReceives(rp)))
  {
    var q, m := AfterAct(p, RpReceives(rp)), Queue(p.system, rp)[0];
    forall id: nat, host
      ensures (id, host) in q.system.flight <==> exists r :: id in Air(q, r, host)
    {
      if m.Relay? && m.id == id && host in Table(p.system, rp) {
        assert Air(q, rp, host) == Air(p, rp, host) + [id];
        assert id in Air(q, rp, host);
      } else {
        assert forall r :: id in Air(q, r, host) <==> id in Air(p, r, host);
      }
    }
  }

  lemma ActFlying(p: Paths, a: Action)
    requires Flying(p) && Possible(p.system, a) && !a.CopyArrives?
    ensures Flying(AfterAct(p, a))
  {
    var q := AfterAct(p, a);
    if a.RpReceives? {
      RpReceivesFlying(p, a.rp);
    } else {
      if SourceAction(a) {
        SourceOrder(p.system, a);
      }
      assert q.system.flight == p.system.flight;
      assert forall r, h :: Air(q, r, h) == Air(p, r, h);
    }
  }

  lemma MiddleOnce(x: seq<nat>, y: seq<nat>, z: seq<nat>)
    requires y != [] && Distinct(x + y + z)
    ensures y[0] !in y[1..]
  {
    var all := x + y + z;
    assert all[|x|] == y[0];
    forall j | 0 <= j < |y| - 1
      ensures y[1..][j] != y[0]
    {
      assert all[|x| + 1 + j] == y[1..][j];
    }
  }

  lemma InAirRoute(p: Paths, rp: Dag, host: Dag, id: nat)
    requires InLine(p, host) && id in Air(p, rp, host)
    ensures RouteOf(p.system, id, host) == Via(rp)
  {
    AlongMember(p.system, p.log, Via(rp), host, id);
    assert id in Line(p, rp, host);
  }

  /** A command is in the air to a host at most once. */
  lemma InAirOnce(p: Paths, rp: Dag, host: Dag, r: Dag)
    requires Ordered(p) && Air(p, rp, host) != []
    ensures Air(p, rp, host)[0] !in Air(p, rp, host)[1..]
    ensures r != rp ==> Air(p, rp, host)[0] !in Air(p, r, host)
  {
    var id := Air(p, rp, host)[0];
    assert InLine(p, host);
    InAirRoute(p, rp, host, id);
    if id in Air(p, r, host) {
      InAirRoute(p, r, host, id);
    }
    AlongDistinct(p.system, p.log, Via(rp), host);
    MiddleOnce(Got(p, Via(rp), host), Air(p, rp, host), Under(p, rp, host));
  }

  /** The system has one copy for it. */
  lemma InFlightOnce(p: Paths, id: nat, host: Dag)
    requires Invariant(p.system)
    ensures p.system.flight[(id, host)] <= 1
  {
    assert Accounted(p.system, id, host);
    var route := RouteOf(p.system, id, host);
    if route.Via? {
      assert PendingAt(p.system, route.rp, id, host) >= 0;
    }
  }

  lemma ArriveFlying(p: Paths, rp: Dag, host: Dag)
    requires Ordered(p) && Air(p, rp, host) != []
    ensures Flying(AfterArrive(p, rp, host))
  {
    var q, first := AfterArrive(p, rp, host), Air(p, rp, host)[0];
    forall id: nat, h
      ensures (id, h) in q.system.flight <==> exists r :: id in Air(q, r, h)
    {
      if id == first && h == host {
        InFlightOnce(p, id, host);
        forall r ensures id !in Air(q, r, host) {
          InAirOnce(p, rp, host, r);
        }
      } else {
        forall r ensures id in Air(q, r, h) <==> id in Air(p, r, h) {
          if r == rp && h == host {
            assert Air(p, rp, host) == [first] + Air(q, rp, host);
          }
        }
      }
    }
  }

  /** Every step keeps every line in order, and is a step of the system. */
  lemma OrderedKept(p: Paths, m: Move)
    requires Ordered(p) && Allowed(p, m) && Orderly(p.system, ActionOf(p, m))
    ensures Possible(p.system, ActionOf(p, m)) && After(p, m).system == Next(p.system, ActionOf(p, m))
    ensures Ordered(After(p, m))
  {
    match m {
      case Act(a) =>
        InvariantKept(p.system, a);
        ActLogged(p, a);
        ActFlying(p, a);
        forall host ensures InLine(After(p, m), host) {
          ActInLine(p, a, host);
        }
      case Arrive(rp, host) =>
        assert Air(p, rp, host)[0] in Air(p, rp, host);
        InvariantKept(p.system, ActionOf(p, m));
        ArriveFlying(p, rp, host);
        forall h ensures InLine(After(p, m), h) {
          ArriveInLine(p, rp, host, h);
        }
    }
  }

  // ---------------------------------------------------------------- runs

  ghost predicate OrderedRun(run: seq<Paths>, moves: seq<Move>) {
    && |run| == |moves| + 1 && run[0] == Outset
    && forall i :: 0 <= i < |moves| ==>
         && Allowed(run[i], moves[i]) && Orderly(run[i].system, ActionOf(run[i], moves[i]))
         && run[i + 1] == After(run[i], moves[i])
  }

  lemma {:induction false} RunOrdered(run: seq<Paths>, moves: seq<Move>, i: nat)
    requires OrderedRun(run, moves) && i < |run|
    ensures Ordered(run[i])
  {
    if i == 0 {
      OutsetOrdered();
    } else {
      RunOrdered(run, moves, i - 1);
      OrderedKept(run[i - 1], moves[i - 1]);
    }
  }

  lemma AirSeen(p: Paths, rp: Dag, host: Dag)
    requires Flying(p) && Air(p, rp, host) != []
    ensures p.system.flight != multiset{}
  {
    assert Air(p, rp, host)[0] in Air(p, rp, host);
    assert (Air(p, rp, host)[0], host) in p.system.flight;
  }

  /** In every run, what a host has taken in along a route is what was sent along it first, in that
      order and without a gap; and all of it whenever nothing is on its way. */
  lemma InOrder(run: seq<Paths>, moves: seq<Move>, i: nat, route: Route, host: Dag)
    requires OrderedRun(run, moves) && i < |run| && route != Outside
    ensures Got(run[i], route, host) <= Along(run[i].system, run[i].log, route, host)
    ensures Quiet(run[i].system) ==> Got(run[i], route, host) == Along(run[i].system, run[i].log, route, host)
  {
    var p := run[i];
    RunOrdered(run, moves, i);
    assert InLine(p, host);
    if route.Via? {
      assert Line(p, route.rp, host) == Along(p.system, p.log, route, host);
      if Air(p, route.rp, host) != [] {
        AirSeen(p, route.rp, host);
      }
    }
  }

  lemma {:induction false} AlongBoth(s: System, x: seq<nat>, y: seq<nat>, route: Route, host: Dag)
    ensures Along(s, x + y, route, host) == Along(s, x, route, host) + Along(s, y, route, host)
    decreases |y|
  {
    if y == [] {
      assert x + y == x;
    } else {
      var front, last := y[..|y| - 1], y[|y| - 1];
      AlongBoth(s, x, front, route, host);
      assert (x + y)[..|x + y| - 1] == x + front;
      Associate(Along(s, x, route, host), Along(s, front, route, host),
                if RouteOf(s, last, host) == route then [last] else []);
    }
  }

  lemma {:induction false} AlongAll(s: System, ids: seq<nat>, route: Route, host: Dag)
    requires forall id :: id in ids ==> RouteOf(s, id, host) == route
    ensures Along(s, ids, route, host) == ids
  {
    if ids != [] {
      var front, last := ids[..|ids| - 1], ids[|ids| - 1];
      assert ids == front + [last];
      AlongAll(s, front, route, host);
    }
  }

  /** A sequence of commands that a host was a member for, with the same RP or none, reaches it
      whole, in order, and with nothing else in between along the way. */
  lemma WholeAnnouncement(run: seq<Paths>, moves: seq<Move>, i: nat, route: Route, host: Dag,
                          before: seq<nat>, ids: seq<nat>, after: seq<nat>)
    requires OrderedRun(run, moves) && i < |run| && Quiet(run[i].system) && route != Outside
    requires run[i].log == before + ids + after
    requires forall id :: id in ids ==> RouteOf(run[i].system, id, host) == route
    ensures Got(run[i], route, host) == Along(run[i].system, before, route, host) + ids
                                        + Along(run[i].system, after, route, host)
  {
    var s := run[i].system;
    InOrder(run, moves, i, route, host);
    AlongBoth(s, before + ids, after, route, host);
    AlongBoth(s, before, ids, route, host);
    AlongAll(s, ids, route, host);
  }

  /** Keeping the order never holds anything up: while a copy is on its way, some copy can arrive. */
  lemma SomeCopyArrives(run: seq<Paths>, moves: seq<Move>, i: nat)
    requires OrderedRun(run, moves) && i < |run| && run[i].system.flight != multiset{}
    ensures exists rp, host :: Allowed(run[i], Arrive(rp, host))
  {
    var p := run[i];
    RunOrdered(run, moves, i);
    var copy :| copy in p.system.flight;
    var id, host := copy.0, copy.1;
    assert (id, host) in p.system.flight;
    var rp :| id in Air(p, rp, host);
    assert Allowed(p, Arrive(rp, host));
  }

  /** These are runs of the system, to which everything proved of its runs applies. */
  lemma RunOfSystem(run: seq<Paths>, moves: seq<Move>, systems: seq<System>, actions: seq<Action>)
    requires OrderedRun(run, moves)
    requires |systems| == |run| && forall i :: 0 <= i < |run| ==> systems[i] == run[i].system
    requires |actions| == |moves| && forall i :: 0 <= i < |moves| ==> actions[i] == ActionOf(run[i], moves[i])
    ensures Run(systems, actions)
  {
    forall i | 0 <= i < |actions|
      ensures Possible(systems[i], actions[i]) && systems[i + 1] == Next(systems[i], actions[i])
    {
      RunOrdered(run, moves, i);
      OrderedKept(run[i], moves[i]);
    }
  }
}
