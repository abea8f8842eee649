/** The overlay as a running system: the source, the channels from it to RPs and hosts, the
    tables the RPs keep, what each host takes to be its RP, and the copies of commands on
    their way. Every interleaving of requests, commands and message arrivals is a run. */
module Delivery {
  import opened Basics
  import opened Overlay

  datatype ToRp = EhList(hosts: seq<Dag>) | EndhostJoin(host: Dag) | EndhostLeft(host: Dag) | Relay(id: nat)

  datatype ToHost = SetRp(rp: Dag) | RemoveRp | Command(id: nat)

  /** `queues`, `mail`: messages from the source, in order. `tables`: the host table of each RP.
      `views`: the RP each host knows, `None` for the source itself. `everRp`: the DAGs that have
      been RPs. `flight`: copies sent by RPs. `arrived`: copies received by hosts.
      `routes`: for each command sent so far, the source's host table at that moment. */
  datatype System = System(
    source: Source,
    queues: map<Dag, seq<ToRp>>,
    tables: map<Dag, set<Dag>>,
    everRp: set<Dag>,
    mail: map<Dag, seq<ToHost>>,
    views: map<Dag, Option<Dag>>,
    flight: multiset<(nat, Dag)>,
    arrived: multiset<(nat, Dag)>,
    routes: map<nat, map<Dag, Option<Dag>>>)

  const Start := System(Source(map[], {}), map[], map[], {}, map[], map[], multiset{}, multiset{}, map[])

  function Lookup<K, V>(m: map<K, V>, k: K, default: V): V {
    if k in m then m[k] else default
  }

  function Queue(s: System, rp: Dag): seq<ToRp> {
    Lookup(s.queues, rp, [])
  }

  function Table(s: System, rp: Dag): set<Dag> {
    Lookup(s.tables, rp, {})
  }

  function Mail(s: System, host: Dag): seq<ToHost> {
    Lookup(s.mail, host, [])
  }

  function View(s: System, host: Dag): Option<Dag> {
    Lookup(s.views, host, None)
  }

  // ---------------------------------------------------------------- messages

  /** What an RP does to its table on a message (`MulticastRP::ControlLoop`). */
  function Apply(table: set<Dag>, m: ToRp): set<Dag> {
    match m
    case EhList(hosts) => table + set h | h in hosts
    case EndhostJoin(host) => table + {host}
    case EndhostLeft(host) => table - {host}
    case Relay(_) => table
  }

  /** What a host does to its RP on a message (`MulticastEndhost::ControlLoop`). */
  function Notice(view: Option<Dag>, m: ToHost): Option<Dag> {
    match m
    case SetRp(rp) => Some(rp)
    case RemoveRp => None
    case Command(_) => view
  }

  function Copies(id: nat, hosts: set<Dag>): multiset<(nat, Dag)> {
    multiset(set h | h in hosts :: (id, h))
  }

  // ---------------------------------------------------------------- steps

  function Told(s: System, rp: Dag, m: ToRp): System {
    s.(queues := s.queues[rp := Queue(s, rp) + [m]])
  }

  function Posted(s: System, hosts: set<Dag>, m: ToHost): System {
    s.(mail := map h | h in s.mail.Keys + hosts :: if h in hosts then Mail(s, h) + [m] else Mail(s, h))
  }

  function ToldAll(s: System, rps: set<Dag>, m: ToRp): System {
    s.(queues := map r | r in s.queues.Keys + rps :: if r in rps then Queue(s, r) + [m] else Queue(s, r))
  }

  datatype Action =
    | HostJoins(host: Dag, found: Option<Dag>)
    | HostLeaves(host: Dag)
    | RpJoins(rp: Dag, list: seq<Dag>)
    | RpLeaves(rp: Dag)
    | Multicast(id: nat)
    | RpReceives(rp: Dag)
    | HostReceives(host: Dag)
    | CopyArrives(id: nat, host: Dag)

  /** What the programs themselves allow. */
  predicate Possible(s: System, a: Action) {
    match a
    case HostJoins(host, found) => IsRpFor(s.source, host, found)
    case HostLeaves(host) => true
    case RpJoins(rp, list) => (set h | h in list) == TakenOver(s.source, rp)
    case RpLeaves(rp) => true
    case Multicast(id) => id !in s.routes
    case RpReceives(rp) => Queue(s, rp) != []
    case HostReceives(host) => Mail(s, host) != []
    case CopyArrives(id, host) => (id, host) in s.flight
  }

  /** A host that joins takes the source for its RP until it is told otherwise. */
  function Joining(s: System, host: Dag, found: Option<Dag>): System {
    s.(source := HostJoined(s.source, host, found), views := s.views[host := None])
  }

  function AfterHostJoins(s: System, host: Dag, found: Option<Dag>): System {
    var s1 := Joining(s, host, found);
    if found.Some? then Posted(Told(s1, found.value, EndhostJoin(host)), {host}, SetRp(found.value)) else s1
  }

  function AfterHostLeaves(s: System, host: Dag): System {
    var s1 := s.(source := HostLeft(s.source, host));
    if host in s.source.hosts && s.source.hosts[host].Some?
    then Told(s1, s.source.hosts[host].value, EndhostLeft(host)) else s1
  }

  function AfterRpJoins(s: System, rp: Dag, list: seq<Dag>): System {
    var s1 := s.(source := RpJoined(s.source, rp), everRp := s.everRp + {rp});
    Posted(Told(s1, rp, EhList(list)), AssignedTo(s1.source, rp), SetRp(rp))
  }

  function AfterRpLeaves(s: System, rp: Dag): System {
    if rp !in s.source.rps then s
    else Posted(s.(source := RpLeft(s.source, rp)), AssignedTo(s.source, rp), RemoveRp)
  }

  function AfterMulticast(s: System, id: nat): System {
    var to := Recipients(s.source);
    ToldAll(Posted(s, to - s.everRp, Command(id)), to * s.everRp, Relay(id)).(routes := s.routes[id := s.source.hosts])
  }

  function AfterRpReceives(s: System, rp: Dag): System
    requires Queue(s, rp) != []
  {
    var m := Queue(s, rp)[0];
    var s1 := s.(queues := s.queues[rp := Queue(s, rp)[1..]], tables := s.tables[rp := Apply(Table(s, rp), m)]);
    if m.Relay? then s1.(flight := s1.flight + Copies(m.id, Table(s, rp))) else s1
  }

  function AfterHostReceives(s: System, host: Dag): System
    requires Mail(s, host) != []
  {
    var m := Mail(s, host)[0];
    var s1 := s.(mail := s.mail[host := Mail(s, host)[1..]], views := s.views[host := Notice(View(s, host), m)]);
    if m.Command? then s1.(arrived := s1.arrived + multiset{(m.id, host)}) else s1
  }

  function AfterCopyArrives(s: System, id: nat, host: Dag): System {
    s.(flight := s.flight - multiset{(id, host)}, arrived := s.arrived + multiset{(id, host)})
  }

  function Next(s: System, a: Action): System
    requires Possible(s, a)
  {
    match a
    case HostJoins(host, found) => AfterHostJoins(s, host, found)
    case HostLeaves(host) => AfterHostLeaves(s, host)
    case RpJoins(rp, list) => AfterRpJoins(s, rp, list)
    case RpLeaves(rp) => AfterRpLeaves(s, rp)
    case Multicast(id) => AfterMulticast(s, id)
    case RpReceives(rp) => AfterRpReceives(s, rp)
    case HostReceives(host) => AfterHostReceives(s, host)
    case CopyArrives(id, host) => AfterCopyArrives(s, id, host)
  }

  /** The conditions under which the overlay works: at most one RP per AD, and an RP's DAG is
      never used again and is nobody else's. */
  predicate Orderly(s: System, a: Action) {
    match a
    case HostJoins(host, found) => host !in s.everRp
    case RpJoins(rp, list) =>
      && rp !in s.everRp && rp !in s.source.hosts
      && forall r :: r in s.source.rps ==> r.ad != rp.ad
    case _ => true
  }

  // ---------------------------------------------------------------- what is still to come

  /** An RP's table once it has read its queue. */
  function Replay(table: set<Dag>, queue: seq<ToRp>): set<Dag>
    decreases |queue|
  {
    if queue == [] then table else Replay(Apply(table, queue[0]), queue[1..])
  }

  function ReplayView(view: Option<Dag>, mail: seq<ToHost>): Option<Dag>
    decreases |mail|
  {
    if mail == [] then view else ReplayView(Notice(view, mail[0]), mail[1..])
  }

  /** How many copies of command `id` an RP will send to `host` when it reads its queue. */
  function Pending(table: set<Dag>, queue: seq<ToRp>, id: nat, host: Dag): nat
    decreases |queue|
  {
    if queue == [] then 0
    else (if queue[0] == Relay(id) && host in table then 1 else 0)
         + Pending(Apply(table, queue[0]), queue[1..], id, host)
  }

  /** How many copies of command `id` are in the mail. */
  function Letters(mail: seq<ToHost>, id: nat): nat {
    if mail == [] then 0 else (if mail[0] == Command(id) then 1 else 0) + Letters(mail[1..], id)
  }

  lemma {:induction false} ReplayAppend(table: set<Dag>, queue: seq<ToRp>, m: ToRp)
    ensures Replay(table, queue + [m]) == Apply(Replay(table, queue), m)
    decreases |queue|
  {
    if queue == [] {
      assert (queue + [m])[1..] == [];
    } else {
      assert (queue + [m])[1..] == queue[1..] + [m];
      ReplayAppend(Apply(table, queue[0]), queue[1..], m);
    }
  }

  lemma {:induction false} ReplayViewAppend(view: Option<Dag>, mail: seq<ToHost>, m: ToHost)
    ensures ReplayView(view, mail + [m]) == Notice(ReplayView(view, mail), m)
    decreases |mail|
  {
    if mail == [] {
      assert (mail + [m])[1..] == [];
    } else {
      assert (mail + [m])[1..] == mail[1..] + [m];
      ReplayViewAppend(Notice(view, mail[0]), mail[1..], m);
    }
  }

  lemma {:induction false} PendingAppend(table: set<Dag>, queue: seq<ToRp>, m: ToRp, id: nat, host: Dag)
    ensures Pending(table, queue + [m], id, host)
         == Pending(table, queue, id, host) + if m == Relay(id) && host in Replay(table, queue) then 1 else 0
    decreases |queue|
  {
    if queue == [] {
      assert (queue + [m])[1..] == [];
    } else {
      assert (queue + [m])[1..] == queue[1..] + [m];
      PendingAppend(Apply(table, queue[0]), queue[1..], m, id, host);
    }
  }

  lemma {:induction false} LettersAppend(mail: seq<ToHost>, m: ToHost, id: nat)
    ensures Letters(mail + [m], id) == Letters(mail, id) + if m == Command(id) then 1 else 0
  {
    if mail == [] {
      assert (mail + [m])[1..] == [];
    } else {
      assert (mail + [m])[1..] == mail[1..] + [m];
      LettersAppend(mail[1..], m, id);
    }
  }

  // ---------------------------------------------------------------- the invariant

  predicate OneRpPerAd(s: Source) {
    && (forall r, q :: r in s.rps && q in s.rps && r.ad == q.ad ==> r == q)
    && (forall h, r :: h in s.hosts && s.hosts[h] == None && r in s.rps ==> r.ad != h.ad)
  }

  ghost predicate Fresh(s: System) {
    && s.source.rps <= s.everRp
    && s.source.hosts.Keys !! s.everRp
    && forall r :: r !in s.everRp ==> Queue(s, r) == [] && Table(s, r) == {}
  }

  /** Once its queue is read, each registered RP's table is the set of hosts assigned to it. */
  predicate Mirrored(s: System) {
    forall r :: r in s.source.rps ==> Replay(Table(s, r), Queue(s, r)) == AssignedTo(s.source, r)
  }

  /** Once its mail is read, each registered host knows the RP the source has for it. */
  predicate Informed(s: System) {
    forall h :: h in s.source.hosts ==> ReplayView(View(s, h), Mail(s, h)) == s.source.hosts[h]
  }

  /** How a command was to reach a host: not at all, from the source, or through an RP. */
  datatype Route = Outside | Direct | Via(rp: Dag)

  function RouteOf(s: System, id: nat, host: Dag): Route {
    if id !in s.routes || host !in s.routes[id] then Outside
    else match s.routes[id][host]
      case None => Direct
      case Some(rp) => Via(rp)
  }

  function Sent(s: System, id: nat, host: Dag): nat {
    s.flight[(id, host)] + s.arrived[(id, host)]
  }

  function PendingAt(s: System, rp: Dag, id: nat, host: Dag): nat {
    Pending(Table(s, rp), Queue(s, rp), id, host)
  }

  /** Conservation: of each command, each host that was a member when it was sent has exactly
      one copy, on its way along its route or received; nobody else has any. */
  ghost predicate Accounted(s: System, id: nat, host: Dag) {
    var route := RouteOf(s, id, host);
    && Letters(Mail(s, host), id) == (if route == Direct then 1 - Sent(s, id, host) else 0)
    && (forall rp :: PendingAt(s, rp, id, host) == if route == Via(rp) then 1 - Sent(s, id, host) else 0)
    && (route == Outside ==> Sent(s, id, host) == 0)
  }

  ghost predicate Conserved(s: System) {
    forall id: nat, host: Dag :: Accounted(s, id, host)
  }

  ghost predicate Invariant(s: System) {
    Sound(s.source) && OneRpPerAd(s.source) && Fresh(s) && Mirrored(s) && Conserved(s)
  }

  lemma StartInvariant()
    ensures Invariant(Start)
  {
  }

  // ---------------------------------------------------------------- every step keeps it

  /** Steps of the source that send nothing but table updates leave all copies alone. */
  ghost predicate SameCopies(s: System, t: System) {
    && t.routes == s.routes && t.flight == s.flight && t.arrived == s.arrived
    && (forall host, id :: Letters(Mail(t, host), id) == Letters(Mail(s, host), id))
    && (forall rp, id, host :: PendingAt(t, rp, id, host) == PendingAt(s, rp, id, host))
  }

  lemma ToldCopies(s: System, rp: Dag, m: ToRp)
    requires !m.Relay?
    ensures SameCopies(s, Told(s, rp, m))
  {
    var t := Told(s, rp, m);
    forall r, id, host
      ensures PendingAt(t, r, id, host) == PendingAt(s, r, id, host)
    {
      PendingAppend(Table(s, rp), Queue(s, rp), m, id, host);
    }
  }

  lemma PostedCopies(s: System, hosts: set<Dag>, m: ToHost)
    requires !m.Command?
    ensures SameCopies(s, Posted(s, hosts, m))
  {
    var t := Posted(s, hosts, m);
    forall host, id
      ensures Letters(Mail(t, host), id) == Letters(Mail(s, host), id)
    {
      LettersAppend(Mail(s, host), m, id);
    }
  }

  lemma SameCopiesConserved(s: System, t: System)
    requires Conserved(s) && SameCopies(s, t)
    ensures Conserved(t)
  {
    forall id: nat, host: Dag
      ensures Accounted(t, id, host)
    {
      assert Accounted(s, id, host);
      assert RouteOf(t, id, host) == RouteOf(s, id, host) && Sent(t, id, host) == Sent(s, id, host);
    }
  }

  predicate SourceAction(a: Action) {
    a.HostJoins? || a.HostLeaves? || a.RpJoins? || a.RpLeaves?
  }

  lemma SourceCopies(s: System, a: Action)
    requires Possible(s, a) && SourceAction(a)
    ensures SameCopies(s, Next(s, a))
  {
    match a {
      case HostJoins(host, found) =>
        var s1 := Joining(s, host, found);
        if found.Some? {
          ToldCopies(s1, found.value, EndhostJoin(host));
          PostedCopies(Told(s1, found.value, EndhostJoin(host)), {host}, SetRp(found.value));
        }
      case HostLeaves(host) =>
        var s1 := s.(source := HostLeft(s.source, host));
        if host in s.source.hosts && s.source.hosts[host].Some? {
          ToldCopies(s1, s.source.hosts[host].value, EndhostLeft(host));
        }
      case RpJoins(rp, list) =>
        var s1 := s.(source := RpJoined(s.source, rp), everRp := s.everRp + {rp});
        ToldCopies(s1, rp, EhList(list));
        PostedCopies(Told(s1, rp, EhList(list)), AssignedTo(s1.source, rp), SetRp(rp));
      case RpLeaves(rp) =>
        if rp in s.source.rps {
          PostedCopies(s.(source := RpLeft(s.source, rp)), AssignedTo(s.source, rp), RemoveRp);
        }
    }
  }

  lemma RpReads(s: System, rp: Dag, id: nat, host: Dag)
    requires Queue(s, rp) != []
    ensures var t := AfterRpReceives(s, rp);
            var one := if Queue(s, rp)[0] == Relay(id) && host in Table(s, rp) then 1 else 0;
            && Sent(t, id, host) == Sent(s, id, host) + one
            && PendingAt(s, rp, id, host) == PendingAt(t, rp, id, host) + one
            && forall r :: r != rp ==> PendingAt(t, r, id, host) == PendingAt(s, r, id, host)
  {
  }

  lemma RpReceivesConserved(s: System, rp: Dag)
    requires Conserved(s) && Queue(s, rp) != []
    ensures Conserved(AfterRpReceives(s, rp))
  {
    var t := AfterRpReceives(s, rp);
    forall id: nat, host: Dag
      ensures Accounted(t, id, host)
    {
      assert Accounted(s, id, host);
      RpReads(s, rp, id, host);
    }
  }

  lemma HostReads(s: System, host: Dag, id: nat, h: Dag)
    requires Mail(s, host) != []
    ensures var t := AfterHostReceives(s, host);
            var one := if h == host && Mail(s, host)[0] == Command(id) then 1 else 0;
            && Sent(t, id, h) == Sent(s, id, h) + one
            && Letters(Mail(s, h), id) == Letters(Mail(t, h), id) + one
            && forall r :: PendingAt(t, r, id, h) == PendingAt(s, r, id, h)
  {
  }

  lemma HostReceivesConserved(s: System, host: Dag)
    requires Conserved(s) && Mail(s, host) != []
    ensures Conserved(AfterHostReceives(s, host))
  {
    var t := AfterHostReceives(s, host);
    forall id: nat, h: Dag
      ensures Accounted(t, id, h)
    {
      assert Accounted(s, id, h);
      HostReads(s, host, id, h);
    }
  }

  lemma CopyArrivesConserved(s: System, id: nat, host: Dag)
    requires Conserved(s) && (id, host) in s.flight
    ensures Conserved(AfterCopyArrives(s, id, host))
  {
    var t := AfterCopyArrives(s, id, host);
    forall i: nat, h: Dag
      ensures Accounted(t, i, h)
    {
      assert Accounted(s, i, h);
      forall r
        ensures PendingAt(t, r, i, h) == PendingAt(s, r, i, h)
      {
      }
    }
  }

  /** The recipients that are RPs are those the hosts are assigned to; the others are hosts. */
  lemma RecipientKinds(s: System)
    requires Sound(s.source) && Fresh(s)
    ensures forall rp :: rp in Recipients(s.source) * s.everRp <==> rp in s.everRp && AssignedTo(s.source, rp) != {}
    ensures forall rp :: rp in Recipients(s.source) * s.everRp ==> rp in s.source.rps
    ensures forall h :: h in Recipients(s.source) - s.everRp <==> h in s.source.hosts && s.source.hosts[h] == None
  {
    forall rp
      ensures rp in Recipients(s.source) * s.everRp <==> rp in s.everRp && AssignedTo(s.source, rp) != {}
    {
      if rp in s.everRp && AssignedTo(s.source, rp) != {} {
        var h :| h in AssignedTo(s.source, rp);
        assert Target(s.source, h) == rp;
      }
      if rp in Recipients(s.source) * s.everRp {
        var h :| h in s.source.hosts && Target(s.source, h) == rp;
        assert h in AssignedTo(s.source, rp);
      }
    }
    forall h | h in s.source.hosts && s.source.hosts[h] == None
      ensures h in Recipients(s.source) - s.everRp
    {
      assert Target(s.source, h) == h;
    }
  }

  /** What a multicast puts into the mail, and into the queues of the RPs. */
  lemma MulticastLetters(s: System, id: nat, i: nat, host: Dag)
    requires Invariant(s)
    ensures Letters(Mail(AfterMulticast(s, id), host), i) == Letters(Mail(s, host), i)
            + if i == id && host in s.source.hosts && s.source.hosts[host] == None then 1 else 0
  {
    RecipientKinds(s);
    LettersAppend(Mail(s, host), Command(id), i);
  }

  lemma MulticastPending(s: System, id: nat, i: nat, host: Dag, rp: Dag)
    requires Invariant(s)
    ensures PendingAt(AfterMulticast(s, id), rp, i, host) == PendingAt(s, rp, i, host)
            + if i == id && host in s.source.hosts && s.source.hosts[host] == Some(rp) then 1 else 0
  {
    RecipientKinds(s);
    PendingAppend(Table(s, rp), Queue(s, rp), Relay(id), i, host);
    if host in AssignedTo(s.source, rp) {
      assert rp in s.source.rps;
    }
  }

  lemma MulticastRoute(s: System, id: nat, i: nat, host: Dag)
    requires id !in s.routes
    ensures var t := AfterMulticast(s, id);
            && Sent(t, i, host) == Sent(s, i, host)
            && (i != id ==> RouteOf(t, i, host) == RouteOf(s, i, host))
            && RouteOf(s, id, host) == Outside
            && RouteOf(t, id, host) == if host !in s.source.hosts then Outside
                                       else match s.source.hosts[host] case None => Direct case Some(rp) => Via(rp)
  {
  }

  /** One more copy for `host`, along its route, when there was none. */
  lemma OneMoreAccounted(s: System, t: System, i: nat, host: Dag, more: Route)
    requires Accounted(s, i, host) && Sent(t, i, host) == Sent(s, i, host)
    requires more != Outside ==> RouteOf(s, i, host) == Outside
    requires RouteOf(t, i, host) == if more == Outside then RouteOf(s, i, host) else more
    requires Letters(Mail(t, host), i) == Letters(Mail(s, host), i) + if more == Direct then 1 else 0
    requires forall rp :: PendingAt(t, rp, i, host) == PendingAt(s, rp, i, host) + if more == Via(rp) then 1 else 0
    ensures Accounted(t, i, host)
  {
  }

  lemma MulticastAccounted(s: System, id: nat, i: nat, host: Dag)
    requires Invariant(s) && id !in s.routes
    ensures Accounted(AfterMulticast(s, id), i, host)
  {
    var t := AfterMulticast(s, id);
    assert Accounted(s, i, host);
    MulticastRoute(s, id, i, host);
    MulticastLetters(s, id, i, host);
    var more := if i == id then RouteOf(t, id, host) else Outside;
    forall rp
      ensures PendingAt(t, rp, i, host) == PendingAt(s, rp, i, host) + if more == Via(rp) then 1 else 0
    {
      MulticastPending(s, id, i, host, rp);
    }
    OneMoreAccounted(s, t, i, host, more);
  }

  lemma MulticastConserved(s: System, id: nat)
    requires Invariant(s) && id !in s.routes
    ensures Conserved(AfterMulticast(s, id))
  {
    forall i: nat, host: Dag
      ensures Accounted(AfterMulticast(s, id), i, host)
    {
      MulticastAccounted(s, id, i, host);
    }
  }

  lemma ConservedKept(s: System, a: Action)
    requires Invariant(s) && Possible(s, a)
    ensures Conserved(Next(s, a))
  {
    match a {
      case Multicast(id) => MulticastConserved(s, id);
      case RpReceives(rp) => RpReceivesConserved(s, rp);
      case HostReceives(host) => HostReceivesConserved(s, host);
      case CopyArrives(id, host) => CopyArrivesConserved(s, id, host);
      case _ =>
        SourceCopies(s, a);
        SameCopiesConserved(s, Next(s, a));
    }
  }

  // The tables and views.

  function RequestOf(a: Action): Request
    requires SourceAction(a)
  {
    match a
    case HostJoins(host, found) => JoinHost(host, found)
    case HostLeaves(host) => LeaveHost(host)
    case RpJoins(rp, _) => JoinRp(rp)
    case RpLeaves(rp) => LeaveRp(rp)
  }

  lemma SourceNext(s: System, a: Action)
    requires Possible(s, a)
    ensures Next(s, a).source == if SourceAction(a) then Handle(s.source, RequestOf(a)) else s.source
  {
    match a {
      case HostJoins(host, found) =>
      case HostLeaves(host) =>
      case RpJoins(rp, list) =>
      case RpLeaves(rp) =>
      case Multicast(id) =>
      case RpReceives(rp) =>
      case HostReceives(host) =>
      case CopyArrives(id, host) =>
    }
  }

  lemma HandleKeepsOneRp(s: Source, q: Request)
    requires Sound(s) && OneRpPerAd(s) && Answers(s, q)
    requires q.JoinRp? ==> forall r :: r in s.rps ==> r.ad != q.rp.ad
    ensures OneRpPerAd(Handle(s, q))
  {
  }

  lemma FreshHostJoins(s: System, host: Dag, found: Option<Dag>)
    requires Fresh(s) && host !in s.everRp && IsRpFor(s.source, host, found)
    ensures Fresh(AfterHostJoins(s, host, found))
  {
  }

  lemma FreshHostLeaves(s: System, host: Dag)
    requires Sound(s.source) && Fresh(s)
    ensures Fresh(AfterHostLeaves(s, host))
  {
  }

  lemma FreshRpLeaves(s: System, rp: Dag)
    requires Fresh(s)
    ensures Fresh(AfterRpLeaves(s, rp))
  {
  }

  lemma FreshRpJoins(s: System, rp: Dag, list: seq<Dag>)
    requires Fresh(s) && rp !in s.everRp && rp !in s.source.hosts
    ensures Fresh(AfterRpJoins(s, rp, list))
  {
  }

  lemma FreshMulticast(s: System, id: nat)
    requires Sound(s.source) && Fresh(s)
    ensures Fresh(AfterMulticast(s, id))
  {
    RecipientKinds(s);
  }

  lemma FreshRpReceives(s: System, rp: Dag)
    requires Fresh(s) && Queue(s, rp) != []
    ensures Fresh(AfterRpReceives(s, rp))
  {
  }

  lemma FreshHostReceives(s: System, host: Dag)
    requires Fresh(s) && Mail(s, host) != []
    ensures Fresh(AfterHostReceives(s, host))
  {
    var t := AfterHostReceives(s, host);
    assert t.source == s.source && t.everRp == s.everRp && t.queues == s.queues && t.tables == s.tables;
  }

  lemma FreshKept(s: System, a: Action)
    requires Sound(s.source) && Fresh(s) && Possible(s, a) && Orderly(s, a)
    ensures Fresh(Next(s, a))
  {
    match a {
      case RpJoins(rp, list) => FreshRpJoins(s, rp, list);
      case Multicast(id) => FreshMulticast(s, id);
      case HostJoins(host, found) => FreshHostJoins(s, host, found);
      case HostLeaves(host) => FreshHostLeaves(s, host);
      case RpLeaves(rp) => FreshRpLeaves(s, rp);
      case RpReceives(rp) => FreshRpReceives(s, rp);
      case HostReceives(host) => FreshHostReceives(s, host);
      case CopyArrives(id, host) =>
    }
  }

  /** What a table update in the queue of one RP does to the tables once the queues are read. */
  lemma ToldReplay(s: System, rp: Dag, m: ToRp, r: Dag)
    ensures var t := Told(s, rp, m);
            Replay(Table(t, r), Queue(t, r)) ==
            if r == rp then Apply(Replay(Table(s, r), Queue(s, r)), m) else Replay(Table(s, r), Queue(s, r))
  {
    ReplayAppend(Table(s, rp), Queue(s, rp), m);
  }

  lemma PostedView(s: System, hosts: set<Dag>, m: ToHost, h: Dag)
    ensures var t := Posted(s, hosts, m);
            ReplayView(View(t, h), Mail(t, h)) ==
            if h in hosts then Notice(ReplayView(View(s, h), Mail(s, h)), m) else ReplayView(View(s, h), Mail(s, h))
  {
    ReplayViewAppend(View(s, h), Mail(s, h), m);
  }

  lemma AssignedHostJoined(s: Source, host: Dag, found: Option<Dag>, r: Dag)
    requires Sound(s) && OneRpPerAd(s) && IsRpFor(s, host, found)
    ensures AssignedTo(HostJoined(s, host, found), r)
         == if found == Some(r) then AssignedTo(s, r) + {host} else AssignedTo(s, r)
  {
  }

  lemma AssignedHostLeft(s: Source, host: Dag, r: Dag)
    ensures AssignedTo(HostLeft(s, host), r) == AssignedTo(s, r) - {host}
  {
  }

  lemma AssignedRpJoined(s: Source, rp: Dag, r: Dag)
    requires Sound(s) && rp !in s.rps
    ensures AssignedTo(RpJoined(s, rp), r) == if r == rp then TakenOver(s, rp) else AssignedTo(s, r)
  {
  }

  lemma MirroredHostJoins(s: System, host: Dag, found: Option<Dag>)
    requires Invariant(s) && IsRpFor(s.source, host, found)
    ensures Mirrored(AfterHostJoins(s, host, found))
  {
    var s1 := Joining(s, host, found);
    var t := AfterHostJoins(s, host, found);
    forall r | r in t.source.rps
      ensures Replay(Table(t, r), Queue(t, r)) == AssignedTo(t.source, r)
    {
      if found.Some? {
        ToldReplay(s1, found.value, EndhostJoin(host), r);
      }
      AssignedHostJoined(s.source, host, found, r);
    }
  }

  lemma MirroredHostLeaves(s: System, host: Dag)
    requires Invariant(s)
    ensures Mirrored(AfterHostLeaves(s, host))
  {
    var t := AfterHostLeaves(s, host);
    forall r | r in t.source.rps
      ensures Replay(Table(t, r), Queue(t, r)) == AssignedTo(t.source, r)
    {
      AssignedHostLeft(s.source, host, r);
      HostLeavesReplay(s, host, r);
    }
  }

  lemma HostLeavesReplay(s: System, host: Dag, r: Dag)
    requires Mirrored(s) && r in s.source.rps
    ensures var t := AfterHostLeaves(s, host);
            Replay(Table(t, r), Queue(t, r)) == AssignedTo(s.source, r) - {host}
  {
    if host in s.source.hosts && s.source.hosts[host].Some? {
      ToldReplay(s.(source := HostLeft(s.source, host)), s.source.hosts[host].value, EndhostLeft(host), r);
    }
    if host in AssignedTo(s.source, r) {
      assert s.source.hosts[host] == Some(r);
    }
  }

  lemma MirroredRpJoins(s: System, rp: Dag, list: seq<Dag>)
    requires Invariant(s) && rp !in s.everRp && (set h | h in list) == TakenOver(s.source, rp)
    ensures Mirrored(AfterRpJoins(s, rp, list))
  {
    var s1 := s.(source := RpJoined(s.source, rp), everRp := s.everRp + {rp});
    var t := AfterRpJoins(s, rp, list);
    forall r | r in t.source.rps
      ensures Replay(Table(t, r), Queue(t, r)) == AssignedTo(t.source, r)
    {
      ToldReplay(s1, rp, EhList(list), r);
      AssignedRpJoined(s.source, rp, r);
      assert Replay(Table(s, rp), Queue(s, rp)) == {};
    }
  }

  lemma MirroredRpLeaves(s: System, rp: Dag)
    requires Invariant(s)
    ensures Mirrored(AfterRpLeaves(s, rp))
  {
    var t := AfterRpLeaves(s, rp);
    if rp in s.source.rps {
      forall r | r in t.source.rps
        ensures Replay(Table(t, r), Queue(t, r)) == AssignedTo(t.source, r)
      {
        assert AssignedTo(t.source, r) == AssignedTo(s.source, r);
      }
    }
  }

  lemma MirroredMulticast(s: System, id: nat)
    requires Invariant(s)
    ensures Mirrored(AfterMulticast(s, id))
  {
    var t := AfterMulticast(s, id);
    forall r | r in t.source.rps
      ensures Replay(Table(t, r), Queue(t, r)) == AssignedTo(t.source, r)
    {
      MulticastReplay(s, id, r);
    }
  }

  lemma MulticastReplay(s: System, id: nat, rp: Dag)
    ensures var t := AfterMulticast(s, id);
            Replay(Table(t, rp), Queue(t, rp)) == Replay(Table(s, rp), Queue(s, rp))
  {
    ReplayAppend(Table(s, rp), Queue(s, rp), Relay(id));
  }

  lemma MirroredRpReceives(s: System, rp: Dag)
    requires Mirrored(s) && Queue(s, rp) != []
    ensures Mirrored(AfterRpReceives(s, rp))
  {
    var t := AfterRpReceives(s, rp);
    forall r
      ensures Replay(Table(t, r), Queue(t, r)) == Replay(Table(s, r), Queue(s, r))
    {
    }
  }

  lemma MirroredKept(s: System, a: Action)
    requires Invariant(s) && Possible(s, a) && Orderly(s, a)
    ensures Mirrored(Next(s, a))
  {
    match a {
      case HostJoins(host, found) => MirroredHostJoins(s, host, found);
      case HostLeaves(host) => MirroredHostLeaves(s, host);
      case RpJoins(rp, list) => MirroredRpJoins(s, rp, list);
      case RpLeaves(rp) => MirroredRpLeaves(s, rp);
      case Multicast(id) => MirroredMulticast(s, id);
      case RpReceives(rp) => MirroredRpReceives(s, rp);
      case HostReceives(host) =>
      case CopyArrives(id, host) =>
    }
  }

  /** When a host that the source does not know joins and no RP is found for it, the last message
      about RPs in its mail, if any, is not one from before that names an RP. */
  predicate Tidy(s: System, a: Action) {
    match a
    case HostJoins(host, found) =>
      host in s.source.hosts || found.Some? || ReplayView(None, Mail(s, host)) == None
    case _ => true
  }

  /** Only the last message about RPs matters. */
  lemma {:induction false} ReplayViewLast(a: Option<Dag>, b: Option<Dag>, mail: seq<ToHost>)
    ensures ReplayView(a, mail) == ReplayView(b, mail) || (ReplayView(a, mail) == a && ReplayView(b, mail) == b)
    decreases |mail|
  {
    if mail != [] {
      ReplayViewLast(Notice(a, mail[0]), Notice(b, mail[0]), mail[1..]);
    }
  }

  lemma JoinedView(s: System, host: Dag, found: Option<Dag>, h: Dag)
    ensures var t := AfterHostJoins(s, host, found);
            ReplayView(View(t, h), Mail(t, h)) ==
            if h != host then ReplayView(View(s, h), Mail(s, h))
            else if found.Some? then found else ReplayView(None, Mail(s, host))
  {
    if found.Some? {
      PostedView(Told(Joining(s, host, found), found.value, EndhostJoin(host)), {host}, SetRp(found.value), h);
    }
  }

  /** Joining keeps every host informed if and only if it is tidy. */
  lemma InformedHostJoins(s: System, host: Dag, found: Option<Dag>)
    requires Invariant(s) && Informed(s) && IsRpFor(s.source, host, found)
    ensures Informed(AfterHostJoins(s, host, found)) <==> Tidy(s, HostJoins(host, found))
  {
    var t := AfterHostJoins(s, host, found);
    forall h | h in t.source.hosts && (h != host || Tidy(s, HostJoins(host, found)))
      ensures ReplayView(View(t, h), Mail(t, h)) == t.source.hosts[h]
    {
      JoinedView(s, host, found, h);
      ReplayViewLast(View(s, h), None, Mail(s, h));
    }
    JoinedView(s, host, found, host);
  }

  lemma InformedRpJoins(s: System, rp: Dag, list: seq<Dag>)
    requires Invariant(s) && Informed(s) && rp !in s.everRp
    ensures Informed(AfterRpJoins(s, rp, list))
  {
    var s1 := Told(s.(source := RpJoined(s.source, rp), everRp := s.everRp + {rp}), rp, EhList(list));
    var t := AfterRpJoins(s, rp, list);
    forall h | h in t.source.hosts
      ensures ReplayView(View(t, h), Mail(t, h)) == t.source.hosts[h]
    {
      PostedView(s1, AssignedTo(s1.source, rp), SetRp(rp), h);
    }
  }

  lemma InformedRpLeaves(s: System, rp: Dag)
    requires Invariant(s) && Informed(s)
    ensures Informed(AfterRpLeaves(s, rp))
  {
    if rp in s.source.rps {
      var s1 := s.(source := RpLeft(s.source, rp));
      var t := AfterRpLeaves(s, rp);
      forall h | h in t.source.hosts
        ensures ReplayView(View(t, h), Mail(t, h)) == t.source.hosts[h]
      {
        PostedView(s1, AssignedTo(s.source, rp), RemoveRp, h);
      }
    }
  }

  lemma InformedMulticast(s: System, id: nat)
    requires Invariant(s) && Informed(s)
    ensures Informed(AfterMulticast(s, id))
  {
    var t := AfterMulticast(s, id);
    forall h | h in t.source.hosts
      ensures ReplayView(View(t, h), Mail(t, h)) == t.source.hosts[h]
    {
      PostedView(s, Recipients(s.source) - s.everRp, Command(id), h);
    }
  }

  lemma InformedHostLeaves(s: System, host: Dag)
    requires Informed(s)
    ensures Informed(AfterHostLeaves(s, host))
  {
    var t := AfterHostLeaves(s, host);
    forall h
      ensures ReplayView(View(t, h), Mail(t, h)) == ReplayView(View(s, h), Mail(s, h))
    {
    }
  }

  lemma InformedRpReceives(s: System, rp: Dag)
    requires Informed(s) && Queue(s, rp) != []
    ensures Informed(AfterRpReceives(s, rp))
  {
    var t := AfterRpReceives(s, rp);
    forall h
      ensures ReplayView(View(t, h), Mail(t, h)) == ReplayView(View(s, h), Mail(s, h))
    {
    }
  }

  lemma InformedHostReceives(s: System, host: Dag)
    requires Informed(s) && Mail(s, host) != []
    ensures Informed(AfterHostReceives(s, host))
  {
    var t := AfterHostReceives(s, host);
    forall h
      ensures ReplayView(View(t, h), Mail(t, h)) == ReplayView(View(s, h), Mail(s, h))
    {
    }
  }

  lemma InformedKept(s: System, a: Action)
    requires Invariant(s) && Informed(s) && Possible(s, a) && Orderly(s, a) && Tidy(s, a)
    ensures Informed(Next(s, a))
  {
    match a {
      case HostJoins(host, found) => InformedHostJoins(s, host, found);
      case HostLeaves(host) => InformedHostLeaves(s, host);
      case RpJoins(rp, list) => InformedRpJoins(s, rp, list);
      case RpLeaves(rp) => InformedRpLeaves(s, rp);
      case Multicast(id) => InformedMulticast(s, id);
      case RpReceives(rp) => InformedRpReceives(s, rp);
      case HostReceives(host) => InformedHostReceives(s, host);
      case CopyArrives(id, host) =>
    }
  }

  lemma InvariantKept(s: System, a: Action)
    requires Invariant(s) && Possible(s, a) && Orderly(s, a)
    ensures Invariant(Next(s, a))
  {
    SourceNext(s, a);
    if SourceAction(a) {
      HandleKeepsSound(s.source, RequestOf(a));
      HandleKeepsOneRp(s.source, RequestOf(a));
    }
    FreshKept(s, a);
    MirroredKept(s, a);
    ConservedKept(s, a);
  }

  // ---------------------------------------------------------------- runs

  /** `run[i + 1]` is what `actions[i]` makes of `run[i]`, from the start on. */
  ghost predicate Trace(run: seq<System>, actions: seq<Action>) {
    && |run| == |actions| + 1 && run[0] == Start
    && forall i :: 0 <= i < |actions| ==> Possible(run[i], actions[i]) && run[i + 1] == Next(run[i], actions[i])
  }

  /** A run of the system under the conditions it needs. */
  ghost predicate Run(run: seq<System>, actions: seq<Action>) {
    Trace(run, actions) && forall i :: 0 <= i < |actions| ==> Orderly(run[i], actions[i])
  }

  lemma {:induction false} RunInvariant(run: seq<System>, actions: seq<Action>, i: nat)
    requires Run(run, actions) && i < |run|
    ensures Invariant(run[i])
  {
    if i == 0 {
      StartInvariant();
    } else {
      RunInvariant(run, actions, i - 1);
      InvariantKept(run[i - 1], actions[i - 1]);
    }
  }

  /** Nothing is on its way. */
  ghost predicate Quiet(s: System) {
    && (forall rp :: Queue(s, rp) == [])
    && (forall host :: Mail(s, host) == [])
    && s.flight == multiset{}
  }

  /** In every run, whenever nothing is on its way, each registered RP's table holds exactly the
      hosts the source has assigned to it. */
  lemma TablesAgree(run: seq<System>, actions: seq<Action>, i: nat)
    requires Run(run, actions) && i < |run| && Quiet(run[i])
    ensures forall rp :: rp in run[i].source.rps ==> Table(run[i], rp) == AssignedTo(run[i].source, rp)
  {
    RunInvariant(run, actions, i);
  }

  lemma {:induction false} RunInformed(run: seq<System>, actions: seq<Action>, i: nat)
    requires Run(run, actions) && i < |run|
    requires forall j :: 0 <= j < i ==> Tidy(run[j], actions[j])
    ensures Informed(run[i])
  {
    if i > 0 {
      RunInformed(run, actions, i - 1);
      RunInvariant(run, actions, i - 1);
      InformedKept(run[i - 1], actions[i - 1]);
    }
  }

  /** In every run in which hosts join tidily, whenever nothing is on its way, each registered
      host knows the RP the source has for it. */
  lemma ViewsAgree(run: seq<System>, actions: seq<Action>, i: nat)
    requires Run(run, actions) && i < |run| && Quiet(run[i])
    requires forall j :: 0 <= j < i ==> Tidy(run[j], actions[j])
    ensures forall h :: h in run[i].source.hosts ==> View(run[i], h) == run[i].source.hosts[h]
  {
    RunInformed(run, actions, i);
  }

  /** In every run, whenever nothing is on its way: each command sent so far has been received
      exactly once by every host that was a member when it was sent, and by nobody else. */
  lemma ExactlyOnce(run: seq<System>, actions: seq<Action>, i: nat, id: nat, host: Dag)
    requires Run(run, actions) && i < |run| && Quiet(run[i])
    ensures run[i].arrived[(id, host)] == if id in run[i].routes && host in run[i].routes[id] then 1 else 0
  {
    var s := run[i];
    RunInvariant(run, actions, i);
    assert Accounted(s, id, host);
    var route := RouteOf(s, id, host);
    if route.Via? {
      assert PendingAt(s, route.rp, id, host) == 0;
    }
  }

  /** At no moment of any run has anybody received a command twice. */
  lemma AtMostOnce(run: seq<System>, actions: seq<Action>, i: nat, id: nat, host: Dag)
    requires Run(run, actions) && i < |run|
    ensures run[i].arrived[(id, host)] <= 1
  {
    var s := run[i];
    RunInvariant(run, actions, i);
    assert Accounted(s, id, host);
    var route := RouteOf(s, id, host);
    if route.Via? {
      assert PendingAt(s, route.rp, id, host) >= 0;
    }
  }
}
