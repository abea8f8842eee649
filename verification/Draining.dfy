/** Messages arriving, and nothing else: whatever the order, the overlay comes to rest after a
    number of arrivals that is known beforehand. */
module Draining {
  import opened Overlay
  import opened Delivery

  predicate Arrival(a: Action) {
    a.RpReceives? || a.HostReceives? || a.CopyArrives?
  }

  /** `t` comes from `s` by arrivals. */
  ghost predicate Settles(s: System, actions: seq<Action>, t: System)
    decreases |actions|
  {
    if actions == [] then s == t
    else Arrival(actions[0]) && Possible(s, actions[0]) && Settles(Next(s, actions[0]), actions[1..], t)
  }

  lemma SettlesFirst(s: System, a: Action, rest: seq<Action>, t: System)
    requires Arrival(a) && Possible(s, a) && Settles(Next(s, a), rest, t)
    ensures Settles(s, [a] + rest, t)
  {
    assert ([a] + rest)[1..] == rest;
  }

  // ---------------------------------------------------------------- sums over maps

  ghost function Sum(m: map<Dag, nat>): nat {
    if m == map[] then 0
    else
      var k :| k in m;
      m[k] + Sum(m - {k})
  }

  lemma {:induction false} SumWithout(m: map<Dag, nat>, k: Dag)
    requires k in m
    ensures Sum(m) == m[k] + Sum(m - {k})
    decreases |m|
  {
    var j :| j in m && Sum(m) == m[j] + Sum(m - {j});
    if j != k {
      SumWithout(m - {j}, k);
      SumWithout(m - {k}, j);
      assert m - {j} - {k} == m - {k} - {j};
    }
  }

  lemma SumChanged(m: map<Dag, nat>, k: Dag, v: nat)
    requires k in m
    ensures Sum(m[k := v]) == Sum(m) - m[k] + v
  {
    SumWithout(m, k);
    SumWithout(m[k := v], k);
    assert m[k := v] - {k} == m - {k};
  }

  lemma {:induction false} SumZero(m: map<Dag, nat>)
    ensures Sum(m) == 0 <==> forall k :: k in m ==> m[k] == 0
    decreases |m|
  {
    if m != map[] {
      var j :| j in m && Sum(m) == m[j] + Sum(m - {j});
      SumZero(m - {j});
      assert forall k :: k in m ==> k == j || k in m - {j};
    }
  }

  // ---------------------------------------------------------------- how much is on its way

  /** The arrivals that come of an RP's queue: its messages, and the copies it will send. */
  function QueueWork(table: set<Dag>, queue: seq<ToRp>): nat
    decreases |queue|
  {
    if queue == [] then 0
    else 1 + (if queue[0].Relay? then |table| else 0) + QueueWork(Apply(table, queue[0]), queue[1..])
  }

  function WorkAt(s: System, rp: Dag): nat {
    QueueWork(Table(s, rp), Queue(s, rp))
  }

  function QueueWorks(s: System): map<Dag, nat> {
    map rp | rp in s.queues :: WorkAt(s, rp)
  }

  function MailWorks(s: System): map<Dag, nat> {
    map host | host in s.mail :: |Mail(s, host)|
  }

  /** How many arrivals there will be if nothing else happens. */
  ghost function Work(s: System): nat {
    Sum(QueueWorks(s)) + Sum(MailWorks(s)) + |s.flight|
  }

  lemma {:induction false} CopiesCount(id: nat, hosts: set<Dag>)
    ensures |Copies(id, hosts)| == |hosts|
    decreases hosts
  {
    var pairs := set h | h in hosts :: (id, h);
    if hosts == {} {
      assert pairs == {};
    } else {
      var h :| h in hosts;
      CopiesCount(id, hosts - {h});
      assert pairs == (set x | x in hosts - {h} :: (id, x)) + {(id, h)};
    }
  }

  lemma WorkAtNext(s: System, rp: Dag, r: Dag)
    requires Queue(s, rp) != []
    ensures WorkAt(AfterRpReceives(s, rp), r) ==
            if r == rp then QueueWork(Apply(Table(s, rp), Queue(s, rp)[0]), Queue(s, rp)[1..]) else WorkAt(s, r)
  {
    var t := AfterRpReceives(s, rp);
    if r == rp {
      assert Table(t, r) == Apply(Table(s, rp), Queue(s, rp)[0]) && Queue(t, r) == Queue(s, rp)[1..];
    } else {
      assert Table(t, r) == Table(s, r) && Queue(t, r) == Queue(s, r);
    }
  }

  lemma QueueWorksChanged(s: System, t: System, rp: Dag, rest: nat)
    requires t.queues.Keys == s.queues.Keys && rp in s.queues
    requires forall r :: WorkAt(t, r) == if r == rp then rest else WorkAt(s, r)
    ensures QueueWorks(t) == QueueWorks(s)[rp := rest]
  {
  }

  lemma QueueWorksNext(s: System, rp: Dag, rest: nat)
    requires Queue(s, rp) != [] && rest == QueueWork(Apply(Table(s, rp), Queue(s, rp)[0]), Queue(s, rp)[1..])
    ensures QueueWorks(AfterRpReceives(s, rp)) == QueueWorks(s)[rp := rest]
  {
    var t := AfterRpReceives(s, rp);
    forall r ensures WorkAt(t, r) == if r == rp then rest else WorkAt(s, r) {
      WorkAtNext(s, rp, r);
    }
    QueueWorksChanged(s, t, rp, rest);
  }

  lemma FlightNext(s: System, rp: Dag)
    requires Queue(s, rp) != []
    ensures var m, t := Queue(s, rp)[0], AfterRpReceives(s, rp);
            && t.mail == s.mail
            && t.flight == s.flight + if m.Relay? then Copies(m.id, Table(s, rp)) else multiset{}
  {
  }

  /** One message read, and `copies` put into flight. */
  lemma WorkDrops(s: System, t: System, rp: Dag, rest: nat, copies: nat)
    requires rp in s.queues && WorkAt(s, rp) == 1 + copies + rest
    requires QueueWorks(t) == QueueWorks(s)[rp := rest]
    requires t.mail == s.mail && |t.flight| == |s.flight| + copies
    ensures Work(t) == Work(s) - 1
  {
    SumChanged(QueueWorks(s), rp, rest);
    assert MailWorks(t) == MailWorks(s);
  }

  lemma RpReceivesWork(s: System, rp: Dag)
    requires Queue(s, rp) != []
    ensures Work(AfterRpReceives(s, rp)) == Work(s) - 1
  {
    var m, table := Queue(s, rp)[0], Table(s, rp);
    var rest := QueueWork(Apply(table, m), Queue(s, rp)[1..]);
    QueueWorksNext(s, rp, rest);
    FlightNext(s, rp);
    if m.Relay? {
      CopiesCount(m.id, table);
    }
    WorkDrops(s, AfterRpReceives(s, rp), rp, rest, if m.Relay? then |table| else 0);
  }

  lemma HostReceivesWork(s: System, host: Dag)
    requires Mail(s, host) != []
    ensures Work(AfterHostReceives(s, host)) == Work(s) - 1
  {
    var t := AfterHostReceives(s, host);
    assert MailWorks(t) == MailWorks(s)[host := |Mail(s, host)| - 1];
    SumChanged(MailWorks(s), host, |Mail(s, host)| - 1);
    assert QueueWorks(t) == QueueWorks(s);
  }

  /** Every arrival, whichever it is, brings the end nearer by exactly one. */
  lemma ArrivalWork(s: System, a: Action)
    requires Arrival(a) && Possible(s, a)
    ensures Work(Next(s, a)) == Work(s) - 1
  {
    match a {
      case RpReceives(rp) => RpReceivesWork(s, rp);
      case HostReceives(host) => HostReceivesWork(s, host);
      case CopyArrives(id, host) =>
        var t := Next(s, a);
        assert QueueWorks(t) == QueueWorks(s) && MailWorks(t) == MailWorks(s);
    }
  }

  lemma QuietWork(s: System)
    ensures Work(s) == 0 <==> Quiet(s)
  {
    SumZero(QueueWorks(s));
    SumZero(MailWorks(s));
    if Work(s) == 0 {
      forall rp ensures Queue(s, rp) == [] {
        if rp in s.queues {
          assert QueueWorks(s)[rp] == 0;
        }
      }
      forall host ensures Mail(s, host) == [] {
        if host in s.mail {
          assert MailWorks(s)[host] == 0;
        }
      }
    }
  }

  /** As long as something is on its way, something can arrive. */
  lemma SomethingArrives(s: System) returns (a: Action)
    requires !Quiet(s)
    ensures Arrival(a) && Possible(s, a)
  {
    if rp :| Queue(s, rp) != [] {
      a := RpReceives(rp);
    } else if host :| Mail(s, host) != [] {
      a := HostReceives(host);
    } else {
      var copy :| copy in s.flight;
      a := CopyArrives(copy.0, copy.1);
    }
  }

  /** Any order of arrivals: there are never more than the work there was, and nothing is left
      exactly when there have been that many. */
  lemma {:induction false} SettlesWork(s: System, actions: seq<Action>, t: System)
    requires Settles(s, actions, t)
    ensures Work(t) == Work(s) - |actions|
    ensures |actions| <= Work(s) && (|actions| == Work(s) <==> Quiet(t))
    decreases |actions|
  {
    QuietWork(t);
    if actions != [] {
      ArrivalWork(s, actions[0]);
      SettlesWork(Next(s, actions[0]), actions[1..], t);
    }
  }

  lemma {:induction false} Drain(s: System) returns (actions: seq<Action>, t: System)
    ensures Settles(s, actions, t) && Quiet(t)
    decreases Work(s)
  {
    QuietWork(s);
    if Quiet(s) {
      actions, t := [], s;
    } else {
      var a := SomethingArrives(s);
      ArrivalWork(s, a);
      var rest;
      rest, t := Drain(Next(s, a));
      SettlesFirst(s, a, rest, t);
      actions := [a] + rest;
    }
  }

  // ---------------------------------------------------------------- what arrivals leave alone

  predicate SameBook(s: System, t: System) {
    t.source == s.source && t.routes == s.routes && t.everRp == s.everRp
  }

  lemma RpReceivesBook(s: System, rp: Dag)
    requires Queue(s, rp) != []
    ensures SameBook(s, AfterRpReceives(s, rp))
  {
  }

  lemma HostReceivesBook(s: System, host: Dag)
    requires Mail(s, host) != []
    ensures SameBook(s, AfterHostReceives(s, host))
  {
  }

  lemma ArrivalBook(s: System, a: Action)
    requires Arrival(a) && Possible(s, a)
    ensures SameBook(s, Next(s, a))
  {
    match a {
      case RpReceives(rp) => RpReceivesBook(s, rp);
      case HostReceives(host) => HostReceivesBook(s, host);
      case CopyArrives(id, host) =>
    }
  }

  lemma {:induction false} SettlesBook(s: System, actions: seq<Action>, t: System)
    requires Settles(s, actions, t)
    ensures SameBook(s, t)
    ensures forall i :: 0 <= i < |actions| ==> Arrival(actions[i])
    decreases |actions|
  {
    if actions != [] {
      ArrivalBook(s, actions[0]);
      SettlesBook(Next(s, actions[0]), actions[1..], t);
      assert forall i :: 1 <= i < |actions| ==> actions[i] == actions[1..][i - 1];
    }
  }

  lemma ArrivalView(s: System, a: Action, host: Dag)
    requires Arrival(a) && Possible(s, a)
    ensures var t := Next(s, a);
            ReplayView(View(t, host), Mail(t, host)) == ReplayView(View(s, host), Mail(s, host))
  {
    match a {
      case RpReceives(rp) => assert Next(s, a).mail == s.mail && Next(s, a).views == s.views;
      case HostReceives(h) =>
      case CopyArrives(id, h) =>
    }
  }

  /** What a host will know in the end is settled by its mail. */
  lemma {:induction false} SettlesView(s: System, actions: seq<Action>, t: System, host: Dag)
    requires Settles(s, actions, t)
    ensures ReplayView(View(t, host), Mail(t, host)) == ReplayView(View(s, host), Mail(s, host))
    decreases |actions|
  {
    if actions != [] {
      ArrivalView(s, actions[0], host);
      SettlesView(Next(s, actions[0]), actions[1..], t, host);
    }
  }

  /** The copies of a command that one host gets or has got, when at most one RP has any for it. */
  function CopiesOf(s: System, rp: Dag, id: nat, host: Dag): nat {
    Letters(Mail(s, host), id) + PendingAt(s, rp, id, host) + Sent(s, id, host)
  }

  lemma ArrivalCopies(s: System, a: Action, rp: Dag, id: nat, host: Dag)
    requires Arrival(a) && Possible(s, a) && forall r :: r != rp ==> PendingAt(s, r, id, host) == 0
    ensures var t := Next(s, a);
            && CopiesOf(t, rp, id, host) == CopiesOf(s, rp, id, host)
            && forall r :: r != rp ==> PendingAt(t, r, id, host) == 0
  {
    match a {
      case RpReceives(r) => RpReads(s, r, id, host);
      case HostReceives(h) => HostReads(s, h, id, host);
      case CopyArrives(i, h) =>
        forall r ensures PendingAt(Next(s, a), r, id, host) == PendingAt(s, r, id, host) {
        }
    }
  }

  lemma {:induction false} SettlesCopies(s: System, actions: seq<Action>, t: System, rp: Dag, id: nat, host: Dag)
    requires Settles(s, actions, t) && forall r :: r != rp ==> PendingAt(s, r, id, host) == 0
    ensures CopiesOf(t, rp, id, host) == CopiesOf(s, rp, id, host)
    ensures Quiet(t) ==> t.arrived[(id, host)] == CopiesOf(s, rp, id, host)
    decreases |actions|
  {
    if actions != [] {
      ArrivalCopies(s, actions[0], rp, id, host);
      SettlesCopies(Next(s, actions[0]), actions[1..], t, rp, id, host);
    }
  }

  // ---------------------------------------------------------------- runs

  lemma TraceStep(run: seq<System>, actions: seq<Action>, a: Action)
    requires Trace(run, actions) && Possible(run[|actions|], a)
    ensures Trace(run + [Next(run[|actions|], a)], actions + [a])
  {
    var next := Next(run[|actions|], a);
    var longer, more := run + [next], actions + [a];
    forall i | 0 <= i < |more| ensures Possible(longer[i], more[i]) && longer[i + 1] == Next(longer[i], more[i]) {
      if i < |actions| {
        assert longer[i] == run[i] && longer[i + 1] == run[i + 1] && more[i] == actions[i];
      } else {
        assert longer[i] == run[|actions|] && longer[i + 1] == next && more[i] == a;
      }
    }
  }

  lemma {:induction false} TraceOn(run: seq<System>, actions: seq<Action>, more: seq<Action>, t: System)
    returns (longer: seq<System>)
    requires Trace(run, actions) && Settles(run[|actions|], more, t)
    ensures Trace(longer, actions + more) && longer[|actions + more|] == t && run <= longer
    decreases |more|
  {
    if more == [] {
      assert actions + more == actions;
      longer := run;
    } else {
      TraceStep(run, actions, more[0]);
      var next := Next(run[|actions|], more[0]);
      longer := TraceOn(run + [next], actions + [more[0]], more[1..], t);
      assert actions + [more[0]] + more[1..] == actions + more;
    }
  }

  lemma RunOn(run: seq<System>, actions: seq<Action>, more: seq<Action>, t: System) returns (longer: seq<System>)
    requires Run(run, actions) && Settles(run[|actions|], more, t)
    ensures Run(longer, actions + more) && longer[|actions + more|] == t && run <= longer
  {
    longer := TraceOn(run, actions, more, t);
    SettlesBook(run[|actions|], more, t);
    forall i | 0 <= i < |actions + more| ensures Orderly(longer[i], (actions + more)[i]) {
      if i < |actions| {
        assert longer[i] == run[i];
      } else {
        assert Arrival((actions + more)[i]);
      }
    }
  }

  /** Each command sent so far has been received exactly once by every host that was a member when
      it was sent, and by nobody else. */
  ghost predicate Delivered(s: System) {
    forall id: nat, host: Dag ::
      s.arrived[(id, host)] == if id in s.routes && host in s.routes[id] then 1 else 0
  }

  ghost predicate TablesRight(s: System) {
    forall rp :: rp in s.source.rps ==> Table(s, rp) == AssignedTo(s.source, rp)
  }

  lemma QuietDelivered(run: seq<System>, actions: seq<Action>)
    requires Run(run, actions) && Quiet(run[|actions|])
    ensures Delivered(run[|actions|]) && TablesRight(run[|actions|])
  {
    forall id: nat, host: Dag
      ensures run[|actions|].arrived[(id, host)]
           == if id in run[|actions|].routes && host in run[|actions|].routes[id] then 1 else 0
    {
      ExactlyOnce(run, actions, |actions|, id, host);
    }
    TablesAgree(run, actions, |actions|);
  }

  /** Whatever the order of arrivals after a run: there can be exactly as many as the work there
      is; until then another one is possible; and then every command has been received exactly
      once by everybody who was a member, and the RPs' tables agree with the source's. */
  lemma EveryScheduleDelivers(run: seq<System>, actions: seq<Action>, more: seq<Action>, t: System)
    requires Run(run, actions) && Settles(run[|actions|], more, t)
    ensures |more| <= Work(run[|actions|])
    ensures |more| < Work(run[|actions|]) ==> exists a :: Arrival(a) && Possible(t, a)
    ensures |more| == Work(run[|actions|]) ==> Quiet(t) && Delivered(t) && TablesRight(t)
    ensures t.source == run[|actions|].source && t.routes == run[|actions|].routes
  {
    SettlesWork(run[|actions|], more, t);
    SettlesBook(run[|actions|], more, t);
    if Quiet(t) {
      var longer := RunOn(run, actions, more, t);
      QuietDelivered(longer, actions + more);
    } else {
      var a := SomethingArrives(t);
    }
  }
}
