/** Which deployments of rendezvous points (RPs) the overlay works with. A deployment says which
    addresses may join as RPs, and how often each. */
module Deployments {
  import opened Basics
  import opened Overlay
  import opened Delivery
  import opened Draining

  type Deployment = multiset<Dag>

  predicate JoinsAs(a: Action, rp: Dag) {
    a.RpJoins? && a.rp == rp
  }

  /** How often an RP joins. */
  function Joins(actions: seq<Action>, rp: Dag): nat {
    if actions == [] then 0
    else Joins(actions[..|actions| - 1], rp) + if JoinsAs(actions[|actions| - 1], rp) then 1 else 0
  }

  lemma JoinsMore(actions: seq<Action>, a: Action, rp: Dag)
    ensures Joins(actions + [a], rp) == Joins(actions, rp) + if JoinsAs(a, rp) then 1 else 0
  {
    assert (actions + [a])[..|actions|] == actions;
  }

  lemma {:induction false} JoinsUpTo(actions: seq<Action>, i: nat, rp: Dag)
    requires i < |actions|
    ensures Joins(actions[..i], rp) + (if JoinsAs(actions[i], rp) then 1 else 0) <= Joins(actions, rp)
    decreases |actions|
  {
    var n := |actions| - 1;
    if i == n {
    } else {
      JoinsUpTo(actions[..n], i, rp);
      assert actions[..n][..i] == actions[..i];
    }
  }

  predicate HostOutside(a: Action, d: Deployment) {
    a.HostJoins? ==> a.host !in d
  }

  /** RPs join as the deployment allows, and hosts have other addresses. */
  ghost predicate Uses(d: Deployment, actions: seq<Action>) {
    && (forall i :: 0 <= i < |actions| ==> HostOutside(actions[i], d))
    && (forall rp :: Joins(actions, rp) <= d[rp])
  }

  /** At most one RP for each AD, and none that joins twice. */
  ghost predicate Proper(d: Deployment) {
    && (forall r, q :: r in d && q in d && r.ad == q.ad ==> r == q)
    && (forall r :: r in d ==> d[r] == 1)
  }

  // ---------------------------------------------------------------- proper deployments work

  /** What is registered after the actions so far. */
  ghost predicate Booked(d: Deployment, s: System, actions: seq<Action>) {
    && s.source.rps <= s.everRp
    && (forall h :: h in s.source.hosts ==> h !in d)
    && (forall rp :: rp in s.everRp ==> Joins(actions, rp) > 0)
  }

  lemma BookedNext(d: Deployment, s: System, actions: seq<Action>, a: Action)
    requires Booked(d, s, actions) && Possible(s, a) && HostOutside(a, d)
    ensures Booked(d, Next(s, a), actions + [a])
  {
    var t := Next(s, a);
    SourceNext(s, a);
    EverNext(s, a);
    HandledBook(d, s.source, a);
    forall rp | rp in t.everRp ensures Joins(actions + [a], rp) > 0 {
      JoinsMore(actions, a, rp);
    }
  }

  lemma HandledBook(d: Deployment, s: Source, a: Action)
    requires (forall h :: h in s.hosts ==> h !in d) && HostOutside(a, d)
    ensures SourceAction(a) ==>
              var t := Handle(s, RequestOf(a));
              t.rps <= s.rps + (if a.RpJoins? then {a.rp} else {}) && forall h :: h in t.hosts ==> h !in d
  {
  }

  lemma EverNext(s: System, a: Action)
    requires Possible(s, a)
    ensures Next(s, a).everRp == s.everRp + if a.RpJoins? then {a.rp} else {}
  {
    match a {
      case RpJoins(rp, list) =>
      case HostJoins(host, found) =>
      case HostLeaves(host) =>
      case RpLeaves(rp) =>
      case Multicast(id) =>
      case _ => ArrivalBook(s, a);
    }
  }

  lemma BookedOrderly(d: Deployment, s: System, actions: seq<Action>, a: Action)
    requires Proper(d) && Booked(d, s, actions) && HostOutside(a, d)
    requires forall rp :: Joins(actions, rp) + (if JoinsAs(a, rp) then 1 else 0) <= d[rp]
    ensures Orderly(s, a)
  {
    forall rp | rp in s.everRp ensures rp in d && !JoinsAs(a, rp) {
      assert Joins(actions, rp) > 0;
    }
    if a.RpJoins? {
      assert JoinsAs(a, a.rp) && a.rp in d;
    }
  }

  lemma {:induction false} BookedAt(d: Deployment, run: seq<System>, actions: seq<Action>, i: nat)
    requires Trace(run, actions) && Uses(d, actions) && i < |run|
    ensures Booked(d, run[i], actions[..i])
  {
    if i > 0 {
      BookedAt(d, run, actions, i - 1);
      BookedNext(d, run[i - 1], actions[..i - 1], actions[i - 1]);
      assert actions[..i] == actions[..i - 1] + [actions[i - 1]];
    }
  }

  /** Every trace of a proper deployment is a run under the conditions the overlay needs. */
  lemma ProperRun(d: Deployment, run: seq<System>, actions: seq<Action>)
    requires Proper(d) && Trace(run, actions) && Uses(d, actions)
    ensures Run(run, actions)
  {
    forall i | 0 <= i < |actions| ensures Orderly(run[i], actions[i]) {
      BookedAt(d, run, actions, i);
      forall rp ensures Joins(actions[..i], rp) + (if JoinsAs(actions[i], rp) then 1 else 0) <= d[rp] {
        JoinsUpTo(actions, i, rp);
      }
      BookedOrderly(d, run[i], actions[..i], actions[i]);
    }
  }

  // ---------------------------------------------------------------- going on with a trace

  /** A trace of the deployment that has come to `s`. */
  ghost predicate Reaches(d: Deployment, run: seq<System>, actions: seq<Action>, s: System) {
    Trace(run, actions) && Uses(d, actions) && run[|actions|] == s
  }

  lemma AtStart(d: Deployment)
    ensures Reaches(d, [Start], [], Start)
  {
  }

  lemma Go(d: Deployment, run: seq<System>, actions: seq<Action>, s: System, a: Action)
    returns (longer: seq<System>, more: seq<Action>)
    requires Reaches(d, run, actions, s) && Possible(s, a) && HostOutside(a, d)
    requires a.RpJoins? ==> Joins(actions, a.rp) < d[a.rp]
    ensures Reaches(d, longer, more, Next(s, a)) && more == actions + [a]
    ensures forall rp :: Joins(more, rp) == Joins(actions, rp) + if JoinsAs(a, rp) then 1 else 0
  {
    TraceStep(run, actions, a);
    longer, more := run + [Next(s, a)], actions + [a];
    forall rp ensures Joins(more, rp) == Joins(actions, rp) + if JoinsAs(a, rp) then 1 else 0 {
      JoinsMore(actions, a, rp);
    }
  }

  /** Letting everything arrive. */
  lemma ComeToRest(d: Deployment, run: seq<System>, actions: seq<Action>, s: System)
    returns (longer: seq<System>, more: seq<Action>, arrivals: seq<Action>, t: System)
    requires Reaches(d, run, actions, s)
    ensures Reaches(d, longer, more, t) && Settles(s, arrivals, t) && Quiet(t)
  {
    arrivals, t := Drain(s);
    SettlesBook(s, arrivals, t);
    longer := TraceOn(run, actions, arrivals, t);
    more := actions + arrivals;
    forall rp ensures Joins(more, rp) <= d[rp] {
      JoinsOfArrivals(actions, arrivals, rp);
    }
  }

  lemma {:induction false} JoinsOfArrivals(actions: seq<Action>, arrivals: seq<Action>, rp: Dag)
    requires forall i :: 0 <= i < |arrivals| ==> Arrival(arrivals[i])
    ensures Joins(actions + arrivals, rp) == Joins(actions, rp)
    decreases |arrivals|
  {
    var n := |arrivals| - 1;
    if arrivals == [] {
      assert actions + arrivals == actions;
    } else {
      JoinsOfArrivals(actions, arrivals[..n], rp);
      assert actions + arrivals == actions + arrivals[..n] + [arrivals[n]];
      JoinsMore(actions + arrivals[..n], arrivals[n], rp);
    }
  }

  // ---------------------------------------------------------------- before and after the first command

  /** No command has been sent. */
  ghost predicate Unused(s: System) {
    s.routes == map[] && SameCopies(Start, s)
  }

  lemma UnusedNext(s: System, a: Action)
    requires Unused(s) && Possible(s, a) && SourceAction(a)
    ensures Unused(Next(s, a))
  {
    SourceCopies(s, a);
  }

  /** The copies of the first command: one in the mail of each host the source sends to itself, and
      one due from each RP it sends to, for each host that will be in its table. */
  lemma FirstCommand(s: System, host: Dag)
    requires Unused(s)
    ensures var t := AfterMulticast(s, 0);
            && Letters(Mail(t, host), 0) == (if host in Recipients(s.source) - s.everRp then 1 else 0)
            && Sent(t, 0, host) == 0
            && forall rp :: PendingAt(t, rp, 0, host) ==
                 if rp in Recipients(s.source) * s.everRp && host in Replay(Table(s, rp), Queue(s, rp)) then 1 else 0
  {
    var t := AfterMulticast(s, 0);
    assert Letters(Mail(s, host), 0) == Letters(Mail(Start, host), 0) == 0;
    LettersAppend(Mail(s, host), Command(0), 0);
    forall rp
      ensures PendingAt(t, rp, 0, host) ==
              if rp in Recipients(s.source) * s.everRp && host in Replay(Table(s, rp), Queue(s, rp)) then 1 else 0
    {
      assert PendingAt(s, rp, 0, host) == PendingAt(Start, rp, 0, host) == 0;
      PendingAppend(Table(s, rp), Queue(s, rp), Relay(0), 0, host);
    }
  }

  /** The first command is sent and everything arrives: what a host has received when only one RP
      is among the recipients. */
  lemma CommandArrives(d: Deployment, run: seq<System>, actions: seq<Action>, s: System, rp: Dag, host: Dag)
    returns (longer: seq<System>, more: seq<Action>, t: System)
    requires Reaches(d, run, actions, s) && Unused(s) && Recipients(s.source) * s.everRp == {rp}
    ensures Reaches(d, longer, more, t) && Quiet(t) && t.routes == map[0 := s.source.hosts]
    ensures t.arrived[(0, host)] == (if host in Recipients(s.source) - s.everRp then 1 else 0)
                                    + (if host in Replay(Table(s, rp), Queue(s, rp)) then 1 else 0)
  {
    var sent := AfterMulticast(s, 0);
    longer, more := Go(d, run, actions, s, Multicast(0));
    FirstCommand(s, host);
    var arrivals;
    longer, more, arrivals, t := ComeToRest(d, longer, more, sent);
    SettlesBook(sent, arrivals, t);
    SettlesCopies(sent, arrivals, t, rp, 0, host);
  }

  // ---------------------------------------------------------------- two RPs in one AD

  lemma TwoRpsJoin(d: Deployment, r: Dag, q: Dag) returns (run: seq<System>, actions: seq<Action>, s: System)
    requires r != q && r in d && q in d
    ensures Reaches(d, run, actions, s) && Unused(s)
    ensures s.source == Source(map[], {r, q}) && s.everRp == {r, q}
    ensures Queue(s, r) == [EhList([])] && Table(s, r) == {}
  {
    AtStart(d);
    var s1 := AfterRpJoins(Start, r, []);
    run, actions := Go(d, [Start], [], Start, RpJoins(r, []));
    UnusedNext(Start, RpJoins(r, []));
    assert s1.source == Source(map[], {r});
    s := AfterRpJoins(s1, q, []);
    run, actions := Go(d, run, actions, s1, RpJoins(q, []));
    UnusedNext(s1, RpJoins(q, []));
    assert s.source == Source(map[], {r, q});
  }

  lemma ThenHostJoins(d: Deployment, r: Dag, q: Dag, h: Dag)
    returns (run: seq<System>, actions: seq<Action>, s: System)
    requires r != q && r in d && q in d && h !in d && r.ad == q.ad == h.ad
    ensures Reaches(d, run, actions, s) && Unused(s)
    ensures s.source == Source(map[h := Some(r)], {r, q}) && s.everRp == {r, q}
    ensures Queue(s, r) == [EhList([]), EndhostJoin(h)] && Table(s, r) == {}
  {
    var s2;
    run, actions, s2 := TwoRpsJoin(d, r, q);
    s := AfterHostJoins(s2, h, Some(r));
    run, actions := Go(d, run, actions, s2, HostJoins(h, Some(r)));
    UnusedNext(s2, HostJoins(h, Some(r)));
  }

  /** Two RPs join in one AD, a host joins and gets the first, the second leaves: the host has lost
      its RP at the source, and its RP does not know. */
  lemma OneOfTwoLeaves(d: Deployment, r: Dag, q: Dag, h: Dag)
    returns (run: seq<System>, actions: seq<Action>, s: System)
    requires r != q && r in d && q in d && h !in d && r.ad == q.ad == h.ad
    ensures Reaches(d, run, actions, s) && Unused(s)
    ensures s.source == Source(map[h := None], {r}) && s.everRp == {r, q}
    ensures Queue(s, r) == [EhList([]), EndhostJoin(h)] && Table(s, r) == {}
  {
    var s3;
    run, actions, s3 := ThenHostJoins(d, r, q, h);
    s := AfterRpLeaves(s3, q);
    run, actions := Go(d, run, actions, s3, RpLeaves(q));
    UnusedNext(s3, RpLeaves(q));
  }

  lemma AnotherHostJoins(d: Deployment, r: Dag, q: Dag, h: Dag, k: Dag)
    returns (run: seq<System>, actions: seq<Action>, s: System)
    requires r != q && r in d && q in d && h !in d && k !in d && h != k && r.ad == q.ad == h.ad == k.ad
    ensures Reaches(d, run, actions, s) && Unused(s)
    ensures s.source == Source(map[h := None, k := Some(r)], {r}) && s.everRp == {r, q}
    ensures Queue(s, r) == [EhList([]), EndhostJoin(h), EndhostJoin(k)] && Table(s, r) == {}
  {
    var s4;
    run, actions, s4 := OneOfTwoLeaves(d, r, q, h);
    s := AfterHostJoins(s4, k, Some(r));
    run, actions := Go(d, run, actions, s4, HostJoins(k, Some(r)));
    UnusedNext(s4, HostJoins(k, Some(r)));
  }

  /** Two RPs in one AD break exactly-once delivery, because `RPLeave` clears by AD. Each RP joins
      once; when everything has arrived, a member has received a command twice, from the source
      and from the RP that still has it in its table. */
  lemma TwoRpsInOneAd(d: Deployment, r: Dag, q: Dag, h: Dag, k: Dag)
    returns (run: seq<System>, actions: seq<Action>, s: System)
    requires r != q && r in d && q in d && h !in d && k !in d && h != k && r.ad == q.ad == h.ad == k.ad
    ensures Reaches(d, run, actions, s) && Quiet(s)
    ensures 0 in s.routes && h in s.routes[0] && s.arrived[(0, h)] == 2
  {
    var s5;
    run, actions, s5 := AnotherHostJoins(d, r, q, h, k);
    assert Target(s5.source, h) == h && Target(s5.source, k) == r;
    assert Recipients(s5.source) == {h, r};
    run, actions, s := CommandArrives(d, run, actions, s5, r, h);
    ReadThree(h, k);
  }

  lemma ReadThree(h: Dag, k: Dag)
    ensures h in Replay({}, [EhList([]), EndhostJoin(h), EndhostJoin(k)])
  {
    var q1 := [EhList([]), EndhostJoin(h), EndhostJoin(k)];
    var q2, q3 := [EndhostJoin(h), EndhostJoin(k)], [EndhostJoin(k)];
    assert q1[1..] == q2 && q2[1..] == q3 && q3[1..] == [];
    assert Apply({}, EhList([])) == {} && Apply({}, EndhostJoin(h)) == {h} && Apply({h}, EndhostJoin(k)) == {h, k};
    assert Replay({h}, q3) == Replay({h, k}, []) && Replay({}, q2) == Replay({h}, q3);
  }

  // ---------------------------------------------------------------- an RP address used again

  lemma HostJoinsItsRp(d: Deployment, r: Dag, h: Dag)
    returns (run: seq<System>, actions: seq<Action>, s: System)
    requires r in d && h !in d && r.ad == h.ad
    ensures Reaches(d, run, actions, s) && Unused(s) && Joins(actions, r) == 1
    ensures s.source == Source(map[h := Some(r)], {r}) && s.everRp == {r}
    ensures Queue(s, r) == [EhList([]), EndhostJoin(h)] && Table(s, r) == {} && Mail(s, h) == [SetRp(r)]
  {
    AtStart(d);
    var s1 := AfterRpJoins(Start, r, []);
    run, actions := Go(d, [Start], [], Start, RpJoins(r, []));
    UnusedNext(Start, RpJoins(r, []));
    assert s1.source == Source(map[], {r}) && Mail(s1, h) == [];
    s := AfterHostJoins(s1, h, Some(r));
    run, actions := Go(d, run, actions, s1, HostJoins(h, Some(r)));
    UnusedNext(s1, HostJoins(h, Some(r)));
  }

  lemma RpLeavesBook(s: System, rp: Dag)
    requires rp in s.source.rps
    ensures var t := AfterRpLeaves(s, rp);
            && t.source == RpLeft(s.source, rp) && t.everRp == s.everRp
            && t.queues == s.queues && t.tables == s.tables
  {
  }

  lemma OnlyRpLeaves(r: Dag, h: Dag)
    ensures RpLeft(Source(map[h := Some(r)], {r}), r) == Source(map[h := None], {})
  {
    assert RpLeft(Source(map[h := Some(r)], {r}), r).hosts == map[h := None];
  }

  lemma ItsRpLeaves(d: Deployment, r: Dag, h: Dag)
    returns (run: seq<System>, actions: seq<Action>, s: System)
    requires r in d && h !in d && r.ad == h.ad
    ensures Reaches(d, run, actions, s) && Unused(s) && Joins(actions, r) == 1
    ensures s.source == Source(map[h := None], {}) && s.everRp == {r}
    ensures Queue(s, r) == [EhList([]), EndhostJoin(h)] && Table(s, r) == {}
  {
    var s2;
    run, actions, s2 := HostJoinsItsRp(d, r, h);
    s := AfterRpLeaves(s2, r);
    run, actions := Go(d, run, actions, s2, RpLeaves(r));
    UnusedNext(s2, RpLeaves(r));
    RpLeavesBook(s2, r);
    OnlyRpLeaves(r, h);
  }

  /** The RP leaves and then its host: nobody tells the RP about the host. */
  lemma RpAndHostLeave(d: Deployment, r: Dag, h: Dag)
    returns (run: seq<System>, actions: seq<Action>, s: System)
    requires r in d && h !in d && r.ad == h.ad
    ensures Reaches(d, run, actions, s) && Unused(s) && Joins(actions, r) == 1
    ensures s.source == Source(map[], {}) && s.everRp == {r}
    ensures Queue(s, r) == [EhList([]), EndhostJoin(h)] && Table(s, r) == {}
  {
    var s3;
    run, actions, s3 := ItsRpLeaves(d, r, h);
    s := AfterHostLeaves(s3, h);
    run, actions := Go(d, run, actions, s3, HostLeaves(h));
    UnusedNext(s3, HostLeaves(h));
  }

  lemma RpIsBack(d: Deployment, r: Dag, h: Dag)
    returns (run: seq<System>, actions: seq<Action>, s: System)
    requires d[r] >= 2 && h !in d && r.ad == h.ad
    ensures Reaches(d, run, actions, s) && Unused(s)
    ensures s.source == Source(map[], {r}) && s.everRp == {r}
    ensures Queue(s, r) == [EhList([]), EndhostJoin(h), EhList([])] && Table(s, r) == {}
  {
    var s4;
    run, actions, s4 := RpAndHostLeave(d, r, h);
    s := AfterRpJoins(s4, r, []);
    run, actions := Go(d, run, actions, s4, RpJoins(r, []));
    UnusedNext(s4, RpJoins(r, []));
  }

  lemma RpJoinsAgain(d: Deployment, r: Dag, h: Dag, k: Dag)
    returns (run: seq<System>, actions: seq<Action>, s: System)
    requires d[r] >= 2 && h !in d && k !in d && h != k && r.ad == h.ad == k.ad
    ensures Reaches(d, run, actions, s) && Unused(s)
    ensures s.source == Source(map[k := Some(r)], {r}) && s.everRp == {r}
    ensures Queue(s, r) == [EhList([]), EndhostJoin(h), EhList([]), EndhostJoin(k)] && Table(s, r) == {}
  {
    var s5;
    run, actions, s5 := RpIsBack(d, r, h);
    s := AfterHostJoins(s5, k, Some(r));
    run, actions := Go(d, run, actions, s5, HostJoins(k, Some(r)));
    UnusedNext(s5, HostJoins(k, Some(r)));
  }

  /** An RP that comes back under its old address breaks delivery too, because it does not clear
      its table when it leaves: a host that has left receives a command. */
  lemma RpUsedAgain(d: Deployment, r: Dag, h: Dag, k: Dag)
    returns (run: seq<System>, actions: seq<Action>, s: System)
    requires d[r] >= 2 && h !in d && k !in d && h != k && r.ad == h.ad == k.ad
    ensures Reaches(d, run, actions, s) && Quiet(s)
    ensures 0 in s.routes && h !in s.routes[0] && s.arrived[(0, h)] == 1
  {
    var s6;
    run, actions, s6 := RpJoinsAgain(d, r, h, k);
    assert Target(s6.source, k) == r;
    assert Recipients(s6.source) == {r};
    run, actions, s := CommandArrives(d, run, actions, s6, r, h);
    ReadFour(h, k);
  }

  lemma ReadFour(h: Dag, k: Dag)
    ensures h in Replay({}, [EhList([]), EndhostJoin(h), EhList([]), EndhostJoin(k)])
  {
    var q1 := [EhList([]), EndhostJoin(h), EhList([]), EndhostJoin(k)];
    var q3, q4 := [EhList([]), EndhostJoin(k)], [EndhostJoin(k)];
    assert q1[1..] == [EndhostJoin(h)] + q3 && q1[1..][1..] == q3 && q3[1..] == q4 && q4[1..] == [];
    assert Apply({}, EhList([])) == {} && Apply({}, EndhostJoin(h)) == {h};
    assert Apply({h}, EhList([])) == {h} && Apply({h}, EndhostJoin(k)) == {h, k};
    assert Replay({h}, q3) == Replay({h}, q4) == Replay({h, k}, []);
  }

  // ---------------------------------------------------------------- exactly the proper deployments work

  /** There is always another address in an AD. */
  lemma {:induction false} LongestName(avoid: set<Dag>) returns (n: nat)
    ensures forall d :: d in avoid ==> |d.hid| <= n
    decreases avoid
  {
    if avoid == {} {
      n := 0;
    } else {
      var d :| d in avoid;
      n := LongestName(avoid - {d});
      n := if |d.hid| > n then |d.hid| else n;
      assert forall x :: x in avoid ==> x == d || x in avoid - {d};
    }
  }

  lemma NewAddress(ad: string, avoid: set<Dag>) returns (h: Dag)
    ensures h.ad == ad && h !in avoid
  {
    var n := LongestName(avoid);
    h := Dag(ad, seq(n + 1, _ => 'x'), "");
  }

  ghost predicate Works(d: Deployment) {
    forall run, actions :: Trace(run, actions) && Uses(d, actions) && Quiet(run[|actions|]) ==>
      Delivered(run[|actions|])
  }

  lemma ImproperFails(d: Deployment)
    requires !Proper(d)
    ensures !Works(d)
  {
    var avoid := set x | x in d;
    var run, actions, s;
    if r, q :| r in d && q in d && r.ad == q.ad && r != q {
      var h := NewAddress(r.ad, avoid);
      var k := NewAddress(r.ad, avoid + {h});
      run, actions, s := TwoRpsInOneAd(d, r, q, h, k);
      assert s.arrived[(0, h)] == 2;
    } else {
      var r :| r in d && d[r] != 1;
      var h := NewAddress(r.ad, avoid);
      var k := NewAddress(r.ad, avoid + {h});
      run, actions, s := RpUsedAgain(d, r, h, k);
      assert s.arrived[(0, h)] == 1;
    }
    assert !Delivered(s);
  }

  /** The overlay delivers every command exactly once, in every trace of a deployment that has come
      to rest, if and only if no two RPs of the deployment share an AD and none may join twice. */
  lemma WorksExactly(d: Deployment)
    ensures Works(d) <==> Proper(d)
  {
    if Proper(d) {
      forall run, actions | Trace(run, actions) && Uses(d, actions) && Quiet(run[|actions|])
        ensures Delivered(run[|actions|])
      {
        ProperRun(d, run, actions);
        QuietDelivered(run, actions);
      }
    } else {
      ImproperFails(d);
    }
  }

  // ---------------------------------------------------------------- why hosts have to join tidily

  lemma HostLeavesUnread(d: Deployment, r: Dag, h: Dag)
    returns (run: seq<System>, actions: seq<Action>, s: System)
    requires r in d && h !in d && r.ad == h.ad
    ensures Reaches(d, run, actions, s) && s.source == Source(map[], {r}) && Mail(s, h) == [SetRp(r)]
  {
    var s2;
    run, actions, s2 := HostJoinsItsRp(d, r, h);
    s := AfterHostLeaves(s2, h);
    run, actions := Go(d, run, actions, s2, HostLeaves(h));
  }

  lemma ThenRpLeaves(d: Deployment, r: Dag, h: Dag)
    returns (run: seq<System>, actions: seq<Action>, s: System)
    requires r in d && h !in d && r.ad == h.ad
    ensures Reaches(d, run, actions, s) && s.source == Source(map[], {}) && Mail(s, h) == [SetRp(r)]
  {
    var s3;
    run, actions, s3 := HostLeavesUnread(d, r, h);
    s := AfterRpLeaves(s3, r);
    run, actions := Go(d, run, actions, s3, RpLeaves(r));
    assert AssignedTo(s3.source, r) == {};
  }

  lemma HostJoinsAgain(d: Deployment, r: Dag, h: Dag)
    returns (run: seq<System>, actions: seq<Action>, s: System)
    requires r in d && h !in d && r.ad == h.ad
    ensures Reaches(d, run, actions, s) && s.source == Source(map[h := None], {})
    ensures Mail(s, h) == [SetRp(r)] && View(s, h) == None
  {
    var s4;
    run, actions, s4 := ThenRpLeaves(d, r, h);
    s := AfterHostJoins(s4, h, None);
    run, actions := Go(d, run, actions, s4, HostJoins(h, None));
  }

  /** A host joins, leaves before it has read about its RP, the RP leaves, and the host joins again:
      when everything has arrived it takes for its RP one that is gone, though the deployment is
      proper. */
  lemma StaleRp(r: Dag, h: Dag) returns (run: seq<System>, actions: seq<Action>, s: System)
    requires r != h && r.ad == h.ad
    ensures Run(run, actions) && run[|actions|] == s && Quiet(s)
    ensures s.source == Source(map[h := None], {}) && View(s, h) == Some(r)
  {
    var d := multiset{r};
    var s5, arrivals;
    run, actions, s5 := HostJoinsAgain(d, r, h);
    run, actions, arrivals, s := ComeToRest(d, run, actions, s5);
    SettlesBook(s5, arrivals, s);
    SettlesView(s5, arrivals, s, h);
    assert [SetRp(r)][1..] == [];
    ProperRun(d, run, actions);
  }
}
