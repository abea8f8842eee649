/** The handlers of `MulticastSource` and `MulticastRP`, updating their tables in place, against
    the table functions of `Overlay` and the message functions of `Delivery`.
    The maps of the source are walked in an arbitrary order. */
module MulticastSource {
  import opened Basics
  import opened Overlay
  import opened Delivery

  /** A message handed to the network. */
  datatype Envelope = RpMail(rp: Dag, toRp: ToRp) | HostMail(host: Dag, toHost: ToHost)

  function Elements(vec: seq<Dag>): set<Dag> {
    set d | d in vec
  }

  /** `vec` lists each element of `s` exactly once. */
  predicate Lists(vec: seq<Dag>, s: set<Dag>) {
    && Elements(vec) == s
    && forall i, j :: 0 <= i < j < |vec| ==> vec[i] != vec[j]
  }

  lemma ListsPush(vec: seq<Dag>, s: set<Dag>, d: Dag)
    requires Lists(vec, s) && d !in s
    ensures Lists(vec + [d], s + {d})
  {
  }

  function ToEach(vec: seq<Dag>, m: ToHost): seq<Envelope> {
    seq(|vec|, i requires 0 <= i < |vec| => HostMail(vec[i], m))
  }

  /** The check for duplicates in the list builders: push `g` unless it is there. */
  method PushNew(vec: seq<Dag>, g: Dag, ghost s: set<Dag>) returns (out: seq<Dag>)
    requires Lists(vec, s)
    ensures Lists(out, s + {g})
  {
    var dup := false;
    for i := 0 to |vec|
      invariant dup <==> g in vec[..i]
    {
      if g == vec[i] {
        dup := true;
      }
    }
    assert vec[..|vec|] == vec;
    out := if dup then vec else vec + [g];
  }

  class MulticastSource {
    var hosts: map<Dag, Option<Dag>>
    var rps: set<Dag>
    var sent: seq<Envelope>

    ghost function State(): Source
      reads this
    {
      Source(hosts, rps)
    }

    constructor ()
      ensures State() == Source(map[], {}) && sent == []
    {
      hosts, rps, sent := map[], {}, [];
    }

    /** For every state, the list names each host's RP, or the host, exactly once. */
    method BuildControlRecvList() returns (vec: seq<Dag>)
      ensures Lists(vec, Recipients(State()))
    {
      vec := [];
      var left := hosts.Keys;
      ghost var seen: set<Dag> := {};
      while left != {}
        invariant left <= hosts.Keys
        invariant seen == set h | h in hosts.Keys - left :: Target(State(), h)
        invariant Lists(vec, seen)
        decreases left
      {
        var h :| h in left;
        var g := if hosts[h] == None then h else hosts[h].value;
        vec := PushNew(vec, g, seen);
        seen := seen + {g};
        left := left - {h};
        assert g == Target(State(), h);
      }
    }

    method BuildEndHostListForRP(rp: Dag) returns (vec: seq<Dag>)
      ensures Lists(vec, AssignedTo(State(), rp))
    {
      vec := [];
      var left := hosts.Keys;
      ghost var seen: set<Dag> := {};
      while left != {}
        invariant left <= hosts.Keys
        invariant seen == set h | h in hosts.Keys - left && hosts[h] == Some(rp)
        invariant Lists(vec, seen)
        decreases left
      {
        var h :| h in left;
        if hosts[h] != None && hosts[h].value == rp {
          vec := PushNew(vec, h, seen);
          seen := seen + {h};
        }
        left := left - {h};
      }
    }

    /** `EndhostJoin`. `found` is the RP the search over the RP table came up with. */
    method EndhostJoin(dags: Dag) returns (found: Option<Dag>)
      modifies this
      ensures IsRpFor(old(State()), dags, found)
      ensures State() == HostJoined(old(State()), dags, found)
      ensures sent == old(sent) + if found.None? then []
                else [RpMail(found.value, Delivery.EndhostJoin(dags)), HostMail(dags, SetRp(found.value))]
    {
      found := None;
      var left := rps;
      while left != {} && found == None
        invariant left <= rps
        invariant found == None ==> forall r :: r in rps - left ==> r.ad != dags.ad
        invariant found.Some? ==> found.value in rps && found.value.ad == dags.ad
        invariant State() == old(State()) && sent == old(sent)
        decreases left
      {
        var r :| r in left;
        if r.ad == dags.ad {
          found := Some(r);
        }
        left := left - {r};
      }
      if found != None {
        sent := sent + [RpMail(found.value, Delivery.EndhostJoin(dags))];
        sent := sent + [HostMail(dags, SetRp(found.value))];
      }
      if dags !in hosts {
        hosts := hosts[dags := found];
      }
    }

    method EndhostLeave(dags: Dag)
      modifies this
      ensures State() == HostLeft(old(State()), dags)
      ensures sent == old(sent) + if dags in old(hosts) && old(hosts)[dags].Some?
                then [RpMail(old(hosts)[dags].value, EndhostLeft(dags))] else []
    {
      if dags !in hosts {
        assert hosts - {dags} == hosts;
        return;
      }
      if hosts[dags] != None {
        sent := sent + [RpMail(hosts[dags].value, EndhostLeft(dags))];
      }
      hosts := hosts - {dags};
    }

    /** `RPJoin`. `list` is what the new RP is told, `told` the hosts that are told about it. */
    method RPJoin(dags: Dag) returns (list: seq<Dag>, told: seq<Dag>)
      modifies this
      ensures State() == RpJoined(old(State()), dags)
      ensures Lists(list, TakenOver(old(State()), dags)) && Lists(told, AssignedTo(State(), dags))
      ensures sent == old(sent) + [RpMail(dags, EhList(list))] + ToEach(told, SetRp(dags))
    {
      rps := rps + {dags};
      list := [];
      var left := hosts.Keys;
      ghost var taken := TakenOver(old(State()), dags);
      while left != {}
        invariant left <= hosts.Keys == old(hosts).Keys
        invariant rps == old(rps) + {dags} && sent == old(sent)
        invariant forall h :: h in hosts ==>
          hosts[h] == if h in taken && h !in left then Some(dags) else old(hosts)[h]
        invariant Lists(list, taken - left)
        decreases left
      {
        var h :| h in left;
        if hosts[h] == None {
          if h.ad == dags.ad {
            hosts := hosts[h := Some(dags)];
            ListsPush(list, taken - left, h);
            list := list + [h];
          }
        }
        assert taken - (left - {h}) == if h in taken then taken - left + {h} else taken - left;
        left := left - {h};
      }
      assert hosts == RpJoined(old(State()), dags).hosts;
      sent := sent + [RpMail(dags, EhList(list))];
      told := BuildEndHostListForRP(dags);
      sent := sent + ToEach(told, SetRp(dags));
    }

    /** `RPLeave`. `told` are the hosts that are told that they have no RP any more. */
    method RPLeave(dags: Dag) returns (told: seq<Dag>)
      modifies this
      ensures State() == RpLeft(old(State()), dags)
      ensures Lists(told, if dags in old(rps) then AssignedTo(old(State()), dags) else {})
      ensures sent == old(sent) + ToEach(told, RemoveRp)
    {
      told := [];
      if dags !in rps {
        return;
      }
      told := BuildEndHostListForRP(dags);
      var left := hosts.Keys;
      while left != {}
        invariant left <= hosts.Keys == old(hosts).Keys
        invariant rps == old(rps) && sent == old(sent)
        invariant forall h :: h in hosts ==>
          hosts[h] == if h !in left && old(hosts)[h].Some? && old(hosts)[h].value.ad == dags.ad then None
                      else old(hosts)[h]
        decreases left
      {
        var h :| h in left;
        if hosts[h] != None {
          if dags.ad == hosts[h].value.ad {
            hosts := hosts[h := None];
          }
        }
        left := left - {h};
      }
      assert hosts == RpLeft(old(State()), dags).hosts;
      rps := rps - {dags};
      sent := sent + ToEach(told, RemoveRp);
    }
  }

  /** The host table of an RP and the copies it has sent. */
  class MulticastRP {
    var hosts: set<Dag>
    var sent: seq<(nat, Dag)>

    constructor ()
      ensures hosts == {} && sent == []
    {
      hosts, sent := {}, [];
    }

    method BuildEndhostControlRecvList() returns (vec: seq<Dag>)
      ensures Lists(vec, hosts)
    {
      vec := [];
      var left := hosts;
      while left != {}
        invariant left <= hosts
        invariant Lists(vec, hosts - left)
        decreases left
      {
        var h :| h in left;
        ghost var seen := hosts - left;
        vec := PushNew(vec, h, seen);
        left := left - {h};
        assert hosts - left == seen + {h};
      }
    }

    /** One message in the control loop: the table changes as `Apply` says, and a relayed
        command goes to each host in the table once. */
    method Receive(m: ToRp)
      modifies this
      ensures hosts == Apply(old(hosts), m)
      ensures multiset(sent) == multiset(old(sent)) + if m.Relay? then Copies(m.id, old(hosts)) else multiset{}
    {
      match m {
        case EhList(list) =>
          for i := 0 to |list|
            invariant sent == old(sent)
            invariant hosts == old(hosts) + Elements(list[..i])
          {
            hosts := hosts + {list[i]};
            assert list[..i + 1] == list[..i] + [list[i]];
          }
          assert list[..|list|] == list;
        case EndhostJoin(host) => hosts := hosts + {host};
        case EndhostLeft(host) => hosts := hosts - {host};
        case Relay(id) =>
          var vec := BuildEndhostControlRecvList();
          for i := 0 to |vec|
            invariant hosts == old(hosts)
            invariant multiset(sent) == multiset(old(sent)) + Copies(id, Elements(vec[..i]))
          {
            sent := sent + [(id, vec[i])];
            OneCopy(id, vec, i);
          }
          assert vec[..|vec|] == vec;
      }
    }
  }

  lemma OneCopy(id: nat, vec: seq<Dag>, i: nat)
    requires i < |vec| && forall j :: 0 <= j < i ==> vec[j] != vec[i]
    ensures Copies(id, Elements(vec[..i + 1])) == Copies(id, Elements(vec[..i])) + multiset{(id, vec[i])}
  {
    var before, after := Elements(vec[..i]), Elements(vec[..i + 1]);
    assert vec[..i + 1] == vec[..i] + [vec[i]];
    assert after == before + {vec[i]} && vec[i] !in before;
    var x, y := set h | h in before :: (id, h), set h | h in after :: (id, h);
    assert y == x + {(id, vec[i])} && (id, vec[i]) !in x;
  }

  // ---------------------------------------------------------------- handlers and steps

  /** What the network does with a message: put it at the end of its channel. */
  function Dispatched(s: System, e: Envelope): System {
    match e
    case RpMail(rp, m) => Told(s, rp, m)
    case HostMail(host, m) => Posted(s, {host}, m)
  }

  function DispatchedAll(s: System, es: seq<Envelope>): System {
    if es == [] then s else Dispatched(DispatchedAll(s, es[..|es| - 1]), es[|es| - 1])
  }

  lemma DispatchMore(s: System, es: seq<Envelope>, e: Envelope)
    ensures DispatchedAll(s, es + [e]) == Dispatched(DispatchedAll(s, es), e)
  {
    assert (es + [e])[..|es|] == es;
  }

  /** Sending a message to each host on a list is posting it to all of them. */
  lemma {:induction false} DispatchEach(s: System, vec: seq<Dag>, m: ToHost)
    requires forall i, j :: 0 <= i < j < |vec| ==> vec[i] != vec[j]
    ensures DispatchedAll(s, ToEach(vec, m)) == Posted(s, Elements(vec), m)
    decreases |vec|
  {
    if vec == [] {
      assert Posted(s, {}, m).mail == s.mail;
    } else {
      var front, last := vec[..|vec| - 1], vec[|vec| - 1];
      DispatchEach(s, front, m);
      assert ToEach(vec, m) == ToEach(front, m) + [HostMail(last, m)];
      DispatchMore(s, ToEach(front, m), HostMail(last, m));
      PostedMore(s, Elements(front), last, m);
      assert Elements(vec) == Elements(front) + {last};
    }
  }

  lemma PostedMore(s: System, hosts: set<Dag>, host: Dag, m: ToHost)
    requires host !in hosts
    ensures Posted(Posted(s, hosts, m), {host}, m) == Posted(s, hosts + {host}, m)
  {
    assert Posted(Posted(s, hosts, m), {host}, m).mail == Posted(s, hosts + {host}, m).mail;
  }

  /** A host joining is one step of the system: the handler's table change and the messages it
      sends, put into their channels. The same holds for the other three handlers. */
  lemma HostJoinsStep(s: System, host: Dag, found: Option<Dag>)
    ensures AfterHostJoins(s, host, found) ==
            DispatchedAll(Joining(s, host, found),
                          if found.None? then []
                          else [RpMail(found.value, Delivery.EndhostJoin(host)), HostMail(host, SetRp(found.value))])
  {
    if found.Some? {
      var s1 := Joining(s, host, found);
      var a, b := RpMail(found.value, Delivery.EndhostJoin(host)), HostMail(host, SetRp(found.value));
      DispatchMore(s1, [], a);
      DispatchMore(s1, [a], b);
      assert [] + [a] == [a] && [a] + [b] == [a, b];
    }
  }

  lemma HostLeavesStep(s: System, host: Dag)
    ensures AfterHostLeaves(s, host) ==
            DispatchedAll(s.(source := HostLeft(s.source, host)),
                          if host in s.source.hosts && s.source.hosts[host].Some?
                          then [RpMail(s.source.hosts[host].value, EndhostLeft(host))] else [])
  {
    if host in s.source.hosts && s.source.hosts[host].Some? {
      DispatchMore(s.(source := HostLeft(s.source, host)), [], RpMail(s.source.hosts[host].value, EndhostLeft(host)));
    }
  }

  lemma RpJoinsStep(s: System, rp: Dag, list: seq<Dag>, told: seq<Dag>)
    requires Lists(told, AssignedTo(RpJoined(s.source, rp), rp))
    ensures AfterRpJoins(s, rp, list) ==
            DispatchedAll(Dispatched(s.(source := RpJoined(s.source, rp), everRp := s.everRp + {rp}),
                                     RpMail(rp, EhList(list))),
                          ToEach(told, SetRp(rp)))
  {
    var s1 := s.(source := RpJoined(s.source, rp), everRp := s.everRp + {rp});
    DispatchEach(Told(s1, rp, EhList(list)), told, SetRp(rp));
  }

  lemma RpLeavesStep(s: System, rp: Dag, told: seq<Dag>)
    requires Lists(told, if rp in s.source.rps then AssignedTo(s.source, rp) else {})
    ensures AfterRpLeaves(s, rp) == DispatchedAll(s.(source := RpLeft(s.source, rp)), ToEach(told, RemoveRp))
  {
    DispatchEach(s.(source := RpLeft(s.source, rp)), told, RemoveRp);
    if rp !in s.source.rps {
      assert Posted(s, {}, RemoveRp).mail == s.mail;
    }
  }
}
