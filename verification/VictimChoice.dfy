/** Whom a Neitris player's powerups go to (`ChangeVictim` in neitris_class.py): a recursive
    search through the cyclic list of players. Entry -1 stands for nobody. */
module VictimChoice {

  const NOBODY := -1

  datatype Action = Init | Normal | VictimDied

  predicate Distinct(list: seq<int>) {
    forall i, j :: 0 <= i < j < |list| ==> list[i] != list[j]
  }

  /** The number of active entries. */
  function ActiveCount(list: seq<int>, active: map<int, bool>): nat {
    if list == [] then 0
    else ActiveCount(list[..|list| - 1], active)
         + if list[|list| - 1] in active && active[list[|list| - 1]] then 1 else 0
  }

  /** The roster as the game sets it up: nobody is in it and active, the player itself is in it
      and inactive, no entry twice. */
  predicate Roster(list: seq<int>, active: map<int, bool>, self: int) {
    && Distinct(list)
    && (forall p :: p in list ==> p in active)
    && NOBODY in list && active[NOBODY]
    && self in list && !active[self]
  }

  /** An entry the search may stop at. */
  predicate Eligible(v: int, list: seq<int>, active: map<int, bool>, self: int, action: Action) {
    && v in active && active[v]
    && v != self
    && !(v == NOBODY && action == VictimDied && ActiveCount(list, active) > 1)
  }

  /** The whole list in cyclic order, starting after position `k`. */
  function After(list: seq<int>, k: nat): (r: seq<int>)
    requires k < |list|
    ensures |r| == |list|
    ensures forall e :: 0 <= e < |list| ==> r[e] == list[if k + 1 + e < |list| then k + 1 + e else k + 1 + e - |list|]
  {
    list[k + 1..] + list[..k + 1]
  }

  /** The position of the first eligible entry of `s`, its length if there is none. */
  function First(s: seq<int>, list: seq<int>, active: map<int, bool>, self: int, action: Action): (r: nat)
    ensures r <= |s|
    ensures r < |s| ==> Eligible(s[r], list, active, self, action)
    ensures forall e :: 0 <= e < r ==> !Eligible(s[e], list, active, self, action)
    decreases |s|
  {
    if s == [] || Eligible(s[0], list, active, self, action) then 0
    else 1 + First(s[1..], list, active, self, action)
  }

  /** Whom the search from position `k` on comes to first. */
  function NextVictim(k: nat, list: seq<int>, active: map<int, bool>, self: int, action: Action): int
    requires Roster(list, active, self) && k < |list|
  {
    WithinOneTurn(k, list, active, self, action);
    After(list, k)[First(After(list, k), list, active, self, action)]
  }

  lemma {:induction false} SomeoneActive(list: seq<int>, active: map<int, bool>)
    requires Distinct(list) && NOBODY in list && ActiveCount(list, active) > 1
    ensures exists p :: p in list && p in active && active[p] && p != NOBODY
  {
    var n := |list| - 1;
    var last := list[n];
    if last != NOBODY && last in active && active[last] {
      assert last in list;
    } else if last == NOBODY {
      AllInactive(list[..n], active);
      var p :| p in list[..n] && p in active && active[p];
      assert p in list && p != NOBODY;
    } else {
      assert NOBODY in list[..n];
      SomeoneActive(list[..n], active);
      var p :| p in list[..n] && p in active && active[p] && p != NOBODY;
      assert p in list;
    }
  }

  lemma {:induction false} AllInactive(list: seq<int>, active: map<int, bool>)
    requires ActiveCount(list, active) > 0
    ensures exists p :: p in list && p in active && active[p]
  {
    var last := list[|list| - 1];
    if last in active && active[last] {
      assert last in list;
    } else {
      AllInactive(list[..|list| - 1], active);
      var p :| p in list[..|list| - 1] && p in active && active[p];
      assert p in list;
    }
  }

  lemma {:induction false} CountsBoth(list: seq<int>, active: map<int, bool>, i: nat, j: nat)
    requires i < j < |list| && list[i] in active && active[list[i]] && list[j] in active && active[list[j]]
    ensures ActiveCount(list, active) > 1
  {
    var n := |list| - 1;
    if j < n {
      CountsBoth(list[..n], active, i, j);
    } else {
      CountsOne(list[..n], active, i);
    }
  }

  lemma {:induction false} CountsOne(list: seq<int>, active: map<int, bool>, i: nat)
    requires i < |list| && list[i] in active && active[list[i]]
    ensures ActiveCount(list, active) > 0
  {
    if i < |list| - 1 {
      CountsOne(list[..|list| - 1], active, i);
    }
  }

  /** Another player is still in the game. */
  predicate OtherActive(list: seq<int>, active: map<int, bool>) {
    exists i :: 0 <= i < |list| && list[i] != -1 && list[i] in active && active[list[i]]
  }

  /** The search may stop at an active entry that is not the player itself, and after a victim's
      death at nobody only if there is no other player left. */
  lemma EligibleMeans(v: int, list: seq<int>, active: map<int, bool>, self: int, action: Action)
    requires Roster(list, active, self)
    ensures Eligible(v, list, active, self, action) <==>
              v in active && active[v] && v != self
              && (v == -1 && action == VictimDied ==> !OtherActive(list, active))
  {
    if OtherActive(list, active) {
      var i :| 0 <= i < |list| && list[i] != -1 && list[i] in active && active[list[i]];
      var j :| 0 <= j < |list| && list[j] == -1;
      CountsBoth(list, active, if i < j then i else j, if i < j then j else i);
    }
    if ActiveCount(list, active) > 1 {
      SomeoneActive(list, active);
      var p :| p in list && p in active && active[p] && p != NOBODY;
      var i :| 0 <= i < |list| && list[i] == p;
      assert OtherActive(list, active);
    }
  }

  /** There is always someone to stop at: nobody, or, when nobody is ruled out, another player
      that is still in the game. */
  lemma SomeoneEligible(list: seq<int>, active: map<int, bool>, self: int, action: Action)
    requires Roster(list, active, self)
    ensures exists i :: 0 <= i < |list| && Eligible(list[i], list, active, self, action)
  {
    if action == VictimDied && ActiveCount(list, active) > 1 {
      SomeoneActive(list, active);
      var p :| p in list && p in active && active[p] && p != NOBODY;
      var i :| 0 <= i < |list| && list[i] == p;
      assert Eligible(list[i], list, active, self, action);
    } else {
      var i :| 0 <= i < |list| && list[i] == NOBODY;
      assert Eligible(list[i], list, active, self, action);
    }
  }

  /** The search ends within one turn around the list. */
  lemma WithinOneTurn(k: nat, list: seq<int>, active: map<int, bool>, self: int, action: Action)
    requires Roster(list, active, self) && k < |list|
    ensures First(After(list, k), list, active, self, action) < |list|
  {
    SomeoneEligible(list, active, self, action);
    var i :| 0 <= i < |list| && Eligible(list[i], list, active, self, action);
    var e := if i > k then i - k - 1 else i - k - 1 + |list|;
    assert After(list, k)[e] == list[i];
  }

  /** Looking at a list with its first entry moved to the end. */
  lemma {:induction false} FirstOfMoved(s: seq<int>, x: int, list: seq<int>, active: map<int, bool>, self: int,
                                        action: Action)
    requires First(s, list, active, self, action) < |s|
    ensures First(s + [x], list, active, self, action) == First(s, list, active, self, action)
    decreases |s|
  {
    if !Eligible(s[0], list, active, self, action) {
      assert (s + [x])[1..] == s[1..] + [x];
      FirstOfMoved(s[1..], x, list, active, self, action);
    }
  }

  /** One step further, the first eligible entry is the same and one step nearer. */
  lemma OneNearer(k: nat, k': nat, list: seq<int>, active: map<int, bool>, self: int, action: Action)
    requires Roster(list, active, self) && k < |list|
    requires k' == if k == |list| - 1 then 0 else k + 1
    requires !Eligible(list[k'], list, active, self, action)
    ensures First(After(list, k), list, active, self, action) == First(After(list, k'), list, active, self, action) + 1
    ensures NextVictim(k, list, active, self, action) == NextVictim(k', list, active, self, action)
  {
    var s := After(list, k);
    assert s[0] == list[k'];
    assert After(list, k') == s[1..] + [s[0]];
    WithinOneTurn(k, list, active, self, action);
    FirstOfMoved(s[1..], s[0], list, active, self, action);
  }

  class Player {
    const pid: int
    var list: seq<int>
    var active: map<int, bool>
    var victim: int

    predicate Valid()
      reads this
    {
      Roster(list, active, pid) && victim in list
    }

    /** The position of an entry; the loops of `ChangeVictim` that look one up. */
    method Position(v: int) returns (k: nat)
      requires v in list
      ensures k < |list| && list[k] == v
    {
      k := 0;
      while list[k] != v
        invariant k < |list| && v !in list[..k]
        decreases |list| - k
      {
        assert list == list[..k + 1] + list[k + 1..];
        k := k + 1;
      }
    }

    method CountActive() returns (n: nat)
      requires Valid()
      ensures n == ActiveCount(list, active)
    {
      n := 0;
      for p := 0 to |list|
        invariant n == ActiveCount(list[..p], active)
      {
        assert list[..p + 1][..p] == list[..p];
        if active[list[p]] {
          n := n + 1;
        }
      }
      assert list[..|list|] == list;
    }

    /** The roster of a new game: nobody and all players, everybody else active. */
    constructor (players: seq<int>, self: int)
      requires Distinct(players) && NOBODY !in players && self in players
      ensures pid == self && list == [-1] + players && Valid()
      ensures forall p :: p in list ==> (active[p] <==> p != self)
    {
      pid := self;
      list := [NOBODY] + players;
      active := map p | p in [NOBODY] + players :: p != self;
      victim := NOBODY;
    }

    /** `ChangeVictim("init")`: the player after oneself, passing over nobody unless alone. */
    method FirstVictim()
      requires Valid()
      modifies this`victim
      ensures Valid() && victim != pid
      ensures |list| > 2 ==> victim != NOBODY
      ensures forall k :: 0 <= k < |list| && list[k] == pid ==>
                victim == After(list, k)[if After(list, k)[0] == NOBODY && |list| > 2 then 1 else 0]
    {
      var k := Position(pid);
      ghost var from := k;
      if k == |list| - 1 {
        victim := list[0];
        k := 0;
      } else {
        victim := list[k + 1];
        k := k + 1;
      }
      assert victim == After(list, from)[0];
      if victim == NOBODY && |list| > 2 {
        if k == |list| - 1 {
          victim := list[0];
        } else {
          victim := list[k + 1];
        }
        assert victim == After(list, from)[1];
      }
    }

    /** Another player has lost: it is out, and if it was the victim, there is a new one. */
    method PlayerLost(src: int)
      requires Valid() && src in list && src != NOBODY
      modifies this`victim, this`active
      ensures Valid() && active == old(active)[src := false]
      ensures old(victim) != src ==> victim == old(victim)
      ensures old(victim) == src ==>
                active[victim] && victim != pid && (victim == -1 ==> !OtherActive(list, active))
      ensures old(victim) == src ==>
                forall k :: 0 <= k < |list| && list[k] == src ==> victim == NextVictim(k, list, active, pid, VictimDied)
    {
      active := active[src := false];
      if victim == src {
        ChangeVictim(VictimDied);
        EligibleMeans(victim, list, active, pid, VictimDied);
      }
    }

    /** The non-initial `ChangeVictim`: it always ends, and the new victim is the first eligible
        entry after the old one in cyclic order. */
    method ChangeVictim(action: Action)
      requires Valid() && action != Init
      modifies this`victim
      ensures Valid()
      ensures forall k :: 0 <= k < |list| && list[k] == old(victim) ==>
                victim == NextVictim(k, list, active, pid, action)
      ensures Eligible(victim, list, active, pid, action)
      decreases Distance(action)
    {
      var k := Position(victim);
      ghost var from := k;
      DistanceIs(action, from);
      if k == |list| - 1 {
        k := 0;
      } else {
        k := k + 1;
      }
      var actnr := CountActive();
      victim := list[k];
      if victim == pid || (victim == NOBODY && action == VictimDied && actnr > 1) || !active[victim] {
        OneNearer(from, k, list, active, pid, action);
        DistanceIs(action, k);
        ChangeVictim(action);
      } else {
        assert After(list, from)[0] == list[k];
      }
    }

    ghost function Distance(action: Action): nat
      requires Valid()
      reads this
    {
      var k :| 0 <= k < |list| && list[k] == victim;
      First(After(list, k), list, active, pid, action)
    }

    lemma DistanceIs(action: Action, k: nat)
      requires Valid() && k < |list| && list[k] == victim
      ensures Distance(action) == First(After(list, k), list, active, pid, action)
    {
    }
  }
}
