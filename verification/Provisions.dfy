/** Click's table of provided packages: an array that grows, with entries whose count has dropped
    to zero used again. */
module Provisions {

  datatype Provision = Provision(name: string, provided: nat)

  /** How often a package is provided, whatever entries there are. */
  function CountIn(entries: seq<Provision>, name: string): nat {
    if entries == [] then 0
    else if entries[0].name == name then entries[0].provided
    else CountIn(entries[1..], name)
  }

  ghost predicate Distinct(entries: seq<Provision>) {
    forall i, j :: 0 <= i < j < |entries| ==> entries[i].name != entries[j].name
  }

  ghost predicate Absent(entries: seq<Provision>, name: string) {
    forall i :: 0 <= i < |entries| ==> entries[i].name != name
  }

  ghost predicate NoneUnused(entries: seq<Provision>) {
    forall i :: 0 <= i < |entries| ==> entries[i].provided > 0
  }

  lemma {:induction false} CountAt(entries: seq<Provision>, k: nat)
    requires Distinct(entries) && k < |entries|
    ensures CountIn(entries, entries[k].name) == entries[k].provided
    decreases |entries|
  {
    if k > 0 {
      CountAt(entries[1..], k - 1);
    }
  }

  lemma {:induction false} CountAbsent(entries: seq<Provision>, name: string)
    requires Absent(entries, name)
    ensures CountIn(entries, name) == 0
    decreases |entries|
  {
    if entries != [] {
      CountAbsent(entries[1..], name);
    }
  }

  /** Overwriting an entry changes no other package's count. */
  lemma {:induction false} CountOther(entries: seq<Provision>, k: nat, e: Provision, name: string)
    requires k < |entries| && e.name != name && (entries[k].name == name ==> entries[k].provided == 0)
    requires Distinct(entries)
    ensures CountIn(entries[k := e], name) == CountIn(entries, name)
    decreases |entries|
  {
    var next := entries[k := e];
    if k == 0 {
      assert next[1..] == entries[1..];
      if entries[0].name == name {
        CountAbsent(entries[1..], name);
      }
    } else {
      assert next[1..] == entries[1..][k - 1 := e];
      CountOther(entries[1..], k - 1, e, name);
    }
  }

  lemma {:induction false} CountAppend(entries: seq<Provision>, e: Provision, name: string)
    requires e.name != name
    ensures CountIn(entries + [e], name) == CountIn(entries, name)
    decreases |entries|
  {
    if entries != [] {
      assert (entries + [e])[1..] == entries[1..] + [e];
      CountAppend(entries[1..], e, name);
    }
  }

  class Table {
    var provisions: array<Provision>
    var n: nat

    ghost predicate Valid()
      reads this, provisions
    {
      n <= provisions.Length && Distinct(provisions[..n])
    }

    ghost function Count(name: string): nat
      requires n <= provisions.Length
      reads this, provisions
    {
      CountIn(provisions[..n], name)
    }

    constructor ()
      ensures Valid() && fresh(provisions) && forall name :: Count(name) == 0
    {
      provisions := new Provision[0];
      n := 0;
    }

    /** The search loop of `find_provision`: the entry with the name, and otherwise the last
        entry that may be used again; `n` stands for no entry. */
    method Search(name: string, add: bool) returns (found: bool, k: nat)
      requires Valid()
      ensures found ==> k < n && provisions[k].name == name
      ensures !found ==> Absent(provisions[..n], name) && k <= n
      ensures !found && k < n ==> add && provisions[k].provided == 0
      ensures !found && add && k == n ==> NoneUnused(provisions[..n])
    {
      k := n;
      var i := 0;
      while i < n
        invariant 0 <= i <= n && forall j :: 0 <= j < i ==> provisions[j].name != name
        invariant k == n || (k < n && add && provisions[k].provided == 0)
        invariant add && k == n ==> forall j :: 0 <= j < i ==> provisions[j].provided > 0
      {
        if provisions[i].name == name {
          return true, i;
        } else if add && provisions[i].provided == 0 {
          k := i;
        }
        i := i + 1;
      }
      return false, k;
    }

    /** Room for one more entry. */
    method Grow()
      requires Valid()
      modifies this
      ensures Valid() && n < provisions.Length && n == old(n)
      ensures provisions[..n] == old(provisions[..n])
      ensures provisions == old(provisions) || fresh(provisions)
    {
      if n >= provisions.Length {
        var cap := if n > 0 then n * 2 else 4;
        var bigger := new Provision[cap](_ => Provision("", 0));
        var i := 0;
        while i < n
          invariant 0 <= i <= n && provisions == old(provisions) && n == old(n) && unchanged(provisions)
          invariant forall j :: 0 <= j < i ==> bigger[j] == provisions[j]
        {
          bigger[i] := provisions[i];
          i := i + 1;
        }
        provisions := bigger;
      }
    }

    /** `find_provision`: no count changes, and with `add` there is an entry for the name. */
    method FindProvision(name: string, add: bool) returns (found: bool, k: nat)
      requires Valid()
      modifies this, provisions
      ensures Valid() && (provisions == old(provisions) || fresh(provisions))
      ensures forall other :: Count(other) == old(Count(other))
      ensures found ==> k < n && provisions[k].name == name
      ensures add ==> found
      ensures !found ==> Count(name) == 0
      ensures found <==> add || !old(Absent(provisions[..n], name))
      ensures !add ==> n == old(n) && provisions[..n] == old(provisions[..n])
      ensures n == old(n) + if add && old(Absent(provisions[..n], name) && NoneUnused(provisions[..n])) then 1 else 0
    {
      found, k := Search(name, add);
      if found || !add {
        if !found {
          CountAbsent(provisions[..n], name);
        }
        return found, k;
      }
      CountAbsent(provisions[..n], name);
      ghost var before := provisions[..n];
      if k == n {
        Grow();
        assert provisions[..n] == before;
        provisions[n] := Provision(name, 0);
        n := n + 1;
        assert provisions[..n] == before + [Provision(name, 0)];
        AppendedCounts(before, name);
      } else {
        provisions[k] := Provision(name, 0);
        assert provisions[..n] == before[k := Provision(name, 0)];
        ReusedCounts(before, k, name);
      }
      return true, k;
    }

    method Provide(package: string)
      requires Valid()
      modifies this, provisions
      ensures Valid() && Count(package) == old(Count(package)) + 1
      ensures forall other :: other != package ==> Count(other) == old(Count(other))
    {
      var found, k := FindProvision(package, true);
      ghost var before := provisions[..n];
      provisions[k] := provisions[k].(provided := provisions[k].provided + 1);
      assert provisions[..n] == before[k := provisions[k]];
      ChangedCounts(before, k, provisions[k]);
    }

    method Unprovide(package: string)
      requires Valid()
      modifies this, provisions
      ensures Valid()
      ensures Count(package) == if old(Count(package)) > 0 then old(Count(package)) - 1 else 0
      ensures n == old(n)
      ensures forall other :: other != package ==> Count(other) == old(Count(other))
    {
      var found, k := FindProvision(package, false);
      if found {
        CountAt(provisions[..n], k);
        if provisions[k].provided > 0 {
          ghost var before := provisions[..n];
          provisions[k] := provisions[k].(provided := provisions[k].provided - 1);
          assert provisions[..n] == before[k := provisions[k]];
          ChangedCounts(before, k, provisions[k]);
        }
      }
    }

    method HasProvision(package: string) returns (has: bool)
      requires Valid()
      ensures has <==> Count(package) > 0
    {
      var found, k := Search(package, false);
      if found {
        CountAt(provisions[..n], k);
        has := provisions[k].provided > 0;
      } else {
        CountAbsent(provisions[..n], package);
        has := false;
      }
    }
  }

  lemma AppendedCounts(entries: seq<Provision>, name: string)
    requires Distinct(entries) && Absent(entries, name)
    ensures var next := entries + [Provision(name, 0)];
            Distinct(next) && forall other :: CountIn(next, other) == CountIn(entries, other)
  {
    var next := entries + [Provision(name, 0)];
    forall other ensures CountIn(next, other) == CountIn(entries, other) {
      if other == name {
        CountAbsent(entries, name);
        CountAt(next, |entries|);
      } else {
        CountAppend(entries, Provision(name, 0), other);
      }
    }
  }

  lemma ReusedCounts(entries: seq<Provision>, k: nat, name: string)
    requires Distinct(entries) && Absent(entries, name) && k < |entries| && entries[k].provided == 0
    ensures var next := entries[k := Provision(name, 0)];
            Distinct(next) && forall other :: CountIn(next, other) == CountIn(entries, other)
  {
    var next := entries[k := Provision(name, 0)];
    forall other ensures CountIn(next, other) == CountIn(entries, other) {
      if other == name {
        CountAbsent(entries, name);
        CountAt(next, k);
      } else {
        CountOther(entries, k, Provision(name, 0), other);
      }
    }
  }

  lemma ChangedCounts(entries: seq<Provision>, k: nat, e: Provision)
    requires Distinct(entries) && k < |entries| && e.name == entries[k].name
    ensures var next := entries[k := e];
            && Distinct(next) && CountIn(next, e.name) == e.provided && CountIn(entries, e.name) == entries[k].provided
            && forall other :: other != e.name ==> CountIn(next, other) == CountIn(entries, other)
  {
    var next := entries[k := e];
    CountAt(entries, k);
    CountAt(next, k);
    forall other | other != e.name ensures CountIn(next, other) == CountIn(entries, other) {
      CountOther(entries, k, e, other);
    }
  }
}
