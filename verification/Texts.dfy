/** Searching and splitting text the way the programs do it: `find_first_of` and `strchr`, and
    the loops that cut a text at every separator. */
module Texts {

  predicate StartsWith(s: string, prefix: string) {
    |prefix| <= |s| && s[..|prefix|] == prefix
  }

  /** The first position from `i` on that holds `c`; the text's length if there is none. */
  function IndexOf(s: string, c: char, i: nat): (end: nat)
    requires i <= |s|
    ensures i <= end <= |s|
    ensures forall k :: i <= k < end ==> s[k] != c
    ensures end < |s| ==> s[end] == c
    decreases |s| - i
  {
    if i == |s| || s[i] == c then i else IndexOf(s, c, i + 1)
  }

  /** Different texts have different hashes. */
  ghost predicate NoCollision(texts: seq<string>, hash: string -> string) {
    forall i, j :: 0 <= i < |texts| && 0 <= j < |texts| && hash(texts[i]) == hash(texts[j]) ==> texts[i] == texts[j]
  }

  /** The pieces in front of each separator, and what follows the last one. */
  datatype Pieces = Pieces(items: seq<string>, rest: string)

  function CutFrom(s: string, sep: char, i: nat): Pieces
    requires i <= |s|
    decreases |s| - i
  {
    var end := IndexOf(s, sep, i);
    if end == |s| then Pieces([], s[i..])
    else
      var more := CutFrom(s, sep, end + 1);
      Pieces([s[i..end]] + more.items, more.rest)
  }

  function Cut(s: string, sep: char): Pieces {
    CutFrom(s, sep, 0)
  }

  /** One turn of a loop that cuts off piece after piece: `items` are the pieces of the whole
      text, of which `n` have been cut off. */
  lemma CutStep(items: seq<string>, n: nat, s: string, sep: char, i: nat)
    requires i <= |s| && IndexOf(s, sep, i) < |s| && n <= |items|
    requires CutFrom(s, sep, i).items == items[n..]
    ensures var end := IndexOf(s, sep, i);
            && n < |items| && items[n] == s[i..end]
            && CutFrom(s, sep, end + 1) == Pieces(items[n + 1..], CutFrom(s, sep, i).rest)
  {
    assert items[n..] != [];
    assert items[n + 1..] == items[n..][1..];
  }

  /** Items with a separator after each. */
  function Ended(items: seq<string>, sep: char): string {
    if items == [] then "" else items[0] + [sep] + Ended(items[1..], sep)
  }

  predicate Free(items: seq<string>, sep: char) {
    forall k :: 0 <= k < |items| ==> sep !in items[k]
  }

  /** What stands at position `i` when the text goes on there with `a` and then `b`. */
  lemma Reads(s: string, i: nat, a: string, b: string)
    requires i <= |s| && s[i..] == a + b
    ensures i + |a| <= |s| && s[i..i + |a|] == a && s[i + |a|..] == b
  {
    assert s[i..i + |a|] == s[i..][..|a|];
    assert s[i + |a|..] == s[i..][|a|..];
  }

  lemma IndexOfItem(s: string, i: nat, item: string, sep: char)
    requires i + |item| <= |s| && s[i..i + |item|] == item && sep !in item
    requires i + |item| == |s| || s[i + |item|] == sep
    ensures IndexOf(s, sep, i) == i + |item|
  {
    forall k | i <= k < i + |item| ensures s[k] != sep {
      assert s[k] == s[i..i + |item|][k - i] && item[k - i] in item;
    }
  }

  /** Items with a separator after each, and then `rest`. */
  function EndedThen(items: seq<string>, sep: char, rest: string): string {
    if items == [] then rest else items[0] + ([sep] + EndedThen(items[1..], sep, rest))
  }

  lemma {:induction false} EndedRest(items: seq<string>, sep: char, rest: string)
    ensures EndedThen(items, sep, rest) == Ended(items, sep) + rest
  {
    if items == [] {
      assert "" + rest == rest;
    } else {
      EndedRest(items[1..], sep, rest);
      var more := Ended(items[1..], sep);
      assert items[0] + [sep] + more + rest == items[0] + ([sep] + (more + rest));
    }
  }

  /** From position `i` on the text consists of the items, each ended by the separator, and
      then `rest`. */
  ghost predicate Holds(s: string, i: nat, items: seq<string>, sep: char, rest: string)
    decreases |items|
  {
    if items == [] then i <= |s| && s[i..] == rest
    else
      var end := i + |items[0]|;
      end < |s| && s[i..end] == items[0] && s[end] == sep && Holds(s, end + 1, items[1..], sep, rest)
  }

  lemma ReadsItem(s: string, i: nat, item: string, sep: char, tail: string)
    requires i <= |s| && s[i..] == item + ([sep] + tail)
    ensures var end := i + |item|;
            end < |s| && s[i..end] == item && s[end] == sep && s[end + 1..] == tail
  {
    Reads(s, i, item, [sep] + tail);
    Reads(s, i + |item|, [sep], tail);
    assert s[i + |item|] == s[i + |item|..][0];
  }

  lemma {:induction false} EndedHolds(s: string, i: nat, items: seq<string>, sep: char, rest: string)
    requires i <= |s| && s[i..] == EndedThen(items, sep, rest)
    ensures Holds(s, i, items, sep, rest)
    decreases |items|
  {
    if items != [] {
      ReadsItem(s, i, items[0], sep, EndedThen(items[1..], sep, rest));
      EndedHolds(s, i + |items[0]| + 1, items[1..], sep, rest);
    }
  }

  lemma CutLast(s: string, i: nat, sep: char)
    requires i <= |s| && sep !in s[i..]
    ensures CutFrom(s, sep, i) == Pieces([], s[i..])
  {
    assert forall k :: i <= k < |s| ==> s[k] == s[i..][k - i];
  }

  lemma {:induction false} CutHolds(s: string, i: nat, items: seq<string>, sep: char, rest: string)
    requires Holds(s, i, items, sep, rest) && Free(items, sep) && sep !in rest
    ensures i <= |s| && CutFrom(s, sep, i) == Pieces(items, rest)
    decreases |items|
  {
    if items == [] {
      CutLast(s, i, sep);
    } else {
      IndexOfItem(s, i, items[0], sep);
      CutHolds(s, i + |items[0]| + 1, items[1..], sep, rest);
      assert items == [items[0]] + items[1..];
    }
  }

  /** Cutting undoes joining. */
  lemma CutEnded(items: seq<string>, rest: string, sep: char)
    requires Free(items, sep) && sep !in rest
    ensures Cut(Ended(items, sep) + rest, sep) == Pieces(items, rest)
  {
    var s := Ended(items, sep) + rest;
    assert s[0..] == s;
    EndedRest(items, sep, rest);
    EndedHolds(s, 0, items, sep, rest);
    CutHolds(s, 0, items, sep, rest);
  }

  lemma {:induction false} EndedAppend(a: seq<string>, b: seq<string>, sep: char)
    ensures Ended(a + b, sep) == Ended(a, sep) + Ended(b, sep)
    decreases |a|
  {
    if a == [] {
      assert a + b == b;
    } else {
      assert (a + b)[1..] == a[1..] + b;
      EndedAppend(a[1..], b, sep);
    }
  }

  lemma EndedOne(item: string, sep: char)
    ensures Ended([item], sep) == item + [sep]
  {
    assert [item][1..] == [];
  }
}
