/** Cutting sequences into blocks and joining them again. */
module Sequences {

  lemma Associate<T>(a: seq<T>, b: seq<T>, c: seq<T>)
    ensures a + b + c == a + (b + c)
  {
  }

  lemma AppendSame<T>(a: seq<T>, b: seq<T>, c: seq<T>)
    ensures a + b == a + c <==> b == c
  {
    assert (a + b)[|a|..] == b && (a + c)[|a|..] == c;
  }

  function Flatten<T>(parts: seq<seq<T>>): seq<T> {
    if parts == [] then [] else parts[0] + Flatten(parts[1..])
  }

  lemma FlattenCons<T>(part: seq<T>, parts: seq<seq<T>>)
    ensures Flatten([part] + parts) == part + Flatten(parts)
  {
    assert ([part] + parts)[1..] == parts;
  }

  lemma {:induction false} FlattenAppend<T>(a: seq<seq<T>>, b: seq<seq<T>>)
    ensures Flatten(a + b) == Flatten(a) + Flatten(b)
    decreases |a|
  {
    if a == [] {
      assert a + b == b;
    } else {
      assert (a + b)[1..] == a[1..] + b;
      FlattenAppend(a[1..], b);
      Associate(a[0], Flatten(a[1..]), Flatten(b));
    }
  }

  /** Consecutive blocks of the given width; the last one holds what is left. */
  function Blocks<T>(s: seq<T>, width: nat): (blocks: seq<seq<T>>)
    requires width > 0
    ensures forall k :: 0 <= k < |blocks| ==>
              0 < |blocks[k]| <= width && (k < |blocks| - 1 ==> |blocks[k]| == width)
    decreases |s|
  {
    if s == [] then []
    else if |s| <= width then [s]
    else [s[..width]] + Blocks(s[width..], width)
  }

  lemma {:induction false} FlattenBlocks<T>(s: seq<T>, width: nat)
    requires width > 0
    ensures Flatten(Blocks(s, width)) == s
    decreases |s|
  {
    if |s| > width {
      FlattenBlocks(s[width..], width);
      FlattenCons(s[..width], Blocks(s[width..], width));
      assert s == s[..width] + s[width..];
    } else if s != [] {
      FlattenCons(s, []);
    }
  }

  lemma DivideUnique(a: int, w: int, q: int, r: int)
    requires w > 0 && a == q * w + r && 0 <= r < w
    ensures a / w == q && a % w == r
  {
    var d := q - a / w;
    assert a == a / w * w + a % w;
    assert d * w == a % w - r;
    MultipleGrows(d, w);
  }

  lemma MultipleGrows(d: int, w: int)
    requires w > 0
    ensures d >= 1 ==> d * w >= w
    ensures d <= -1 ==> d * w <= -w
  {
  }

  /** How many blocks there are: the rounded-up quotient. */
  lemma {:induction false} BlockCount<T>(s: seq<T>, width: nat)
    requires width > 0
    ensures |Blocks(s, width)| == |s| / width + if |s| % width != 0 then 1 else 0
    decreases |s|
  {
    if |s| > width {
      BlockCount(s[width..], width);
      var rest := |s| - width;
      DivideUnique(|s|, width, rest / width + 1, rest % width);
    } else if |s| == width {
      DivideUnique(|s|, width, 1, 0);
    } else {
      DivideUnique(|s|, width, 0, |s|);
    }
  }

  /** Equal concatenations have equal parts when all parts but the last are equally long. */
  lemma {:induction false} SameParts<T>(a: seq<seq<T>>, b: seq<seq<T>>)
    requires |a| == |b| && Flatten(a) == Flatten(b)
    requires forall i :: 0 <= i < |a| - 1 ==> |a[i]| == |b[i]|
    ensures a == b
    decreases |a|
  {
    if |a| == 1 {
      assert a[1..] == [] && b[1..] == [];
      assert Flatten(a) == a[0] && Flatten(b) == b[0];
    } else if |a| > 1 {
      assert a[0] == Flatten(a)[..|a[0]|] == b[0];
      assert Flatten(a[1..]) == Flatten(a)[|a[0]|..] == Flatten(b[1..]);
      SameParts(a[1..], b[1..]);
      assert a == [a[0]] + a[1..] && b == [b[0]] + b[1..];
    }
  }

  /** Parts that are no longer than others and make up as much are just as long. */
  lemma {:induction false} ShorterParts<T>(a: seq<seq<T>>, b: seq<seq<T>>)
    requires |a| == |b| && forall i :: 0 <= i < |a| ==> |a[i]| <= |b[i]|
    ensures |Flatten(a)| <= |Flatten(b)|
    ensures |Flatten(a)| == |Flatten(b)| ==> forall i :: 0 <= i < |a| ==> |a[i]| == |b[i]|
    decreases |a|
  {
    if a != [] {
      ShorterParts(a[1..], b[1..]);
      assert forall i :: 1 <= i < |a| ==> a[i] == a[1..][i - 1] && b[i] == b[1..][i - 1];
    }
  }

  /** C++'s `s.substr(from, n)`, and what a read of `n` items at `from` yields. */
  function Substr<T>(s: seq<T>, from: nat, n: nat): seq<T>
    requires from <= |s|
  {
    if from + n <= |s| then s[from..from + n] else s[from..]
  }

  /** What is left of a sequence behind a position that may lie past its end. */
  function Remaining<T>(s: seq<T>, from: nat): seq<T> {
    if from <= |s| then s[from..] else []
  }

  /** One turn of a loop that reads block after block. */
  lemma BlocksStep<T>(done: seq<seq<T>>, s: seq<T>, from: nat, width: nat)
    requires from < |s| && width > 0
    ensures done + Blocks(Remaining(s, from), width)
            == done + [Substr(s, from, width)] + Blocks(Remaining(s, from + width), width)
  {
    var rest, more := s[from..], Blocks(Remaining(s, from + width), width);
    if |rest| > width {
      assert rest[..width] == Substr(s, from, width);
      assert rest[width..] == Remaining(s, from + width);
    } else {
      assert rest == Substr(s, from, width) && more == [];
    }
    assert Blocks(rest, width) == [Substr(s, from, width)] + more;
    Associate(done, [Substr(s, from, width)], more);
  }

  /** The same when `blocks` are the blocks of the whole sequence and `n` of them are done. */
  lemma BlocksNext<T>(blocks: seq<seq<T>>, n: nat, s: seq<T>, from: nat, width: nat)
    requires width > 0 && n < |blocks| && Blocks(Remaining(s, from), width) == blocks[n..]
    ensures from < |s| && blocks[n] == Substr(s, from, width)
    ensures Blocks(Remaining(s, from + width), width) == blocks[n + 1..]
  {
    assert blocks[n..] != [] && blocks[n + 1..] == blocks[n..][1..];
    var rest := s[from..];
    if |rest| > width {
      assert rest[..width] == Substr(s, from, width);
      assert rest[width..] == Remaining(s, from + width);
    }
  }
}
