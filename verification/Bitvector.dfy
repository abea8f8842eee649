/** Click's `Bitvector`: a vector of bits kept in 32-bit words. */
module Bitvectors {
  import opened Words

  /** Bit `i` of a run of words; there are no bits outside it. */
  predicate At(words: seq<Word>, i: int) {
    0 <= i < 32 * |words| && words[i / 32][i % 32]
  }

  lemma AtWord(words: seq<Word>, k: nat, j: nat)
    requires k < |words| && j < 32
    ensures At(words, 32 * k + j) == words[k][j]
  {
    assert (32 * k + j) / 32 == k && (32 * k + j) % 32 == j;
  }

  /** The index of the word that holds bit `max`. */
  function LastWord(max: int): int {
    if max < 0 then -1 else max / 32
  }

  /** No bit above `max` is set. */
  ghost predicate Clean(words: seq<Word>, max: int) {
    forall i :: max < i ==> !At(words, i)
  }

  lemma SameWord(a: seq<Word>, b: seq<Word>, max: int, k: nat)
    requires k < |a| && k < |b| && -1 <= max && Clean(a, max) && Clean(b, max)
    requires Positions(a, max + 1) == Positions(b, max + 1)
    ensures a[k] == b[k]
  {
    forall j | 0 <= j < 32 ensures a[k][j] == b[k][j] {
      AtWord(a, k, j);
      AtWord(b, k, j);
      assert 32 * k + j in Positions(a, max + 1) <==> 32 * k + j in Positions(b, max + 1);
    }
  }

  /** The positions of the set bits among the first `n`. */
  function Positions(words: seq<Word>, n: nat): set<int> {
    set i: int | 0 <= i < n && At(words, i)
  }

  function Shifted(s: set<int>, offset: int): set<int> {
    set i | i in s :: i + offset
  }

  // ---------------------------------------------------------------- two runs of words combined

  /** The words up to the last one in use are combined bit by bit, the others kept. */
  ghost predicate Combined(f: (bool, bool) -> bool, now: seq<Word>, was: seq<Word>, src: seq<Word>, last: int)
    requires last < |was| && last < |src|
  {
    |now| == |was| &&
    forall k :: 0 <= k < |was| ==> CombinedWord(f, now[k], was[k], k <= last, if k <= last then src[k] else was[k])
  }

  ghost predicate CombinedWord(f: (bool, bool) -> bool, now: Word, was: Word, changed: bool, src: Word) {
    if changed then forall j :: 0 <= j < 32 ==> now[j] == f(was[j], src[j]) else now == was
  }

  lemma CombinedBit(f: (bool, bool) -> bool, now: seq<Word>, was: seq<Word>, src: seq<Word>, max: int, p: int)
    requires !f(false, false) && -1 <= max < 32 * |was| && max < 32 * |src|
    requires Combined(f, now, was, src, LastWord(max)) && Clean(was, max) && Clean(src, max)
    ensures At(now, p) == f(At(was, p), At(src, p))
  {
    if 0 <= p < 32 * |was| {
      var k, j := p / 32, p % 32;
      assert CombinedWord(f, now[k], was[k], k <= LastWord(max), if k <= LastWord(max) then src[k] else was[k]);
    }
  }

  // ---------------------------------------------------------------- a run of words shifted

  /** Word `k` of the words shifted up by `q` words and `b` bits. */
  function ShiftedWord(words: seq<Word>, q: nat, b: nat, k: nat): Word
    requires b < 32
  {
    seq(32, j requires 0 <= j < 32 =>
      if j >= b then 0 <= k - q < |words| && words[k - q][j - b]
      else 0 <= k - q - 1 < |words| && words[k - q - 1][32 + j - b])
  }

  /** Shifting word by word is shifting bit by bit. */
  lemma ShiftedBit(words: seq<Word>, q: nat, b: nat, k: nat, j: nat)
    requires b < 32 && j < 32
    ensures ShiftedWord(words, q, b, k)[j] == At(words, 32 * k + j - (32 * q + b))
  {
    if j >= b {
      if 0 <= k - q < |words| {
        AtWord(words, k - q, j - b);
      }
    } else if 0 <= k - q - 1 < |words| {
      AtWord(words, k - q - 1, 32 + j - b);
    }
  }

  /** Word `k` with the first `n` words of `src` or-ed in, shifted; words behind the last one
      stay as they are. */
  ghost function SpreadAt(was: seq<Word>, src: seq<Word>, n: nat, q: nat, b: nat, last: int, k: nat): Word
    requires b < 32 && n <= |src| && k < |was|
  {
    if k <= last then Or(was[k], ShiftedWord(src[..n], q, b, k)) else was[k]
  }

  ghost predicate Spread(now: seq<Word>, was: seq<Word>, src: seq<Word>, n: nat, q: nat, b: nat, last: int)
    requires b < 32 && n <= |src|
  {
    |now| == |was| && forall k :: 0 <= k < |was| ==> now[k] == SpreadAt(was, src, n, q, b, last, k)
  }

  lemma SpreadNone(was: seq<Word>, src: seq<Word>, q: nat, b: nat, last: int)
    requires b < 32
    ensures Spread(was, was, src, 0, q, b, last)
  {
    forall k | 0 <= k < |was| ensures was[k] == SpreadAt(was, src, 0, q, b, last, k) {
    }
  }

  function OrAt(words: seq<Word>, k: nat, w: Word): seq<Word>
    requires k < |words|
  {
    words[k := Or(words[k], w)]
  }

  function SpreadStep(words: seq<Word>, val: Word, pos: nat, b: nat, last: int): seq<Word>
    requires b < 32 && pos < |words| && last < |words|
  {
    var low := OrAt(words, pos, Left(val, b));
    if pos + 1 <= last && b != 0 then OrAt(low, pos + 1, Right(val, 32 - b)) else low
  }

  function StepAt(w: Word, val: Word, pos: nat, b: nat, last: int, k: nat): Word
    requires b < 32
  {
    if k == pos then Or(w, Left(val, b))
    else if k == pos + 1 && k <= last && b != 0 then Or(w, Right(val, 32 - b)) else w
  }

  /** One more word of `src` adds its low part to one word and its high part to the next. */
  lemma SpreadWord(now: seq<Word>, was: seq<Word>, src: seq<Word>, n: nat, q: nat, b: nat, last: int)
    requires b < 32 && n < |src| && Spread(now, was, src, n, q, b, last)
    requires last < |was| && q + n < |was| && (q + n <= last || src[n] == ZERO)
    ensures Spread(SpreadStep(now, src[n], q + n, b, last), was, src, n + 1, q, b, last)
  {
    var step := SpreadStep(now, src[n], q + n, b, last);
    forall k | 0 <= k < |was| ensures step[k] == SpreadAt(was, src, n + 1, q, b, last, k) {
      assert step[k] == StepAt(now[k], src[n], q + n, b, last, k);
      SpreadWordAt(was, src, n, q, b, last, k);
    }
  }

  lemma SpreadWordAt(was: seq<Word>, src: seq<Word>, n: nat, q: nat, b: nat, last: int, k: nat)
    requires b < 32 && n < |src| && k < |was| && (q + n <= last || src[n] == ZERO)
    ensures StepAt(SpreadAt(was, src, n, q, b, last, k), src[n], q + n, b, last, k)
            == SpreadAt(was, src, n + 1, q, b, last, k)
  {
    if k <= last {
      ShiftedMore(was[k], src, n, q, b, k);
    } else if k == q + n {
      assert Or(was[k], Left(src[n], b)) == was[k];
    }
  }

  lemma ShiftedMore(w: Word, words: seq<Word>, n: nat, q: nat, b: nat, k: nat)
    requires b < 32 && n < |words|
    ensures var before := Or(w, ShiftedWord(words[..n], q, b, k));
            Or(w, ShiftedWord(words[..n + 1], q, b, k))
            == if k == q + n then Or(before, Left(words[n], b))
               else if k == q + n + 1 && b > 0 then Or(before, Right(words[n], 32 - b))
               else before
  {
  }

  /** What the spread words are, bit by bit. */
  lemma SpreadBit(now: seq<Word>, was: seq<Word>, src: seq<Word>, n: nat, q: nat, b: nat, last: int, p: int)
    requires b < 32 && n <= |src| && Spread(now, was, src, n, q, b, last) && last < |was|
    ensures At(now, p) == (At(was, p) || (0 <= p < 32 * (last + 1) && At(src[..n], p - (32 * q + b))))
  {
    if 0 <= p < 32 * |was| {
      ShiftedBit(src[..n], q, b, p / 32, p % 32);
      assert 32 * (p / 32) + p % 32 == p;
    }
  }

  // ---------------------------------------------------------------- the class

  class Bitvector {
    /** One less than the number of bits. */
    var max: int
    var data: array<Word>

    /** Two words are always there; more are allocated as needed. */
    ghost predicate Shape()
      reads this
    {
      -1 <= max < 32 * data.Length && 2 <= data.Length
    }

    /** No bit that is not in use is set. */
    ghost predicate Valid()
      reads this, data
    {
      Shape() && Clean(data[..], max)
    }

    ghost function Members(): set<int>
      requires Shape()
      reads this, data
    {
      Positions(data[..], max + 1)
    }

    function MaxWord(): int
      reads this
    {
      LastWord(max)
    }

    constructor (n: nat)
      ensures Valid() && fresh(data) && max == n - 1 && Members() == {}
    {
      max := n - 1;
      var words := if n <= 64 then 2 else (n - 1) / 32 + 1;
      data := new Word[words](_ => ZERO);
    }

    method Zero() returns (zero: bool)
      requires Valid()
      ensures zero <==> Members() == {}
    {
      var i := 0;
      while i <= MaxWord()
        invariant 0 <= i <= MaxWord() + 1
        invariant forall k :: 0 <= k < i ==> data[k] == ZERO
      {
        if data[i] != ZERO {
          ghost var j :| 0 <= j < 32 && data[i][j];
          AtWord(data[..], i, j);
          assert 32 * i + j in Members();
          return false;
        }
        i := i + 1;
      }
      return true;
    }

    /** Clears the bits of the last word that are not in use. */
    method ClearLast()
      requires Shape()
      modifies data
      ensures forall i :: At(data[..], i) ==
                (At(old(data[..]), i) && (i <= max || i >= if max < 0 then 32 else 32 * (MaxWord() + 1)))
    {
      if max < 0 {
        data[0] := ZERO;
      } else if max % 32 != 31 {
        data[max / 32] := And(data[max / 32], LowOnes(max % 32 + 1));
      }
    }

    method Negate()
      requires Valid()
      modifies data
      ensures Valid()
      ensures forall i :: 0 <= i <= max ==> (i in Members() <==> i !in old(Members()))
    {
      var nn := MaxWord();
      var i := 0;
      while i <= nn
        invariant 0 <= i <= nn + 1
        invariant forall k :: 0 <= k < data.Length ==>
                    data[k] == if k < i then Not(old(data[k])) else old(data[k])
      {
        data[i] := Not(data[i]);
        i := i + 1;
      }
      assert forall p :: At(data[..], p) ==
               if 0 <= p < 32 * (nn + 1) then !At(old(data[..]), p) else At(old(data[..]), p);
      ClearLast();
    }

    method AndWith(o: Bitvector)
      requires Valid() && o.Valid() && o.max == max && (o == this || o.data != data)
      modifies data
      ensures Valid()
      ensures Members() == old(Members()) * old(o.Members())
    {
      var nn := MaxWord();
      var i := 0;
      while i <= nn
        invariant 0 <= i <= nn + 1
        invariant o != this ==> o.data[..] == old(o.data[..])
        invariant forall k :: 0 <= k < data.Length ==>
                    data[k] == if k < i then And(old(data[k]), old(o.data[k])) else old(data[k])
      {
        data[i] := And(data[i], o.data[i]);
        i := i + 1;
      }
      forall p ensures At(data[..], p) == (At(old(data[..]), p) && At(old(o.data[..]), p)) {
        CombinedBit((x, y) => x && y, data[..], old(data[..]), old(o.data[..]), max, p);
      }
    }

    method XorWith(o: Bitvector)
      requires Valid() && o.Valid() && o.max == max && (o == this || o.data != data)
      modifies data
      ensures Valid()
      ensures Members() == (old(Members()) - old(o.Members())) + (old(o.Members()) - old(Members()))
    {
      var nn := MaxWord();
      var i := 0;
      while i <= nn
        invariant 0 <= i <= nn + 1
        invariant o != this ==> o.data[..] == old(o.data[..])
        invariant forall k :: 0 <= k < data.Length ==>
                    data[k] == if k < i then Xor(old(data[k]), old(o.data[k])) else old(data[k])
      {
        data[i] := Xor(data[i], o.data[i]);
        i := i + 1;
      }
      forall p ensures At(data[..], p) == (At(old(data[..]), p) != At(old(o.data[..]), p)) {
        CombinedBit((x, y) => x != y, data[..], old(data[..]), old(o.data[..]), max, p);
      }
    }

    /** Only the words the old size accounts for are copied when more room is needed, and nothing
        is cleared when the vector shrinks. */
    method Resize(n: nat)
      requires Shape()
      modifies this
      ensures Shape() && max == n - 1
      ensures if n <= old(Kept()) then data == old(data) else fresh(data)
      ensures unchanged(old(data))
      ensures forall i :: At(data[..], i) == (At(old(data[..]), i) && (data == old(data) || i < old(Kept())))
    {
      if n > 64 {
        var want := (n - 1) / 32 + 1;
        var have := if MaxWord() + 1 < 2 then 2 else MaxWord() + 1;
        if want > have {
          var words := new Word[want](_ => ZERO);
          for i := 0 to have
            invariant data == old(data) && unchanged(old(data))
            invariant forall k :: 0 <= k < want ==> words[k] == if k < i then data[k] else ZERO
          {
            words[i] := data[i];
          }
          data := words;
        }
      }
      max := n - 1;
    }

    /** How many bits `resize` copies. */
    ghost function Kept(): int
      reads this
    {
      KeptBits(max)
    }

    /** Growing a vector whose unused bits are clear only adds false bits. Shrinking leaves it so
        exactly when no bit is cut off that is set. */
    method ResizeClean(n: nat)
      requires Valid()
      modifies this
      ensures Shape() && max == n - 1
      ensures Valid() <==> forall i :: i in old(Members()) ==> i < n
      ensures Members() == set i | i in old(Members()) && i < n
    {
      ghost var was := data[..];
      ghost var kept := Kept();
      Resize(n);
      assert forall i :: At(data[..], i) ==> At(was, i);
      forall i | At(was, i) ensures At(data[..], i) && i in old(Members()) {
        assert i <= old(max) < kept;
      }
    }

    /** Shrinking and growing again: bits that were cut off come back set, as far as they lie in
        words that were kept. */
    method Regrow(m: nat, n: nat)
      requires Valid() && m <= max + 1 && m <= n
      modifies this
      ensures Shape() && max == n - 1
      ensures Members() == set i | i in old(Members()) && i < n && i < KeptBits(m - 1)
    {
      ghost var was := data[..];
      Resize(m);
      Resize(n);
    }

    /** `operator|=`. It reads the words of `o` up to this vector's last word. */
    method OrWith(o: Bitvector)
      requires Valid() && o.Valid() && MaxWord() < o.data.Length && (o == this || o.data != data)
      modifies this, data
      ensures Valid() && max == Larger(old(max), old(o.max))
      ensures Members() == old(Members()) + old(o.Members())
    {
      if o.max > max {
        Resize(o.max + 1);
      }
      OrWords(o);
    }

    /** The loop of `operator|=`. */
    method OrWords(o: Bitvector)
      requires Valid() && o.Valid() && o.max <= max && MaxWord() < o.data.Length && (o == this || o.data != data)
      modifies data
      ensures Valid()
      ensures Members() == old(Members()) + old(o.Members())
    {
      var nn := MaxWord();
      var i := 0;
      while i <= nn
        invariant 0 <= i <= nn + 1
        invariant o != this ==> o.data[..] == old(o.data[..])
        invariant forall k :: 0 <= k < data.Length ==>
                    data[k] == if k < i then Or(old(data[k]), old(o.data[k])) else old(data[k])
      {
        data[i] := Or(data[i], o.data[i]);
        i := i + 1;
      }
      forall p ensures At(data[..], p) == (At(old(data[..]), p) || At(old(o.data[..]), p)) {
        CombinedBit((x, y) => x || y, data[..], old(data[..]), old(o.data[..]), max, p);
      }
    }

    /** `or_with_difference`: `diff` gets the bits of `o` that are new. */
    method OrWithDifference(o: Bitvector, diff: Bitvector)
      requires Valid() && o.Valid() && diff.Valid() && o.max == max
      requires o == this || o.data != data
      requires diff != this && diff != o && diff.data != data && diff.data != o.data
      modifies data, diff, diff.data
      ensures Valid() && diff.Shape() && diff.max == max
      ensures Members() == old(Members()) + old(o.Members())
      ensures diff.Members() == old(o.Members()) - old(Members())
    {
      if diff.max != max {
        diff.Resize(max + 1);
      }
      ghost var was, src := data[..], o.data[..];
      DifferenceWords(o, diff.data);
      forall p ensures At(data[..], p) == (At(was, p) || At(src, p)) {
        CombinedBit((x, y) => x || y, data[..], was, src, max, p);
      }
      forall p | 0 <= p <= max ensures At(diff.data[..], p) == (At(src, p) && !At(was, p)) {
      }
    }

    /** The loop of `or_with_difference`. */
    method DifferenceWords(o: Bitvector, to: array<Word>)
      requires Shape() && o.Shape() && o.max == max && MaxWord() < to.Length
      requires (o == this || o.data != data) && to != data && to != o.data
      modifies data, to
      ensures forall k :: 0 <= k < data.Length ==>
                data[k] == if k <= MaxWord() then Or(old(data[k]), old(o.data[k])) else old(data[k])
      ensures forall k :: 0 <= k <= MaxWord() ==> to[k] == And(old(o.data[k]), Not(old(data[k])))
    {
      var nn := MaxWord();
      var i := 0;
      while i <= nn
        invariant 0 <= i <= nn + 1
        invariant o != this ==> o.data[..] == old(o.data[..])
        invariant forall k :: 0 <= k < data.Length ==>
                    data[k] == if k < i then Or(old(data[k]), old(o.data[k])) else old(data[k])
        invariant forall k :: 0 <= k < i ==> to[k] == And(old(o.data[k]), Not(old(data[k])))
      {
        to[i] := And(o.data[i], Not(data[i]));
        data[i] := Or(data[i], o.data[i]);
        i := i + 1;
      }
    }

    method NonzeroIntersection(o: Bitvector) returns (common: bool)
      requires Valid() && o.Valid()
      ensures common <==> Members() * o.Members() != {}
    {
      var nn := o.MaxWord();
      if nn > MaxWord() {
        nn := MaxWord();
      }
      var i := 0;
      while i <= nn
        invariant 0 <= i <= nn + 1
        invariant forall k :: 0 <= k < i ==> And(data[k], o.data[k]) == ZERO
      {
        if And(data[i], o.data[i]) != ZERO {
          ghost var j :| 0 <= j < 32 && And(data[i], o.data[i])[j];
          AtWord(data[..], i, j);
          AtWord(o.data[..], i, j);
          assert 32 * i + j in Members() * o.Members();
          return true;
        }
        i := i + 1;
      }
      forall p | p in Members() ensures p !in o.Members() {
        if p / 32 <= nn {
          assert !And(data[p / 32], o.data[p / 32])[p % 32];
        }
      }
      return false;
    }

    /** `operator==` compares whole words, two of them even for short vectors. */
    predicate Equals(o: Bitvector)
      requires Shape() && o.Shape()
      reads this, data, o, o.data
    {
      max == o.max && if max <= 63 then data[..2] == o.data[..2]
                      else data[..MaxWord() + 1] == o.data[..MaxWord() + 1]
    }

    lemma EqualsMembers(o: Bitvector)
      requires Valid() && o.Valid()
      ensures Equals(o) <==> max == o.max && Members() == o.Members()
    {
      if max == o.max {
        if Equals(o) {
          var n := if max <= 63 then 2 else MaxWord() + 1;
          forall p | 0 <= p <= max ensures At(data[..], p) == At(o.data[..], p) {
            assert data[..n][p / 32] == o.data[..n][p / 32];
          }
        }
        if Members() == o.Members() {
          forall k | 0 <= k < data.Length && k < o.data.Length ensures data[k] == o.data[k] {
            SameWord(data[..], o.data[..], max, k);
          }
        }
      }
    }

    /** One turn of `offset_or`: the low part of a word goes into one word and the high part, if
        there is one, into the next. */
    method SpreadOne(val: Word, pos: nat, b: nat, last: int)
      requires b < 32 && pos < data.Length && last < data.Length
      modifies data
      ensures data[..] == SpreadStep(old(data[..]), val, pos, b, last)
    {
      data[pos] := Or(data[pos], Left(val, b));
      if pos + 1 <= last {
        if b != 0 {
          data[pos + 1] := Or(data[pos + 1], Right(val, 32 - b));
        }
      }
    }

    /** The loop of `offset_or`. It stops behind the last word of either vector; `n` is how many
        words of `o` it has spread. */
    method SpreadWords(o: Bitvector, q: nat, b: nat) returns (ghost n: nat)
      requires Shape() && o.Shape() && if o == this then q == b == 0 else o.data != data
      requires b < 32 && if o.max < 0 then q < data.Length && o.data[0] == ZERO else q + o.MaxWord() <= MaxWord()
      modifies data
      ensures n <= o.data.Length && (n > o.MaxWord() || q + n > MaxWord())
      ensures Spread(data[..], old(data[..]), old(o.data[..]), n, q, b, MaxWord())
    {
      ghost var was, src := data[..], o.data[..];
      var myPos, oPos := q, 0;
      var myMax, oMax := MaxWord(), o.MaxWord();
      SpreadNone(was, src, q, b, myMax);
      n := 0;
      while true
        invariant n == oPos <= oMax || (n == oPos == 0 && src[0] == ZERO)
        invariant 0 <= oPos < |src| && myPos == q + oPos < data.Length
        invariant forall k :: oPos <= k < |src| ==> o.data[k] == src[k]
        invariant Spread(data[..], was, src, n, q, b, myMax)
        decreases oMax - oPos
      {
        SpreadWord(data[..], was, src, oPos, q, b, myMax);
        n := n + 1;
        SpreadOne(o.data[oPos], myPos, b, myMax);
        myPos := myPos + 1;
        if myPos > myMax {
          break;
        }
        oPos := oPos + 1;
        if oPos > oMax {
          break;
        }
      }
    }

    method OffsetOr(o: Bitvector, offset: nat)
      requires Valid() && o.Valid() && offset + o.max <= max && (o == this || o.data != data)
      requires o.max < 0 ==> offset / 32 < data.Length
      modifies data
      ensures Valid()
      ensures Members() == old(Members()) + Shifted(old(o.Members()), offset)
    {
      ghost var was, src := data[..], o.data[..];
      ghost var goal := Members() + Shifted(o.Members(), offset);
      assert goal == Positions(was, max + 1) + Shifted(Positions(src, o.max + 1), offset);
      if o.max < 0 {
        EmptyWord(src);
      }
      WordsFit(offset, o.max, max);
      ghost var n := SpreadWords(o, offset / 32, offset % 32);
      SpreadUnion(data[..], was, max, src, o.max, n, offset, goal);
    }
  }

  lemma WordsFit(offset: nat, small: int, large: int)
    requires -1 <= small && offset + small <= large
    ensures small >= 0 ==> offset / 32 + LastWord(small) <= LastWord(large)
  {
  }

  lemma OffsetBit(now: seq<Word>, was: seq<Word>, max: int, src: seq<Word>, srcMax: int, n: nat, offset: nat, p: int)
    requires n <= |src| && -1 <= max < 32 * |was| && -1 <= srcMax < 32 * |src|
    requires Spread(now, was, src, n, offset / 32, offset % 32, LastWord(max))
    requires n > LastWord(srcMax) || offset / 32 + n > LastWord(max)
    requires Clean(src, srcMax) && offset + srcMax <= max
    ensures At(now, p) == (At(was, p) || At(src, p - offset))
  {
    SpreadBit(now, was, src, n, offset / 32, offset % 32, LastWord(max), p);
    AtPrefix(src, n, p - offset);
  }

  lemma SpreadUnion(now: seq<Word>, was: seq<Word>, max: int, src: seq<Word>, srcMax: int, n: nat, offset: nat,
                    union: set<int>)
    requires n <= |src| && -1 <= max < 32 * |was| && -1 <= srcMax < 32 * |src|
    requires Spread(now, was, src, n, offset / 32, offset % 32, LastWord(max))
    requires n > LastWord(srcMax) || offset / 32 + n > LastWord(max)
    requires Clean(was, max) && Clean(src, srcMax) && offset + srcMax <= max
    requires union == Positions(was, max + 1) + Shifted(Positions(src, srcMax + 1), offset)
    ensures Clean(now, max) && Positions(now, max + 1) == union
  {
    forall p ensures At(now, p) == (At(was, p) || At(src, p - offset)) {
      OffsetBit(now, was, max, src, srcMax, n, offset, p);
    }
    forall p | 0 <= p <= max && At(now, p)
      ensures p in Positions(was, max + 1) + Shifted(Positions(src, srcMax + 1), offset)
    {
      if !At(was, p) {
        assert p - offset in Positions(src, srcMax + 1);
        assert p == (p - offset) + offset;
      }
    }
  }

  lemma AtPrefix(words: seq<Word>, n: nat, i: int)
    requires n <= |words|
    ensures At(words[..n], i) == (At(words, i) && i < 32 * n)
  {
  }

  lemma EmptyWord(words: seq<Word>)
    requires |words| >= 1 && Clean(words, -1)
    ensures words[0] == ZERO
  {
    forall j | 0 <= j < 32 ensures !words[0][j] {
      AtWord(words, 0, j);
    }
  }

  /** The bits in the words a vector has when its last bit is `max`. */
  function KeptBits(max: int): int {
    if LastWord(max) + 1 < 2 then 64 else 32 * (LastWord(max) + 1)
  }

  function Larger(a: int, b: int): int {
    if a < b then b else a
  }
}
