/** The Internet checksum of xping (`in_cksum`), against the 16-bit one's-complement sum of
    section 1 of RFC 1071. */
module Checksum {
  import opened Basics
  import opened Digits

  /** A 16-bit word in memory, read in either byte order. */
  function WordOf(first: Byte, second: Byte, little: bool): nat {
    if little then first + 256 * second else 256 * first + second
  }

  /** The 16-bit words of a message; an odd byte is followed by a zero byte. */
  function WordsOf(data: seq<Byte>, little: bool): seq<nat> {
    if data == [] then []
    else if |data| == 1 then [WordOf(data[0], 0, little)]
    else [WordOf(data[0], data[1], little)] + WordsOf(data[2..], little)
  }

  predicate Small(words: seq<nat>) {
    forall i :: 0 <= i < |words| ==> words[i] < 0x1_0000
  }

  lemma {:induction false} WordsSmall(data: seq<Byte>, little: bool)
    ensures Small(WordsOf(data, little)) && |WordsOf(data, little)| == (|data| + 1) / 2
  {
    if |data| > 1 {
      WordsSmall(data[2..], little);
    }
  }

  function Total(words: seq<nat>): nat {
    if words == [] then 0 else words[0] + Total(words[1..])
  }

  lemma {:induction false} TotalBound(words: seq<nat>)
    requires Small(words)
    ensures Total(words) <= 0xFFFF * |words|
  {
    if words != [] {
      TotalBound(words[1..]);
    }
  }

  // ---------------------------------------------------------------- one's-complement sums

  /** 16-bit addition with the carry added back in. */
  function AddCarry(a: nat, b: nat): nat {
    if a + b < 0x1_0000 then a + b else a + b - 0xFFFF
  }

  /** The 16-bit one's-complement sum. */
  function OnesSum(words: seq<nat>): nat {
    if words == [] then 0 else AddCarry(words[0], OnesSum(words[1..]))
  }

  /** `r` is what a sum of `n` folds to: it is the same modulo 65535, and zero only for zero. */
  predicate Folds(n: nat, r: int) {
    0 <= r < 0x1_0000 && (n - r) % 0xFFFF == 0 && (r == 0 <==> n == 0)
  }

  lemma FoldsOnce(n: nat, r: int, s: int)
    requires Folds(n, r) && Folds(n, s)
    ensures r == s
  {
    assert ((n - r) - (n - s)) % 0xFFFF == 0;
  }

  lemma {:induction false} OnesSumFolds(words: seq<nat>)
    requires Small(words)
    ensures Folds(Total(words), OnesSum(words))
  {
    if words != [] {
      OnesSumFolds(words[1..]);
    }
  }

  /** What `in_cksum` does to the 32-bit sum at the end. */
  function Folded(sum: nat): nat {
    var once := sum / 0x1_0000 + sum % 0x1_0000;
    var twice := once + once / 0x1_0000;
    twice % 0x1_0000
  }

  /** Two folds are enough for any sum an `int` can hold. */
  lemma FoldedFolds(sum: nat)
    requires sum <= INT_MAX
    ensures Folds(sum, Folded(sum))
  {
    var h, l := sum / 0x1_0000, sum % 0x1_0000;
    assert sum == 0x1_0000 * h + l;
    var once := h + l;
    assert sum - once == 0xFFFF * h;
  }

  /** The checksum: the complement of the one's-complement sum. */
  function Cksum(data: seq<Byte>, little: bool): nat {
    WordsSmall(data, little);
    OnesSumFolds(WordsOf(data, little));
    0xFFFF - OnesSum(WordsOf(data, little))
  }

  lemma FoldedTotal(words: seq<nat>)
    requires Small(words) && |words| <= 0x8000
    ensures Total(words) <= INT_MAX && Folded(Total(words)) == OnesSum(words)
  {
    TotalBound(words);
    OnesSumFolds(words);
    FoldedFolds(Total(words));
    FoldsOnce(Total(words), Folded(Total(words)), OnesSum(words));
  }

  /** The sum over the words from byte `w` on. */
  ghost function TotalFrom(data: seq<Byte>, w: nat, little: bool): nat
    requires w <= |data|
  {
    Total(WordsOf(data[w..], little))
  }

  lemma TotalStep(data: seq<Byte>, w: nat, little: bool)
    requires w <= |data|
    ensures TotalFrom(data, w, little) ==
            if w == |data| then 0
            else if w + 1 == |data| then WordOf(data[w], 0, little)
            else WordOf(data[w], data[w + 1], little) + TotalFrom(data, w + 2, little)
  {
    if w + 1 == |data| {
      assert WordsOf(data[w..], little) == [WordOf(data[w], 0, little)];
      assert Total(WordsOf(data[w..], little)[1..]) == 0;
    } else if w < |data| {
      assert data[w..][2..] == data[w + 2..];
      assert WordsOf(data[w..], little)[1..] == WordsOf(data[w + 2..], little);
    }
  }

  /** The loop of `in_cksum` and the odd byte. */
  method SumWords(data: seq<Byte>, little: bool) returns (sum: nat)
    ensures sum == Total(WordsOf(data, little))
  {
    assert data[0..] == data;
    ghost var goal := TotalFrom(data, 0, little);
    var nleft := |data|;
    var w := 0;
    sum := 0;
    while nleft > 1
      invariant 0 <= nleft && w + nleft == |data| && w >= 0
      invariant sum + TotalFrom(data, w, little) == goal
    {
      TotalStep(data, w, little);
      sum := sum + WordOf(data[w], data[w + 1], little);
      w := w + 2;
      nleft := nleft - 2;
    }
    TotalStep(data, w, little);
    if nleft == 1 {
      sum := sum + WordOf(data[w], 0, little);
    }
  }

  /** `in_cksum`. Up to 65536 bytes the sum fits an `int`. */
  method InCksum(data: seq<Byte>, little: bool) returns (answer: nat)
    requires |data| <= 0x1_0000
    ensures answer == Cksum(data, little)
  {
    WordsSmall(data, little);
    FoldedTotal(WordsOf(data, little));
    var sum := SumWords(data, little);
    sum := sum / 0x1_0000 + sum % 0x1_0000;
    sum := sum + sum / 0x1_0000;
    answer := 0xFFFF - sum % 0x1_0000;
  }

  // ---------------------------------------------------------------- storing the checksum

  /** The message with a 16-bit word stored at an even position. */
  function Stored(data: seq<Byte>, at: nat, w: nat, little: bool): seq<Byte>
    requires at + 1 < |data| && w < 0x1_0000
  {
    var first, second := if little then w % 256 else w / 256, if little then w / 256 else w % 256;
    data[at := first][at + 1 := second]
  }

  lemma {:induction false} WordsStored(data: seq<Byte>, at: nat, w: nat, little: bool)
    requires at % 2 == 0 && at + 1 < |data| && w < 0x1_0000
    ensures |WordsOf(data, little)| > at / 2
    ensures WordsOf(Stored(data, at, w, little), little) == WordsOf(data, little)[at / 2 := w]
    decreases |data|
  {
    var next := Stored(data, at, w, little);
    if at == 0 {
      assert next[2..] == data[2..];
    } else {
      WordsStored(data[2..], at - 2, w, little);
      assert next[2..] == Stored(data[2..], at - 2, w, little);
    }
  }

  lemma {:induction false} TotalChanged(words: seq<nat>, k: nat, w: nat)
    requires k < |words|
    ensures Total(words[k := w]) == Total(words) - words[k] + w
    decreases k
  {
    var next := words[k := w];
    if k == 0 {
      assert next[1..] == words[1..];
    } else {
      TotalChanged(words[1..], k - 1, w);
      assert next[1..] == words[1..][k - 1 := w];
    }
  }

  lemma {:induction false} WordsZero(data: seq<Byte>, at: nat, little: bool)
    requires at % 2 == 0 && at + 1 < |data| && data[at] == 0 && data[at + 1] == 0
    ensures |WordsOf(data, little)| > at / 2 && WordsOf(data, little)[at / 2] == 0
    decreases |data|
  {
    if at > 0 {
      WordsZero(data[2..], at - 2, little);
    }
  }

  lemma FoldsToOnes(n: nat, r: int)
    requires Folds(n, r)
    ensures Folds(n + (0xFFFF - r), 0xFFFF)
  {
  }

  /** A message whose checksum has been stored in a field that was zero checks out as 0, as the
      receiver of an echo request expects. */
  lemma ChecksOut(data: seq<Byte>, at: nat, little: bool)
    requires at % 2 == 0 && at + 1 < |data| && data[at] == 0 && data[at + 1] == 0
    ensures Cksum(data, little) < 0x1_0000
    ensures Cksum(Stored(data, at, Cksum(data, little), little), little) == 0
  {
    var words, c := WordsOf(data, little), Cksum(data, little);
    WordsSmall(data, little);
    OnesSumFolds(words);
    WordsStored(data, at, c, little);
    WordsZero(data, at, little);
    TotalChanged(words, at / 2, c);
    FoldsToOnes(Total(words), OnesSum(words));
    var next := words[at / 2 := c];
    OnesSumFolds(next);
    FoldsOnce(Total(next), OnesSum(next), 0xFFFF);
  }

  // ---------------------------------------------------------------- byte order

  function Swap(w: nat): nat
    requires w < 0x1_0000
  {
    w % 256 * 256 + w / 256
  }

  function Swapped(words: seq<nat>): (swapped: seq<nat>)
    requires Small(words)
    ensures Small(swapped)
  {
    seq(|words|, i requires 0 <= i < |words| => Swap(words[i]))
  }

  lemma SwapTimes(w: nat)
    requires w < 0x1_0000
    ensures 256 * w == Swap(w) + 0xFFFF * (w / 256)
    ensures Swap(w) < 0x1_0000 && (Swap(w) == 0 <==> w == 0) && Swap(0xFFFF - w) == 0xFFFF - Swap(w)
  {
  }

  /** Swapping the bytes of every word multiplies the sum by 256, modulo 65535. */
  lemma {:induction false} TotalSwapped(words: seq<nat>) returns (k: nat)
    requires Small(words)
    ensures 256 * Total(words) == Total(Swapped(words)) + 0xFFFF * k
    ensures Total(Swapped(words)) == 0 <==> Total(words) == 0
  {
    if words == [] {
      k := 0;
    } else {
      k := TotalSwapped(words[1..]);
      SwapTimes(words[0]);
      assert Swapped(words)[1..] == Swapped(words[1..]);
      k := k + words[0] / 256;
    }
  }

  lemma OnesSumSwapped(words: seq<nat>)
    requires Small(words)
    ensures OnesSum(words) < 0x1_0000 && OnesSum(Swapped(words)) == Swap(OnesSum(words))
  {
    OnesSumFolds(words);
    OnesSumFolds(Swapped(words));
    var k := TotalSwapped(words);
    var r := OnesSum(words);
    SwapTimes(r);
    assert Folds(Total(Swapped(words)), Swap(r)) by {
      SwapFolds(Total(words), Total(Swapped(words)), k, r);
    }
    FoldsOnce(Total(Swapped(words)), OnesSum(Swapped(words)), Swap(r));
  }

  lemma SwapFolds(n: nat, m: nat, k: nat, r: nat)
    requires Folds(n, r) && 256 * n == m + 0xFFFF * k && (m == 0 <==> n == 0)
    ensures Folds(m, Swap(r))
  {
    SwapTimes(r);
    var d := (n - r) / 0xFFFF;
    assert n - r == 0xFFFF * d;
    assert m - Swap(r) == 0xFFFF * (256 * d + r / 256 - k);
  }

  lemma {:induction false} WordsSwapped(data: seq<Byte>)
    ensures Small(WordsOf(data, true)) && Swapped(WordsOf(data, true)) == WordsOf(data, false)
  {
    WordsSmall(data, true);
    if |data| == 1 {
      SwapWord(data[0], 0);
    } else if |data| > 1 {
      SwapWord(data[0], data[1]);
      WordsSwapped(data[2..]);
      assert Swapped(WordsOf(data, true)) == [Swap(WordOf(data[0], data[1], true))] + Swapped(WordsOf(data[2..], true));
    }
  }

  lemma SwapWord(first: Byte, second: Byte)
    ensures Swap(WordOf(first, second, true)) == WordOf(first, second, false)
  {
  }

  /** The checksum computed on a machine of the other byte order is the byte-swapped number, so
      both store the same two bytes into the message. */
  lemma ByteOrder(data: seq<Byte>)
    ensures Cksum(data, true) < 0x1_0000 && Cksum(data, false) == Swap(Cksum(data, true))
  {
    WordsSwapped(data);
    OnesSumSwapped(WordsOf(data, true));
    SwapTimes(OnesSum(WordsOf(data, true)));
  }

  lemma SameBytesStored(data: seq<Byte>, at: nat)
    requires at + 1 < |data|
    ensures Cksum(data, true) < 0x1_0000 && Cksum(data, false) < 0x1_0000
    ensures Stored(data, at, Cksum(data, true), true) == Stored(data, at, Cksum(data, false), false)
  {
    ByteOrder(data);
  }
}
