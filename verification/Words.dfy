/** 32-bit unsigned machine words (`uint32_t`) as their bits, least significant bit first.
    The bitwise operators work bit by bit; a shift moves bits and fills in zeros. */
module Words {

  type Word = w: seq<bool> | |w| == 32 witness seq(32, _ => false)

  const ZERO: Word := seq(32, _ => false)

  function Xor(x: Word, y: Word): Word {
    seq(32, i requires 0 <= i < 32 => x[i] != y[i])
  }

  function And(x: Word, y: Word): Word {
    seq(32, i requires 0 <= i < 32 => x[i] && y[i])
  }

  function Or(x: Word, y: Word): Word {
    seq(32, i requires 0 <= i < 32 => x[i] || y[i])
  }

  function Not(x: Word): Word {
    seq(32, i requires 0 <= i < 32 => !x[i])
  }

  /** C's `x << s`. */
  function Left(x: Word, s: nat): Word {
    seq(32, i requires 0 <= i < 32 => i >= s && x[i - s])
  }

  /** C's `x >> s`. */
  function Right(x: Word, s: nat): Word {
    seq(32, i requires 0 <= i < 32 => i + s < 32 && x[i + s])
  }

  /** C's `(1U << k) - 1`: the lowest `k` bits. */
  function LowOnes(k: nat): Word {
    seq(32, i requires 0 <= i < 32 => i < k)
  }

  // ---------------------------------------------------------------- numbers

  /** The lowest `k` bits of a number. */
  function Bits(n: nat, k: nat): (s: seq<bool>)
    ensures |s| == k
    decreases k, n
  {
    if k == 0 then [] else [n % 2 == 1] + Bits(n / 2, k - 1)
  }

  function Number(s: seq<bool>): nat {
    if s == [] then 0 else (if s[0] then 1 else 0) + 2 * Number(s[1..])
  }

  function FromNat(n: nat): Word {
    Bits(n, 32)
  }

  lemma {:induction false} BitsOfNumber(s: seq<bool>)
    ensures Bits(Number(s), |s|) == s
  {
    if s != [] {
      BitsOfNumber(s[1..]);
      assert s == [s[0]] + s[1..];
    }
  }

  lemma {:induction false} NumberOfBits(n: nat, k: nat)
    requires n < PowerOfTwo(k)
    ensures Number(Bits(n, k)) == n
    decreases k
  {
    if k > 0 {
      NumberOfBits(n / 2, k - 1);
    }
  }

  /** Bits that are all clear from position `k` on denote a number below 2^k. */
  lemma {:induction false} NumberBelow(s: seq<bool>, k: nat, bound: nat)
    requires k <= |s| && forall i :: k <= i < |s| ==> !s[i]
    requires bound == PowerOfTwo(k)
    ensures Number(s) < bound
    decreases |s|
  {
    if s != [] {
      if k == 0 {
        NumberBelow(s[1..], 0, 1);
      } else {
        NumberBelow(s[1..], k - 1, PowerOfTwo(k - 1));
      }
    }
  }

  function PowerOfTwo(k: nat): nat {
    if k == 0 then 1 else 2 * PowerOfTwo(k - 1)
  }

  lemma FromNumber(w: Word)
    ensures FromNat(Number(w)) == w
  {
    BitsOfNumber(w);
  }
}
