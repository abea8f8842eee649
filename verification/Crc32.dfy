/** Click's table-driven CRC-32 (`gen_crc_table` and `update_crc`), against the bit-serial
    shift register it replaces. The register is generic in the feedback polynomial `g`, as
    the source means it to be (other degree-32 polynomials may be substituted). */
module Crc32 {
  import opened Basics
  import opened Words

  // ---------------------------------------------------------------- the shift register

  /** One turn of the inner loop of `gen_crc_table`: clock the register once. */
  function Step(r: Word, g: Word): Word {
    if r[31] then Xor(Left(r, 1), g) else Left(r, 1)
  }

  function Steps(r: Word, n: nat, g: Word): Word
    decreases n, |r|
  {
    if n == 0 then r else Steps(Step(r, g), n - 1, g)
  }

  /** The hardware register: a data bit enters at the top. */
  function ShiftIn(r: Word, bit: bool, g: Word): Word {
    Step(r[31 := r[31] != bit], g)
  }

  function Serial(r: Word, bits: seq<bool>, g: Word): Word
    decreases |bits|
  {
    if bits == [] then r else Serial(ShiftIn(r, bits[0], g), bits[1..], g)
  }

  /** The bits of a byte, most significant first: the order in which they are processed. */
  function ByteBits(b: Byte): (s: seq<bool>)
    ensures |s| == 8
  {
    seq(8, k requires 0 <= k < 8 => Bits(b, 8)[7 - k])
  }

  function DataBits(data: seq<Byte>): (s: seq<bool>)
    ensures |s| == 8 * |data|
  {
    if data == [] then [] else ByteBits(data[0]) + DataBits(data[1..])
  }

  // ---------------------------------------------------------------- linearity

  lemma StepXor(x: Word, y: Word, g: Word)
    ensures Step(Xor(x, y), g) == Xor(Step(x, g), Step(y, g))
  {
  }

  lemma {:induction false} StepsXor(x: Word, y: Word, n: nat, g: Word)
    ensures Steps(Xor(x, y), n, g) == Xor(Steps(x, n, g), Steps(y, n, g))
    decreases n
  {
    if n > 0 {
      StepXor(x, y, g);
      StepsXor(Step(x, g), Step(y, g), n - 1, g);
    }
  }

  /** Clocking loses nothing when the polynomial has a constant term: the bit that leaves at
      the top shows at the bottom. */
  lemma StepInjective(x: Word, y: Word, g: Word)
    requires g[0] && Step(x, g) == Step(y, g)
    ensures x == y
  {
    assert Step(x, g)[0] == x[31] && Step(y, g)[0] == y[31];
    forall i | 0 <= i < 31
      ensures x[i] == y[i]
    {
      assert Step(x, g)[i + 1] == Step(y, g)[i + 1];
    }
  }

  lemma {:induction false} StepsInjective(x: Word, y: Word, n: nat, g: Word)
    requires g[0] && Steps(x, n, g) == Steps(y, n, g)
    ensures x == y
    decreases n
  {
    if n > 0 {
      StepsInjective(Step(x, g), Step(y, g), n - 1, g);
      StepInjective(x, y, g);
    }
  }

  lemma {:induction false} SerialInjective(x: Word, y: Word, bits: seq<bool>, g: Word)
    requires g[0] && Serial(x, bits, g) == Serial(y, bits, g)
    ensures x == y
    decreases |bits|
  {
    if bits != [] {
      SerialInjective(ShiftIn(x, bits[0], g), ShiftIn(y, bits[0], g), bits[1..], g);
      var x', y' := x[31 := x[31] != bits[0]], y[31 := y[31] != bits[0]];
      StepInjective(x', y', g);
      assert forall i :: 0 <= i < 32 && i != 31 ==> x[i] == x'[i] && y[i] == y'[i];
      assert x'[31] == y'[31];
    }
  }

  lemma {:induction false} SerialConcat(r: Word, a: seq<bool>, b: seq<bool>, g: Word)
    ensures Serial(r, a + b, g) == Serial(Serial(r, a, g), b, g)
    decreases |a|
  {
    if a == [] {
      assert a + b == b;
    } else {
      assert (a + b)[1..] == a[1..] + b;
      SerialConcat(ShiftIn(r, a[0], g), a[1..], b, g);
    }
  }

  // ---------------------------------------------------------------- up to 32 bits at once

  /** Up to 32 bits in a word, first bit on top. */
  function Placed(bits: seq<bool>): Word
    requires |bits| <= 32
  {
    seq(32, i requires 0 <= i < 32 => 31 - i < |bits| && bits[31 - i])
  }

  lemma PlacedStep(r: Word, bits: seq<bool>, g: Word)
    requires 0 < |bits| <= 32
    ensures Step(Xor(r, Placed(bits)), g) == Xor(ShiftIn(r, bits[0], g), Placed(bits[1..]))
  {
    var low := Right(Placed(bits[1..]), 1);
    var top := r[31 := r[31] != bits[0]];
    assert Xor(r, Placed(bits)) == Xor(top, low);
    StepXor(top, low, g);
    assert Step(low, g) == Placed(bits[1..]);
  }

  /** Feeding up to 32 bits is the same as adding them to the register at once and clocking it. */
  lemma {:induction false} SerialIsSteps(r: Word, bits: seq<bool>, g: Word)
    requires |bits| <= 32
    ensures Serial(r, bits, g) == Steps(Xor(r, Placed(bits)), |bits|, g)
    decreases |bits|
  {
    if bits == [] {
      assert Xor(r, Placed(bits)) == r;
    } else {
      PlacedStep(r, bits, g);
      SerialIsSteps(ShiftIn(r, bits[0], g), bits[1..], g);
    }
  }

  lemma {:induction false} StepsOfLow(x: Word, n: nat, g: Word)
    requires n <= 32 && forall i :: 32 - n <= i < 32 ==> !x[i]
    ensures Steps(x, n, g) == Left(x, n)
    decreases n
  {
    if n == 0 {
      assert Left(x, 0) == x;
    } else {
      StepsOfLow(Left(x, 1), n - 1, g);
      assert Left(Left(x, 1), n - 1) == Left(x, n);
    }
  }

  // ---------------------------------------------------------------- the table

  /** What `gen_crc_table` puts at index `i`. */
  function Entry(i: nat, g: Word): Word {
    Steps(Left(FromNat(i), 24), 8, g)
  }

  /** The index into the table for the next byte. */
  function TableIndex(r: Word, b: Byte): (i: nat)
    ensures i < 256
  {
    var w := And(Xor(Right(r, 24), FromNat(b)), LowOnes(8));
    NumberBelow(w, 8, 256);
    Number(w)
  }

  lemma {:induction false} BitsPrefix(n: nat, k: nat, m: nat, i: nat)
    requires i < k <= m
    ensures Bits(n, k)[i] == Bits(n, m)[i]
    decreases i
  {
    if i > 0 {
      BitsPrefix(n / 2, k - 1, m - 1, i - 1);
    }
  }

  function TopByte(x: Word): Word {
    seq(32, i requires 0 <= i < 32 => i >= 24 && x[i])
  }

  function LowBytes(x: Word): Word {
    seq(32, i requires 0 <= i < 32 => i < 24 && x[i])
  }

  /** The index, shifted to the top, is the top byte of the register plus the data byte. */
  lemma IndexWord(r: Word, b: Byte)
    ensures Left(FromNat(TableIndex(r, b)), 24) == TopByte(Xor(r, Placed(ByteBits(b))))
  {
    var w := And(Xor(Right(r, 24), FromNat(b)), LowOnes(8));
    FromNumber(w);
    IndexBits(w, r, b);
  }

  lemma IndexBits(w: Word, r: Word, b: Byte)
    requires w == And(Xor(Right(r, 24), FromNat(b)), LowOnes(8))
    ensures Left(w, 24) == TopByte(Xor(r, Placed(ByteBits(b))))
  {
    forall i | 0 <= i < 32
      ensures Left(w, 24)[i] == TopByte(Xor(r, Placed(ByteBits(b))))[i]
    {
      if i >= 24 {
        var k := i - 24;
        assert w[k] == (Right(r, 24)[k] != FromNat(b)[k]);
        BitsPrefix(b, 8, 32, k);
      }
    }
  }

  lemma WordSplit(r: Word, p: Word)
    requires forall i :: 0 <= i < 24 ==> !p[i]
    ensures Xor(r, p) == Xor(LowBytes(Xor(r, p)), TopByte(Xor(r, p)))
    ensures Left(LowBytes(Xor(r, p)), 8) == Left(r, 8)
  {
  }

  /** Clocking a sum whose second part lies in the top byte: only that byte needs the feedback. */
  lemma SplitSteps(r: Word, p: Word, n: nat, g: Word)
    requires n == 8 && forall i :: 0 <= i < 24 ==> !p[i]
    ensures Steps(Xor(r, p), n, g) == Xor(Left(r, n), Steps(TopByte(Xor(r, p)), n, g))
  {
    var sum := Xor(r, p);
    WordSplit(r, p);
    StepsXor(LowBytes(sum), TopByte(sum), n, g);
    StepsOfLow(LowBytes(sum), n, g);
  }

  /** The table does eight clock ticks at once. */
  lemma TableStep(r: Word, b: Byte, g: Word)
    ensures Xor(Left(r, 8), Entry(TableIndex(r, b), g)) == Serial(r, ByteBits(b), g)
  {
    SerialIsSteps(r, ByteBits(b), g);
    SplitSteps(r, Placed(ByteBits(b)), 8, g);
    IndexWord(r, b);
  }

  // ---------------------------------------------------------------- crc32.c

  /** The constant 0x04c11db7, least significant bit first. */
  const POLYNOMIAL: Word := [
    true, true, true, false,  // 0x7
    true, true, false, true,  // 0xb
    true, false, true, true,  // 0xd
    true, false, false, false,  // 0x1
    true, false, false, false,  // 0x1
    false, false, true, true,  // 0xc
    false, false, true, false,  // 0x4
    false, false, false, false  // 0x0
  ]

  /** The checksum of a block from the accumulator `r`, bit by bit. */
  function Crc(r: Word, data: seq<Byte>): Word {
    Serial(r, DataBits(data), POLYNOMIAL)
  }

  lemma {:induction false} DataBitsConcat(a: seq<Byte>, b: seq<Byte>)
    ensures DataBits(a + b) == DataBits(a) + DataBits(b)
  {
    if a == [] {
      assert a + b == b;
    } else {
      assert (a + b)[1..] == a[1..] + b;
      DataBitsConcat(a[1..], b);
    }
  }

  /** Updating over two blocks in turn is updating over their concatenation. */
  lemma CrcConcat(r: Word, a: seq<Byte>, b: seq<Byte>)
    ensures Crc(r, a + b) == Crc(Crc(r, a), b)
  {
    DataBitsConcat(a, b);
    SerialConcat(r, DataBits(a), DataBits(b), POLYNOMIAL);
  }

  /** The inner loop of `gen_crc_table`. */
  method Remainder(i: nat, g: Word) returns (accum: Word)
    ensures accum == Entry(i, g)
  {
    accum := Left(FromNat(i), 24);
    var j := 0;
    while j < 8
      invariant 0 <= j <= 8
      invariant Steps(accum, 8 - j, g) == Entry(i, g)
    {
      if accum[31] {
        accum := Xor(Left(accum, 1), g);
      } else {
        accum := Left(accum, 1);
      }
      j := j + 1;
    }
  }

  /** The static table of crc32.c and the flag that says it has been filled. */
  class CrcTable {
    var initialized: bool
    const table: array<Word>

    ghost predicate Valid()
      reads this, table
    {
      && table.Length == 256
      && (initialized ==> forall i :: 0 <= i < 256 ==> table[i] == Entry(i, POLYNOMIAL))
    }

    constructor ()
      ensures Valid() && fresh(table) && !initialized
    {
      initialized := false;
      table := new Word[256](_ => ZERO);
    }

    method Generate(g: Word)
      requires table.Length == 256
      modifies table
      ensures forall i :: 0 <= i < 256 ==> table[i] == Entry(i, g)
    {
      for i := 0 to 256
        invariant forall k :: 0 <= k < i ==> table[k] == Entry(k, g)
      {
        table[i] := Remainder(i, g);
      }
    }

    /** `update_crc`: for every accumulator and every block, the bit-serial checksum. */
    method Update(accum: Word, data: seq<Byte>) returns (r: Word)
      requires Valid()
      modifies this, table
      ensures Valid() && initialized
      ensures r == Crc(accum, data)
    {
      if !initialized {
        initialized := true;
        Generate(POLYNOMIAL);
      }
      r := accum;
      for j := 0 to |data|
        invariant Valid() && initialized
        invariant Crc(accum, data) == Crc(r, data[j..])
      {
        ghost var before := r;
        var i := TableIndex(r, data[j]);
        r := Xor(Left(r, 8), table[i]);
        CrcByte(before, data, j);
      }
    }
  }

  /** One turn of the loop of `update_crc`. */
  lemma CrcByte(r: Word, data: seq<Byte>, j: nat)
    requires j < |data|
    ensures Crc(r, data[j..]) == Crc(Xor(Left(r, 8), Entry(TableIndex(r, data[j]), POLYNOMIAL)), data[j + 1..])
  {
    TableStep(r, data[j], POLYNOMIAL);
    assert data[j..][1..] == data[j + 1..];
    SerialConcat(r, ByteBits(data[j]), DataBits(data[j + 1..]), POLYNOMIAL);
  }

  // ---------------------------------------------------------------- what the checksum detects

  /** The window is where the two bit strings may differ. */
  predicate DifferWithin(a: seq<bool>, b: seq<bool>, from: nat, to: nat) {
    && |a| == |b| && from <= to <= |a|
    && a[..from] == b[..from] && a[to..] == b[to..]
  }

  lemma PlacedInjective(a: seq<bool>, b: seq<bool>)
    requires |a| == |b| <= 32 && Placed(a) == Placed(b)
    ensures a == b
  {
    forall k | 0 <= k < |a|
      ensures a[k] == b[k]
    {
      assert Placed(a)[31 - k] == Placed(b)[31 - k];
    }
  }

  /** Every error burst of at most 32 bits, wherever it starts, is detected. */
  lemma BurstDetected(r: Word, a: seq<bool>, b: seq<bool>, from: nat, to: nat, g: Word)
    requires g[0] && DifferWithin(a, b, from, to) && to - from <= 32
    requires Serial(r, a, g) == Serial(r, b, g)
    ensures a == b
  {
    var s := Serial(r, a[..from], g);
    var wa, wb := a[from..to], b[from..to];
    assert a == a[..from] + (wa + a[to..]) && b == b[..from] + (wb + b[to..]);
    SerialConcat(r, a[..from], wa + a[to..], g);
    SerialConcat(r, b[..from], wb + b[to..], g);
    SerialConcat(s, wa, a[to..], g);
    SerialConcat(s, wb, b[to..], g);
    SerialInjective(Serial(s, wa, g), Serial(s, wb, g), a[to..], g);
    SameWindow(s, wa, wb, g);
  }

  lemma SameWindow(s: Word, a: seq<bool>, b: seq<bool>, g: Word)
    requires g[0] && |a| == |b| <= 32 && Serial(s, a, g) == Serial(s, b, g)
    ensures a == b
  {
    SerialIsSteps(s, a, g);
    SerialIsSteps(s, b, g);
    StepsInjective(Xor(s, Placed(a)), Xor(s, Placed(b)), |a|, g);
    assert Xor(s, Xor(s, Placed(a))) == Placed(a) && Xor(s, Xor(s, Placed(b))) == Placed(b);
    PlacedInjective(a, b);
  }

  lemma {:induction false} DataBitsInjective(a: seq<Byte>, b: seq<Byte>)
    requires DataBits(a) == DataBits(b)
    ensures a == b
  {
    assert |a| == |b|;
    if a != [] {
      assert DataBits(a)[..8] == ByteBits(a[0]) && DataBits(b)[..8] == ByteBits(b[0]);
      ByteBitsInjective(a[0], b[0]);
      assert DataBits(a)[8..] == DataBits(a[1..]) && DataBits(b)[8..] == DataBits(b[1..]);
      DataBitsInjective(a[1..], b[1..]);
    }
  }

  lemma ByteBitsInjective(x: Byte, y: Byte)
    requires ByteBits(x) == ByteBits(y)
    ensures x == y
  {
    forall k | 0 <= k < 8
      ensures Bits(x, 8)[k] == Bits(y, 8)[k]
    {
      assert ByteBits(x)[7 - k] == ByteBits(y)[7 - k];
    }
    assert Bits(x, 8) == Bits(y, 8);
    NumberOfBits(x, 8);
    NumberOfBits(y, 8);
  }

  /** Two different blocks of the same length that agree outside at most four consecutive bytes have
      different checksums, whatever the accumulator. */
  lemma FourBytesDetected(r: Word, a: seq<Byte>, b: seq<Byte>, k: nat, n: nat)
    requires n <= 4 && |a| == |b| && k + n <= |a| && a[..k] == b[..k] && a[k + n..] == b[k + n..]
    requires Crc(r, a) == Crc(r, b)
    ensures a == b
  {
    SplitBits(a, k);
    SplitBits(b, k);
    SplitBits(a, k + n);
    SplitBits(b, k + n);
    BurstDetected(r, DataBits(a), DataBits(b), 8 * k, 8 * (k + n), POLYNOMIAL);
    DataBitsInjective(a, b);
  }

  lemma SplitBits(a: seq<Byte>, k: nat)
    requires k <= |a|
    ensures DataBits(a)[..8 * k] == DataBits(a[..k]) && DataBits(a)[8 * k..] == DataBits(a[k..])
  {
    assert a == a[..k] + a[k..];
    DataBitsConcat(a[..k], a[k..]);
  }

  // ---------------------------------------------------------------- appending the checksum

  /** Eight bits of a word as a byte: `(r >> low) & 0xff`. */
  function ByteAt(r: Word, low: nat): Byte
    requires low <= 24
  {
    NumberBelow(r[low..low + 8], 8, 256);
    Number(r[low..low + 8])
  }

  /** A checksum as it is appended to the data: most significant byte first. */
  function Appended(r: Word): seq<Byte> {
    [ByteAt(r, 24), ByteAt(r, 16), ByteAt(r, 8), ByteAt(r, 0)]
  }

  lemma ByteAtBits(r: Word, low: nat)
    requires low <= 24
    ensures ByteBits(ByteAt(r, low)) == seq(8, k requires 0 <= k < 8 => r[low + 7 - k])
  {
    BitsOfNumber(r[low..low + 8]);
  }

  lemma FourByteBits(a: Byte, b: Byte, c: Byte, d: Byte)
    ensures DataBits([a, b, c, d]) == ByteBits(a) + ByteBits(b) + ByteBits(c) + ByteBits(d)
  {
    assert [a, b, c, d] == [a] + [b] + [c] + [d];
    DataBitsConcat([a] + [b] + [c], [d]);
    DataBitsConcat([a] + [b], [c]);
    DataBitsConcat([a], [b]);
    forall x: Byte
      ensures DataBits([x]) == ByteBits(x)
    {
      assert DataBits([x]) == ByteBits(x) + DataBits([]);
    }
  }

  lemma AppendedBits(r: Word)
    ensures Placed(DataBits(Appended(r))) == r
  {
    ByteAtBits(r, 24);
    ByteAtBits(r, 16);
    ByteAtBits(r, 8);
    ByteAtBits(r, 0);
    FourByteBits(ByteAt(r, 24), ByteAt(r, 16), ByteAt(r, 8), ByteAt(r, 0));
  }

  lemma {:induction false} StepsOfZero(n: nat, g: Word)
    ensures Steps(ZERO, n, g) == ZERO
  {
    if n > 0 {
      assert Step(ZERO, g) == ZERO;
      StepsOfZero(n - 1, g);
    }
  }

  /** The receiver's test: four bytes after the data bring the accumulator to zero if and only
      if they are the checksum of the data, most significant byte first. */
  lemma AppendedChecks(r: Word, data: seq<Byte>, tail: seq<Byte>)
    requires |tail| == 4
    ensures Crc(r, data + tail) == ZERO <==> tail == Appended(Crc(r, data))
  {
    var s := Crc(r, data);
    CrcConcat(r, data, tail);
    var bits := DataBits(Appended(s));
    SerialIsSteps(s, bits, POLYNOMIAL);
    AppendedBits(s);
    assert Xor(s, s) == ZERO;
    StepsOfZero(32, POLYNOMIAL);
    assert Crc(s, Appended(s)) == ZERO;
    if Crc(s, tail) == ZERO {
      SameWindow(s, DataBits(tail), bits, POLYNOMIAL);
      DataBitsInjective(tail, Appended(s));
    }
  }
}
