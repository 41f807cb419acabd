/** A feedback register over any word type: bits are added at the low end and the word is shifted. */
module LinearRegister {

  function Iterate<T>(shift: T -> T, c: T, k: nat): T {
    if k == 0 then c else shift(Iterate(shift, c, k - 1))
  }

  /** The bits enter one at a time: add, then shift. */
  function Feed<T>(shift: T -> T, add: (T, T) -> T, c: T, bits: seq<T>): T
    decreases |bits|
  {
    if |bits| == 0 then c else Feed(shift, add, shift(add(c, bits[0])), bits[1..])
  }

  ghost predicate Linear<T(!new)>(shift: T -> T, add: (T, T) -> T) {
    forall x, y :: shift(add(x, y)) == add(shift(x), shift(y))
  }

  ghost predicate Associative<T(!new)>(add: (T, T) -> T) {
    forall x, y, z :: add(add(x, y), z) == add(x, add(y, z))
  }

  lemma {:induction false} IterateIsLinear<T(!new)>(shift: T -> T, add: (T, T) -> T, x: T, y: T, k: nat)
    requires Linear(shift, add)
    ensures Iterate(shift, add(x, y), k) == add(Iterate(shift, x, k), Iterate(shift, y, k))
  {
    if k > 0 {
      IterateIsLinear(shift, add, x, y, k - 1);
    }
  }

  lemma {:induction false} IterateFirst<T>(shift: T -> T, c: T, k: nat)
    requires k > 0
    ensures Iterate(shift, c, k) == Iterate(shift, shift(c), k - 1)
  {
    if k > 1 {
      IterateFirst(shift, c, k - 1);
    }
  }

  /** The words v hold the message that is still to come: each is its lowest bit plus the next one, shifted up. */
  ghost predicate Unrolls<T>(shift: T -> T, add: (T, T) -> T, bits: seq<T>, highs: seq<T>, v: seq<T>) {
    && |highs| == |bits| && |v| == |bits| + 1
    && forall i :: 0 <= i < |bits| ==> v[i] == add(bits[i], highs[i]) && shift(highs[i]) == v[i + 1]
  }

  /** Feeding the bits one by one is adding the whole message and shifting. */
  lemma {:induction false} FeedAtOnce<T(!new)>(
    shift: T -> T, add: (T, T) -> T, c: T, bits: seq<T>, highs: seq<T>, v: seq<T>)
    requires Linear(shift, add) && Associative(add) && Unrolls(shift, add, bits, highs, v)
    requires forall x :: add(x, v[|bits|]) == x
    ensures Feed(shift, add, c, bits) == Iterate(shift, add(c, v[0]), |bits|)
    decreases |bits|
  {
    if |bits| > 0 {
      var next := shift(add(c, bits[0]));
      FeedAtOnce(shift, add, next, bits[1..], highs[1..], v[1..]);
      assert add(c, v[0]) == add(add(c, bits[0]), highs[0]);
      IterateFirst(shift, add(c, v[0]), |bits|);
    }
  }

  /** Where a register only shifts zeros out, it is a plain shift. */
  lemma {:induction false} IterateSame<T>(shift: T -> T, plain: T -> T, c: T, k: nat)
    requires forall i: nat :: i < k ==> shift(Iterate(plain, c, i)) == plain(Iterate(plain, c, i))
    ensures Iterate(shift, c, k) == Iterate(plain, c, k)
  {
    if k > 0 {
      IterateSame(shift, plain, c, k - 1);
      assert shift(Iterate(plain, c, k - 1)) == plain(Iterate(plain, c, k - 1));
    }
  }
}

/** The CRC of PNG chunks: a table of 256 entries, byte by byte, against the bit-serial register it stands for. */
module Crc32 {
  import opened Bits
  import opened LinearRegister

  const POLYNOMIAL := 0xedb8_8320

  // ---- The bit-serial register (RFC 2083, section 3.4) ----

  /** One shift of the register: the polynomial is folded in when a one falls out. */
  function Shift(c: Word): Word {
    if c[0] then Xor(ToWord(POLYNOMIAL), ShiftRight(c, 1)) else ShiftRight(c, 1)
  }

  /** A message bit as it is added at the low end. */
  function LowBit(bit: bool): Word {
    [bit] + Zeros(31)
  }

  function LowBits(bits: seq<bool>): (words: seq<Word>)
    ensures |words| == |bits| && forall i :: 0 <= i < |bits| ==> words[i] == LowBit(bits[i])
  {
    seq(|bits|, i requires 0 <= i < |bits| => LowBit(bits[i]))
  }

  /** The bits of a byte enter the register one by one, least significant first. */
  function FeedByte(c: Word, b: Byte): Word {
    Feed<Word>(Shift, Xor, c, LowBits(BitsOf(b as nat, 8)))
  }

  function FeedBytes(c: Word, bytes: seq<Byte>): Word {
    if |bytes| == 0 then c else FeedByte(FeedBytes(c, bytes[..|bytes| - 1]), bytes[|bytes| - 1])
  }

  /** The register starts as all ones and the CRC is its ones' complement. */
  function BitSerialCrc(bytes: seq<Byte>): Word {
    Not(FeedBytes(AllOnes(32), bytes))
  }

  // ---- The register is linear, so eight bits can enter at once ----

  lemma ShiftAt(x: Word, y: Word)
    ensures Shift(Xor(x, y)) == Xor(Shift(x), Shift(y))
  {
    assert ShiftRight(Xor(x, y), 1) == Xor(ShiftRight(x, 1), ShiftRight(y, 1));
  }

  lemma ShiftIsLinear()
    ensures Linear<Word>(Shift, Xor)
  {
    forall x: Word, y: Word ensures Shift(Xor(x, y)) == Xor(Shift(x), Shift(y)) {
      ShiftAt(x, y);
    }
  }

  lemma XorIsAssociative()
    ensures Associative<Word>(Xor)
  {
    forall x: Word, y: Word, z: Word ensures Xor(Xor(x, y), z) == Xor(x, Xor(y, z)) {
    }
  }

  /** The message bits still to come, and the same without the next one. */
  function Rest(bits: seq<bool>, i: nat): Word
    requires i <= |bits| <= 32
  {
    bits[i..] + Zeros(32 - |bits| + i)
  }

  function High(bits: seq<bool>, i: nat): Word
    requires i < |bits| <= 32
  {
    [false] + bits[i + 1..] + Zeros(32 - |bits| + i)
  }

  lemma BitsUnrollAt(bits: seq<bool>, i: nat)
    requires i < |bits| <= 32
    ensures Rest(bits, i) == Xor(LowBit(bits[i]), High(bits, i)) && Shift(High(bits, i)) == Rest(bits, i + 1)
  {
    assert bits[i..] == [bits[i]] + bits[i + 1..];
    assert ShiftRight(High(bits, i), 1) == Rest(bits, i + 1);
  }

  lemma BitsUnroll(bits: seq<bool>, highs: seq<Word>, rests: seq<Word>)
    requires |bits| <= 32 && |highs| == |bits| && |rests| == |bits| + 1
    requires forall i :: 0 <= i < |bits| ==> highs[i] == High(bits, i)
    requires forall i :: 0 <= i <= |bits| ==> rests[i] == Rest(bits, i)
    ensures Unrolls<Word>(Shift, Xor, LowBits(bits), highs, rests)
  {
    forall i | 0 <= i < |bits|
      ensures rests[i] == Xor(LowBits(bits)[i], highs[i]) && Shift(highs[i]) == rests[i + 1]
    {
      BitsUnrollAt(bits, i);
    }
  }

  /** Feeding the bits one by one is adding them all and shifting. */
  lemma FeedBitsAtOnce(c: Word, bits: seq<bool>)
    requires |bits| <= 32
    ensures Feed<Word>(Shift, Xor, c, LowBits(bits)) == Iterate<Word>(Shift, Xor(c, bits + Zeros(32 - |bits|)), |bits|)
  {
    var n := |bits|;
    var highs: seq<Word> := seq(n, i requires 0 <= i < n => High(bits, i));
    var rests: seq<Word> := seq(n + 1, i requires 0 <= i < n + 1 => Rest(bits, i));
    ShiftIsLinear();
    XorIsAssociative();
    BitsUnroll(bits, highs, rests);
    forall x: Word ensures Xor(x, rests[n]) == x {
    }
    FeedAtOnce<Word>(Shift, Xor, c, LowBits(bits), highs, rests);
    assert bits[0..] == bits;
  }

  /** Nothing falls out of a word whose low k bits are zero. */
  lemma {:induction false} NothingFallsOut(h: Word, k: nat)
    requires k <= 32 && forall i :: 0 <= i < k ==> !h[i]
    ensures Iterate<Word>(Shift, h, k) == ShiftRight(h, k)
  {
    if k == 0 {
      assert ShiftRight(h, 0) == h;
    } else {
      NothingFallsOut(h, k - 1);
      assert ShiftRight(h, k - 1)[0] == h[k - 1];
      assert ShiftRight(ShiftRight(h, k - 1), 1) == ShiftRight(h, k);
    }
  }

  function HighPart(x: Word, n: nat): Word
    requires n <= 32
  {
    Zeros(n) + x[n..]
  }

  lemma HighPartShifts(x: Word, n: nat)
    requires n <= 32
    ensures Iterate<Word>(Shift, HighPart(x, n), n) == ShiftRight(x, n)
  {
    NothingFallsOut(HighPart(x, n), n);
    assert HighPart(x, n)[n..] == x[n..];
  }

  /** Adding n message bits changes the low part only. */
  lemma WordSplits(c: Word, bits: seq<bool>, n: nat)
    requires |bits| == n <= 32
    ensures var x := Xor(c, bits + Zeros(32 - n));
      Xor(LowPart(x, n), HighPart(c, n)) == x
  {
  }

  function LowPart(x: Word, n: nat): Word
    requires n <= 32
  {
    x[..n] + Zeros(32 - n)
  }

  /** The byte step: eight shifts are one table entry, that of the low byte, and a plain shift of the rest. */
  lemma ByteStep(c: Word, bits: seq<bool>, n: nat)
    requires |bits| == n <= 32
    ensures Feed<Word>(Shift, Xor, c, LowBits(bits)) ==
      Xor(Iterate<Word>(Shift, LowPart(Xor(c, bits + Zeros(32 - n)), n), n), ShiftRight(c, n))
  {
    var low, high := LowPart(Xor(c, bits + Zeros(32 - n)), n), HighPart(c, n);
    FeedBitsAtOnce(c, bits);
    WordSplits(c, bits, n);
    ShiftIsLinear();
    IterateIsLinear<Word>(Shift, Xor, low, high, n);
    HighPartShifts(c, n);
  }

  // ---- The table-driven form ----

  /** Entry m of the table is m after `steps` shifts of the register. */
  ghost predicate IsTable(table: seq<Word>, steps: nat := 8) {
    |table| == 256 && forall m :: 0 <= m < 256 ==> table[m] == Iterate<Word>(Shift, ToWord(m), steps)
  }

  method TableEntry(n: nat, steps: nat) returns (c: Word)
    ensures c == Iterate<Word>(Shift, ToWord(n), steps)
  {
    c := ToWord(n);
    for k := 0 to steps
      invariant c == Iterate<Word>(Shift, ToWord(n), k)
    {
      OneBit(c);
      c := if And(c, ToWord(1)) != Zeros(32)
           then Xor(ToWord(POLYNOMIAL), ShiftRight(c, 1)) else ShiftRight(c, 1);
    }
  }

  method BuildTable(steps: nat := 8) returns (table: array<Word>)
    ensures fresh(table) && IsTable(table[..], steps)
  {
    table := new Word[256];
    for n := 0 to 256
      invariant forall m :: 0 <= m < n ==> table[m] == Iterate<Word>(Shift, ToWord(m), steps)
    {
      var entry := TableEntry(n, steps);
      table[n] := entry;
    }
  }

  lemma OneBit(c: Word)
    ensures And(c, ToWord(1)) != Zeros(32) <==> c[0]
  {
    forall i | 1 <= i < 32 ensures !ToWord(1)[i] {
      NoBitAbove(1, 1, i);
    }
    assert ToWord(1)[0] && And(c, ToWord(1))[0] == c[0];
    if !c[0] {
      assert And(c, ToWord(1)) == Zeros(32);
    }
  }

  /** `x & 0xff` as a table index. */
  lemma IndexOfLowByte(x: Word, n: nat)
    requires n <= 32
    ensures Unsigned(LowPart(x, n)) < Pow2(n) && ToWord(Unsigned(LowPart(x, n))) == LowPart(x, n)
  {
    WordRoundTrip(LowPart(x, n), 0);
    ValueOfPadded(x[..n], 32 - n);
    ValueFits(x[..n]);
  }

  lemma {:induction false} ValueOfPadded(bits: seq<bool>, k: nat)
    ensures Unsigned(bits + Zeros(k)) == Unsigned(bits)
    decreases |bits| + k
  {
    if |bits| > 0 {
      assert (bits + Zeros(k))[1..] == bits[1..] + Zeros(k);
      ValueOfPadded(bits[1..], k);
    } else if k > 0 {
      assert (bits + Zeros(k))[1..] == bits + Zeros(k - 1);
      ValueOfPadded(bits, k - 1);
    }
  }

  lemma LowByteMask(x: Word)
    ensures And(x, ToWord(0xff)) == LowPart(x, 8)
  {
    KnownPowers();
    forall i | 0 <= i < 32 ensures ToWord(0xff)[i] == (i < 8) {
      BitOfAllOnes(8, i);
    }
  }

  lemma ByteWord(b: nat, n: nat)
    requires n <= 32 && b < Pow2(n)
    ensures ToWord(b) == BitsOf(b, n) + Zeros(32 - n)
  {
    HighBitsAreZero(b, n, 32 - n);
    ToWordIsBitsOf(b, n + (32 - n));
  }

  method TableStep(table: array<Word>, c: Word, b: Byte, ghost n: nat) returns (next: Word)
    requires IsTable(table[..]) && n == 8
    ensures next == FeedByte(c, b)
  {
    KnownPowers();
    ByteWord(b as nat, n);
    ByteStep(c, BitsOf(b as nat, n), n);
    var x := Xor(c, ToWord(b as nat));
    LowByteMask(x);
    IndexOfLowByte(x, n);
    var index := Unsigned(And(x, ToWord(0xff)));
    assert table[index] == table[..][index];
    next := Xor(table[index], ShiftRight(c, 8));
  }

  /** The fast form computes the bit-serial CRC of every byte string. */
  method TableCrc(table: array<Word>, bytes: seq<Byte>) returns (crc: Word)
    requires IsTable(table[..])
    ensures crc == BitSerialCrc(bytes)
  {
    var c: Word := AllOnes(32);
    for i := 0 to |bytes|
      invariant c == FeedBytes(AllOnes(32), bytes[..i])
    {
      assert bytes[..i + 1][..i] == bytes[..i];
      c := TableStep(table, c, bytes[i], 8);
    }
    assert bytes[..|bytes|] == bytes;
    crc := Xor(c, AllOnes(32));
    assert crc == Not(c);
  }

  // ---- The constants of the standard ----

  /** The powers of x below 32 in the polynomial of section 3.4 of RFC 2083. */
  const POWERS := {26, 23, 22, 16, 12, 11, 10, 8, 7, 5, 4, 2, 1, 0}

  function One(bit: bool): nat {
    if bit then 1 else 0
  }

  lemma ValueOfFour(bits: seq<bool>)
    requires |bits| == 4
    ensures Unsigned(bits) == One(bits[0]) + 2 * One(bits[1]) + 4 * One(bits[2]) + 8 * One(bits[3])
  {
    assert Unsigned(bits[3..]) == One(bits[3]);
    assert Unsigned(bits[2..]) == One(bits[2]) + 2 * One(bits[3]) by {
      assert bits[2..][1..] == bits[3..];
    }
    assert Unsigned(bits[1..]) == One(bits[1]) + 2 * One(bits[2]) + 4 * One(bits[3]) by {
      assert bits[1..][1..] == bits[2..];
    }
  }

  lemma ValueOfByte(low: seq<bool>, high: seq<bool>)
    requires |low| == 4 && |high| == 4
    ensures Unsigned(low + high) == Unsigned(low) + 16 * Unsigned(high)
  {
    ValueOfParts(low, high);
    assert Pow2(4) == 16;
  }

  lemma ValueAfterByte(a: seq<bool>, rest: seq<bool>)
    requires |a| == 8
    ensures Unsigned(a + rest) == Unsigned(a) + 0x100 * Unsigned(rest)
  {
    ValueOfParts(a, rest);
    KnownPowers();
  }

  lemma ValueOfBytes(a: seq<bool>, b: seq<bool>, c: seq<bool>, d: seq<bool>)
    requires |a| == 8 && |b| == 8 && |c| == 8
    ensures Unsigned(a + (b + (c + d)))
      == Unsigned(a) + 0x100 * Unsigned(b) + 0x1_0000 * Unsigned(c) + 0x100_0000 * Unsigned(d)
  {
    ValueAfterByte(a, b + (c + d));
    ValueAfterByte(b, c + d);
    ValueAfterByte(c, d);
  }

  /** The polynomial as it stands in the register: bits i to i + k. */
  function PolynomialBits(i: nat, k: nat): (bits: seq<bool>)
    requires i + k <= 32
    ensures |bits| == k && forall j :: 0 <= j < k ==> (bits[j] <==> 31 - i - j in POWERS)
  {
    seq(k, j requires 0 <= j < k => 31 - i - j in POWERS)
  }

  function Nibble(i: nat): nat
    requires i + 4 <= 32
  {
    One(31 - i in POWERS) + 2 * One(30 - i in POWERS) + 4 * One(29 - i in POWERS) + 8 * One(28 - i in POWERS)
  }

  lemma PolynomialParts(i: nat)
    requires i + 8 <= 32
    ensures PolynomialBits(i, 8) == PolynomialBits(i, 4) + PolynomialBits(i + 4, 4)
  {
  }

  lemma PolynomialByte(i: nat)
    requires i + 8 <= 32
    ensures Unsigned(PolynomialBits(i, 8)) == Nibble(i) + 16 * Nibble(i + 4)
  {
    ValueOfFour(PolynomialBits(i, 4));
    ValueOfFour(PolynomialBits(i + 4, 4));
    ValueOfByte(PolynomialBits(i, 4), PolynomialBits(i + 4, 4));
    PolynomialParts(i);
  }

  lemma LowNibbles()
    ensures Nibble(0) == 0x0 && Nibble(4) == 0x2 && Nibble(8) == 0x3 && Nibble(12) == 0x8
  {
  }

  lemma HighNibbles()
    ensures Nibble(16) == 0x8 && Nibble(20) == 0xb && Nibble(24) == 0xd && Nibble(28) == 0xe
  {
  }

  lemma PolynomialValue()
    ensures Unsigned(PolynomialBits(0, 8) + (PolynomialBits(8, 8) + (PolynomialBits(16, 8) + PolynomialBits(24, 8))))
      == POLYNOMIAL
  {
    LowNibbles();
    HighNibbles();
    PolynomialByte(0);
    PolynomialByte(8);
    PolynomialByte(16);
    PolynomialByte(24);
    ValueOfBytes(PolynomialBits(0, 8), PolynomialBits(8, 8), PolynomialBits(16, 8), PolynomialBits(24, 8));
  }

  /** The polynomial's bits are those powers, the highest power in the lowest bit. */
  lemma PolynomialIsTheStandards()
    ensures forall i :: 0 <= i < 32 ==> (ToWord(POLYNOMIAL)[i] <==> 31 - i in POWERS)
  {
    var a, b, c, d := PolynomialBits(0, 8), PolynomialBits(8, 8), PolynomialBits(16, 8), PolynomialBits(24, 8);
    PolynomialValue();
    WordRoundTrip(a + (b + (c + d)), 0);
  }

  /** Of the empty string the CRC is 0: the register starts as ones and its ones' complement goes out. */
  lemma CrcOfNothing()
    ensures BitSerialCrc([]) == Zeros(32)
  {
  }

  lemma {:induction false} ZerosStayZero(k: nat)
    ensures Iterate<Word>(Shift, Zeros(32), k) == Zeros(32)
  {
    if k > 0 {
      ZerosStayZero(k - 1);
    }
  }

  lemma OnesCancel(n: nat)
    requires n <= 32
    ensures Feed<Word>(Shift, Xor, AllOnes(32), LowBits(AllOnes(n))) == AllOnes(32 - n) + Zeros(n)
  {
    ByteStep(AllOnes(32), AllOnes(n), n);
    assert LowPart(Xor(AllOnes(32), AllOnes(n) + Zeros(32 - n)), n) == Zeros(32);
    ZerosStayZero(n);
    assert Xor(Zeros(32), ShiftRight(AllOnes(32), n)) == AllOnes(32 - n) + Zeros(n);
  }

  lemma ByteOfOnes(n: nat, b: nat)
    requires n == 8 && b == 0xff
    ensures BitsOf(b, n) == AllOnes(n)
  {
    KnownPowers();
    ValueOfConstants(n);
    BitsOfValue(AllOnes(n));
  }

  /** Of a byte 0xff it is 0xff000000: ones cancel against the ones the register starts with. */
  lemma CrcOfOnes(n: nat, b: Byte)
    requires n == 8 && b == 0xff
    ensures BitSerialCrc([b]) == Zeros(32 - n) + AllOnes(n)
  {
    ByteOfOnes(n, b as nat);
    OnesCancel(n);
    assert [b][..0] == [];
    assert FeedBytes(AllOnes(32), [b]) == FeedByte(AllOnes(32), b);
    assert Not(AllOnes(32 - n) + Zeros(n)) == Zeros(32 - n) + AllOnes(n);
  }
}
