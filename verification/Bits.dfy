/** Unsigned 32-bit words as the host's bitwise operators see them: 32 bits, lowest first. */
module Bits {
  newtype Byte = x: int | 0 <= x < 256
  type Bytes = seq<Byte>

  type Word = w: seq<bool> | |w| == 32 witness seq(32, _ => false)

  function Zeros(k: nat): (z: seq<bool>)
    ensures |z| == k && forall i :: 0 <= i < k ==> !z[i]
  {
    seq(k, _ => false)
  }

  function AllOnes(k: nat): (z: seq<bool>)
    ensures |z| == k && forall i :: 0 <= i < k ==> z[i]
  {
    seq(k, _ => true)
  }

  /** x ^ y */
  function Xor(x: Word, y: Word): (z: Word)
    ensures forall i :: 0 <= i < 32 ==> z[i] == (x[i] != y[i])
  {
    seq(32, i requires 0 <= i < 32 => x[i] != y[i])
  }

  /** x & y */
  function And(x: Word, y: Word): (z: Word)
    ensures forall i :: 0 <= i < 32 ==> z[i] == (x[i] && y[i])
  {
    seq(32, i requires 0 <= i < 32 => x[i] && y[i])
  }

  /** x | y */
  function Or(x: Word, y: Word): (z: Word)
    ensures forall i :: 0 <= i < 32 ==> z[i] == (x[i] || y[i])
  {
    seq(32, i requires 0 <= i < 32 => x[i] || y[i])
  }

  /** ~x */
  function Not(x: Word): (z: Word)
    ensures forall i :: 0 <= i < 32 ==> z[i] == !x[i]
  {
    seq(32, i requires 0 <= i < 32 => !x[i])
  }

  /** x >>> k */
  function ShiftRight(x: Word, k: nat): Word
    requires k <= 32
  {
    x[k..] + Zeros(k)
  }

  /** x << k */
  function ShiftLeft(x: Word, k: nat): Word
    requires k <= 32
  {
    Zeros(k) + x[..32 - k]
  }

  // ---- Numbers ----

  function Unsigned(bits: seq<bool>): nat {
    if |bits| == 0 then 0 else (if bits[0] then 1 else 0) + 2 * Unsigned(bits[1..])
  }

  /** The low k bits of a number. */
  function BitsOf(n: nat, k: nat): (bits: seq<bool>)
    ensures |bits| == k
  {
    if k == 0 then [] else [n % 2 == 1] + BitsOf(n / 2, k - 1)
  }

  function Bit(n: nat, i: nat): bool {
    if i == 0 then n % 2 == 1 else Bit(n / 2, i - 1)
  }

  /** The low 32 bits of a number, bit by bit. */
  function ToWord(n: nat): (w: Word)
    ensures forall i :: 0 <= i < 32 ==> w[i] == Bit(n, i)
  {
    seq(32, i requires 0 <= i < 32 => Bit(n, i))
  }

  function Pow2(k: nat): (p: nat)
    ensures p > 0
  {
    if k == 0 then 1 else 2 * Pow2(k - 1)
  }

  lemma {:induction false} BitsOfValue(bits: seq<bool>)
    ensures BitsOf(Unsigned(bits), |bits|) == bits
  {
    if |bits| > 0 {
      BitsOfValue(bits[1..]);
      var rest := Unsigned(bits[1..]);
      assert Unsigned(bits) / 2 == rest && Unsigned(bits) % 2 == (if bits[0] then 1 else 0);
    }
  }

  lemma {:induction false} ValueOfBits(n: nat, k: nat)
    requires n < Pow2(k)
    ensures Unsigned(BitsOf(n, k)) == n
  {
    if k > 0 {
      ValueOfBits(n / 2, k - 1);
      assert BitsOf(n, k)[1..] == BitsOf(n / 2, k - 1);
    }
  }

  lemma {:induction false} ValueFits(bits: seq<bool>)
    ensures Unsigned(bits) < Pow2(|bits|)
  {
    if |bits| > 0 {
      ValueFits(bits[1..]);
    }
  }

  lemma {:induction false} HighBitsAreZero(n: nat, k: nat, m: nat)
    requires n < Pow2(k)
    ensures BitsOf(n, k + m) == BitsOf(n, k) + Zeros(m)
  {
    if k == 0 {
      ZeroBits(m);
      assert BitsOf(n, 0) + Zeros(m) == Zeros(m);
    } else {
      HighBitsAreZero(n / 2, k - 1, m);
      assert [n % 2 == 1] + (BitsOf(n / 2, k - 1) + Zeros(m)) == ([n % 2 == 1] + BitsOf(n / 2, k - 1)) + Zeros(m);
    }
  }

  lemma {:induction false} ZeroBits(m: nat)
    ensures BitsOf(0, m) == Zeros(m)
  {
    if m > 0 {
      ZeroBits(m - 1);
      assert [false] + Zeros(m - 1) == Zeros(m);
    }
  }

  lemma DoubleProduct(p: nat, v: nat)
    ensures 2 * (p * v) == (2 * p) * v
  {
  }

  lemma {:induction false} ValueOfParts(low: seq<bool>, high: seq<bool>)
    ensures Unsigned(low + high) == Unsigned(low) + Pow2(|low|) * Unsigned(high)
  {
    if |low| == 0 {
      assert low + high == high;
    } else {
      ValueOfParts(low[1..], high);
      assert (low + high)[1..] == low[1..] + high;
      DoubleProduct(Pow2(|low| - 1), Unsigned(high));
    }
  }

  lemma {:induction false} ValueOfConstants(k: nat)
    ensures Unsigned(Zeros(k)) == 0 && Unsigned(AllOnes(k)) == Pow2(k) - 1
  {
    if k > 0 {
      ValueOfConstants(k - 1);
      assert Zeros(k)[1..] == Zeros(k - 1) && AllOnes(k)[1..] == AllOnes(k - 1);
    }
  }

  lemma SameValueSameBits(a: seq<bool>, b: seq<bool>)
    requires |a| == |b|
    ensures Unsigned(a) == Unsigned(b) <==> a == b
  {
    BitsOfValue(a);
    BitsOfValue(b);
  }

  lemma {:induction false} BitOfBitsOf(n: nat, k: nat, i: nat)
    requires i < k
    ensures BitsOf(n, k)[i] == Bit(n, i)
  {
    if i > 0 {
      BitOfBitsOf(n / 2, k - 1, i - 1);
    }
  }

  lemma ToWordIsBitsOf(n: nat, k: nat)
    requires k == 32
    ensures ToWord(n) == BitsOf(n, k)
  {
    forall i | 0 <= i < k ensures BitsOf(n, k)[i] == ToWord(n)[i] {
      BitOfBitsOf(n, k, i);
    }
  }

  lemma WordRoundTrip(w: Word, n: nat)
    ensures ToWord(Unsigned(w)) == w
    ensures n < Pow2(|w|) ==> Unsigned(ToWord(n)) == n
  {
    ToWordIsBitsOf(Unsigned(w), |w|);
    BitsOfValue(w);
    if n < Pow2(|w|) {
      ToWordIsBitsOf(n, |w|);
      ValueOfBits(n, |w|);
    }
  }

  lemma {:induction false} NoBitAbove(n: nat, k: nat, i: nat)
    requires n < Pow2(k) && k <= i
    ensures !Bit(n, i)
  {
    if k > 0 {
      NoBitAbove(n / 2, k - 1, i - 1);
    } else if i > 0 {
      NoBitAbove(0, 0, i - 1);
    }
  }

  lemma {:induction false} BitOfAllOnes(k: nat, i: nat)
    ensures Bit(Pow2(k) - 1, i) <==> i < k
  {
    if k == 0 {
      NoBitAbove(0, 0, i);
    } else if i > 0 {
      BitOfAllOnes(k - 1, i - 1);
      assert (Pow2(k) - 1) / 2 == Pow2(k - 1) - 1;
    }
  }

  lemma KnownPowers()
    ensures Pow2(8) == 0x100 && Pow2(16) == 0x1_0000 && Pow2(24) == 0x100_0000 && Pow2(32) == 0x1_0000_0000
  {
    assert Pow2(4) == 16 && Pow2(12) == 0x1000 && Pow2(20) == 0x10_0000 && Pow2(28) == 0x1000_0000;
  }
}
