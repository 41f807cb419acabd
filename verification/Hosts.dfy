/**
 The laws assumed of the host's numbers have an instance: a host that holds every finite decimal fraction, and so every
 binary floating-point number, prints it as digits with an exponent and reads back what it prints.
 */
module Hosts {
  import opened Strings
  import opened JsValue
  import opened Bits

  /** m / 10^k */
  function Fraction(m: int, k: nat): real {
    m as real / PowerOfTen(k) as real
  }

  ghost predicate IsFraction(r: real) {
    exists m: int, k: nat :: r == Fraction(m, k)
  }

  ghost predicate Holds(n: Number) {
    n.Finite? ==> IsFraction(n.r)
  }

  ghost function Scale(r: real): (mk: (int, nat))
    requires IsFraction(r)
    ensures r == Fraction(mk.0, mk.1)
  {
    var m: int, k: nat :| r == Fraction(m, k);
    (m, k)
  }

  function Mantissa(m: int): string {
    if m < 0 then "-" + Decimal(-m) else Decimal(m)
  }

  /** 1.5 as 15e-1. */
  function Printed(m: int, k: nat): string {
    Mantissa(m) + "e" + ("-" + Decimal(k))
  }

  ghost function Show(n: Number): string {
    match n
    case NaN => "NaN"
    case PosInf => "Infinity"
    case NegInf => "-Infinity"
    case Finite(r) => if IsFraction(r) then Printed(Scale(r).0, Scale(r).1) else "?"
  }

  predicate IsMantissa(s: string) {
    AllDigits(s) || (s != "" && s[0] == '-' && AllDigits(s[1..]))
  }

  function MantissaValue(s: string): int
    requires IsMantissa(s)
  {
    if s[0] == '-' then 0 - Digits(s[1..]) else Digits(s)
  }

  function Parse(s: string): Number {
    if s == "" then Finite(0.0)
    else if s == "Infinity" then PosInf
    else if s == "-Infinity" then NegInf
    else if AllDigits(s) then Finite(Digits(s) as real)
    else ParseExponent(Split(s, 'e'))
  }

  function ParseExponent(parts: seq<string>): Number {
    if |parts| == 2 && IsMantissa(parts[0]) && parts[1] != "" && parts[1][0] == '-' && AllDigits(parts[1][1..])
    then Finite(Fraction(MantissaValue(parts[0]), Digits(parts[1][1..])))
    else NaN
  }

  lemma MantissaReadsBack(m: int)
    ensures IsMantissa(Mantissa(m)) && MantissaValue(Mantissa(m)) == m && 'e' !in Mantissa(m)
  {
    DigitsOfDecimal(if m < 0 then -m else m);
    if m < 0 {
      assert Mantissa(m)[1..] == Decimal(-m);
    } else {
      assert Mantissa(m)[0] in Mantissa(m);
    }
  }

  lemma PrintedSplits(m: int, k: nat)
    ensures Split(Printed(m, k), 'e') == [Mantissa(m), "-" + Decimal(k)]
  {
    var exponent := "-" + Decimal(k);
    MantissaReadsBack(m);
    SplitPiece(Mantissa(m), exponent, 'e');
    SplitSolid(exponent, 'e');
    assert Printed(m, k) == Mantissa(m) + ['e'] + exponent;
  }

  lemma PrintedIsNoWord(m: int, k: nat)
    ensures Printed(m, k) != "" && !AllDigits(Printed(m, k))
    ensures Printed(m, k) != "Infinity" && Printed(m, k) != "-Infinity"
  {
    assert Printed(m, k)[|Mantissa(m)|] == 'e';
    assert 'e' in Printed(m, k) && 'e' !in "Infinity" && 'e' !in "-Infinity";
  }

  lemma PrintedReadsBack(m: int, k: nat)
    ensures Parse(Printed(m, k)) == Finite(Fraction(m, k))
  {
    PrintedSplits(m, k);
    PrintedIsNoWord(m, k);
    PartsReadBack(m, k);
  }

  lemma PartsReadBack(m: int, k: nat)
    ensures ParseExponent([Mantissa(m), "-" + Decimal(k)]) == Finite(Fraction(m, k))
  {
    MantissaReadsBack(m);
    DigitsOfDecimal(k);
    assert ("-" + Decimal(k))[1..] == Decimal(k);
  }

  /** A text that starts like a word is no number. */
  lemma WordIsNoNumber(s: string)
    requires s != "" && !IsDigit(s[0]) && s[0] != '-' && s[0] != 'e' && s != "Infinity"
    ensures Parse(s) == NaN
  {
    assert s[0] in s;
    var parts := Split(s, 'e');
    assert parts == Glue(s[0], Split(s[1..], 'e'));
    assert parts[0][0] == s[0] && s[0] in parts[0];
  }

  function PowerOfFive(k: nat): (p: nat)
    ensures p > 0
  {
    if k == 0 then 1 else 5 * PowerOfFive(k - 1)
  }

  lemma {:induction false} TenIsTwoTimesFive(k: nat)
    ensures PowerOfTen(k) == Pow2(k) * PowerOfFive(k)
  {
    if k > 0 {
      TenIsTwoTimesFive(k - 1);
      var a, b := Pow2(k - 1), PowerOfFive(k - 1);
      assert (2 * a) * (5 * b) == 10 * (a * b);
    }
  }

  lemma Expand(m: real, a: real, b: real)
    requires a > 0.0 && b > 0.0
    ensures m / a == (m * b) / (a * b)
  {
    assert (m / a) * (a * b) == ((m / a) * a) * b == m * b;
  }

  /** A binary fraction is a decimal one. */
  lemma BinaryFraction(m: int, k: nat)
    ensures m as real / Pow2(k) as real == Fraction(m * PowerOfFive(k), k)
  {
    TenIsTwoTimesFive(k);
    Expand(m as real, Pow2(k) as real, PowerOfFive(k) as real);
    ProductOfReals(m, PowerOfFive(k));
    ProductOfReals(Pow2(k), PowerOfFive(k));
  }

  lemma ProductOfReals(a: int, b: int)
    ensures (a * b) as real == a as real * b as real
  {
  }

  lemma ShownReadsBack(n: Number)
    requires Holds(n) && n != NaN
    ensures Parse(Show(n)) == n
  {
    if n.Finite? {
      PrintedReadsBack(Scale(n.r).0, Scale(n.r).1);
    }
  }

  lemma ShownIsNotEmpty(n: Number)
    ensures Show(n) != ""
  {
  }

  lemma WordsAreNoNumbers()
    ensures Parse("NaN") == NaN && Parse("true") == NaN && Parse("false") == NaN
    ensures Parse("null") == NaN && Parse("undefined") == NaN && Parse("[object Object]") == NaN
  {
    WordIsNoNumber("NaN");
    WordIsNoNumber("true");
    WordIsNoNumber("false");
    WordIsNoNumber("null");
    WordIsNoNumber("undefined");
    WordIsNoNumber("[object Object]");
  }

  lemma NumbersReadBack(js: Js)
    requires js.double == Holds && js.parse == Parse && js.show == Show
    ensures forall n :: js.double(n) && n != NaN ==> js.parse(js.show(n)) == n
    ensures forall n :: js.show(n) != ""
  {
    forall n | js.double(n) && n != NaN ensures js.parse(js.show(n)) == n {
      ShownReadsBack(n);
    }
    forall n ensures js.show(n) != "" {
      ShownIsNotEmpty(n);
    }
  }

  lemma FractionsAreHeld(js: Js)
    requires js.double == Holds
    ensures forall m: int, k: nat :: js.double(Finite(Fraction(m, k)))
    ensures js.double(Finite(0.0))
  {
    assert Finite(0.0).r == Fraction(0, 0);
  }

  lemma IntegersReadBack(js: Js)
    requires js.parse == Parse
    ensures forall n: nat :: js.parse(Decimal(n)) == Finite(n as real)
  {
    forall n: nat ensures js.parse(Decimal(n)) == Finite(n as real) {
      IntegerReadsBack(n);
    }
  }

  /**
   There is a lawful host that holds every decimal fraction, which `BinaryFraction` shows every binary one to be, and
   reads printed integers.
   */
  lemma LawfulHostExists() returns (js: Js)
    ensures js.Lawful()
    ensures forall m: int, k: nat :: js.double(Finite(Fraction(m, k)))
    ensures forall n: nat :: js.parse(Decimal(n)) == Finite(n as real)
  {
    js := Js(Holds, Parse, Show, _ => true, _ => true, (_, _) => true, _ => true, _ => 4);
    FractionsAreHeld(js);
    NumbersReadBack(js);
    WordsAreNoNumbers();
    IntegersReadBack(js);
  }

  lemma IntegerReadsBack(n: nat)
    ensures Parse(Decimal(n)) == Finite(n as real)
  {
    DigitsOfDecimal(n);
    assert Decimal(n)[0] in Decimal(n);
  }
}
