/** The string operations of the host language that the models share: split, join, trim, decimal printing. */
module Strings {

  /** `s.split(sep)` for a one-character separator: always at least one piece. */
  function Split(s: string, sep: char): (pieces: seq<string>)
    ensures |pieces| >= 1
  {
    if s == "" then [""]
    else if s[0] == sep then [""] + Split(s[1..], sep)
    else Glue(s[0], Split(s[1..], sep))
  }

  /** Puts one more character in front of the first piece. */
  function Glue(c: char, pieces: seq<string>): seq<string>
    requires |pieces| >= 1
  {
    [[c] + pieces[0]] + pieces[1..]
  }

  /** `pieces.join(sep)`. */
  function Join(pieces: seq<string>, sep: string): string {
    if |pieces| == 0 then ""
    else if |pieces| == 1 then pieces[0]
    else pieces[0] + sep + Join(pieces[1..], sep)
  }

  function Last<T>(s: seq<T>): T
    requires |s| > 0
  {
    s[|s| - 1]
  }

  function Init<T>(s: seq<T>): seq<T>
    requires |s| > 0
  {
    s[..|s| - 1]
  }

  /** `s.slice(-n)`, for n > 0. */
  function LastOf<T>(s: seq<T>, n: nat): seq<T> {
    if |s| <= n then s else s[|s| - n..]
  }

  /** The parts, one after the other. */
  function Concat<T>(parts: seq<seq<T>>): seq<T> {
    if |parts| == 0 then [] else Concat(Init(parts)) + Last(parts)
  }

  /** The characters `trim` and `\s` treat as white space. */
  predicate IsSpace(c: char) {
    || '\t' <= c <= '\r' || c == ' ' || c == '\U{00A0}' || c == '\U{1680}' || '\U{2000}' <= c <= '\U{200A}'
    || c == '\U{2028}' || c == '\U{2029}' || c == '\U{202F}' || c == '\U{205F}' || c == '\U{3000}' || c == '\U{FEFF}'
  }

  function TrimStart(s: string): (r: string)
    ensures |r| <= |s|
    ensures r != "" ==> !IsSpace(r[0])
    ensures forall c :: c in r ==> c in s
  {
    if s != "" && IsSpace(s[0]) then TrimStart(s[1..]) else s
  }

  function TrimEnd(s: string): (r: string)
    ensures |r| <= |s| && r == s[..|r|]
    ensures r != "" ==> !IsSpace(Last(r))
  {
    if s != "" && IsSpace(Last(s)) then TrimEnd(Init(s)) else s
  }

  /** `s.trim()`. */
  function Trim(s: string): (r: string)
    ensures r != "" ==> !IsSpace(r[0]) && !IsSpace(Last(r))
    ensures forall c :: c in r ==> c in s
  {
    TrimEnd(TrimStart(s))
  }

  predicate StartsWith(s: string, prefix: string) {
    prefix <= s
  }

  /** The decimal digits of a natural number, as `String(n)` prints an integer. */
  function Decimal(n: nat): (s: string)
    ensures |s| > 0
    ensures forall c :: c in s ==> '0' <= c <= '9'
  {
    var digit := ['0' + (n % 10) as char];
    if n < 10 then digit else Decimal(n / 10) + digit
  }

  predicate IsDigit(c: char) {
    '0' <= c <= '9'
  }

  predicate AllDigits(s: string) {
    s != "" && forall c :: c in s ==> IsDigit(c)
  }

  /** The number a run of decimal digits stands for. */
  function Digits(s: string): nat
    requires forall c :: c in s ==> IsDigit(c)
  {
    if s == "" then 0
    else
      assert IsDigit(Last(s));
      Digits(Init(s)) * 10 + (Last(s) - '0') as nat
  }

  function PowerOfTen(k: nat): (p: nat)
    ensures p > 0
  {
    if k == 0 then 1 else 10 * PowerOfTen(k - 1)
  }

  lemma {:induction false} DigitsOfDecimal(n: nat)
    ensures Digits(Decimal(n)) == n
  {
    if n >= 10 {
      DigitsOfDecimal(n / 10);
      assert Init(Decimal(n)) == Decimal(n / 10);
    } else {
      assert Init(Decimal(n)) == "";
    }
  }

  lemma TrimFixed(s: string)
    requires s != "" ==> !IsSpace(s[0]) && !IsSpace(Last(s))
    ensures Trim(s) == s
  {
  }

  lemma {:induction false} PiecesAreSolid(s: string, sep: char)
    ensures forall p :: p in Split(s, sep) ==> sep !in p
  {
    if s != "" {
      PiecesAreSolid(s[1..], sep);
    }
  }

  /** Cutting the text into two chunks only moves the unfinished last piece. */
  lemma {:induction false} SplitConcat(a: string, b: string, sep: char)
    ensures Split(a + b, sep) == Init(Split(a, sep)) + Split(Last(Split(a, sep)) + b, sep)
  {
    if a == "" {
      assert a + b == b;
    } else {
      SplitConcat(a[1..], b, sep);
      assert (a + b)[1..] == a[1..] + b;
      var rest := Split(a[1..], sep);
      var tail := Split(Last(rest) + b, sep);
      if a[0] == sep {
        FrontOver(rest, tail);
      } else {
        GlueOver(a[0], rest, b, sep);
      }
    }
  }

  lemma FrontOver(rest: seq<string>, tail: seq<string>)
    requires |rest| >= 1
    ensures [""] + (Init(rest) + tail) == Init([""] + rest) + tail && Last([""] + rest) == Last(rest)
  {
  }

  lemma GlueOver(c: char, rest: seq<string>, b: string, sep: char)
    requires |rest| >= 1 && c != sep
    ensures Glue(c, Init(rest) + Split(Last(rest) + b, sep))
         == Init(Glue(c, rest)) + Split(Last(Glue(c, rest)) + b, sep)
  {
    var tail := Split(Last(rest) + b, sep);
    if |rest| == 1 {
      assert Init(rest) + tail == tail;
      assert ([c] + rest[0] + b)[1..] == rest[0] + b;
    } else {
      assert Glue(c, Init(rest) + tail) == Init(Glue(c, rest)) + tail;
    }
  }

  /** A piece without the separator followed by it is split off whole. */
  lemma {:induction false} SplitPiece(p: string, s: string, sep: char)
    requires sep !in p
    ensures Split(p + [sep] + s, sep) == [p] + Split(s, sep)
  {
    if p == "" {
      assert p + [sep] + s == [sep] + s;
      assert ([sep] + s)[1..] == s;
    } else {
      SplitPiece(p[1..], s, sep);
      assert (p + [sep] + s)[1..] == p[1..] + [sep] + s;
      assert [p[0]] + p[1..] == p;
    }
  }

  lemma {:induction false} SplitSolid(p: string, sep: char)
    requires sep !in p
    ensures Split(p, sep) == [p]
  {
    if p != "" {
      SplitSolid(p[1..], sep);
      assert [p[0]] + p[1..] == p;
    }
  }

  /** Splitting undoes joining when no piece holds the separator. */
  lemma {:induction false} SplitJoin(pieces: seq<string>, sep: char)
    requires |pieces| > 0
    requires forall p :: p in pieces ==> sep !in p
    ensures Split(Join(pieces, [sep]), sep) == pieces
  {
    if |pieces| == 1 {
      SplitSolid(pieces[0], sep);
      assert pieces == [pieces[0]];
    } else {
      SplitJoin(pieces[1..], sep);
      SplitPiece(pieces[0], Join(pieces[1..], [sep]), sep);
      assert pieces == [pieces[0]] + pieces[1..];
    }
  }

  lemma ConcatAssociates<T>(a: seq<T>, b: seq<T>, c: seq<T>)
    ensures (a + b) + c == a + (b + c)
  {
  }

  lemma JoinGlue(c: char, pieces: seq<string>, sep: char)
    requires |pieces| >= 1
    ensures Join(Glue(c, pieces), [sep]) == [c] + Join(pieces, [sep])
  {
    var first, rest := pieces[0], pieces[1..];
    assert Glue(c, pieces)[1..] == rest;
    if |pieces| > 1 {
      var tail := Join(rest, [sep]);
      assert Join(pieces, [sep]) == (first + [sep]) + tail;
      assert Join(Glue(c, pieces), [sep]) == (([c] + first) + [sep]) + tail;
      ConcatAssociates([c], first, [sep]);
      ConcatAssociates([c], first + [sep], tail);
    }
  }

  /** Joining undoes splitting, always. */
  lemma {:induction false} JoinSplit(s: string, sep: char)
    ensures Join(Split(s, sep), [sep]) == s
  {
    if s != "" {
      JoinSplit(s[1..], sep);
      var rest := Split(s[1..], sep);
      if s[0] == sep {
        assert ([""] + rest)[1..] == rest;
        assert [sep] + s[1..] == s;
      } else {
        JoinGlue(s[0], rest, sep);
        assert [s[0]] + s[1..] == s;
      }
    }
  }
}
