/** Words between white space, as `split(/\s+/)` cuts them. */
module Words {
  import opened Strings

  predicate IsWord(w: string) {
    w != "" && forall c :: c in w ==> !IsSpace(c)
  }

  predicate AllWords(ws: seq<string>) {
    forall w :: w in ws ==> IsWord(w)
  }

  /** `s.split(/\s+/)`: the pieces between runs of white space. */
  function Fields(s: string): (pieces: seq<string>)
    ensures |pieces| >= 1
    decreases |s|
  {
    if s == "" then [""]
    else if IsSpace(s[0]) then [""] + Fields(TrimStart(s[1..]))
    else Glue(s[0], Fields(s[1..]))
  }

  lemma {:induction false} TrimStartKeepsLast(s: string)
    requires s != "" && !IsSpace(Last(s))
    ensures TrimStart(s) != "" && Last(TrimStart(s)) == Last(s)
  {
    if IsSpace(s[0]) {
      TrimStartKeepsLast(s[1..]);
    }
  }

  /** The fields of a trimmed line are words. */
  lemma {:induction false} FieldsAreWords(s: string)
    requires s != "" && !IsSpace(s[0]) && !IsSpace(Last(s))
    ensures AllWords(Fields(s))
    decreases |s|
  {
    var rest := s[1..];
    if rest == "" {
      assert Fields(rest) == [""] && [s[0]] + "" == [s[0]];
      assert Fields(s) == [[s[0]]];
    } else if IsSpace(rest[0]) {
      TrimStartKeepsLast(rest);
      var next := TrimStart(rest[1..]);
      assert TrimStart(rest) == next;
      FieldsAreWords(next);
      assert Fields(rest) == [""] + Fields(next) && [s[0]] + "" == [s[0]];
      assert Fields(s) == [[s[0]]] + Fields(next);
      assert IsWord([s[0]]);
    } else {
      FieldsAreWords(rest);
      var fields := Fields(rest);
      assert fields[0] in fields && IsWord([s[0]] + fields[0]);
      assert forall w :: w in fields[1..] ==> w in fields;
    }
  }

  lemma {:induction false} FieldsOfWord(w: string)
    requires IsWord(w)
    ensures Fields(w) == [w]
  {
    assert w[0] in w;
    if |w| > 1 {
      assert forall c :: c in w[1..] ==> c in w;
      FieldsOfWord(w[1..]);
    }
    assert [w[0]] + w[1..] == w;
  }

  lemma AfterOneCharacter(c: char, sep: char, s: string)
    requires !IsSpace(c) && IsSpace(sep) && s != "" && !IsSpace(s[0])
    ensures Fields([c] + ([sep] + s)) == [[c]] + Fields(s)
  {
    var tail := [sep] + s;
    assert tail[1..] == s && TrimStart(s) == s;
    assert Fields(tail) == [""] + Fields(s);
    assert ([c] + tail)[1..] == tail;
    assert Glue(c, [""] + Fields(s)) == [[c] + ""] + Fields(s);
    assert [c] + "" == [c];
  }

  lemma GlueAtFront(c: char, w: string, rest: seq<string>)
    ensures Glue(c, [w] + rest) == [[c] + w] + rest
  {
  }

  lemma OneMoreCharacter(c: char, w: string, tail: string)
    requires !IsSpace(c)
    ensures Fields(([c] + w) + tail) == Glue(c, Fields(w + tail))
  {
    assert (([c] + w) + tail)[1..] == w + tail;
  }

  lemma {:induction false} FieldsOfPiece(w: string, sep: char, s: string)
    requires IsWord(w) && IsSpace(sep) && s != "" && !IsSpace(s[0])
    ensures Fields(w + ([sep] + s)) == [w] + Fields(s)
  {
    var tail := [sep] + s;
    assert w[0] in w;
    if |w| == 1 {
      assert w == [w[0]];
      AfterOneCharacter(w[0], sep, s);
    } else {
      assert forall c :: c in w[1..] ==> c in w;
      FieldsOfPiece(w[1..], sep, s);
      OneMoreCharacter(w[0], w[1..], tail);
      GlueAtFront(w[0], w[1..], Fields(s));
      assert [w[0]] + w[1..] == w;
    }
  }

  lemma {:induction false} JoinStartsAndEnds(ws: seq<string>, sep: char)
    requires |ws| > 0 && AllWords(ws)
    ensures var line := Join(ws, [sep]);
      line != "" && ws[0] in ws && line[0] == ws[0][0] && !IsSpace(line[0]) && !IsSpace(Last(line))
  {
    assert ws[0] in ws && ws[0][0] in ws[0];
    if |ws| == 1 {
      assert Last(ws[0]) in ws[0];
    } else {
      TailOfWords(ws);
      JoinStartsAndEnds(ws[1..], sep);
    }
  }

  lemma TailOfWords(ws: seq<string>)
    requires |ws| > 1 && AllWords(ws)
    ensures AllWords(ws[1..])
  {
    assert forall w :: w in ws[1..] ==> w in ws;
  }

  lemma JoinFirst(ws: seq<string>, sep: char)
    requires |ws| > 1
    ensures Join(ws, [sep]) == ws[0] + ([sep] + Join(ws[1..], [sep]))
  {
  }

  /** Splitting a line undoes joining words with one white space character. */
  lemma {:induction false} FieldsOfJoin(ws: seq<string>, sep: char)
    requires |ws| > 0 && AllWords(ws) && IsSpace(sep)
    ensures Fields(Join(ws, [sep])) == ws
  {
    assert ws == [ws[0]] + ws[1..] && ws[0] in ws;
    if |ws| == 1 {
      FieldsOfWord(ws[0]);
    } else {
      TailOfWords(ws);
      var line := Join(ws[1..], [sep]);
      FieldsOfJoin(ws[1..], sep);
      JoinStartsAndEnds(ws[1..], sep);
      FieldsOfPiece(ws[0], sep, line);
      JoinFirst(ws, sep);
      assert ws == [ws[0]] + ws[1..];
    }
  }

  lemma {:induction false} JoinHasNoNewline(ws: seq<string>, sep: char)
    requires AllWords(ws) && sep != '\n'
    ensures '\n' !in Join(ws, [sep])
  {
    if |ws| > 0 {
      assert ws[0] in ws;
      assert IsSpace('\n');
      assert forall w :: w in ws[1..] ==> w in ws;
      JoinHasNoNewline(ws[1..], sep);
    }
  }

  /** A line of words survives trimming and splitting. */
  lemma LineOfWords(ws: seq<string>, sep: char)
    requires |ws| > 0 && AllWords(ws) && IsSpace(sep) && sep != '\n'
    ensures var line := Join(ws, [sep]);
      Trim(line) == line && line != "" && ws[0] in ws && line[0] == ws[0][0] && Fields(line) == ws && '\n' !in line
  {
    JoinStartsAndEnds(ws, sep);
    TrimFixed(Join(ws, [sep]));
    FieldsOfJoin(ws, sep);
    JoinHasNoNewline(ws, sep);
  }

  // ---- Words parted in any way ----

  predicate AllSpace(g: string) {
    forall i :: 0 <= i < |g| ==> IsSpace(g[i])
  }

  predicate AreGaps(gaps: seq<string>) {
    forall i :: 0 <= i < |gaps| ==> gaps[i] != "" && AllSpace(gaps[i])
  }

  /** The words with the gaps between them. */
  function Spread(ws: seq<string>, gaps: seq<string>): string
    requires |ws| == |gaps| + 1
  {
    if |ws| == 1 then ws[0] else ws[0] + (gaps[0] + Spread(ws[1..], gaps[1..]))
  }

  lemma {:induction false} TrimStartOfGap(g: string, s: string)
    requires AllSpace(g) && (s != "" ==> !IsSpace(s[0]))
    ensures TrimStart(g + s) == s
  {
    if g == "" {
      assert g + s == s;
    } else {
      TrimStartOfGap(g[1..], s);
      assert (g + s)[1..] == g[1..] + s;
    }
  }

  lemma {:induction false} TrimEndOfGap(s: string, g: string)
    requires AllSpace(g) && (s != "" ==> !IsSpace(Last(s)))
    ensures TrimEnd(s + g) == s
  {
    if g == "" {
      assert s + g == s;
    } else {
      TrimEndOfGap(s, Init(g));
      assert Init(s + g) == s + Init(g) && Last(s + g) == Last(g);
    }
  }

  lemma TrimOfGaps(lead: string, s: string, trail: string)
    requires AllSpace(lead) && AllSpace(trail) && s != "" && !IsSpace(s[0]) && !IsSpace(Last(s))
    ensures Trim(lead + (s + trail)) == s
  {
    TrimStartOfGap(lead, s + trail);
    TrimEndOfGap(s, trail);
  }

  lemma TrimOfSpace(g: string)
    requires AllSpace(g)
    ensures Trim(g) == ""
  {
    TrimStartOfGap(g, "");
    assert g + "" == g;
  }

  lemma {:induction false} FieldsThenGap(w: string, tail: string, s: string)
    requires IsWord(w) && Fields(tail) == [""] + Fields(s)
    ensures Fields(w + tail) == [w] + Fields(s)
  {
    assert w[0] in w;
    if |w| == 1 {
      assert w == [w[0]] && (w + tail)[1..] == tail && [w[0]] + "" == w;
      assert ([""] + Fields(s))[1..] == Fields(s);
    } else {
      assert forall c :: c in w[1..] ==> c in w;
      FieldsThenGap(w[1..], tail, s);
      OneMoreCharacter(w[0], w[1..], tail);
      GlueAtFront(w[0], w[1..], Fields(s));
      assert [w[0]] + w[1..] == w;
    }
  }

  lemma FieldsOfGap(g: string, s: string)
    requires g != "" && AllSpace(g) && s != "" && !IsSpace(s[0])
    ensures Fields(g + s) == [""] + Fields(s)
  {
    assert (g + s)[1..] == g[1..] + s;
    TrimStartOfGap(g[1..], s);
  }

  lemma {:induction false} SpreadEnds(ws: seq<string>, gaps: seq<string>)
    requires |ws| == |gaps| + 1 && AllWords(ws)
    ensures var s := Spread(ws, gaps);
      s != "" && !IsSpace(s[0]) && !IsSpace(Last(s)) && ws[0] != "" && s[0] == ws[0][0]
  {
    assert ws[0] in ws && ws[0][0] in ws[0];
    if |ws| == 1 {
      assert Last(ws[0]) in ws[0];
    } else {
      TailOfWords(ws);
      SpreadEnds(ws[1..], gaps[1..]);
    }
  }

  /** However the words are parted, splitting gives them back. */
  lemma {:induction false} FieldsOfSpread(ws: seq<string>, gaps: seq<string>)
    requires |ws| == |gaps| + 1 && AllWords(ws) && AreGaps(gaps)
    ensures Fields(Spread(ws, gaps)) == ws
  {
    assert ws == [ws[0]] + ws[1..] && ws[0] in ws;
    if |ws| == 1 {
      FieldsOfWord(ws[0]);
    } else {
      TailOfWords(ws);
      var rest := Spread(ws[1..], gaps[1..]);
      FieldsOfSpread(ws[1..], gaps[1..]);
      SpreadEnds(ws[1..], gaps[1..]);
      FieldsOfGap(gaps[0], rest);
      FieldsThenGap(ws[0], gaps[0] + rest, rest);
    }
  }
}
