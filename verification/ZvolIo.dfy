/** The DTrace line consumer: stdout in chunks, metric lines into an interval, END lines that flush it. */
module ZvolIo {
  import opened Wrappers
  import opened Strings
  import opened JsValue

  datatype Counter = ReadOps | ReadBytes | WriteOps | WriteBytes

  datatype Row = Row(zone: string, dataset: string, readOps: real, readBytes: real, writeOps: real, writeBytes: real)

  datatype Line = End | Metric(zone: string, dataset: string, counter: Counter, value: real) | Noise

  type Interval = map<string, Row>

  /** What a consumer has taken in: the open interval, the intervals stored so far, and the failure count. */
  datatype State = State(interval: Interval, flushed: seq<Interval>, failures: nat)

  // ---- One line ----

  predicate IsLineTerminator(c: char) {
    c == '\n' || c == '\r' || c == '\U{2028}' || c == '\U{2029}'
  }

  /** What follows the zvol segment when it stands at the start of the path. */
  function AfterSegment(path: string): Option<string> {
    if StartsWith(path, "/dev/zvol/dsk/") then Some(path[14..])
    else if StartsWith(path, "/dev/zvol/rdsk/") then Some(path[15..])
    else None
  }

  /** The first `/dev/zvol/{r,}dsk/` that is followed by a dataset up to the end of the path. */
  function DatasetOf(path: string): (dataset: Option<string>)
    ensures dataset.Some? ==> dataset.value != "" && forall c :: c in dataset.value ==> c in path
  {
    if path == "" then None
    else
      var rest := AfterSegment(path);
      if rest.Some? && rest.value != "" && (forall i :: 0 <= i < |rest.value| ==> !IsLineTerminator(rest.value[i])) then
        rest
      else DatasetOf(path[1..])
  }

  function CounterOf(kind: string): Option<Counter> {
    if kind == "RO" then Some(ReadOps)
    else if kind == "RB" then Some(ReadBytes)
    else if kind == "WO" then Some(WriteOps)
    else if kind == "WB" then Some(WriteBytes)
    else None
  }

  function Trimmed(parts: seq<string>): (r: seq<string>)
    ensures |r| == |parts| && forall i :: 0 <= i < |parts| ==> r[i] == Trim(parts[i])
  {
    seq(|parts|, i requires 0 <= i < |parts| => Trim(parts[i]))
  }

  function ReadLine(parse: string -> Number, line: string): Line {
    var parts := Trimmed(Split(line, '\t'));
    if parts[0] == "END" then End
    else
      var counter := CounterOf(parts[0]);
      if counter == None || |parts| < 4 then Noise
      else
        var dataset, value := DatasetOf(parts[2]), parse(parts[3]);
        if dataset == None || !value.Finite? then Noise
        else Metric(parts[1], dataset.value, counter.value, value.r)
  }

  // ---- What a line means ----

  predicate NoTerminator(d: string) {
    forall i :: 0 <= i < |d| ==> d[i] !in {'\n', '\r', '\U{2028}', '\U{2029}'}
  }

  /** At n the path goes on with a zvol directory and the dataset, up to its end. */
  predicate NamesDatasetAt(path: string, n: nat, d: string) {
    n <= |path| && d != "" && NoTerminator(d) &&
      (path[n..] == "/dev/zvol/dsk/" + d || path[n..] == "/dev/zvol/rdsk/" + d)
  }

  lemma AfterSegmentMeans(path: string, d: string)
    requires d != ""
    ensures AfterSegment(path) == Some(d) <==> path == "/dev/zvol/dsk/" + d || path == "/dev/zvol/rdsk/" + d
  {
    var a, b := "/dev/zvol/dsk/", "/dev/zvol/rdsk/";
    assert |a| == 14 && |b| == 15 && a[10] == 'd' && b[10] == 'r';
    assert a <= path ==> path == a + path[14..];
    assert b <= path ==> path == b + path[15..];
    assert a <= a + d && (a + d)[14..] == d;
    assert b <= b + d && (b + d)[15..] == d && (b + d)[10] == 'r';
  }

  lemma SegmentsDiffer(path: string, d: string, e: string)
    requires AfterSegment(path) == Some(d) && AfterSegment(path) == Some(e)
    ensures d == e
  {
  }

  lemma HereOrLater(path: string, n: nat, d: string)
    requires path != ""
    ensures n > 0 ==> (NamesDatasetAt(path, n, d) <==> NamesDatasetAt(path[1..], n - 1, d))
    ensures NamesDatasetAt(path, 0, d) <==> d != "" && NoTerminator(d) && AfterSegment(path) == Some(d)
  {
    assert path[0..] == path;
    if 0 < n <= |path| {
      assert path[1..][n - 1..] == path[n..];
    }
    if d != "" {
      AfterSegmentMeans(path, d);
    }
  }

  /** The dataset is the one the path names at n, and at no place before n does it name any. */
  ghost predicate NamedFirstAt(path: string, n: nat, d: string) {
    NamesDatasetAt(path, n, d) && forall m: nat, e :: m < n ==> !NamesDatasetAt(path, m, e)
  }

  ghost predicate NamesNoDataset(path: string) {
    forall n: nat, e :: !NamesDatasetAt(path, n, e)
  }

  lemma NamesSameLater(path: string)
    requires path != "" && forall e :: !NamesDatasetAt(path, 0, e)
    ensures NamesNoDataset(path[1..]) ==> NamesNoDataset(path)
    ensures forall n: nat, d :: NamedFirstAt(path[1..], n, d) ==> NamedFirstAt(path, n + 1, d)
  {
    forall n: nat, e ensures n > 0 ==> (NamesDatasetAt(path, n, e) <==> NamesDatasetAt(path[1..], n - 1, e)) {
      HereOrLater(path, n, e);
    }
    forall n: nat, d | NamedFirstAt(path[1..], n, d) ensures NamedFirstAt(path, n + 1, d) {
      assert NamesDatasetAt(path, n + 1, d);
    }
  }

  /** The dataset of a path is the one named at the first place where the path names any. */
  lemma {:induction false} DatasetExactly(path: string)
    ensures DatasetOf(path) == None ==> NamesNoDataset(path)
    ensures forall d :: DatasetOf(path) == Some(d) ==> exists n: nat :: NamedFirstAt(path, n, d)
  {
    if path == "" {
      forall n: nat, e ensures !NamesDatasetAt(path, n, e) {
        NothingInEmpty(n, e);
      }
    } else {
      forall e ensures NamesDatasetAt(path, 0, e) <==> e != "" && NoTerminator(e) && AfterSegment(path) == Some(e) {
        HereOrLater(path, 0, e);
      }
      var rest := AfterSegment(path);
      if rest.Some? && rest.value != "" && NoTerminator(rest.value) {
        assert NamedFirstAt(path, 0, rest.value);
      } else {
        DatasetExactly(path[1..]);
        NamesSameLater(path);
        if DatasetOf(path).Some? {
          var d := DatasetOf(path).value;
          var n: nat :| NamedFirstAt(path[1..], n, d);
          assert NamedFirstAt(path, n + 1, d);
        }
      }
    }
  }

  lemma NothingInEmpty(n: nat, e: string)
    ensures !NamesDatasetAt("", n, e)
  {
    assert n == 0 ==> ""[n..] == "";
  }

  predicate Cell(s: string) {
    '\t' !in s && Trim(s) == s
  }

  function Row4(kind: string, zone: string, path: string, raw: string, tab: char := '\t'): string {
    kind + [tab] + (zone + [tab] + (path + [tab] + raw))
  }

  lemma SplitRow(kind: string, zone: string, path: string, raw: string, tab: char)
    requires tab !in kind && tab !in zone && tab !in path && tab !in raw
    ensures Split(Row4(kind, zone, path, raw, tab), tab) == [kind] + ([zone] + ([path] + [raw]))
  {
    var c := path + [tab] + raw;
    var b := zone + [tab] + c;
    SplitSolid(raw, tab);
    SplitPiece(path, raw, tab);
    SplitPiece(zone, c, tab);
    SplitPiece(kind, b, tab);
  }

  lemma CellsOfRow(kind: string, zone: string, path: string, raw: string)
    requires Cell(kind) && Cell(zone) && Cell(path) && Cell(raw)
    ensures Trimmed(Split(Row4(kind, zone, path, raw), '\t')) == [kind, zone, path, raw]
  {
    SplitRow(kind, zone, path, raw, '\t');
    FourTrimmed(kind, zone, path, raw);
  }

  lemma FourTrimmed(a: string, b: string, c: string, d: string)
    requires Trim(a) == a && Trim(b) == b && Trim(c) == c && Trim(d) == d
    ensures Trimmed([a] + ([b] + ([c] + [d]))) == [a, b, c, d]
  {
  }

  /**
   A printed row counts what its first cell says, reads or writes, operations or bytes, for the zone and the dataset of
   the path; a row of another kind, of no dataset or of no finite number is noise.
   */
  lemma RowCounts(parse: string -> Number, kind: string, zone: string, path: string, raw: string)
    requires Cell(kind) && Cell(zone) && Cell(path) && Cell(raw)
    ensures var line, d, v := ReadLine(parse, Row4(kind, zone, path, raw)), DatasetOf(path), parse(raw);
      (line == End <==> kind == "END") &&
      (d.Some? && v.Finite? ==>
        (kind == "RO" ==> line == Metric(zone, d.value, ReadOps, v.r)) &&
        (kind == "RB" ==> line == Metric(zone, d.value, ReadBytes, v.r)) &&
        (kind == "WO" ==> line == Metric(zone, d.value, WriteOps, v.r)) &&
        (kind == "WB" ==> line == Metric(zone, d.value, WriteBytes, v.r))) &&
      (line == Noise <==> kind != "END" && (kind !in {"RO", "RB", "WO", "WB"} || d == None || !v.Finite?))
  {
    CellsOfRow(kind, zone, path, raw);
  }

  /** END stores the open interval if it holds anything, opens an empty one and forgets the failures. */
  lemma EndFlushes(st: State)
    ensures var after := Accept(End, st);
      after.interval == map[] && after.failures == 0 &&
      (st.interval != map[] ==> after.flushed == st.flushed + [st.interval]) &&
      (st.interval == map[] ==> after.flushed == st.flushed)
  {
  }

  /** A reading of lines: what the state machine below takes as given. */
  type Reader = string -> Line

  function DtraceReader(parse: string -> Number): Reader {
    line => ReadLine(parse, line)
  }

  function KeyOf(zone: string, dataset: string): string {
    zone + "\t" + dataset
  }

  function Amount(row: Row, counter: Counter): real {
    match counter
    case ReadOps => row.readOps
    case ReadBytes => row.readBytes
    case WriteOps => row.writeOps
    case WriteBytes => row.writeBytes
  }

  function AddTo(row: Row, counter: Counter, value: real): Row {
    match counter
    case ReadOps => row.(readOps := row.readOps + value)
    case ReadBytes => row.(readBytes := row.readBytes + value)
    case WriteOps => row.(writeOps := row.writeOps + value)
    case WriteBytes => row.(writeBytes := row.writeBytes + value)
  }

  function Accept(line: Line, st: State): State {
    match line
    case Noise => st
    case End => State(map[], if st.interval == map[] then st.flushed else st.flushed + [st.interval], 0)
    case Metric(zone, dataset, counter, value) =>
      var key := KeyOf(zone, dataset);
      var row := if key in st.interval then st.interval[key] else Row(zone, dataset, 0.0, 0.0, 0.0, 0.0);
      st.(interval := st.interval[key := AddTo(row, counter, value)])
  }

  function AcceptAll(read: Reader, lines: seq<string>, st: State): State {
    if |lines| == 0 then st
    else Accept(read(Last(lines)), AcceptAll(read, Init(lines), st))
  }

  // ---- The consumer ----

  class Collector {
    const parse: string -> Number
    var stdoutBuffer: string
    var interval: Interval
    var consecutiveFailures: nat
    /** The intervals handed to `persist`, in order. */
    var flushed: seq<Interval>
    /** Everything the child has printed, and the failure count it was spawned with. */
    ghost var printed: string
    ghost var initialFailures: nat

    ghost predicate Valid()
      reads this
    {
      var pieces := Split(printed, '\n');
      && stdoutBuffer == Last(pieces)
      && State(interval, flushed, consecutiveFailures)
           == AcceptAll(DtraceReader(parse), Init(pieces), State(map[], [], initialFailures))
    }

    /** A child is spawned: the line buffer and the interval start empty. */
    constructor (parse: string -> Number, failures: nat)
      ensures Valid() && printed == "" && initialFailures == failures && this.parse == parse
    {
      this.parse := parse;
      stdoutBuffer, interval, flushed, consecutiveFailures := "", map[], [], failures;
      printed, initialFailures := "", failures;
    }

    method ConsumeLine(line: string)
      modifies this`interval, this`flushed, this`consecutiveFailures
      ensures State(interval, flushed, consecutiveFailures)
           == Accept(DtraceReader(parse)(line), old(State(interval, flushed, consecutiveFailures)))
    {
      var parts := Trimmed(Split(line, '\t'));
      var kind := parts[0];
      if kind == "END" {
        var rows := interval;
        interval := map[];
        consecutiveFailures := 0;
        if rows != map[] {
          flushed := flushed + [rows];
        }
        return;
      }
      var counter := CounterOf(kind);
      if counter == None || |parts| < 4 {
        return;
      }
      var zone := parts[1];
      var dataset := DatasetOf(parts[2]);
      if dataset == None {
        return;
      }
      var value := parse(parts[3]);
      if !value.Finite? {
        return;
      }
      var key := zone + "\t" + dataset.value;
      var row := if key in interval then interval[key] else Row(zone, dataset.value, 0.0, 0.0, 0.0, 0.0);
      interval := interval[key := AddTo(row, counter.value, value.r)];
    }

    /** A chunk of stdout, split anywhere. The state after it depends on everything printed, not on the cuts. */
    method ConsumeStdout(chunk: string)
      requires Valid()
      modifies this
      ensures Valid() && printed == old(printed) + chunk && initialFailures == old(initialFailures)
    {
      PrintingMore(DtraceReader(parse), printed, chunk, State(map[], [], initialFailures));
      printed := printed + chunk;
      var lines := Split(stdoutBuffer + chunk, '\n');
      stdoutBuffer := Last(lines);
      ConsumeLines(Init(lines));
    }

    method ConsumeLines(lines: seq<string>)
      modifies this`interval, this`flushed, this`consecutiveFailures
      ensures State(interval, flushed, consecutiveFailures)
           == AcceptAll(DtraceReader(parse), lines, old(State(interval, flushed, consecutiveFailures)))
    {
      ghost var st, read := State(interval, flushed, consecutiveFailures), DtraceReader(parse);
      for i := 0 to |lines|
        invariant State(interval, flushed, consecutiveFailures) == AcceptAll(read, lines[..i], st)
      {
        assert Init(lines[..i + 1]) == lines[..i];
        ConsumeLine(lines[i]);
      }
      assert lines[..|lines|] == lines;
    }
  }

  /** The lines a chunk completes come after the lines already taken, and the unfinished piece is left over. */
  lemma PrintingMore(read: Reader, printed: string, chunk: string, st: State)
    ensures var pieces, more := Split(printed, '\n'), Split(Last(Split(printed, '\n')) + chunk, '\n');
      && Last(Split(printed + chunk, '\n')) == Last(more)
      && AcceptAll(read, Init(Split(printed + chunk, '\n')), st) ==
        AcceptAll(read, Init(more), AcceptAll(read, Init(pieces), st))
  {
    var pieces, more := Split(printed, '\n'), Split(Last(Split(printed, '\n')) + chunk, '\n');
    SplitConcat(printed, chunk, '\n');
    AcceptAllAppend(read, Init(pieces), Init(more), st);
    assert Init(Init(pieces) + more) == Init(pieces) + Init(more);
  }

  lemma {:induction false} AcceptAllAppend(read: Reader, a: seq<string>, b: seq<string>, st: State)
    ensures AcceptAll(read, a + b, st) == AcceptAll(read, b, AcceptAll(read, a, st))
  {
    if |b| == 0 {
      assert a + b == a;
    } else {
      AcceptAllAppend(read, a, Init(b), st);
      assert Init(a + b) == a + Init(b);
    }
  }

  // ---- Conservation ----

  /** What an interval holds for a disk: its row, under its key. */
  function Held(interval: Interval, zone: string, dataset: string, counter: Counter): real {
    var key := KeyOf(zone, dataset);
    if key in interval then Amount(interval[key], counter) else 0.0
  }

  function HeldInAll(intervals: seq<Interval>, zone: string, dataset: string, counter: Counter): real {
    if |intervals| == 0 then 0.0
    else HeldInAll(Init(intervals), zone, dataset, counter) + Held(Last(intervals), zone, dataset, counter)
  }

  /** The sum of the accepted metric lines of a disk. */
  function Printed(read: Reader, lines: seq<string>, zone: string, dataset: string, counter: Counter): real {
    if |lines| == 0 then 0.0
    else
      var line := read(Last(lines));
      Printed(read, Init(lines), zone, dataset, counter)
      + if line.Metric? && line.zone == zone && line.dataset == dataset && line.counter == counter
        then line.value else 0.0
  }

  predicate TabFree(s: string) {
    '\t' !in s
  }

  lemma MetricIsTabFree(parse: string -> Number, line: string)
    ensures var m := ReadLine(parse, line);
      m.Metric? ==> TabFree(m.zone) && TabFree(m.dataset)
  {
    PiecesAreSolid(line, '\t');
    var pieces := Split(line, '\t');
    if |pieces| >= 4 {
      assert pieces[1] in pieces && pieces[2] in pieces;
    }
  }

  /** Zone and dataset can be read off the key: no two disks share one. */
  lemma {:induction false} KeyIsInjective(z: string, d: string, z': string, d': string)
    requires TabFree(z) && TabFree(z') && KeyOf(z, d) == KeyOf(z', d')
    ensures z == z' && d == d'
  {
    SplitPiece(z, d, '\t');
    SplitPiece(z', d', '\t');
    JoinSplit(d, '\t');
    JoinSplit(d', '\t');
    assert Split(KeyOf(z, d), '\t')[1..] == Split(d, '\t');
    assert Split(KeyOf(z', d'), '\t')[1..] == Split(d', '\t');
  }

  /** Every row stands under the key of the disk it names. */
  ghost predicate Keyed(interval: Interval) {
    forall key :: key in interval ==>
      key == KeyOf(interval[key].zone, interval[key].dataset) && TabFree(interval[key].zone)
  }

  ghost predicate ReadsTabFree(read: Reader) {
    forall line :: var m := read(line); m.Metric? ==> TabFree(m.zone) && TabFree(m.dataset)
  }

  lemma DtraceReadsTabFree(parse: string -> Number)
    ensures ReadsTabFree(DtraceReader(parse))
  {
    forall line ensures var m := DtraceReader(parse)(line); m.Metric? ==> TabFree(m.zone) && TabFree(m.dataset) {
      MetricIsTabFree(parse, line);
    }
  }

  lemma {:induction false} RowsStayKeyed(read: Reader, lines: seq<string>, st: State)
    requires ReadsTabFree(read) && Keyed(st.interval) && forall m :: m in st.flushed ==> Keyed(m)
    ensures var out := AcceptAll(read, lines, st);
      Keyed(out.interval) && forall m :: m in out.flushed ==> Keyed(m)
  {
    if |lines| > 0 {
      RowsStayKeyed(read, Init(lines), st);
    }
  }

  /** So a row that names a disk is the row `Held` looks up. */
  lemma RowIsUnderItsKey(interval: Interval, key: string)
    requires Keyed(interval) && key in interval
    ensures key == KeyOf(interval[key].zone, interval[key].dataset)
    ensures forall c :: Held(interval, interval[key].zone, interval[key].dataset, c) == Amount(interval[key], c)
  {
  }

  lemma AcceptConserves(m: Line, st: State, zone: string, dataset: string, counter: Counter)
    requires TabFree(zone) && (m.Metric? ==> TabFree(m.zone))
    ensures var out := Accept(m, st);
      HeldInAll(out.flushed, zone, dataset, counter) + Held(out.interval, zone, dataset, counter)
      == HeldInAll(st.flushed, zone, dataset, counter) + Held(st.interval, zone, dataset, counter)
         + if m.Metric? && m.zone == zone && m.dataset == dataset && m.counter == counter then m.value else 0.0
  {
    match m
    case Noise =>
    case End =>
      if st.interval != map[] {
        assert Init(st.flushed + [st.interval]) == st.flushed;
      }
    case Metric(z, d, c, v) =>
      if KeyOf(z, d) == KeyOf(zone, dataset) {
        KeyIsInjective(z, d, zone, dataset);
      }
  }

  lemma {:induction false} ReadingConserves(
    read: Reader, lines: seq<string>, failures: nat, zone: string, dataset: string, counter: Counter)
    requires TabFree(zone) && ReadsTabFree(read)
    ensures var out := AcceptAll(read, lines, State(map[], [], failures));
      HeldInAll(out.flushed, zone, dataset, counter) + Held(out.interval, zone, dataset, counter)
      == Printed(read, lines, zone, dataset, counter)
  {
    if |lines| > 0 {
      ReadingConserves(read, Init(lines), failures, zone, dataset, counter);
      AcceptConserves(read(Last(lines)), AcceptAll(read, Init(lines), State(map[], [], failures)), zone, dataset,
        counter);
    }
  }

  /**
   Nothing is lost and nothing counted twice: for every zone, dataset and counter, the stored rows and the open
   interval together hold the sum of all accepted metric lines printed so far.
   */
  lemma Conservation(collector: Collector, zone: string, dataset: string, counter: Counter)
    requires collector.Valid() && TabFree(zone)
    ensures HeldInAll(collector.flushed, zone, dataset, counter) + Held(collector.interval, zone, dataset, counter)
      == Printed(DtraceReader(collector.parse), Init(Split(collector.printed, '\n')), zone, dataset, counter)
  {
    DtraceReadsTabFree(collector.parse);
    ReadingConserves(DtraceReader(collector.parse), Init(Split(collector.printed, '\n')), collector.initialFailures,
                     zone, dataset, counter);
  }

  /** Two consumers that have printed the same text agree on everything: rows, flush points, open interval, failures. */
  lemma ChunksDoNotMatter(a: Collector, b: Collector)
    requires a.Valid() && b.Valid() && a.parse == b.parse && a.initialFailures == b.initialFailures
    requires a.printed == b.printed
    ensures a.flushed == b.flushed && a.interval == b.interval
    ensures a.consecutiveFailures == b.consecutiveFailures && a.stdoutBuffer == b.stdoutBuffer
  {
    assert State(a.interval, a.flushed, a.consecutiveFailures) == State(b.interval, b.flushed, b.consecutiveFailures);
  }
}
