/** The debounced console buffer: the last lines of everything written, however it was cut into chunks. */
module SessionBuffer {
  import opened Strings

  const MAX_LINES := 1000

  /** The last n lines of a text. */
  function Tail(s: string, n: nat): string {
    Join(LastOf(Split(s, '\n'), n), "\n")
  }

  lemma SplitTail(s: string, n: nat)
    requires n > 0
    ensures Split(Tail(s, n), '\n') == LastOf(Split(s, '\n'), n)
  {
    PiecesAreSolid(s, '\n');
    SplitJoin(LastOf(Split(s, '\n'), n), '\n');
  }

  lemma TailOfTails<T>(p: seq<T>, t: seq<T>, n: nat)
    requires |p| > 0 && |t| > 0 && n > 0
    ensures LastOf(Init(LastOf(p, n)) + t, n) == LastOf(Init(p) + t, n)
  {
  }

  /** Cutting off early lines before or after appending makes no difference. */
  lemma TailAbsorbs(x: string, y: string, n: nat)
    requires n > 0
    ensures Tail(Tail(x, n) + y, n) == Tail(x + y, n)
  {
    var p := Split(x, '\n');
    var q := LastOf(p, n);
    SplitTail(x, n);
    SplitConcat(Tail(x, n), y, '\n');
    SplitConcat(x, y, '\n');
    assert Last(q) == Last(p);
    TailOfTails(p, Split(Last(p) + y, '\n'), n);
  }

  function TailOfAll(initial: string, appended: seq<string>, n: nat): string {
    if |appended| == 0 then initial else Tail(initial + Concat(appended), n)
  }

  lemma AppendKeepsTail(initial: string, appended: seq<string>, text: string, n: nat)
    requires n > 0
    ensures TailOfAll(initial, appended + [text], n) == Tail(TailOfAll(initial, appended, n) + text, n)
  {
    assert Init(appended + [text]) == appended;
    assert initial + (Concat(appended) + text) == (initial + Concat(appended)) + text;
    if |appended| == 0 {
      assert initial + "" == initial;
    } else {
      TailAbsorbs(initial + Concat(appended), text, n);
    }
  }

  class Writer {
    var buffer: string
    var dirty: bool
    var timer: bool
    var closed: bool
    /** The session_buffer column. */
    var stored: string
    ghost var initial: string
    ghost var appended: seq<string>
    ghost var writeFailed: bool

    /** The buffer is the tail of all that was ever in it; unless dirty or after a failed write, the column agrees. */
    ghost predicate Valid()
      reads this
    {
      && buffer == TailOfAll(initial, appended, MAX_LINES)
      && (!dirty && !writeFailed ==> stored == buffer)
      && (dirty && !closed ==> timer)
      && (closed ==> !timer)
    }

    constructor (column: string)
      ensures Valid() && initial == column && appended == [] && stored == column && !closed && !writeFailed
    {
      buffer, dirty, timer, closed, stored := column, false, false, false, column;
      initial, appended, writeFailed := column, [], false;
    }

    method Append(text: string)
      requires Valid()
      modifies this
      ensures Valid() && appended == old(appended) + [text] && dirty
      ensures initial == old(initial) && stored == old(stored) && closed == old(closed) &&
        writeFailed == old(writeFailed)
    {
      AppendKeepsTail(initial, appended, text, MAX_LINES);
      buffer := Join(LastOf(Split(buffer + text, '\n'), MAX_LINES), "\n");
      appended := appended + [text];
      Schedule();
    }

    method Schedule()
      modifies this`dirty, this`timer
      ensures dirty && timer == (old(timer) || !closed)
    {
      dirty := true;
      if !timer && !closed {
        timer := true;
      }
    }

    /** The timer's work; the column write may fail, and is then not repeated. */
    method Flush(writes: bool)
      requires Valid()
      modifies this`timer, this`dirty, this`stored, this`writeFailed
      ensures Valid() && !dirty && !timer
      ensures writeFailed == (old(writeFailed) || (old(dirty) && !writes))
      ensures stored == if old(dirty) && writes then buffer else old(stored)
    {
      timer := false;
      if !dirty {
        return;
      }
      dirty := false;
      if writes {
        stored := buffer;
      } else {
        writeFailed := true;
      }
    }

    /** Closing writes what is pending: nothing appended so far is lost unless a write failed. */
    method Close(writes: bool)
      requires Valid()
      modifies this`closed, this`timer, this`dirty, this`stored, this`writeFailed
      ensures Valid() && closed && !timer
      ensures !writeFailed ==> stored == buffer
    {
      closed := true;
      timer := false;
      Flush(writes);
    }
  }

  /** However the same text was cut, after at least one append the buffer is the same. */
  lemma ChunksDoNotMatter(a: Writer, b: Writer)
    requires a.Valid() && b.Valid() && a.initial == b.initial
    requires |a.appended| > 0 && |b.appended| > 0 && Concat(a.appended) == Concat(b.appended)
    ensures a.buffer == b.buffer == Tail(a.initial + Concat(a.appended), MAX_LINES)
  {
  }
}
