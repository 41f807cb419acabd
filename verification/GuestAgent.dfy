/**
 One guest-agent exchange: resynchronise on the 0xFF sentinel, check the sync line, send the command, take one reply
 line.
 */
module GuestAgent {
  import opened Wrappers
  import opened Strings
  import opened Bits
  import opened JsValue


  const SENTINEL: Byte := 0xff
  const NEWLINE: Byte := 0x0a

  /** `JSON.parse` of a line: None when it throws. */
  type Parser = Bytes -> Option<Value>

  datatype Fault = BadSyncLine | WrongSyncId | BadReplyLine | AgentError | TimedOut | ChannelClosed

  datatype Outcome = Reply(value: Value) | NoReply | Failed(fault: Fault)

  /** What ends an exchange from outside: the timer, or the socket. */
  datatype Ending = Timeout | SocketError | SocketClose

  datatype Stage = AwaitSentinel | AwaitSync | AwaitReply

  // ---- The outcome as a function of the bytes received ----

  /** How far a received byte string takes the exchange, with the bytes not used up yet. */
  datatype Progress = Waiting(stage: Stage, rest: Bytes) | Done(outcome: Outcome, delivered: bool)

  function IndexOf(bytes: Bytes, b: Byte): (r: Option<nat>)
    ensures r.Some? ==> r.value < |bytes|
  {
    if |bytes| == 0 then None
    else if bytes[0] == b then Some(0)
    else
      match IndexOf(bytes[1..], b)
      case None => None
      case Some(i) => Some(i + 1)
  }

  /** `indexOf` finds the first occurrence, or tells that there is none. */
  lemma {:induction false} IndexOfFirst(bytes: Bytes, b: Byte)
    ensures match IndexOf(bytes, b)
      case None => b !in bytes
      case Some(i) => bytes[i] == b && b !in bytes[..i]
  {
    if |bytes| > 0 && bytes[0] != b {
      IndexOfFirst(bytes[1..], b);
    }
  }

  function SyncFault(parse: Parser, syncId: real, line: Bytes): Option<Fault> {
    match parse(line)
    case None => Some(BadSyncLine)
    case Some(parsed) => if StrictEq(Get(parsed, "return"), Num(Finite(syncId))) then None else Some(WrongSyncId)
  }

  function ReplyOutcome(parse: Parser, line: Bytes): Outcome {
    match parse(line)
    case None => Failed(BadReplyLine)
    case Some(parsed) => if Truthy(Get(parsed, "error")) then Failed(AgentError) else Reply(Get(parsed, "return"))
  }

  /** What the two kinds of line mean: the sync line passes or fails, the reply line settles the exchange. */
  datatype Lines = Lines(sync: Bytes -> Option<Fault>, reply: Bytes -> Outcome)

  function JsonLines(parse: Parser, syncId: real): Lines {
    Lines(line => SyncFault(parse, syncId, line), line => ReplyOutcome(parse, line))
  }

  function ReadReply(lines: Lines, bytes: Bytes): Progress {
    match IndexOf(bytes, NEWLINE)
    case None => Waiting(AwaitReply, bytes)
    case Some(i) => Done(lines.reply(bytes[..i]), true)
  }

  function ReadSync(lines: Lines, bytes: Bytes): Progress {
    match IndexOf(bytes, NEWLINE)
    case None => Waiting(AwaitSync, bytes)
    case Some(i) =>
      match lines.sync(bytes[..i])
      case Some(fault) => Done(Failed(fault), false)
      case None => ReadReply(lines, bytes[i + 1..])
  }

  /** Everything before the first sentinel is dropped; then come the sync line and the reply line. */
  function Read(lines: Lines, bytes: Bytes): Progress {
    match IndexOf(bytes, SENTINEL)
    case None => Waiting(AwaitSentinel, [])
    case Some(i) => ReadSync(lines, bytes[i + 1..])
  }

  /** The same, taken up in a later stage. */
  function Continue(lines: Lines, stage: Stage, buffer: Bytes): Progress {
    match stage
    case AwaitSentinel => Read(lines, buffer)
    case AwaitSync => ReadSync(lines, buffer)
    case AwaitReply => ReadReply(lines, buffer)
  }

  predicate Delivered(p: Progress) {
    match p
    case Waiting(stage, _) => stage == AwaitReply
    case Done(_, delivered) => delivered
  }

  function Settlement(p: Progress): Option<Outcome> {
    if p.Done? then Some(p.outcome) else None
  }

  function EndFault(ending: Ending): Fault {
    if ending == Timeout then TimedOut else ChannelClosed
  }

  /** The outcome of a whole exchange: all bytes received, and how it ended. */
  function Final(lines: Lines, bytes: Bytes, ending: Ending): Outcome {
    var p := Read(lines, bytes);
    if p.Done? then p.outcome else if Delivered(p) then NoReply else Failed(EndFault(ending))
  }

  lemma {:induction false} IndexOfAppend(bytes: Bytes, more: Bytes, b: Byte)
    ensures IndexOf(bytes, b).Some? ==> IndexOf(bytes + more, b) == IndexOf(bytes, b)
    ensures IndexOf(bytes, b).None? ==>
      IndexOf(bytes + more, b) == match IndexOf(more, b) case None => None case Some(i) => Some(|bytes| + i)
  {
    if |bytes| == 0 {
      assert bytes + more == more;
    } else {
      IndexOfAppend(bytes[1..], more, b);
      assert (bytes + more)[1..] == bytes[1..] + more;
    }
  }

  lemma ReplyContinues(lines: Lines, bytes: Bytes, more: Bytes)
    ensures var p, q := ReadReply(lines, bytes), ReadReply(lines, bytes + more);
      if p.Done? then q == p else q == ReadReply(lines, p.rest + more)
  {
    IndexOfAppend(bytes, more, NEWLINE);
    var j := IndexOf(bytes, NEWLINE);
    if j.Some? {
      assert (bytes + more)[..j.value] == bytes[..j.value];
    }
  }

  lemma SyncContinues(lines: Lines, bytes: Bytes, more: Bytes)
    ensures var p, q := ReadSync(lines, bytes), ReadSync(lines, bytes + more);
      if p.Done? then q == p else q == Continue(lines, p.stage, p.rest + more)
  {
    IndexOfAppend(bytes, more, NEWLINE);
    var j := IndexOf(bytes, NEWLINE);
    if j.Some? {
      assert (bytes + more)[..j.value] == bytes[..j.value];
      assert (bytes + more)[j.value + 1..] == bytes[j.value + 1..] + more;
      ReplyContinues(lines, bytes[j.value + 1..], more);
    }
  }

  lemma ReadFrom(lines: Lines, bytes: Bytes, i: nat, tail: Bytes)
    requires IndexOf(bytes, SENTINEL) == Some(i) && tail == bytes[i + 1..]
    ensures Read(lines, bytes) == ReadSync(lines, tail)
  {
  }

  lemma NoiseIsSkipped(lines: Lines, all: Bytes, n: nat, more: Bytes)
    requires n <= |all| && all[n..] == more
    requires IndexOf(all, SENTINEL) == match IndexOf(more, SENTINEL) case None => None case Some(i) => Some(n + i)
    ensures Read(lines, all) == Read(lines, more)
  {
    var k := IndexOf(more, SENTINEL);
    if k.Some? {
      var tail := more[k.value + 1..];
      assert all[n + k.value + 1..] == all[n..][k.value + 1..];
      ReadFrom(lines, all, n + k.value, tail);
      ReadFrom(lines, more, k.value, tail);
    }
  }

  lemma NoSentinelYet(lines: Lines, bytes: Bytes, more: Bytes)
    requires IndexOf(bytes, SENTINEL).None?
    ensures Read(lines, bytes + more) == Read(lines, more)
  {
    IndexOfAppend(bytes, more, SENTINEL);
    var all := bytes + more;
    assert all[|bytes|..] == more;
    NoiseIsSkipped(lines, all, |bytes|, more);
  }

  lemma SentinelSeen(lines: Lines, bytes: Bytes, more: Bytes, i: nat)
    requires IndexOf(bytes, SENTINEL) == Some(i)
    ensures Read(lines, bytes) == ReadSync(lines, bytes[i + 1..])
    ensures Read(lines, bytes + more) == ReadSync(lines, bytes[i + 1..] + more)
  {
    IndexOfAppend(bytes, more, SENTINEL);
    assert (bytes + more)[i + 1..] == bytes[i + 1..] + more;
  }

  /** Reading more bytes goes on from the stage and the leftover reached; a settled outcome stays. */
  lemma ReadContinues(lines: Lines, bytes: Bytes, more: Bytes)
    ensures var p, q := Read(lines, bytes), Read(lines, bytes + more);
      if p.Done? then q == p else q == Continue(lines, p.stage, p.rest + more)
  {
    var i := IndexOf(bytes, SENTINEL);
    if i.Some? {
      SentinelSeen(lines, bytes, more, i.value);
      SyncContinues(lines, bytes[i.value + 1..], more);
    } else {
      NoSentinelYet(lines, bytes, more);
      assert [] + more == more;
    }
  }

  // ---- The machine ----

  class Exchange {
    const lines: Lines
    var buffer: Bytes
    var stage: Stage
    var delivered: bool
    var settled: Option<Outcome>
    /** How often the command was written, and how often the promise was resolved or rejected. */
    var written: nat
    var settlements: nat
    /** Every byte the socket has received, and whether the exchange was ended from outside. */
    ghost var received: Bytes
    ghost var over: bool

    ghost predicate Valid()
      reads this
    {
      && written == (if delivered then 1 else 0)
      && settlements == (if settled.Some? then 1 else 0)
      && (over ==> settled.Some?)
      && (!over ==> Reflects(Read(lines, received)))
    }

    /** The fields are at this point of the reading. */
    ghost predicate Reflects(p: Progress)
      reads this
    {
      && settled == Settlement(p)
      && delivered == Delivered(p)
      && (p.Waiting? ==> stage == p.stage && buffer == p.rest)
    }

    constructor (lines: Lines)
      ensures Valid() && received == [] && settled == None && !over
      ensures this.lines == lines
    {
      this.lines := lines;
      buffer, stage, delivered, settled, written, settlements := [], AwaitSentinel, false, None, 0, 0;
      received, over := [], false;
    }

    method Finish(outcome: Outcome)
      modifies this`settled, this`settlements
      ensures settled == if old(settled).Some? then old(settled) else Some(outcome)
      ensures settlements == old(settlements) + if old(settled).Some? then 0 else 1
    {
      if settled.Some? {
        return;
      }
      settled, settlements := Some(outcome), settlements + 1;
    }

    method TakeLine() returns (line: Option<Bytes>)
      modifies this`buffer
      ensures line == match IndexOf(old(buffer), NEWLINE) case None => None case Some(i) => Some(old(buffer)[..i])
      ensures buffer ==
        match IndexOf(old(buffer), NEWLINE)
        case None => old(buffer)
        case Some(i) => old(buffer)[i + 1..]
    {
      var newline := IndexOf(buffer, NEWLINE);
      if newline.None? {
        return None;
      }
      line := Some(buffer[..newline.value]);
      buffer := buffer[newline.value + 1..];
    }

    method HandleSyncLine(line: Bytes)
      requires stage == AwaitSync && !delivered && settled.None? && written == 0
      modifies this`stage, this`delivered, this`settled, this`settlements, this`written
      ensures match lines.sync(line)
        case Some(fault) =>
          settled == Some(Failed(fault)) && settlements == old(settlements) + 1
          && stage == AwaitSync && !delivered && written == 0
        case None =>
          settled.None? && settlements == old(settlements) && stage == AwaitReply && delivered && written == 1
    {
      var fault := lines.sync(line);
      if fault.Some? {
        Finish(Failed(fault.value));
        return;
      }
      written := written + 1;
      delivered := true;
      stage := AwaitReply;
    }

    /** A chunk arrives, cut anywhere. */
    method Data(chunk: Bytes)
      requires Valid()
      modifies this
      ensures Valid() && received == old(received) + chunk && over == old(over)
      ensures old(settled).Some? ==> settled == old(settled)
    {
      ghost var before, after := Read(lines, received), Read(lines, received + chunk);
      ReadContinues(lines, received, chunk);
      received := received + chunk;
      if settled.Some? {
        // The socket is destroyed: nothing is listening any more.
        assert !over ==> Reflects(after);
        return;
      }
      assert before.Waiting? && stage == before.stage && buffer == before.rest;
      buffer := buffer + chunk;
      assert Continue(lines, stage, buffer) == after;
      Consume();
      assert Reflects(after);
    }

    /** The body of the data handler: as many stages as the buffer completes. */
    method Consume()
      requires settled.None? && settlements == 0 && written == (if delivered then 1 else 0)
      requires delivered == (stage == AwaitReply)
      modifies this`buffer, this`stage, this`delivered, this`settled, this`settlements, this`written
      ensures Reflects(old(Continue(lines, stage, buffer)))
      ensures written == (if delivered then 1 else 0) && settlements == (if settled.Some? then 1 else 0)
    {
      if stage == AwaitSentinel {
        var sentinel := IndexOf(buffer, SENTINEL);
        if sentinel.None? {
          buffer := [];
          return;
        }
        buffer := buffer[sentinel.value + 1..];
        stage := AwaitSync;
      }
      if stage == AwaitSync {
        var line := TakeLine();
        if line.None? {
          return;
        }
        HandleSyncLine(line.value);
      }
      if stage == AwaitReply {
        ConsumeReply();
      }
    }

    /** The last stage: one reply line settles the exchange. */
    method ConsumeReply()
      requires settled.None? && settlements == 0 && written == 1 && delivered && stage == AwaitReply
      modifies this`buffer, this`settled, this`settlements
      ensures Reflects(old(ReadReply(lines, buffer)))
      ensures settlements == (if settled.Some? then 1 else 0)
    {
      var line := TakeLine();
      if line.Some? {
        Finish(lines.reply(line.value));
      }
    }

    /** The timer fires, or the socket fails or closes. */
    method End(ending: Ending)
      requires Valid() && !over
      modifies this`settled, this`settlements, this`over
      ensures Valid() && over
      ensures settled == Some(Final(lines, received, ending))
    {
      if delivered {
        Finish(NoReply);
      } else {
        Finish(Failed(EndFault(ending)));
      }
      over := true;
    }
  }

  /** Whatever the chunking, the exchange settles once, as the concatenated bytes and the ending decide. */
  method RunExchange(lines: Lines, chunks: seq<Bytes>, ending: Ending)
    returns (outcome: Outcome, settlements: nat)
    ensures outcome == Final(lines, Concat(chunks), ending)
    ensures settlements == 1
  {
    var exchange := new Exchange(lines);
    for i := 0 to |chunks|
      invariant exchange.Valid() && !exchange.over
      invariant exchange.lines == lines
      invariant exchange.received == Concat(chunks[..i])
    {
      assert Init(chunks[..i + 1]) == chunks[..i];
      exchange.Data(chunks[i]);
    }
    assert chunks[..|chunks|] == chunks;
    exchange.End(ending);
    outcome, settlements := exchange.settled.value, exchange.settlements;
  }

  /**
   A close or timeout after the command was written gives noReply and never an error: the command counts as written
   exactly when a sync line was accepted, and an outcome blames the channel exactly when it was not.
   */
  lemma EndingAfterDelivery(parse: Parser, syncId: real, bytes: Bytes, ending: Ending)
    ensures var lines := JsonLines(parse, syncId);
      var p, o := Read(lines, bytes), Final(lines, bytes, ending);
      && (o == NoReply <==> p.Waiting? && Delivered(p))
      && (o == Failed(EndFault(ending)) <==> p.Waiting? && !Delivered(p))
  {
    var lines := JsonLines(parse, syncId);
    var i := IndexOf(bytes, SENTINEL);
    if i.Some? {
      var a := bytes[i.value + 1..];
      var j := IndexOf(a, NEWLINE);
      if j.Some? {
        assert lines.sync(a[..j.value]) == SyncFault(parse, syncId, a[..j.value]);
        var r := a[j.value + 1..];
        assert Read(lines, bytes) == ReadSync(lines, a);
        if IndexOf(r, NEWLINE).Some? {
          assert lines.reply(r[..IndexOf(r, NEWLINE).value]) == ReplyOutcome(parse, r[..IndexOf(r, NEWLINE).value]);
        }
      }
    }
  }
}
