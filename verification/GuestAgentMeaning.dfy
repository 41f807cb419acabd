/** What an exchange settles to, through the parser and the bytes received alone. */
module GuestAgentMeaning {
  import opened Wrappers
  import opened Strings
  import opened Bits
  import opened JsValue
  import opened GuestAgent

  /** The timer gives one fault, the socket the other. */
  predicate EndedBefore(ending: Ending, outcome: Outcome) {
    outcome == Failed(if ending == Timeout then TimedOut else ChannelClosed)
  }

  predicate CarriesId(parsed: Value, syncId: real) {
    parsed.Obj? && "return" in parsed.props && parsed.props["return"] == Num(Finite(syncId))
  }

  /** The value of a key of a map that has it; any other value has none. */
  predicate HasError(parsed: Value) {
    parsed.Obj? && "error" in parsed.props && Truthy(parsed.props["error"])
  }

  function Returned(parsed: Value): Value {
    if parsed.Obj? && "return" in parsed.props then parsed.props["return"] else Undefined
  }

  /** A reply line settles the exchange; without one it is no reply, however it ended. */
  ghost predicate SettlesReply(parse: Parser, rest: Bytes, outcome: Outcome) {
    (0x0a !in rest ==> outcome == NoReply) &&
    forall reply, more :: rest == reply + ([0x0a] + more) && 0x0a !in reply ==> SettlesReplyLine(parse, reply, outcome)
  }

  predicate SettlesReplyLine(parse: Parser, reply: Bytes, outcome: Outcome) {
    match parse(reply)
    case None => outcome == Failed(BadReplyLine)
    case Some(parsed) => if HasError(parsed) then outcome == Failed(AgentError) else outcome == Reply(Returned(parsed))
  }

  ghost predicate SettlesSync(parse: Parser, syncId: real, tail: Bytes, ending: Ending, outcome: Outcome) {
    (0x0a !in tail ==> EndedBefore(ending, outcome)) &&
    forall sync, rest :: tail == sync + ([0x0a] + rest) && 0x0a !in sync ==>
      SettlesSyncLine(parse, syncId, sync, rest, outcome)
  }

  ghost predicate SettlesSyncLine(parse: Parser, syncId: real, sync: Bytes, rest: Bytes, outcome: Outcome) {
    match parse(sync)
    case None => outcome == Failed(BadSyncLine)
    case Some(parsed) =>
      if !CarriesId(parsed, syncId) then outcome == Failed(WrongSyncId) else SettlesReply(parse, rest, outcome)
  }

  /** Everything up to the first sentinel is noise; without a sentinel nothing was heard. */
  ghost predicate Settles(parse: Parser, syncId: real, bytes: Bytes, ending: Ending, outcome: Outcome) {
    (0xff !in bytes ==> EndedBefore(ending, outcome)) &&
    forall noise, tail :: bytes == noise + ([0xff] + tail) && 0xff !in noise ==>
      SettlesSync(parse, syncId, tail, ending, outcome)
  }

  /** Where a byte first stands. */
  lemma {:induction false} FirstAt(before: Bytes, b: Byte, after: Bytes)
    requires b !in before
    ensures IndexOf(before + ([b] + after), b) == Some(|before|)
    ensures (before + ([b] + after))[..|before|] == before
    ensures (before + ([b] + after))[|before| + 1..] == after
  {
    var all := before + ([b] + after);
    if before == [] {
      assert all == [b] + after;
    } else {
      FirstAt(before[1..], b, after);
      assert all[1..] == before[1..] + ([b] + after);
    }
  }

  lemma NowhereIs(bytes: Bytes, b: Byte)
    requires b !in bytes
    ensures IndexOf(bytes, b) == None
  {
    IndexOfFirst(bytes, b);
  }

  /** How an unfinished reading ends. */
  function Ended(p: Progress, ending: Ending): Outcome {
    if p.Done? then p.outcome else if Delivered(p) then NoReply else Failed(EndFault(ending))
  }

  lemma ReplyLineSettles(parse: Parser, syncId: real, reply: Bytes)
    ensures SettlesReplyLine(parse, reply, JsonLines(parse, syncId).reply(reply))
  {
  }

  lemma ReplySettles(parse: Parser, syncId: real, rest: Bytes, ending: Ending)
    ensures SettlesReply(parse, rest, Ended(ReadReply(JsonLines(parse, syncId), rest), ending))
  {
    var lines := JsonLines(parse, syncId);
    if 0x0a !in rest {
      NowhereIs(rest, NEWLINE);
    }
    forall reply, more | rest == reply + ([0x0a] + more) && 0x0a !in reply
      ensures SettlesReplyLine(parse, reply, Ended(ReadReply(lines, rest), ending))
    {
      FirstAt(reply, NEWLINE, more);
      ReplyLineSettles(parse, syncId, reply);
    }
  }

  lemma SyncLineMeans(parse: Parser, syncId: real, sync: Bytes)
    ensures JsonLines(parse, syncId).sync(sync) ==
      match parse(sync)
      case None => Some(BadSyncLine)
      case Some(parsed) => if CarriesId(parsed, syncId) then None else Some(WrongSyncId)
  {
  }

  lemma SyncLineSettles(parse: Parser, syncId: real, sync: Bytes, rest: Bytes, ending: Ending)
    requires 0x0a !in sync
    ensures SettlesSyncLine(parse, syncId, sync, rest,
      Ended(ReadSync(JsonLines(parse, syncId), sync + ([0x0a] + rest)), ending))
  {
    FirstAt(sync, NEWLINE, rest);
    SyncLineMeans(parse, syncId, sync);
    ReplySettles(parse, syncId, rest, ending);
  }

  lemma SyncSettles(parse: Parser, syncId: real, tail: Bytes, ending: Ending)
    ensures SettlesSync(parse, syncId, tail, ending, Ended(ReadSync(JsonLines(parse, syncId), tail), ending))
  {
    var outcome := Ended(ReadSync(JsonLines(parse, syncId), tail), ending);
    if 0x0a !in tail {
      NowhereIs(tail, NEWLINE);
    }
    forall sync, rest | tail == sync + ([0x0a] + rest) && 0x0a !in sync
      ensures SettlesSyncLine(parse, syncId, sync, rest, outcome)
    {
      SyncLineSettles(parse, syncId, sync, rest, ending);
    }
  }

  lemma AfterNoise(lines: Lines, noise: Bytes, tail: Bytes, ending: Ending)
    requires 0xff !in noise
    ensures Final(lines, noise + ([0xff] + tail), ending) == Ended(ReadSync(lines, tail), ending)
  {
    FirstAt(noise, SENTINEL, tail);
  }

  /** Every exchange settles as the bytes say. */
  lemma FinalSettles(parse: Parser, syncId: real, bytes: Bytes, ending: Ending)
    ensures Settles(parse, syncId, bytes, ending, Final(JsonLines(parse, syncId), bytes, ending))
  {
    var lines := JsonLines(parse, syncId);
    if 0xff !in bytes {
      NowhereIs(bytes, SENTINEL);
    }
    forall noise, tail | bytes == noise + ([0xff] + tail) && 0xff !in noise
      ensures SettlesSync(parse, syncId, tail, ending, Final(lines, bytes, ending))
    {
      AfterNoise(lines, noise, tail, ending);
      SyncSettles(parse, syncId, tail, ending);
    }
  }

  /** The exchange over JSON lines, whatever the chunking. */
  method RunJsonExchange(parse: Parser, syncId: real, chunks: seq<Bytes>, ending: Ending)
    returns (outcome: Outcome, settlements: nat)
    ensures Settles(parse, syncId, Concat(chunks), ending, outcome)
    ensures settlements == 1
  {
    FinalSettles(parse, syncId, Concat(chunks), ending);
    outcome, settlements := RunExchange(JsonLines(parse, syncId), chunks, ending);
  }

  /**
   A complete exchange: noise, the sentinel, a sync line, a reply line, and whatever follows. It fails on a sync line
   that does not parse or carries another id, else on a reply that does not parse, else on one with an error; and
   otherwise it gives what the reply returns.
   */
  lemma CompleteExchange(
    parse: Parser, syncId: real, noise: Bytes, sync: Bytes, reply: Bytes, more: Bytes, ending: Ending, outcome: Outcome)
    requires 0xff !in noise && 0x0a !in sync && 0x0a !in reply
    requires Settles(parse, syncId, noise + ([0xff] + (sync + ([0x0a] + (reply + ([0x0a] + more))))), ending, outcome)
    ensures outcome == Failed(BadSyncLine) <==> parse(sync) == None
    ensures outcome == Failed(WrongSyncId) <==> parse(sync).Some? && !CarriesId(parse(sync).value, syncId)
    ensures var synced := parse(sync).Some? && CarriesId(parse(sync).value, syncId);
      (outcome == Failed(BadReplyLine) <==> synced && parse(reply) == None) &&
      (outcome == Failed(AgentError) <==> synced && parse(reply).Some? && HasError(parse(reply).value)) &&
      (synced && parse(reply).Some? && !HasError(parse(reply).value) ==> outcome == Reply(Returned(parse(reply).value)))
  {
    var rest := reply + ([0x0a] + more);
    var tail := sync + ([0x0a] + rest);
    assert SettlesSync(parse, syncId, tail, ending, outcome);
    assert SettlesSyncLine(parse, syncId, sync, rest, outcome);
    if parse(sync).Some? && CarriesId(parse(sync).value, syncId) {
      assert SettlesReplyLine(parse, reply, outcome);
    }
  }
}
