/**
 Streaming a task's output to WebSocket clients: the sessions of lib/TaskOutputManager.js and the connections that
 handleTaskStreamConnection (lib/WebSocketHandler.js) attaches to them. Each event runs to its end before the next.
 */
module TaskOutput {
  import opened Wrappers
  import opened Strings

  datatype Config = Config(enabled: bool, circular: bool, circularMaxLines: nat)
  datatype Entry = Entry(stream: string, data: string, timestamp: int)
  datatype Message = Output(task: string, entry: Entry) | Status(task: string, status: string)

  datatype Session = Session(buffer: seq<Entry>, subscribers: set<nat>, totalSize: nat)
  // `pending` counts the status queries sent to the database and not answered yet.
  datatype Client = Client(task: string, open: bool, sent: seq<Message>, pending: nat)
  datatype State = State(sessions: map<string, Session>, clients: seq<Client>, saved: map<string, seq<Entry>>)

  datatype Event =
    | Create(task: string)
    | Write(task: string, entry: Entry)
    | Attach(task: string, status: string, historical: Option<seq<Entry>>, open: bool)
    | Drop(client: nat)
    | Closed(client: nat)
    | Flush(task: string, ok: bool)
    | Finish(task: string, now: int)
    | Answer(client: nat, found: Option<string>)

  /** Full mode never trims; circular mode wants a positive number of lines. */
  predicate Sane(config: Config) {
    config.circular ==> config.circularMaxLines > 0
  }

  /** What the mode keeps of a history. */
  function Kept(config: Config, history: seq<Entry>): seq<Entry> {
    if config.circular then LastOf(history, config.circularMaxLines) else history
  }

  function Outputs(task: string, entries: seq<Entry>): (messages: seq<Message>)
    ensures |messages| == |entries| && forall i :: 0 <= i < |entries| ==> messages[i] == Output(task, entries[i])
  {
    seq(|entries|, i requires 0 <= i < |entries| => Output(task, entries[i]))
  }

  predicate IsTerminal(status: string) {
    status == "completed" || status == "completed_with_errors" || status == "failed" || status == "cancelled"
  }

  /** An entry that the connection takes for the end of the task. */
  predicate IsMark(entry: Entry) {
    entry.stream == "system" && entry.data == "finalized"
  }

  // ---- The specification of each event ----

  /** A subscriber's callback. A connection that is no longer open is not sent anything. */
  function Delivered(client: Client, entry: Entry): Client {
    if !client.open then client
    else if IsMark(entry) then client.(pending := client.pending + 1)
    else client.(sent := client.sent + [Output(client.task, entry)])
  }

  function Broadcast(clients: seq<Client>, subscribers: set<nat>, entry: Entry): (r: seq<Client>)
    ensures |r| == |clients|
    ensures forall i :: 0 <= i < |clients| ==>
      r[i] == if i in subscribers then Delivered(clients[i], entry) else clients[i]
  {
    seq(|clients|,
      i requires 0 <= i < |clients| => if i in subscribers then Delivered(clients[i], entry) else clients[i])
  }

  /** The subscribers left after a broadcast: callbacks of closed connections took themselves out. */
  function StillOpen(clients: seq<Client>, subscribers: set<nat>): set<nat> {
    set i | i in subscribers && i < |clients| && clients[i].open
  }

  function Buffered(config: Config, buffer: seq<Entry>, entry: Entry): seq<Entry> {
    Kept(config, buffer + [entry])
  }

  function Written(config: Config, s: State, task: string, entry: Entry): State
    requires task in s.sessions
  {
    var session := s.sessions[task];
    s.(
      clients := Broadcast(s.clients, session.subscribers, entry),
      sessions := s.sessions[task := Session(
        Buffered(config, session.buffer, entry),
        StillOpen(s.clients, session.subscribers),
        session.totalSize + |entry.data|)])
  }

  function BufferOf(s: State, task: string): seq<Entry> {
    if task in s.sessions then s.sessions[task].buffer else []
  }

  function Attached(s: State, task: string, status: string, historical: Option<seq<Entry>>, open: bool): State {
    var replay := if historical.Some? then historical.value else BufferOf(s, task);
    var sent := if open then Outputs(task, replay) else [];
    var id := |s.clients|;
    if IsTerminal(status) then
      s.(clients := s.clients + [Client(task, false, if open then sent + [Status(task, status)] else [], 0)])
    else
      s.(
        clients := s.clients + [Client(task, open, sent, 0)],
        sessions :=
          if task in s.sessions
          then s.sessions[task := s.sessions[task].(subscribers := s.sessions[task].subscribers + {id})]
          else s.sessions)
  }

  function Unsubscribed(s: State, id: nat): State
    requires id < |s.clients|
  {
    var task := s.clients[id].task;
    if task in s.sessions
    then s.(sessions := s.sessions[task := s.sessions[task].(subscribers := s.sessions[task].subscribers - {id})])
    else s
  }

  function Answered(client: Client, status: Option<string>): Client {
    if client.pending == 0 then client
    else if !client.open then client.(pending := client.pending - 1)
    else
      match status
      case None => client.(pending := client.pending - 1, open := false)
      case Some(text) =>
        client.(
          pending := client.pending - 1,
          open := false,
          sent := client.sent + [Status(client.task, if text == "" then "completed" else text)])
  }

  function Finished(s: State, task: string, now: int): State
    requires task in s.sessions
  {
    s.(
      clients := Broadcast(s.clients, s.sessions[task].subscribers, Entry("system", "finalized", now)),
      sessions := s.sessions - {task})
  }

  function Step(config: Config, s: State, e: Event): State {
    match e
    case Create(task) =>
      if !config.enabled || task in s.sessions then s else s.(sessions := s.sessions[task := Session([], {}, 0)])
    case Write(task, entry) => if task in s.sessions then Written(config, s, task, entry) else s
    case Attach(task, status, historical, open) => Attached(s, task, status, historical, open)
    case Drop(id) => if id < |s.clients| then s.(clients := s.clients[id := s.clients[id].(open := false)]) else s
    case Closed(id) =>
      if id < |s.clients|
      then Unsubscribed(s.(clients := s.clients[id := s.clients[id].(open := false)]), id)
      else s
    case Flush(task, ok) =>
      if ok && BufferOf(s, task) != [] then s.(saved := s.saved[task := BufferOf(s, task)]) else s
    case Finish(task, now) => if task in s.sessions then Finished(s, task, now) else s
    case Answer(id, status) =>
      if id < |s.clients| then s.(clients := s.clients[id := Answered(s.clients[id], status)]) else s
  }

  /** Output of a task, from its session or else from the database. */
  function GetOutput(s: State, task: string): seq<Entry> {
    if task in s.sessions then s.sessions[task].buffer
    else if task in s.saved then s.saved[task]
    else []
  }

  function Run(config: Config, s: State, events: seq<Event>): State {
    if |events| == 0 then s else Step(config, Run(config, s, Init(events)), Last(events))
  }

  // ---- The server ----

  class Manager {
    const config: Config
    var sessions: map<string, Session>
    var clients: seq<Client>
    var saved: map<string, seq<Entry>>

    function Now(): State
      reads this
    {
      State(sessions, clients, saved)
    }

    constructor (c: Config)
      ensures config == c && Now() == State(map[], [], map[])
    {
      config, sessions, clients, saved := c, map[], [], map[];
    }

    method CreateSession(task: string)
      modifies this`sessions
      ensures Now() == Step(config, old(Now()), Create(task))
    {
      if !config.enabled || task in sessions {
        return;
      }
      sessions := sessions[task := Session([], {}, 0)];
    }

    /** The callbacks of a session's subscribers, one after the other. */
    method Notify(subscribers: set<nat>, entry: Entry) returns (left: set<nat>)
      modifies this`clients
      ensures clients == Broadcast(old(clients), subscribers, entry)
      ensures left == StillOpen(old(clients), subscribers)
    {
      left := {};
      for i := 0 to |clients|
        invariant |clients| == |old(clients)|
        invariant forall j :: 0 <= j < i ==>
          clients[j] == if j in subscribers then Delivered(old(clients)[j], entry) else old(clients)[j]
        invariant forall j :: i <= j < |clients| ==> clients[j] == old(clients)[j]
        invariant left == set j | j in subscribers && j < i && old(clients)[j].open
      {
        if i in subscribers {
          if clients[i].open {
            left := left + {i};
            if IsMark(entry) {
              clients := clients[i := clients[i].(pending := clients[i].pending + 1)];
            } else {
              clients := clients[i := clients[i].(sent := clients[i].sent + [Output(clients[i].task, entry)])];
            }
          }
        }
      }
    }

    method WriteOutput(task: string, entry: Entry)
      modifies this`sessions, this`clients
      ensures Now() == Step(config, old(Now()), Write(task, entry))
    {
      if task !in sessions {
        return;
      }
      var session := sessions[task];
      var buffer := session.buffer + [entry];
      if config.circular && |buffer| > config.circularMaxLines {
        var excess := |buffer| - config.circularMaxLines;
        buffer := buffer[excess..];
      }
      var left := Notify(session.subscribers, entry);
      sessions := sessions[task := Session(buffer, left, session.totalSize + |entry.data|)];
    }

    /** Replays, then subscribes; a task that is over gets its status instead. */
    method HandleTaskStreamConnection(task: string, status: string, historical: Option<seq<Entry>>, open: bool)
      modifies this`sessions, this`clients
      ensures Now() == Step(config, old(Now()), Attach(task, status, historical, open))
    {
      var replay := if historical.Some? then historical.value else BufferOf(Now(), task);
      var sent: seq<Message> := [];
      for i := 0 to |replay|
        invariant sent == if open then Outputs(task, replay[..i]) else []
      {
        if open {
          sent := sent + [Output(task, replay[i])];
        }
      }
      assert replay[..|replay|] == replay;
      var id := |clients|;
      if IsTerminal(status) {
        if open {
          sent := sent + [Status(task, status)];
        }
        clients := clients + [Client(task, false, sent, 0)];
        return;
      }
      clients := clients + [Client(task, open, sent, 0)];
      if task in sessions {
        sessions := sessions[task := sessions[task].(subscribers := sessions[task].subscribers + {id})];
      }
    }

    method FlushToDb(task: string, ok: bool)
      modifies this`saved
      ensures Now() == Step(config, old(Now()), Flush(task, ok))
    {
      if task !in sessions || |sessions[task].buffer| == 0 {
        return;
      }
      if ok {
        saved := saved[task := sessions[task].buffer];
      }
    }

    /** The last part of finalize, after its flush: the mark goes to the subscribers and the session goes away. */
    method FinishSession(task: string, now: int)
      modifies this`sessions, this`clients
      ensures Now() == Step(config, old(Now()), Finish(task, now))
    {
      if task !in sessions {
        return;
      }
      var _ := Notify(sessions[task].subscribers, Entry("system", "finalized", now));
      sessions := sessions - {task};
    }

    method CloseEvent(id: nat)
      requires id < |clients|
      modifies this`sessions, this`clients
      ensures Now() == Step(config, old(Now()), Closed(id))
    {
      clients := clients[id := clients[id].(open := false)];
      var task := clients[id].task;
      if task in sessions {
        sessions := sessions[task := sessions[task].(subscribers := sessions[task].subscribers - {id})];
      }
    }
  }

  // ---- Histories ----

  /** Everything written to the task's session since it was created; None without a session. */
  function History(config: Config, events: seq<Event>, task: string): Option<seq<Entry>> {
    if |events| == 0 then None
    else HistoryStep(config, History(config, Init(events), task), Last(events), task)
  }

  function HistoryStep(config: Config, before: Option<seq<Entry>>, e: Event, task: string): Option<seq<Entry>> {
    match e
    case Create(t) => if t == task && config.enabled && before == None then Some([]) else before
    case Write(t, entry) => if t == task && before.Some? then Some(before.value + [entry]) else before
    case Finish(t, _) => if t == task then None else before
    case _ => before
  }

  function TotalLength(entries: seq<Entry>): nat {
    if |entries| == 0 then 0 else TotalLength(Init(entries)) + |Last(entries).data|
  }

  const START := State(map[], [], map[])

  lemma KeptPush(config: Config, history: seq<Entry>, entry: Entry)
    requires Sane(config)
    ensures Kept(config, Kept(config, history) + [entry]) == Kept(config, history + [entry])
  {
  }

  /** The session holds what the mode keeps of its history; the size counts all of it. */
  ghost predicate Holds(config: Config, s: State, task: string, history: Option<seq<Entry>>) {
    match history
    case None => task !in s.sessions
    case Some(entries) =>
      task in s.sessions && s.sessions[task].buffer == Kept(config, entries) &&
      s.sessions[task].totalSize == TotalLength(entries)
  }

  lemma WriteHolds(config: Config, s: State, entry: Entry, task: string, history: seq<Entry>)
    requires Sane(config) && Holds(config, s, task, Some(history))
    ensures Holds(config, Written(config, s, task, entry), task, Some(history + [entry]))
  {
    KeptPush(config, history, entry);
    assert Init(history + [entry]) == history;
  }

  lemma StepHolds(config: Config, s: State, e: Event, task: string, history: Option<seq<Entry>>)
    requires Sane(config) && Holds(config, s, task, history)
    ensures Holds(config, Step(config, s, e), task, HistoryStep(config, history, e, task))
  {
    if e.Write? && e.task == task && history.Some? {
      WriteHolds(config, s, e.entry, task, history.value);
    }
  }

  /** After any run the buffer holds the whole history in full mode and its last lines in circular mode. */
  lemma {:induction false} BufferIsKeptHistory(config: Config, events: seq<Event>, task: string)
    requires Sane(config)
    ensures Holds(config, Run(config, START, events), task, History(config, events, task))
  {
    if |events| > 0 {
      BufferIsKeptHistory(config, Init(events), task);
      StepHolds(config, Run(config, START, Init(events)), Last(events), task, History(config, Init(events), task));
    }
  }

  // ---- What a client is sent ----

  /** Subscribers are connections to the task they are subscribed to. */
  ghost predicate Consistent(s: State) {
    forall task :: task in s.sessions ==> Belong(s.clients, s.sessions[task].subscribers, task)
  }

  ghost predicate Belong(clients: seq<Client>, subscribers: set<nat>, task: string) {
    forall id :: id in subscribers ==> id < |clients| && clients[id].task == task
  }

  /** The connections stay, with their tasks. */
  ghost predicate KeepsTasks(before: seq<Client>, after: seq<Client>) {
    |before| <= |after| && forall id :: 0 <= id < |before| ==> after[id].task == before[id].task
  }

  lemma StepKeepsTasks(config: Config, s: State, e: Event)
    ensures KeepsTasks(s.clients, Step(config, s, e).clients)
  {
  }

  lemma BelongOn(before: seq<Client>, after: seq<Client>, subscribers: set<nat>, task: string)
    requires Belong(before, subscribers, task) && KeepsTasks(before, after)
    ensures Belong(after, subscribers, task)
  {
  }

  /** Nobody subscribes but the connection that attaches, to its own task. */
  lemma StepSubscribers(config: Config, s: State, e: Event, task: string)
    requires task in Step(config, s, e).sessions
    ensures var before := if task in s.sessions then s.sessions[task].subscribers else {};
      Step(config, s, e).sessions[task].subscribers <=
        if e.Attach? && e.task == task then before + {|s.clients|} else before
  {
  }

  lemma StepKeepsConsistent(config: Config, s: State, e: Event)
    requires Consistent(s)
    ensures Consistent(Step(config, s, e)) && KeepsTasks(s.clients, Step(config, s, e).clients)
  {
    var after := Step(config, s, e);
    StepKeepsTasks(config, s, e);
    forall task | task in after.sessions ensures Belong(after.clients, after.sessions[task].subscribers, task) {
      StepSubscribers(config, s, e, task);
      if task in s.sessions {
        BelongOn(s.clients, after.clients, s.sessions[task].subscribers, task);
      }
    }
  }

  lemma {:induction false} RunKeepsConsistent(config: Config, s: State, events: seq<Event>)
    requires Consistent(s)
    ensures Consistent(Run(config, s, events)) && |s.clients| <= |Run(config, s, events).clients|
  {
    if |events| > 0 {
      RunKeepsConsistent(config, s, Init(events));
      StepKeepsConsistent(config, Run(config, s, Init(events)), Last(events));
    }
  }

  /** The event may close the connection, or end the task's session. */
  predicate Ends(e: Event, id: nat, task: string) {
    match e
    case Drop(c) => c == id
    case Closed(c) => c == id
    case Answer(c, _) => c == id
    case Finish(t, _) => t == task
    case _ => false
  }

  /** The entries a run writes to a task. */
  function WrittenBy(events: seq<Event>, task: string): seq<Entry> {
    if |events| == 0 then []
    else
      var before := WrittenBy(Init(events), task);
      match Last(events)
      case Write(t, entry) => if t == task then before + [entry] else before
      case _ => before
  }

  function WithoutMarks(entries: seq<Entry>): seq<Entry> {
    if |entries| == 0 then []
    else if IsMark(Last(entries)) then WithoutMarks(Init(entries))
    else WithoutMarks(Init(entries)) + [Last(entries)]
  }

  lemma {:induction false} WithoutMarksIsAll(entries: seq<Entry>)
    ensures |WithoutMarks(entries)| <= |entries|
    ensures WithoutMarks(entries) == entries <==> forall i :: 0 <= i < |entries| ==> !IsMark(entries[i])
    ensures |WithoutMarks(entries)| == |entries| <==> WithoutMarks(entries) == entries
  {
    if |entries| > 0 {
      WithoutMarksIsAll(Init(entries));
      assert entries == Init(entries) + [Last(entries)];
    }
  }

  /** The connection is open, subscribed to its task, and was sent the outputs of these entries. */
  ghost predicate Follows(s: State, id: nat, task: string, entries: seq<Entry>) {
    id < |s.clients| && s.clients[id].open && s.clients[id].task == task &&
    task in s.sessions && id in s.sessions[task].subscribers &&
    s.clients[id].sent == Outputs(task, entries)
  }

  lemma OutputsPush(task: string, entries: seq<Entry>, entry: Entry)
    ensures Outputs(task, entries + [entry]) == Outputs(task, entries) + [Output(task, entry)]
  {
  }

  lemma StepFollows(config: Config, s: State, e: Event, id: nat, task: string, entries: seq<Entry>)
    requires Consistent(s) && Follows(s, id, task, entries) && !Ends(e, id, task)
    ensures Follows(Step(config, s, e), id, task,
      if e.Write? && e.task == task && !IsMark(e.entry) then entries + [e.entry] else entries)
    ensures Step(config, s, e).clients[id].pending == s.clients[id].pending +
      if e.Write? && e.task == task && IsMark(e.entry) then 1 else 0
  {
    if e.Write? && e.task == task {
      OutputsPush(task, entries, e.entry);
    }
  }

  /** One more event adds its entry to the task's live output, unless it is a mark. */
  lemma LiveNext(events: seq<Event>, task: string)
    requires |events| > 0
    ensures var e, before, now := Last(events), WrittenBy(Init(events), task), WrittenBy(events, task);
      if e.Write? && e.task == task then
        |now| == |before| + 1 &&
        WithoutMarks(now) == if IsMark(e.entry) then WithoutMarks(before) else WithoutMarks(before) + [e.entry]
      else now == before
  {
    var before := WrittenBy(Init(events), task);
    if Last(events).Write? {
      assert Init(before + [Last(events).entry]) == before;
    }
  }

  lemma {:induction false} RunFollows(
    config: Config, s: State, events: seq<Event>, id: nat, task: string, replay: seq<Entry>)
    requires Consistent(s) && Follows(s, id, task, replay)
    requires forall i :: 0 <= i < |events| ==> !Ends(events[i], id, task)
    ensures Follows(Run(config, s, events), id, task, replay + WithoutMarks(WrittenBy(events, task)))
    ensures Run(config, s, events).clients[id].pending ==
      s.clients[id].pending + |WrittenBy(events, task)| - |WithoutMarks(WrittenBy(events, task))|
  {
    if |events| == 0 {
      assert replay + [] == replay;
    } else {
      RunFollows(config, s, Init(events), id, task, replay);
      RunKeepsConsistent(config, s, Init(events));
      LiveNext(events, task);
      var before := WithoutMarks(WrittenBy(Init(events), task));
      StepFollows(config, Run(config, s, Init(events)), Last(events), id, task, replay + before);
      if Last(events).Write? {
        ConcatAssociates(replay, before, [Last(events).entry]);
      }
    }
  }

  /** Attaching replays what the session kept and subscribes, in one step. */
  lemma AttachFollows(config: Config, s: State, task: string, status: string)
    requires Consistent(s) && task in s.sessions && !IsTerminal(status)
    ensures Follows(Attached(s, task, status, None, true), |s.clients|, task, s.sessions[task].buffer)
    ensures Consistent(Attached(s, task, status, None, true))
    ensures Attached(s, task, status, None, true).clients[|s.clients|].pending == 0
  {
    StepKeepsConsistent(config, s, Attach(task, status, None, true));
  }

  /** The run up to the attachment, the attachment, and the run after it. */
  function AttachBetween(before: seq<Event>, task: string, status: string, after: seq<Event>): seq<Event> {
    before + [Attach(task, status, None, true)] + after
  }

  lemma {:induction false} RunConcat(config: Config, s: State, a: seq<Event>, b: seq<Event>)
    ensures Run(config, s, a + b) == Run(config, Run(config, s, a), b)
  {
    if |b| == 0 {
      assert a + b == a;
    } else {
      RunConcat(config, s, a, Init(b));
      assert Init(a + b) == a + Init(b) && Last(a + b) == Last(b);
    }
  }

  lemma RunOne(config: Config, s: State, e: Event)
    ensures Run(config, s, [e]) == Step(config, s, e)
  {
    assert Init([e]) == [];
  }

  /**
   A connection that attaches while the session exists is sent what the session kept of its history and then every
   entry written, in order and once each, and nothing else, as long as it stays open and the task runs. The exception is
   exact: an entry that looks like the end mark is not sent when it is written after the attachment.
   */
  lemma ReplayThenLive(config: Config, before: seq<Event>, task: string, status: string, after: seq<Event>)
    requires Sane(config) && History(config, before, task).Some? && !IsTerminal(status)
    requires var id := |Run(config, START, before).clients|;
      forall i :: 0 <= i < |after| ==> !Ends(after[i], id, task)
    ensures var id := |Run(config, START, before).clients|;
      var end := Run(config, START, AttachBetween(before, task, status, after));
      var replay, live := Kept(config, History(config, before, task).value), WrittenBy(after, task);
      Follows(end, id, task, replay + WithoutMarks(live)) &&
      (end.clients[id].sent == Outputs(task, replay + live) <==> forall i :: 0 <= i < |live| ==> !IsMark(live[i])) &&
      (end.clients[id].pending == 0 <==> forall i :: 0 <= i < |live| ==> !IsMark(live[i]))
  {
    var s := Run(config, START, before);
    var id := |s.clients|;
    var replay, live := Kept(config, History(config, before, task).value), WrittenBy(after, task);
    var attach := Attach(task, status, None, true);
    RunKeepsConsistent(config, START, before);
    BufferIsKeptHistory(config, before, task);
    AttachFollows(config, s, task, status);
    RunConcat(config, START, before, [attach]);
    RunOne(config, s, attach);
    RunConcat(config, START, before + [attach], after);
    RunFollows(config, Attached(s, task, status, None, true), after, id, task, replay);
    WithoutMarksIsAll(live);
    OutputsSame(task, replay, WithoutMarks(live), live);
  }

  lemma OutputsSame(task: string, replay: seq<Entry>, a: seq<Entry>, b: seq<Entry>)
    requires |a| <= |b|
    ensures Outputs(task, replay + a) == Outputs(task, replay + b) <==> a == b
  {
    if Outputs(task, replay + a) == Outputs(task, replay + b) {
      assert |replay + a| == |replay + b|;
      forall i | 0 <= i < |a| ensures a[i] == b[i] {
        assert Outputs(task, replay + a)[|replay| + i] == Output(task, a[i]);
        assert Outputs(task, replay + b)[|replay| + i] == Output(task, b[i]);
      }
    }
  }

  // ---- The end of the task ----

  /** An event that reaches a connection of its own accord. */
  predicate Reaches(e: Event, id: nat) {
    match e
    case Drop(c) => c == id
    case Closed(c) => c == id
    case Answer(c, _) => c == id
    case _ => false
  }

  /** Nothing is sent to a connection that no session has among its subscribers. */
  ghost predicate Unheard(s: State, id: nat) {
    forall task :: task in s.sessions ==> id !in s.sessions[task].subscribers
  }

  lemma {:induction false} RunUnheard(config: Config, s: State, events: seq<Event>, id: nat)
    requires Consistent(s) && id < |s.clients| && Unheard(s, id)
    requires forall i :: 0 <= i < |events| ==> !Reaches(events[i], id)
    ensures var end := Run(config, s, events);
      id < |end.clients| && end.clients[id] == s.clients[id] && Unheard(end, id)
  {
    if |events| > 0 {
      RunUnheard(config, s, Init(events), id);
      StepUnheard(config, Run(config, s, Init(events)), Last(events), id);
    }
  }

  lemma StepUnheard(config: Config, s: State, e: Event, id: nat)
    requires id < |s.clients| && Unheard(s, id) && !Reaches(e, id)
    ensures var after := Step(config, s, e);
      id < |after.clients| && after.clients[id] == s.clients[id] && Unheard(after, id)
  {
  }

  lemma FinishUnhears(config: Config, s: State, id: nat, task: string, now: int)
    requires Consistent(s) && task in s.sessions && id in s.sessions[task].subscribers
    ensures var finished := Step(config, s, Finish(task, now));
      Consistent(finished) && Unheard(finished, id) && |finished.clients| == |s.clients|
  {
    StepKeepsConsistent(config, s, Finish(task, now));
    forall t | t in s.sessions && t != task ensures id !in s.sessions[t].subscribers {
      assert Belong(s.clients, s.sessions[t].subscribers, t) && Belong(s.clients, s.sessions[task].subscribers, task);
    }
  }

  /**
   When the session is finalized, a connection that follows it is sent nothing more but the task's status: the mark
   starts one query, whatever happens before the answer adds nothing, and the answer closes the connection.
   */
  lemma EndsWithStatus(
    config: Config, s: State, id: nat, task: string, entries: seq<Entry>, now: int, events: seq<Event>,
    status: Option<string>)
    requires Consistent(s) && Follows(s, id, task, entries) && s.clients[id].pending == 0
    requires forall i :: 0 <= i < |events| ==> !Reaches(events[i], id)
    ensures var waiting := Run(config, Step(config, s, Finish(task, now)), events);
      id < |waiting.clients| && waiting.clients[id].sent == Outputs(task, entries) &&
      waiting.clients[id].pending == 1 &&
      var answered := Answered(waiting.clients[id], status);
      !answered.open && answered.pending == 0 &&
      answered.sent == Outputs(task, entries) + StatusOf(task, status)
  {
    var finished := Step(config, s, Finish(task, now));
    FinishUnhears(config, s, id, task, now);
    RunUnheard(config, finished, events, id);
  }

  /** What was written over a run without a finalization is what was written before, and then the rest. */
  lemma {:induction false} HistoryGrows(config: Config, before: seq<Event>, after: seq<Event>, task: string)
    requires History(config, before, task).Some?
    requires forall i :: 0 <= i < |after| ==> !(after[i].Finish? && after[i].task == task)
    ensures History(config, before + after, task) == Some(History(config, before, task).value + WrittenBy(after, task))
  {
    if |after| == 0 {
      assert before + after == before;
      assert History(config, before, task).value + [] == History(config, before, task).value;
    } else {
      HistoryGrows(config, before, Init(after), task);
      assert Init(before + after) == before + Init(after) && Last(before + after) == Last(after);
      var kept, written := History(config, before, task).value, WrittenBy(Init(after), task);
      if Last(after).Write? && Last(after).task == task {
        assert (kept + written) + [Last(after).entry] == kept + (written + [Last(after).entry]);
      }
    }
  }

  /** What a client is told of the end. */
  function StatusOf(task: string, found: Option<string>): seq<Message> {
    match found
    case None => []
    case Some(text) => [Status(task, if text == "" then "completed" else text)]
  }

  /** A whole life: the run up to the attachment, the live part, the finalization, what happens before the answer. */
  function WholeLife(
    before: seq<Event>, task: string, status: string, live: seq<Event>, now: int, rest: seq<Event>): seq<Event> {
    AttachBetween(before, task, status, live) + [Finish(task, now)] + rest
  }

  /**
   From attachment to status: a client that attaches while the session exists and stays is sent what the session kept,
   every entry written from then on and the final status, each once, in order and nothing else, and is then closed. In
   full mode that is the whole history of the session. It takes that no live entry looks like the end mark.
   */
  lemma AttachedToTheEnd(
    config: Config, before: seq<Event>, task: string, status: string, live: seq<Event>, now: int, rest: seq<Event>,
    found: Option<string>)
    requires Sane(config) && History(config, before, task).Some? && !IsTerminal(status)
    requires forall i :: 0 <= i < |live| ==> !Ends(live[i], |Run(config, START, before).clients|, task)
    requires forall i :: 0 <= i < |WrittenBy(live, task)| ==> !IsMark(WrittenBy(live, task)[i])
    requires forall i :: 0 <= i < |rest| ==> !Reaches(rest[i], |Run(config, START, before).clients|)
    ensures var id := |Run(config, START, before).clients|;
      var end := Run(config, START, WholeLife(before, task, status, live, now, rest));
      id < |end.clients| && end.clients[id].pending == 1 &&
      var client := Answered(end.clients[id], found);
      !client.open && client.pending == 0 &&
      client.sent ==
        Outputs(task, Kept(config, History(config, before, task).value) + WrittenBy(live, task)) + StatusOf(task, found)
    ensures !config.circular ==>
      History(config, AttachBetween(before, task, status, live), task) ==
        Some(Kept(config, History(config, before, task).value) + WrittenBy(live, task))
  {
    var id, events := |Run(config, START, before).clients|, AttachBetween(before, task, status, live);
    var entries := Kept(config, History(config, before, task).value) + WrittenBy(live, task);
    UnmarkedIsDelivered(config, before, task, status, live);
    RunKeepsConsistent(config, START, events);
    RunThroughFinish(config, events, task, now, rest);
    EndsWithStatus(config, Run(config, START, events), id, task, entries, now, rest, found);
    if !config.circular {
      WholeHistory(config, before, task, status, live);
    }
  }

  lemma UnmarkedIsDelivered(config: Config, before: seq<Event>, task: string, status: string, live: seq<Event>)
    requires Sane(config) && History(config, before, task).Some? && !IsTerminal(status)
    requires forall i :: 0 <= i < |live| ==> !Ends(live[i], |Run(config, START, before).clients|, task)
    requires forall i :: 0 <= i < |WrittenBy(live, task)| ==> !IsMark(WrittenBy(live, task)[i])
    ensures var id := |Run(config, START, before).clients|;
      var end := Run(config, START, AttachBetween(before, task, status, live));
      Follows(end, id, task, Kept(config, History(config, before, task).value) + WrittenBy(live, task)) &&
      end.clients[id].pending == 0
  {
    ReplayThenLive(config, before, task, status, live);
    WithoutMarksIsAll(WrittenBy(live, task));
  }

  lemma RunThroughFinish(config: Config, events: seq<Event>, task: string, now: int, rest: seq<Event>)
    ensures Run(config, START, events + [Finish(task, now)] + rest) ==
      Run(config, Step(config, Run(config, START, events), Finish(task, now)), rest)
  {
    RunConcat(config, START, events, [Finish(task, now)]);
    RunOne(config, Run(config, START, events), Finish(task, now));
    RunConcat(config, START, events + [Finish(task, now)], rest);
  }

  lemma WholeHistory(config: Config, before: seq<Event>, task: string, status: string, live: seq<Event>)
    requires !config.circular && History(config, before, task).Some?
    requires forall i :: 0 <= i < |live| ==> !(live[i].Finish? && live[i].task == task)
    ensures History(config, AttachBetween(before, task, status, live), task) ==
      Some(Kept(config, History(config, before, task).value) + WrittenBy(live, task))
  {
    AttachKeepsHistory(config, before, task, status);
    HistoryGrows(config, before + [Attach(task, status, None, true)], live, task);
  }

  lemma AttachKeepsHistory(config: Config, before: seq<Event>, task: string, status: string)
    ensures History(config, before + [Attach(task, status, None, true)], task) == History(config, before, task)
  {
    assert Init(before + [Attach(task, status, None, true)]) == before;
  }

  /** Entries on the two streams that the agent's own writers use are never taken for the mark: all are delivered. */
  lemma StdoutAndStderrAreDelivered(config: Config, before: seq<Event>, task: string, status: string, live: seq<Event>)
    requires Sane(config) && History(config, before, task).Some? && !IsTerminal(status)
    requires forall i :: 0 <= i < |live| ==> !Ends(live[i], |Run(config, START, before).clients|, task)
    requires forall i :: 0 <= i < |live| && live[i].Write? ==> live[i].entry.stream in {"stdout", "stderr"}
    ensures var id := |Run(config, START, before).clients|;
      var end := Run(config, START, AttachBetween(before, task, status, live));
      Follows(end, id, task, Kept(config, History(config, before, task).value) + WrittenBy(live, task)) &&
      end.clients[id].pending == 0
  {
    WrittenOnStreams(live, task);
    UnmarkedIsDelivered(config, before, task, status, live);
  }

  lemma {:induction false} WrittenOnStreams(live: seq<Event>, task: string)
    requires forall i :: 0 <= i < |live| && live[i].Write? ==> live[i].entry.stream in {"stdout", "stderr"}
    ensures forall i :: 0 <= i < |WrittenBy(live, task)| ==> !IsMark(WrittenBy(live, task)[i])
  {
    if |live| > 0 {
      WrittenOnStreams(Init(live), task);
    }
  }

  /** Attaching to a task without a session, before it is created or after it is gone: nothing is ever sent. */
  lemma AttachedTooEarlyOrLate(config: Config, s: State, task: string, status: string, events: seq<Event>)
    requires Consistent(s) && task !in s.sessions && !IsTerminal(status)
    requires forall i :: 0 <= i < |events| ==> !Reaches(events[i], |s.clients|)
    ensures var end := Run(config, Attached(s, task, status, None, true), events);
      |s.clients| < |end.clients| && end.clients[|s.clients|] == Client(task, true, [], 0)
  {
    StepKeepsConsistent(config, s, Attach(task, status, None, true));
    forall t | t in s.sessions ensures |s.clients| !in s.sessions[t].subscribers {
      assert Belong(s.clients, s.sessions[t].subscribers, t);
    }
    RunUnheard(config, Attached(s, task, status, None, true), events, |s.clients|);
  }

  // ---- A client of a finished task ----

  /**
   A client that attaches to a task that is completed, completed with errors, failed or cancelled is sent the output on
   record, if there is any, or else what the session has, then that status, and is closed; it subscribes to nothing.
   With any other status it is sent the same entries, no status, and stays. One that is no longer open is sent nothing.
   */
  lemma AttachedSends(
    config: Config, s: State, task: string, status: string, historical: Option<seq<Entry>>, open: bool)
    ensures var after, id := Step(config, s, Attach(task, status, historical, open)), |s.clients|;
      var over := status in {"completed", "completed_with_errors", "failed", "cancelled"};
      var entries := match historical
        case Some(record) => record
        case None => if task in s.sessions then s.sessions[task].buffer else [];
      |after.clients| == id + 1 && after.clients[..id] == s.clients &&
      after.clients[id].sent ==
        (if !open then [] else Outputs(task, entries) + if over then [Status(task, status)] else []) &&
      (after.clients[id].open <==> open && !over) && after.clients[id].task == task && after.saved == s.saved &&
      (over ==> after.sessions == s.sessions) &&
      (!over && task in s.sessions ==>
        after.sessions == s.sessions[task := s.sessions[task].(subscribers := s.sessions[task].subscribers + {id})])
  {
    assert forall m: seq<Message> :: m + [] == m;
  }

  /** A session is created exactly when output is enabled and there is none, and starts empty. */
  lemma CreateExactly(config: Config, s: State, task: string)
    ensures var after := Step(config, s, Create(task));
      (config.enabled && task !in s.sessions ==> after == s.(sessions := s.sessions[task := Session([], {}, 0)])) &&
      (!config.enabled || task in s.sessions ==> after == s)
  {
  }

  // ---- Output after the end ----

  predicate TouchesStore(e: Event, task: string) {
    (e.Flush? || e.Finish?) && e.task == task
  }

  /**
   After finalization the output is read from the database: it is what the session last held exactly when the flush that
   went before, if it succeeded, or else the flush before that, saved just that.
   */
  lemma OutputSurvivesExactly(config: Config, s: State, task: string, ok: bool, between: seq<Event>, now: int)
    requires Sane(config) && task in s.sessions && s.sessions[task].buffer == Kept(config, s.sessions[task].buffer)
    requires s.sessions[task].buffer != []
    requires forall i :: 0 <= i < |between| ==> !TouchesStore(between[i], task)
    ensures var last := Run(config, Step(config, s, Flush(task, ok)), between);
      var buffer, stored := s.sessions[task].buffer, if task in s.saved then s.saved[task] else [];
      GetOutput(Step(config, last, Finish(task, now)), task) == GetOutput(last, task) <==>
        Kept(config, buffer + WrittenBy(between, task)) == if ok then buffer else stored
  {
    BufferGrows(config, Step(config, s, Flush(task, ok)), task, between);
  }

  /** In full mode, where a write always shows: exactly when nothing was written between the flush and the end. */
  lemma OutputSurvivesTheEnd(config: Config, s: State, task: string, between: seq<Event>, now: int)
    requires Sane(config) && !config.circular && task in s.sessions && s.sessions[task].buffer != []
    requires forall i :: 0 <= i < |between| ==> !TouchesStore(between[i], task)
    ensures var last := Run(config, Step(config, s, Flush(task, true)), between);
      GetOutput(Step(config, last, Finish(task, now)), task) == GetOutput(last, task) <==>
        WrittenBy(between, task) == []
  {
    OutputSurvivesExactly(config, s, task, true, between, now);
    var buffer, written := s.sessions[task].buffer, WrittenBy(between, task);
    assert |buffer + written| == |buffer| + |written|;
    assert buffer + [] == buffer;
  }

  lemma StepGrows(config: Config, s: State, task: string, e: Event)
    requires task in s.sessions && !TouchesStore(e, task)
    ensures var after := Step(config, s, e);
      task in after.sessions &&
      after.sessions[task].buffer ==
        (if e.Write? && e.task == task then Kept(config, s.sessions[task].buffer + [e.entry])
         else s.sessions[task].buffer) &&
      (task in s.saved <==> task in after.saved) && (task in s.saved ==> after.saved[task] == s.saved[task])
  {
  }

  lemma {:induction false} BufferGrows(config: Config, s: State, task: string, events: seq<Event>)
    requires Sane(config) && task in s.sessions && s.sessions[task].buffer == Kept(config, s.sessions[task].buffer)
    requires forall i :: 0 <= i < |events| ==> !TouchesStore(events[i], task)
    ensures var end := Run(config, s, events);
      task in end.sessions &&
      end.sessions[task].buffer == Kept(config, s.sessions[task].buffer + WrittenBy(events, task)) &&
      (task in s.saved <==> task in end.saved) && (task in s.saved ==> end.saved[task] == s.saved[task])
  {
    var buffer := s.sessions[task].buffer;
    if |events| == 0 {
      assert buffer + [] == buffer;
    } else {
      BufferGrows(config, s, task, Init(events));
      StepGrows(config, Run(config, s, Init(events)), task, Last(events));
      if Last(events).Write? && Last(events).task == task {
        var written := WrittenBy(Init(events), task);
        KeptPush(config, buffer + written, Last(events).entry);
        assert (buffer + written) + [Last(events).entry] == buffer + (written + [Last(events).entry]);
      }
    }
  }
}
