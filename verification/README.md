# Zoneweaver Agent: verified models

Zoneweaver Agent manages bhyve machines on OmniOS hosts: it reads provisioner manifests, serves their forms, runs tasks
and streams their output, and talks to guests over serial channels and VNC. This project models the parts of it whose
correctness is not visible from one function body, and proves what holds of them on all inputs.

What changes state in the program is a class or a method with a loop here; what only computes is a function. Every such
method is tied by its postcondition to a specification function or predicate, and the theorems are about that
specification. Calls into the outside world (shell commands, the database, timers, bcrypt, SHA-256, deflate, JSON,
regular expressions, number parsing) are parameters or events, with only the laws that a proof needs.

## The modules

- **Field DSL.** `JsValue` holds the host language's values and comparisons, and `Hosts` an instance of the laws
  assumed of its numbers. `FieldDsl` is the runtime half (visibility, validation), `FieldDslLint` the import half, as
  a grammar of legal manifests and the lint loops that decide it. `LooseEquality` shows what the comparison is an
  equivalence on and where it is not. `VisibilityTheorems` shows that the single pass finds the one self-consistent
  visible set, `Resubmission` exactly when submitting its result again changes nothing, `FieldDslSchema` that the
  validator refines the derived JSON Schema and `FieldDslSchemaExact` how far the schema refines the validator.
  `FieldDslMeaning` and `FieldDslLintMeaning` say what the two halves decide, in words of their own.
  `FieldDslCounterexamples` holds two manifests that lint accepts and on which the single pass and resubmission go
  wrong.
- **Stream machines.** `GuestAgent` (one exchange over the guest channel) and `GuestAgentMeaning` (what it settles
  to), `ChannelQueue` (one exchange at a time per socket), `SocketReader` (exact reads from the VNC socket), `ZvolIo`
  (the DTrace line consumer), `TaskOutput` (task output to WebSocket clients), `SessionBuffer` (the console buffer).
  Each gives an answer that depends on the bytes and not on how they were cut.
- **Screenshots.** `Bits`, `Crc32` (a linear register, the bit-serial CRC and its table), `Png` (the writer, and a reader
  by RFC 2083), `Pixels` (section 7.4 of RFC 6143), `Screenshot` (both together).
- **Host files.** `Words`, `HostConfig`: `/etc/hosts` and `/etc/resolv.conf`, read and written.
- **Allocators, schedulers, caches.** `IpSuggestions`, `DiskResize`, `ZonePriority`, `ApiKeys`, and `ApiKeysMeaning`
  (what every request is answered).
- `Wrappers` and `Strings` are shared helpers.

## Where the code differs from its own documentation

- The resize documentation says that nothing is half applied per entry. An entry whose document update fails after the
  volume was set is: `DiskResize.HalfAppliedEntry` is one, and `DiskResize.RefusalAtEntry` states that there is no other
  way.
- The address suggestions are said to leave out every address a machine document pins. The candidate loop compares text,
  so a pin written other than as four plain decimal octets keeps nothing out: `IpSuggestions.CandidatesExactly`, and
  `IpSuggestions.PinnedAddressIsSuggested` for the pin 10.0.0.5/24.
- Lint is described as fail-closed. It accepts `min` and the other bounds of any type
  (`FieldDslSchema.LintAcceptsUntypedMinimum`) and field names that are role flags
  (`FieldDslCounterexamples.FlagNamedFieldBreaksConsistency`).
- An immutable field is documented to refuse changes after the first provision. Lists and maps compare by identity, so
  one on record is refused even unchanged: `FieldDslMeaning.UnchangedIsAccepted`.
- The derived schema is meant for validating answers. It allows every option; the validator refuses a select's option
  that is neither text nor number, and options that are lists or maps: `FieldDslSchemaExact.SatisfyingAnswerIsAccepted`.
- A task stream is said to replay and then stream live. A client that attaches to a task before its session is created,
  or after it is gone, with a status that is not terminal yet, never hears from it: `TaskOutput.AttachedTooEarlyOrLate`.

Two conditions in the theorems concern inputs that the agent's own code does not produce. An entry written as stream
`system` with data `finalized` would be taken for the end mark; the agent's writers use `stdout` and `stderr` only, and
`TaskOutput.StdoutAndStderrAreDelivered` says that such entries are all delivered. A row with an empty role would verify
as admin but not be counted by the lockout guard; the handlers write no such row, and `ApiKeys.GuardIsExact` is stated for
the tables they build.

## Model

| member | source | states |
|---|---|---|
| `LooseEquality.LooseEqualIsKeyEquality` | lib/FieldDsl.js:58-67 | two values of the host other than null and empty-printing lists are loosely equal exactly when they have the same key: their number if they have one, else their text |
| `LooseEquality.LooseEqualIsEquivalence` | lib/FieldDsl.js:58-67 | on those values loose equality is reflexive, symmetric and transitive |
| `LooseEquality.TransitiveExactlyThroughRegular` | lib/FieldDsl.js:58-67 | a value of the host never links two values that are not themselves loosely equal exactly when it is neither null nor an empty-printing list |
| `LooseEquality.LooselyEqualOperandsAgreeExactly` | lib/FieldDsl.js:78-108 | two loosely equal operands satisfy the same conditions, all of them, exactly when both or neither are booleans |
| `LooseEquality.AlikeShowIf` | lib/FieldDsl.js:117-133 | answer maps that are alike key by key ("5" against 5) give every condition tree the same result |
| `LooseEquality.AlikeAnswersSameForm` | lib/FieldDsl.js:147-187 | and every form the same hidden list and the same visible fields |
| `Hosts.LawfulHostExists` | lib/FieldDsl.js:58-67 | the laws these results assume of printing and reading numbers have an instance, one that holds every decimal fraction |
| `Hosts.BinaryFraction` | lib/FieldDsl.js:58-67 | every binary fraction is a decimal one, so every finite floating-point number is among them |
| `FieldDsl.ComputeVisibility` | lib/FieldDsl.js:147-187 | the loop returns the values, visible fields and hidden names of the visibility function; a value is there exactly when it is not hidden and is answered or has a default, an answer stands against a default, and what is not answered has its last default |
| `FieldDsl.ValidateAnswers` | lib/FieldDsl.js:328-363 | values, visible fields and hidden names as computed, answers standing against defaults; the table holds one complaint per undeclared or refused answer, and is empty exactly when the form is accepted |
| `FieldDsl.CheckField` | lib/FieldDsl.js:341-360 | one visible field: missing, wrong type or rule, immutable, in the order in which they overrule one another |
| `FieldDsl.UndeclaredEmpty` | lib/FieldDsl.js:333-337 | no undeclared complaint exactly when every answer key is a declared name |
| `FieldDsl.ComplaintsEmpty` | lib/FieldDsl.js:341-360 | the error table stays empty exactly when no visible field has a complaint |
| `FieldDslMeaning.ComparisonsOfNumbers` | lib/FieldDsl.js:86-104 | on operands that read as numbers gt, gte, lt and lte are >, >=, < and <= |
| `FieldDslMeaning.NoComparisonOfNaN` | lib/FieldDsl.js:86-104 | an operand that reads as no number meets no comparison |
| `FieldDslMeaning.OneOfNotAndScalar` | lib/FieldDsl.js:78-108 | a list demands one of its entries, `not` the contrary, a scalar loose equality |
| `FieldDslMeaning.ConditionMeans` | lib/FieldDsl.js:117-133 | a condition that lint accepts holds exactly when all its entries hold and, where there is `any`, all those of one of its maps |
| `FieldDslMeaning.VisibleMeans` | lib/FieldDsl.js:161-187 | in a lint-clean manifest that reads back only, a field is visible exactly when its group is open over flags and merged answers and its own demands hold over flags and visible fields |
| `FieldDslMeaning.UndeclaredExactly` | lib/FieldDsl.js:333-337 | an answer is reported as undeclared exactly when no field has its name |
| `FieldDslMeaning.RequiredExactly` | lib/FieldDsl.js:341-346 | a visible field is reported as required exactly when it is and has no value or an empty one |
| `FieldDslMeaning.ImmutableExactly` | lib/FieldDsl.js:351-359 | a visible field that is not missing is reported as immutable exactly when it is, has a recorded answer, and the value is not strictly equal to it |
| `FieldDslMeaning.AcceptedKeepsRecords` | lib/FieldDsl.js:351-359 | an accepted form leaves every visible immutable field with a recorded answer strictly equal to that answer |
| `FieldDslMeaning.UnchangedIsAccepted` | lib/FieldDsl.js:351-359 | resubmitting the recorded values is never refused as immutable exactly when no such field that is not missing has a list, a map or NaN on record |
| `FieldDslMeaning.TypeComplaints` | lib/FieldDsl.js:220-272 | each type complaint is that of its own type: which value of which field gets it |
| `FieldDslMeaning.PickComplaints` | lib/FieldDsl.js:195-211 | a picker with options refuses exactly what is none of their values |
| `FieldDslMeaning.RangeComplaints` | lib/FieldDsl.js:281-293 | a number is too small below its minimum, else too large above its maximum |
| `FieldDslMeaning.TextComplaints` | lib/FieldDsl.js:294-307 | a text is too short, else too long, else compared with the pattern |
| `FieldDslLint.LintConfiguration` | lib/FieldDslLint.js:46-197 | lint reports no error exactly when the manifest is in the grammar of legal manifests |
| `FieldDslLint.LintGroups` | lib/FieldDslLint.js:96-135 | the group loop adds no error exactly when every group is legal after the ones before it, and then has collected all their names |
| `FieldDslLint.LintFields` | lib/FieldDslLint.js:137-194 | the field loop adds no error exactly when every field is legal with only role flags and earlier names in scope |
| `FieldDslLint.LintShowIf` | lib/FieldDslLintRules.js:18-71 | adds no error exactly when the condition is in the condition grammar over the operands in scope |
| `FieldDslLint.LintValidate` | lib/FieldDslLintRules.js:81-137 | adds no error exactly when the validate block is legal for the field |
| `FieldDslLint.LintScalarTypeKeys` | lib/FieldDslLintRules.js:145-174 | adds no error exactly when rows and version stand where they may, with legal values |
| `FieldDslLint.LintSelectKeys` | lib/FieldDslLintRules.js:183-235 | adds no error exactly when options and options source fit the type |
| `FieldDslLint.LintPasswordKeys` | lib/FieldDslLintRules.js:244-277 | adds no error exactly when the password keys are legal |
| `FieldDslLintMeaning.CleanExactly` | lib/FieldDslLint.js:46-197 | a manifest is clean exactly when it has no unknown key and each group and each field stands: names legal and not used before, known type, declared group, boolean flags, conditions over what is in scope, and type keys, options and rules that fit the type, all written out |
| `FieldDslLintMeaning.ConditionsExactly` | lib/FieldDslLintRules.js:18-71 | a condition is legal exactly when every key is in scope with a value, a list, `not` or one numeric comparison, and `any` is a list of at least one such map without `any` |
| `FieldDslLintMeaning.TypeKeysExactly` | lib/FieldDslLintRules.js:145-277 | rows on a textarea, version 4 or 6 on an address, generate on a password, and no default on a password |
| `FieldDslLintMeaning.PickerExactly` | lib/FieldDslLintRules.js:183-235 | a picker has a list of legal options or one of the four sources, any other field neither |
| `FieldDslLintMeaning.RulesExactly` | lib/FieldDslLintRules.js:81-137 | ranges on numbers, lengths and patterns on texts, a pattern with its message, compiling and portable |
| `FieldDslLintMeaning.PasswordsAreGiven` | lib/FieldDslLintRules.js:244-277 | the form of a clean manifest never holds a password that the user did not give |
| `VisibilityTheorems.ShowIfReadsOperands` | lib/FieldDslLintRules.js:18-71 | a condition that lint accepts reads nothing but its operands in scope |
| `VisibilityTheorems.CleanIsScoped` | lib/FieldDslLint.js:137-194 | in a lint-clean manifest names are distinct and conditions look back only |
| `VisibilityTheorems.HiddenSoFar` | lib/FieldDsl.js:171-184 | after i fields exactly the fields found hiding are hidden |
| `VisibilityTheorems.VisibleSoFar` | lib/FieldDsl.js:171-184 | after i fields the visible list names exactly the fields not hidden |
| `VisibilityTheorems.PassIsConsistent` | lib/FieldDsl.js:161-187 | the answer of the pass is self-consistent |
| `VisibilityTheorems.OnePassFindsTheOnlyConsistentSet` | lib/FieldDsl.js:147-187 | for a lint-clean manifest no condition of which reads a flag named like its own or a later field, a set of names is self-consistent exactly when it is the one the pass returns |
| `VisibilityTheorems.NoFlagNamesReadsBack` | lib/FieldDslLint.js:186-192 | so in particular for a lint-clean manifest without a field named like a role flag |
| `VisibilityTheorems.ContextIsFlagsAndVisibleValues` | lib/FieldDsl.js:151-161 | the context conditions are read in is the role flags and the visible fields' values |
| `VisibilityTheorems.LaterAnswersDoNotReachBack` | lib/FieldDsl.js:171-184 | no answer to a later field changes whether an earlier one shows, group results being the same |
| `Resubmission.UnconditionalNeverHides` | lib/FieldDsl.js:161-184 | a field without conditions never hides |
| `Resubmission.ResubmissionExactly` | lib/FieldDsl.js:147-187 | submitting the stripped values again returns the same values, hidden and visible lists exactly when the groups, over the answers and over the stripped values, agree on every field whose own condition holds |
| `Resubmission.ResubmissionIsStable` | lib/FieldDsl.js:147-187 | so it does for every form whose group conditions read only flags and unconditional fields |
| `FieldDslCounterexamples.FlagNamedFieldBreaksConsistency` | lib/FieldDsl.js:161-184 | with a field named like a role flag, which lint accepts, the pass can return a set that is not self-consistent |
| `FieldDslCounterexamples.PeekingGroupBreaksResubmission` | lib/FieldDsl.js:161-184 | with a group that looks at a field that hides, which lint accepts, a second pass hides more than the first |
| `FieldDslSchema.SchemaForField` | lib/FieldDslSchemaField.js:3-59 | the keyword-by-keyword construction gives the field's schema |
| `FieldDslSchema.DeriveJsonSchema` | lib/FieldDslLint.js:233-263 | the loop gives one property per field with a schema, the last of a name, and the required list; `FieldDslSchemaExact.RequiredExactly` says which list |
| `FieldDslSchemaExact.RequiredExactly` | lib/FieldDslLint.js:233-263 | for every lint-clean manifest the properties are the fields, and the required names are exactly those of the fields that are required, without condition and in no group that has one, each once and in declaration order |
| `FieldDslSchemaExact.Annotations` | lib/FieldDslSchemaField.js:3-59 | the default, a password's writeOnly, and a format for names and addresses |
| `FieldDslSchemaExact.CidrIsWritten` | lib/FieldDsl.js:233-243 | a text is CIDR notation exactly when it is an address, a slash and a whole number of at most 32, or 128 for version 6 |
| `FieldDslSchema.FieldSchemaWellFormed` | lib/FieldDslSchemaField.js:3-59 | the schema of a legal field is a schema exactly when its rules are of the kinds the keywords take |
| `FieldDslSchema.DerivedIsSchema` | lib/FieldDslLint.js:233-263 | the document derived from a lint-clean manifest is a schema exactly when all its rules are |
| `FieldDslSchema.AcceptedAnswerFitsSchema` | lib/FieldDsl.js:195-307 | where the field's schema is a schema, a non-empty answer the validator accepts satisfies it exactly when it is not a live picker's answer of another kind than text |
| `FieldDslSchemaExact.SatisfyingAnswerIsAccepted` | lib/FieldDsl.js:195-307 | the converse: a non-empty value without holes that satisfies a well-formed field schema breaks no rule, and its type is accepted exactly when it meets what a schema cannot say: name, address and CIDR formats, and scalar picks |
| `FieldDslSchema.RequiredIsUnconditional` | lib/FieldDslLint.js:236-250 | a field the schema may require is one that never hides |
| `FieldDslSchema.RequiredIsAnswered` | lib/FieldDslLint.js:247-250 | every required property has a non-empty value in an accepted form |
| `FieldDslSchema.ValidatorRefinesSchema` | lib/FieldDsl.js:328-363 | for a lint-clean manifest whose derived document is a schema, the effective values of every accepted form, without their empty entries, satisfy it exactly when no live picker was answered with something other than text |
| `FieldDslSchema.LintAcceptsUntypedMinimum` | lib/FieldDslLintRules.js:81-137 | lint accepts a minimum that is text, whose schema is not a schema |
| `GuestAgent.ReadContinues` | lib/QemuGuestAgent.js:172-196 | reading more bytes goes on from the stage and leftover reached, and a settled outcome stays: cutting the bytes anywhere makes no difference |
| `GuestAgent.IndexOfFirst` | lib/QemuGuestAgent.js:118-126 | the byte search finds the first occurrence or tells there is none |
| `GuestAgent.Exchange.Data` | lib/QemuGuestAgent.js:172-196 | a chunk leaves the machine where the bytes received in all put it; a settlement never changes |
| `GuestAgent.Exchange.End` | lib/QemuGuestAgent.js:198-206 | timeout, error or close settles as the bytes received and the ending decide |
| `GuestAgent.RunExchange` | lib/QemuGuestAgent.js:89-207 | for every chunking the exchange settles exactly once, with the outcome of the concatenated bytes and the ending; `GuestAgentMeaning.RunJsonExchange` says which |
| `GuestAgent.EndingAfterDelivery` | lib/QemuGuestAgent.js:113-116 | the outcome is no-reply exactly when the bytes end after an accepted sync line without a reply line, and a channel error exactly when they end before one |
| `GuestAgentMeaning.RunJsonExchange` | lib/QemuGuestAgent.js:89-207 | over JSON lines, for every chunking and ending: no sentinel or no sync line gives the fault of the ending, a bad sync line its fault, no reply line no reply, and a reply line what it says |
| `GuestAgentMeaning.FinalSettles` | lib/QemuGuestAgent.js:128-196 | the outcome of the bytes and the ending, through the parser and the bytes alone |
| `GuestAgentMeaning.CompleteExchange` | lib/QemuGuestAgent.js:128-162 | for noise, sentinel, sync line and reply line: which of the four faults, exactly when, and otherwise the value returned |
| `ChannelQueue.Channels.Submit` | lib/QemuGuestAgent.js:77-85 | a job is chained onto the latest job of its key; earlier jobs and other keys stay |
| `ChannelQueue.Channels.Finish` | lib/QemuGuestAgent.js:77-85 | finishing well or badly keeps every chain valid and touches only that job |
| `ChannelQueue.StartedAfterAllEarlier` | lib/QemuGuestAgent.js:77-85 | a started job has every earlier job of its key behind it |
| `ChannelQueue.ExclusiveInOrder` | lib/QemuGuestAgent.js:77-85 | at most one job of a key runs, and a job may start only once all earlier ones have settled |
| `ChannelQueue.NeverBlocked` | lib/QemuGuestAgent.js:77-85 | while a job is unsettled, some job of its key runs or may start, whatever failed before |
| `SocketReader.PiecesUnique` | lib/VncScreenshot.js:30-46 | pieces of the lengths asked for, followed by too little for the next, are the only way to cut the stream |
| `SocketReader.Reader.ReadsArePieces` | lib/VncScreenshot.js:20-47 | what reads have returned is a function of the stream and the lengths asked for, not of the chunks |
| `Crc32.BuildTable` | lib/VncScreenshot.js:50-60 | entry m of the table is m after eight steps of the shift register |
| `Crc32.TableCrc` | lib/VncScreenshot.js:62-68 | the table-driven CRC equals the bit-serial CRC of section 3.4 of RFC 2083 for every byte string |
| `Crc32.PolynomialIsTheStandards` | lib/VncScreenshot.js:52-57 | the constant holds the powers of the polynomial of section 3.4 of RFC 2083, highest in the lowest bit |
| `Crc32.CrcOfOnes` | lib/VncScreenshot.js:62-68 | the CRC of one byte 0xff is 0xff000000: ones come in, and ones' complement goes out |
| `Crc32.ByteStep` | lib/VncScreenshot.js:62-68 | feeding eight bits is one table lookup and one shift |
| `LinearRegister.FeedAtOnce` | lib/VncScreenshot.js:62-68 | for any linear register, feeding bits one by one is adding them all and shifting |
| `Png.PngChunk` | lib/VncScreenshot.js:70-78 | length, type, data and the CRC of type and data |
| `Png.FilterRows` | lib/VncScreenshot.js:97-102 | the row copies put filter type 0 before every scan line and nothing else |
| `Png.EncodePng` | lib/VncScreenshot.js:89-110 | the file written is the encoding of the picture |
| `Png.UnfilterBack` | lib/VncScreenshot.js:97-102 | the scan lines without their filter bytes are the pixels |
| `Png.ReadChunkBack` | lib/VncScreenshot.js:70-78 | a chunk reads back, with its CRC valid, before any chunks that read |
| `Png.DecodeEncode` | lib/VncScreenshot.js:89-110 | decoding by the standard gives back width, height and every pixel, if inflate undoes deflate |
| `Pixels.RawToRgb` | lib/VncScreenshot.js:116-136 | the in-place loop converts every pixel in order |
| `Pixels.PixelsComeBack` | lib/VncScreenshot.js:116-136 | colours sent by the standard, in 8, 16 or 32 bits, either byte order and any non-overlapping fields, come out as these colours, scaled |
| `Pixels.ScaleIsMonotone` | lib/VncScreenshot.js:120-120 | scaling keeps both ends and the order, stays within a byte, and below 255 merges no two values |
| `Pixels.ScaleIsNearest` | lib/VncScreenshot.js:120-120 | a stored component is its value times 255 over the maximum, to the nearest whole number, up from a half |
| `Screenshot.ScreenshotShowsTheScreen` | lib/VncScreenshot.js:242-244 | the picture file decodes to the size and the scaled colours of what the server sent |
| `ZvolIo.Collector.ConsumeStdout` | controllers/ZvolIoCollector.js:253-260 | after any chunk the collector is where all the text printed so far puts it |
| `ZvolIo.Collector.ConsumeLine` | controllers/ZvolIoCollector.js:267-319 | a line adds to its row, flushes the interval or changes nothing, as the line's reading says |
| `ZvolIo.RowCounts` | controllers/ZvolIoCollector.js:267-319 | a printed row of kind RO, RB, WO or WB counts read or written operations or bytes for its zone and the dataset of its path; of another kind, of no dataset or no finite number it is noise |
| `ZvolIo.DatasetExactly` | controllers/ZvolIoCollector.js:69-72 | the dataset of a path is the one named behind the first zvol directory that has one behind it, up to the end of the path |
| `ZvolIo.EndFlushes` | controllers/ZvolIoCollector.js:271-283 | END stores the open interval if it holds anything, opens an empty one and forgets the failures |
| `ZvolIo.PrintingMore` | controllers/ZvolIoCollector.js:253-260 | the lines a chunk completes come after the lines already taken |
| `ZvolIo.KeyIsInjective` | controllers/ZvolIoCollector.js:303-303 | no two disks share a row key |
| `ZvolIo.RowsStayKeyed` | controllers/ZvolIoCollector.js:303-318 | every row stands under the key of the disk it names, in every interval |
| `ZvolIo.RowIsUnderItsKey` | controllers/ZvolIoCollector.js:303-318 | so a row that names a disk is the one its key finds, with its counters |
| `ZvolIo.Conservation` | controllers/ZvolIoCollector.js:253-319 | for every zone, dataset and counter the flushed rows and the open interval add up to the accepted metric lines |
| `ZvolIo.ChunksDoNotMatter` | controllers/ZvolIoCollector.js:253-260 | two consumers of the same text agree on rows, flush points, open interval and failure count |
| `TaskOutput.Manager.WriteOutput` | lib/TaskOutputManager.js:71-117 | the entry goes to the buffer, trimmed in circular mode, and to every open subscriber; closed ones leave |
| `TaskOutput.Manager.HandleTaskStreamConnection` | lib/WebSocketHandler.js:163-231 | replay, then subscription, or the status for a task that is over |
| `TaskOutput.AttachedSends` | lib/WebSocketHandler.js:163-192 | an open client of a finished task is sent the output on record, or else the session's, then the status, and is closed; of another task it is sent the same entries and subscribes |
| `TaskOutput.Manager.FinishSession` | lib/TaskOutputManager.js:192-206 | the mark goes to every subscriber and the session is gone |
| `TaskOutput.BufferIsKeptHistory` | lib/TaskOutputManager.js:71-89 | after any run the buffer is all that was written in full mode, its last lines in circular mode; the size counts all of it |
| `TaskOutput.RunFollows` | lib/TaskOutputManager.js:91-101 | over any run a following client is sent the live entries in order, once each |
| `TaskOutput.ReplayThenLive` | lib/WebSocketHandler.js:163-231 | a client that attaches while the session exists is sent what was kept and then everything written, in order and once each, exactly when no live entry looks like the end mark |
| `TaskOutput.AttachedToTheEnd` | lib/WebSocketHandler.js:163-231 | from attachment to status: what was kept, everything written from then on and the final status, each once, in order, and then closed; in full mode that is the whole history |
| `TaskOutput.StdoutAndStderrAreDelivered` | lib/WebSocketHandler.js:200-230 | entries on stdout and stderr are all delivered |
| `TaskOutput.EndsWithStatus` | lib/WebSocketHandler.js:200-220 | finalization sends a following client one status and closes it, and nothing else |
| `TaskOutput.AttachedTooEarlyOrLate` | lib/TaskOutputManager.js:125-129 | a client that attaches without a session is never sent anything |
| `TaskOutput.OutputSurvivesExactly` | lib/TaskOutputManager.js:171-206 | in either mode, after a flush that succeeded or not, the stored output is the session's last exactly when what was written since changes nothing against what is stored |
| `TaskOutput.OutputSurvivesTheEnd` | lib/TaskOutputManager.js:171-206 | in full mode after a successful flush: exactly when nothing was written between flush and removal |
| `SessionBuffer.TailAbsorbs` | lib/SessionBuffer.js:43-46 | cutting off early lines before or after appending makes no difference |
| `SessionBuffer.AppendKeepsTail` | lib/SessionBuffer.js:43-46 | the last lines of the initial buffer and all text appended, however cut |
| `SessionBuffer.Writer.Append` | lib/SessionBuffer.js:43-46 | the buffer stays the tail of everything appended, and a flush is due |
| `SessionBuffer.Writer.Close` | lib/SessionBuffer.js:50-57 | after closing, the column holds the buffer unless a write failed |
| `HostConfig.ParseHostsFile` | controllers/HostConfigController.js:23-43 | the loop reads the entries of every line |
| `HostConfig.HostLineMeans` | controllers/HostConfigController.js:23-43 | a line of words, parted in any way, gives an entry exactly when it has two or more and does not begin with #: the first is the address, the others the names |
| `Words.FieldsOfSpread` | controllers/HostConfigController.js:32-32 | splitting at white space gives the words back however they are parted |
| `HostConfig.SerializeHostsFile` | controllers/HostConfigController.js:51-66 | the loop writes the header and a line per entry |
| `HostConfig.HostsRoundTrip` | controllers/HostConfigController.js:23-66 | entries written and read back are the same exactly when they are well-formed |
| `HostConfig.HostsRewriteIsStable` | controllers/HostConfigController.js:23-66 | for every content, rewriting keeps what was read |
| `HostConfig.ParseResolvConf` | controllers/HostConfigController.js:73-100 | the loop applies every line's directive |
| `HostConfig.ResolvLineMeans` | controllers/HostConfigController.js:73-100 | a line of words, parted in any way, adds its first server, sets the domain, adds all search domains or options, or is passed over, by its first word |
| `HostConfig.SerializeResolvConf` | controllers/HostConfigController.js:107-128 | the loops write header, domain, search, servers and options |
| `HostConfig.ResolvRoundTrip` | controllers/HostConfigController.js:73-128 | a configuration written and read back is the same exactly when it is well-formed |
| `HostConfig.ResolvRewriteIsStable` | controllers/HostConfigController.js:73-128 | for every content, rewriting keeps what was read |
| `IpSuggestions.SubnetIsInterval` | controllers/IpSuggestionsController.js:164-169 | for prefixes 0 to 32 the masked comparison holds exactly between network and broadcast |
| `IpSuggestions.SubnetBounds` | controllers/IpSuggestionsController.js:164-168 | network is the host address rounded down to a multiple of the subnet's size, broadcast the last address before the next |
| `IpSuggestions.IpRoundTrip` | controllers/IpSuggestionsController.js:18-22 | a printed address reads back as its integer |
| `IpSuggestions.PrintAfterRead` | controllers/IpSuggestionsController.js:18-22 | a read address prints back as its text exactly when the text is four plain decimal octets |
| `IpSuggestions.Suggest` | controllers/IpSuggestionsController.js:176-185 | the loop returns the first `count` free addresses |
| `IpSuggestions.SuggestOnSubnet` | controllers/IpSuggestionsController.js:164-185 | what is taken between network and broadcast address, and the texts of the smallest `count` candidates of the host's subnet, rising: unused host addresses, one left out only beyond them all |
| `IpSuggestions.FreeBetweenExact` | controllers/IpSuggestionsController.js:177-185 | the candidates are exactly the unused addresses of the range, strictly rising |
| `IpSuggestions.FirstAreSmallest` | controllers/IpSuggestionsController.js:177-185 | a prefix of a rising list holds its smallest min(count, length) members |
| `IpSuggestions.CandidatesExactly` | controllers/IpSuggestionsController.js:164-185 | a host address of the subnet is a candidate exactly when no taken address written plainly stands for it |
| `IpSuggestions.DottedQuadsAreLawful` | controllers/IpSuggestionsController.js:18-22 | dotted quads are a notation as these results ask, and plain means four decimal octets without leading zeros |
| `IpSuggestions.PinnedAddressIsSuggested` | controllers/IpSuggestionsController.js:88-102 | on the host 10.0.0.1/24 with the pin 10.0.0.5/24, the address 10.0.0.5 is still a candidate |
| `DiskResize.SizeSyntax` | lib/MachineDiskResize.js:46-52 | a text reads as a size exactly when, trimmed, it is spelled digits, perhaps a point and digits, perhaps a unit, perhaps a B, and in one way only |
| `DiskResize.SizeValue` | lib/MachineDiskResize.js:53-53 | its value is the digits times the unit, a fraction rounded to the nearest byte, halves up |
| `DiskResize.UnitsArePowers` | lib/MachineDiskResize.js:29-29 | the units are K, M, G, T and P in either case, the powers of 1024 |
| `DiskResize.SizeReadsBack` | lib/MachineDiskResize.js:46-54 | a printed whole number with a unit reads as exactly that many units |
| `DiskResize.Host.ResizeOne` | lib/MachineDiskResize.js:141-214 | one entry: the branches, the volume, the pool and the document as the resize step says |
| `DiskResize.Host.ResizeMachineDisks` | lib/MachineDiskResize.js:223-239 | the loop ends as the run over all entries says |
| `DiskResize.GrowthExactly` | lib/MachineDiskResize.js:119-133 | a growth not over-provisioned on purpose is refused exactly when its pool has less than it takes, thick or sparse, and set otherwise if the command succeeds |
| `DiskResize.ResizedReports` | lib/MachineDiskResize.js:141-214 | an entry done reports the disk's old size and the size asked for, which its volume has, and is skipped exactly when both are the same |
| `DiskResize.PoolIsFirstPart` | lib/MachineDiskResize.js:119-121 | a volume's pool is its name up to the first slash |
| `DiskResize.RefusedEntry` | lib/MachineDiskResize.js:141-214 | a refused entry leaves everything as it was exactly when it does not set its volume and then fail to save the document |
| `DiskResize.RefusalAtEntry` | lib/MachineDiskResize.js:216-239 | a run refused at entry k has applied the entries before k, and exactly these unless entry k sets its volume and cannot save the document |
| `DiskResize.NothingHalfApplied` | lib/MachineDiskResize.js:216-239 | as long as the document can be saved, every refusal leaves exactly the entries before it |
| `DiskResize.HalfAppliedEntry` | lib/MachineDiskResize.js:188-196 | a run that is refused and leaves the volume with the new size and the document with the old one |
| `DiskResize.EntryKeepsSpace` | lib/MachineDiskResize.js:119-133 | one entry keeps every pool from going below zero exactly when it is no unchecked growth of a thick volume |
| `DiskResize.RunKeepsSpace` | lib/MachineDiskResize.js:119-133 | no run without overrides on thick volumes drives a pool below zero |
| `DiskResize.SpaceIsConserved` | lib/MachineDiskResize.js:188-191 | a pool's available space and its thick volumes' sizes add up to the same all along |
| `DiskResize.EntryLowers` | lib/MachineDiskResize.js:157-172 | one entry lowers a volume exactly when it names it with a smaller size, allowed, on a machine that is off |
| `DiskResize.RunLowersOnlyWithConsent` | lib/MachineDiskResize.js:157-172 | no run lowers a volume no entry allows to shrink, nor any on a running machine |
| `DiskResize.RunAgainChangesNothing` | lib/MachineDiskResize.js:152-155 | a successful run over different disks, sent again, skips every disk |
| `DiskResize.RunKeepsHonesty` | lib/MachineDiskResize.js:193-196 | the document's sizes stay those of the volumes over every run that could save it |
| `DiskResize.ListedAfterSet` | lib/ZoneConfigMutators.js:82-104 | setting a size changes the first entry of that volume name and no other reading |
| `ZonePriority.ExtractZonePriority` | lib/ZoneOrchestrationUtils.js:15-42 | the priority is always within 1 to 100 |
| `ZonePriority.FirstAttributeDecides` | lib/ZoneOrchestrationUtils.js:21-34 | the first entry that is null or one of the two attributes decides: a number from 1 to 100 is the priority, anything else and none makes 95 |
| `ZonePriority.GroupZonesByPriority` | lib/ZoneOrchestrationUtils.js:49-76 | the map and the two sorts give the groups of ten, rising |
| `ZonePriority.SortIsUnique` | lib/ZoneOrchestrationUtils.js:70-75 | there is only one stable sort by priority |
| `ZonePriority.StableSortIsASort` | lib/ZoneOrchestrationUtils.js:74-74 | the sort is sorted, a permutation, and keeps the order of equals |
| `ZonePriority.GroupsAreTens` | lib/ZoneOrchestrationUtils.js:52-75 | each group holds exactly the zones of its ten priorities, sorted and stable; ranges are multiples of ten, rising |
| `ZonePriority.ShutdownOrderIsStableSort` | lib/ZoneOrchestrationUtils.js:83-97 | the groups one after the other are the stable sort of all zones |
| `ZonePriority.OrderCarriesZones` | lib/ZoneOrchestrationUtils.js:49-97 | the shutdown order holds each zone once, with its own name, state, configuration and priority |
| `ZonePriority.CalculateShutdownOrder` | lib/ZoneOrchestrationUtils.js:83-97 | the shutdown groups, which flatten to that sort |
| `ZonePriority.CalculateStartupOrder` | lib/ZoneOrchestrationUtils.js:104-121 | the same groups reversed, priorities still rising inside each |
| `ApiKeys.Agent.VerifyApiKey` | middleware/VerifyApiKey.js:171-234 | cache first, then the table; a verified key is remembered; the role decides, as `ApiKeysMeaning.RolesDecide` spells out |
| `ApiKeysMeaning.RolesDecide` | middleware/VerifyApiKey.js:171-211 | after any run, a key of an active row passes for a viewer always, for an operator exactly with role operator or admin, for an admin exactly with role admin, and else its role is insufficient |
| `ApiKeysMeaning.OthersAreRefused` | middleware/VerifyApiKey.js:171-196 | a key of no active row is invalid, and no key is missing |
| `ApiKeysMeaning.KeyIdExactly` | middleware/VerifyApiKey.js:20-20 | the keys that have an id, and their ids, spelt out |
| `ApiKeysMeaning.KeyFromHeaders` | middleware/VerifyApiKey.js:172-180 | the X-API-Key header, or else the word behind the first space of the Authorization header |
| `ApiKeys.Agent.PurgeApiKeyCacheEntry` | middleware/VerifyApiKey.js:43-49 | the loop drops exactly the entries of that id |
| `ApiKeys.Agent.BootstrapFirstApiKey` | controllers/ApiKeys.js:59-102 | the refusals in order, else a new active admin row |
| `ApiKeysMeaning.BootstrapExactly` | controllers/ApiKeys.js:59-102 | bootstrap makes an active admin exactly when it is enabled, the table is empty or it stays open, the token is valid or none asked for, and the row is new |
| `ApiKeys.Agent.GenerateApiKey` | controllers/ApiKeys.js:179-215 | a named request with a valid role makes a new active row |
| `ApiKeysMeaning.GenerateExactly` | controllers/ApiKeys.js:179-215 | a key is made exactly for a name, a role of the three or none, and a new row; no role is admin |
| `ApiKeys.Agent.DeleteApiKey` | controllers/ApiKeys.js:327-349 | not found, refused for the last admin, or the row gone and its cached keys purged |
| `ApiKeys.Agent.RevokeApiKey` | controllers/ApiKeys.js:387-409 | not found, refused for the last admin, or the row inactive and its cached keys purged |
| `ApiKeysMeaning.RemovalExactly` | controllers/ApiKeys.js:327-409 | on a table with unique ids and proper roles: not found exactly without such a row, a conflict exactly on the only active admin, removed otherwise |
| `ApiKeysMeaning.RemovalEffect` | controllers/ApiKeys.js:342-343 | deleting takes the row away, revoking leaves it inactive; other rows stay and the cached keys of that id go |
| `ApiKeys.HandleIsReference` | middleware/VerifyApiKey.js:187-196 | one request answers and changes the table as without a cache, and the cache stays sound |
| `ApiKeys.CacheIsTransparent` | middleware/VerifyApiKey.js:29-49 | over any run every response and the table are those of a server that checks the table every time |
| `ApiKeys.NoLockout` | controllers/ApiKeysUtils.js:14-26 | once there is an active admin key there always is one |
| `ApiKeys.GuardIsExact` | controllers/ApiKeysUtils.js:14-26 | on every table the handlers can build, the guard refuses exactly the removals that would leave no active admin |
| `ApiKeys.GuardOnAnyTable` | controllers/ApiKeysUtils.js:14-26 | on a table of any origin, unless the other active admins all have an empty role |
| `ApiKeys.GeneratedKeyHasItsId` | controllers/ApiKeysUtils.js:28-33 | a generated key matches the key pattern with its own id |
| `ApiKeys.GeneratedKeyWorks` | controllers/ApiKeys.js:179-215 | a generated key passes exactly what its role passes, after any run that does not remove it |
| `ApiKeys.RemovedNeverAuthenticates` | controllers/ApiKeys.js:342-343 | after a removal no request authenticates as that entity, cached or not, until its id is given out again |

## Left out

- Texts of errors and lint paths.
- FieldDslLint.LintConfiguration: decides whether there is an error, not which ones, in which order and at which paths.
- FieldDslLint.LintGroups: likewise.
- FieldDslLint.LintFields: likewise.
- FieldDslLint.LintShowIf: likewise.
- FieldDslLint.LintValidate: likewise.
- FieldDslLint.LintScalarTypeKeys: likewise.
- FieldDslLint.LintSelectKeys: likewise.
- FieldDslLint.LintPasswordKeys: likewise.
- Labels, titles, help texts and descriptions of groups, fields and schemas, which no decision reads.
- Keys inherited from `Object.prototype`, negative zero, and rounding of numbers: numbers are reals, plus NaN and the infinities.
- Text as UTF-16 code units: strings are sequences of characters, so lengths differ outside the basic plane.
- Regular expressions given by manifests, and the `fqdn` and address patterns: parameters of the host-language record.
- The schema's `format` keyword, taken as an annotation.
- FieldDslSchema.ValidatorRefinesSchema: says nothing where the derived document is no schema, for satisfying it then means nothing; `DerivedIsSchema` says when that is.
- The VNC handshake and the request for the frame; a pixel format with other than 8, 16 or 32 bits a pixel, which the standard excludes.
- Guest replies that are the bare JSON `null`, on which the reply handler throws; the helpers that wait for a guest process or write a file.
- The order of rows in a flushed interval, the pool, device and host columns and the rates derived from them; the DTrace child, its stderr and its restarts.
- A second finalize of the same task while the first still flushes; attaching is taken as one event with the status it is handed.
- The periodic flush timers of task output and console, which appear as flush events; log files of tasks.
- Console flushes take effect at once, while the original awaits the database write.
- Hostnames given as one string, and DNS settings with missing lists, as the serializers also accept them; reading, backing up and writing the files.
- Fractional suggestion counts, prefixes outside 0 to 32, and addresses of so many octets that the running sum loses precision; how the taken addresses are collected.
- ZFS rounding sizes up to its block size, the metadata share of a reservation, and the backend lookup that only fills the restart hint.
- Floating point in sizes of more than 2^53 bytes.
- Key requests that interleave: the middleware awaits between reading the table and writing the cache.
- The table of paths and the role each requires, the `last_used` column, entity descriptions, and listing keys.
- Entity ids are chosen by the database: a new row with an id or key id in use is refused as a server error.
- The task queue, Express handlers, models, configuration and logging.
