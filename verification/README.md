# Verified model of `bn`

`bn` is a command line for a Binary Ninja bridge. It decides from untrusted JSON whether a write went through,
collects paginated listings, prints and reparses target rows, prints bytes as C literals, signals processes by a
recorded identity, keeps sticky session state, reclaims spill directories, drains FIFOs, surveys many instances at
once and decides whether a socket file is still bound. This project models those parts in Dafny and proves what they
are for. `dafny verify dfyconfig.toml` checks all of it.

| module | models |
|---|---|
| `Json` | JSON values, truth, and `dict.get` |
| `Skew` | the choke points that read a field and record an unreadable one, over one mutable recorder |
| `Disclosure` | whole renders as programs of reads, captures and boundaries; the class listing and the arity witnesses |
| `Mutation` | the exit code, the full-detail `ok` and the compact summary of a mutation's reply |
| `FailSafe` | honest engine runs, and what a corrupted reply may still say about them |
| `Collect` | `Client.collect` against any bridge and against an honest one, and the envelope it returns |
| `CEscape` | `_c_escape_bytes`, read back as C reads a string literal |
| `Shlex`, `Lines`, `Text` | quoting and lexing of shell words, lines of a text, whitespace and decimal numbers |
| `TargetHint`, `Respell` | target rows printed and parsed; a multi-target hint respelled |
| `ProcIdentity` | the process pin over a kernel that forks, exits, reaps and reboots |
| `SessionState` | lock, merge, fsync and rename under interleaving and crash |
| `Spill` | which spill days go by age and by size, the sweep's report, and the write-path pruner |
| `SocketEvidence` | the three-valued "is it bound" decision over the kernel's listing |
| `Fifo` | the bounded FIFO drain |
| `Fanout` | planning, concurrent reading and assembly of a survey |
| `Grouping` | grouped frontier leaves and references grouped by caller |

## How the model is set up

* How Python reads a text as a number is a parameter (`NumberText`): every statement about counts holds for every such
  reading. How `str` renders a value is a parameter (`Show`), and so is how a command is
  rendered around a selector; the two renderings there are stand in `Respell.ForPositional` and `ForOption`.
* The bridge, the clock, the kernel, the filesystem and the order in which workers finish are parameters or step
  relations. Each assumption on them is a named predicate: `Collect.Honest`, `Collect.Advancing`, `Fifo.Fair`,
  `Fanout.Schedule` and `NothingAskedTwice`, `SocketEvidence.KeepsItsName`, `StillNamesIt` and `AsksTheFileItself`.
* `ContextVar` and its token are the field `Recorder.seen`, saved and put back by each capture.

## What the model shows about the code

* **`success` must be absent, truthy or `false`.** The exit code tests `success is False`, the summary tests its
  truth. A falsy `success` that is not `false` (null, 0, an empty text) can exit 0 beside a compact `ok` of false.
  `Mutation.SuccessShapeDecides` proves that these values, and no others, separate the two.
* **The full detail goes by the reply's `kind`, the compact status by the command.** When an ordinary command is
  answered under `kind: go_rename`, a counter that cannot be read or counts a failure takes the detailed `ok` away and
  leaves the compact one. `Mutation.DetailAndCompactAgree` proves that this alone divides them;
  `OrdinaryCommandAnsweredAsGoRename` is such a reply.
* **A disclosed name need not have withheld anything.** The reads a summary makes after its verdict disclose what they
  are refused in the same note (`Mutation.RunSummary`).
* **Stated counts need not add up to the operations.** An operation never attempted, or left out of a preview, is in no
  count but the total; so is a candidate of `go rename` never reached or already named
  (`FailSafe.HonestCountsAddUp`, `HonestGoCountsAddUp`, with replies at `UnattemptedOpsAreInNoCount` and
  `UnreachedCandidatesAreInNoCount`).
* **A total published only by an empty last page is not checked against the rows.** `Collect.TotalBelowItsRows` is a
  run that returns two rows beside a total of 0; `TotalIsForcedExactlyByRows` is the exact condition.
* **Renaming a serving socket's own file defeats the "no".** The documentation of `path_has_bound_socket` says that a
  row whose name has ceased to exist answers "unknown"; the code filters by final component first, so that holds when
  a directory above the socket was renamed and fails when the file itself was
  (`SocketEvidence.RenamedSocketFileIsMissed`). `MissedExactlyWhenRenamed` gives the exact condition.
* **A record must be judged against a pin of its own pid.** `identity_verdict` compares boot and start ticks only; the
  record of another pid that shows the same ticks would be proven (`ProcIdentity.ForeignRecordWouldBeProven`). With
  the right pid the result needs no assumption that a pinned pid is not recycled.
* **A target listed twice can misplace a page note.** The notes of a survey are kept by instance and target, so a row
  that failed prints the note of another read of the same target, and of two notes the later one stands
  (`Fanout.FailedRowFindsANote`, `LastReaderDecidesTheNote`). `NotesGoToTheirRows` gives the exact condition. Rows and
  exit code never depend on it.
* **References without a label can come together.** The comment in `_group_refs_by_caller` says that such a reference
  is never coalesced; two at one address, or two that state none, are (`Grouping.SilentRefsComeTogether`).
  `UnlabelledRefsStayApartByAddress` gives the exact condition.

## Model

| member | source | states |
|---|---|---|
| Skew.Recorder.Record | src/bn/formatters.py:96-103 | a field is recorded once, in order, and nothing is recorded outside a boundary |
| Skew.Recorder.FieldList | src/bn/formatters.py:106-139 | the first alias with a nonempty list wins; every alias present in a wrong shape is recorded |
| Skew.Recorder.RowList | src/bn/formatters.py:395-435 | the rows are the objects of the list; the key is recorded exactly when the list or some element is unreadable |
| Skew.Recorder.TextValue | src/bn/formatters.py:334-392 | a text is itself, absence is no text, and anything else is recorded |
| Skew.Recorder.CountField | src/bn/formatters.py:200-283 | the count is the stated integer or zero, and is recorded exactly when present and unreadable |
| Skew.CountsAreIntegers | src/bn/formatters.py:200-283 | integers, whole floats and texts that spell one are counts; flags, fractions, infinities, lists and objects are not, and absence is zero |
| Skew.Recorder.IsFailedStatus | src/bn/formatters.py:438-467 | a row failed exactly when its status is one of the failure texts; an unreadable status is recorded |
| Skew.Recorder.ReadEach | src/bn/formatters.py:96-103 | any list of reads through any choke points records exactly the keys it was refused, in order |
| Skew.EachRefusesOtherKinds | src/bn/formatters.py:106-435 | what each choke point refuses of a present value, for all seven of them |
| Disclosure.Execute | src/bn/formatters.py:491-553 | a render run over the one mutable recorder has the outcome and leaves the record its meaning says, exceptions in any capture included |
| Disclosure.RecordsEveryRefusal | src/bn/formatters.py:96-103 | a render that returns adds to the record exactly the keys it was refused, drained ones excepted |
| Disclosure.RaiseLeavesTheRecord | src/bn/formatters.py:516-524 | an exception that leaves a capture leaves the record outside as it was |
| Disclosure.BoundaryNamesItsRefusals | src/bn/formatters.py:491-553 | the innermost boundary's note names every key its reads were refused and no other, and leaves the outer record alone |
| Disclosure.TextIsLocal | src/bn/formatters.py:286-298 | two runs whose records agree on the openly stated keys print the same text |
| Disclosure.OpenStatementLeaks | src/bn/formatters.py:286-298 | after any earlier reads, a readable count prints `?` exactly when an outer read or one of those was refused its key; in its own capture it always prints itself |
| Disclosure.PartsAreIndependent | src/bn/formatters.py:3616-3633 | parts that state counts only inside captures each print what they would print alone, whatever was recorded before |
| Disclosure.WitnessesAreIndependent | src/bn/formatters.py:3636-3675 | each arity-witness verdict depends on its own fields alone |
| Disclosure.ClassListingIsLocalAndComplete | src/bn/formatters.py:8475-8695 | whatever header and footer read in the same boundary, each row prints what it would print alone, one note names every field that header, rows or footer were refused, and the drained `declared_suppressed` read never joins it |
| Disclosure.ClassRowStates | src/bn/formatters.py:8616-8685 | which counts an object row states, and when: its methods always, how many have its base as their only one, its slots or a `?` its status explains; both its lists are read |
| Disclosure.ArityWitnessStates | src/bn/formatters.py:3636-3675 | what a verdict states: its status, beside an agreement or contradiction both arities and who witnessed it, beside anything else the reason, and nothing of none |
| Disclosure.WitnessIsRefused | src/bn/formatters.py:3616-3675 | a verdict can be named unreadable itself, and for exactly those of its fields that it prints and that cannot be read |
| Mutation.ClassifyRows | src/bn/formatters.py:7305-7325 | the failed rows, with `status` recorded exactly when some row's status cannot be read |
| Mutation.ReadCounters | src/bn/formatters.py:7488-7520 | every counter's value, and a record of exactly the counters that could not be read |
| Mutation.CaptureGeneric | src/bn/formatters.py:7305-7361 | readable exactly when `results` and every status are; the capture is put back and what it found noted outside it |
| Mutation.CaptureGo | src/bn/formatters.py:7488-7560 | readable exactly when the rows and all eight counters are; the disclosed names are exactly the withholding fields |
| Mutation.RunGeneric | src/bn/formatters.py:7287-7439 | the summary as it runs is its specification whatever it reads once its capture is closed, and the record is the capture's followed by the keys those reads were refused |
| Mutation.RunGo | src/bn/formatters.py:7459-7707 | the same of the `go_rename` summary: the withholding fields are recorded, and exactly the refused keys of the later reads |
| Mutation.RunSummary | src/bn/formatters.py:556-590 | the names disclosed beside a summary are the fields whose shape withheld its verdict and exactly the keys the later reads were refused; those change nothing in the summary, and the outer record is put back |
| Mutation.AnyFailed | src/bn/formatters.py:6916-6979 | whether some row failed, stopping at the first, with the statuses read on the way recorded |
| Mutation.AddMutationOk | src/bn/formatters.py:6916-6979 | the full-detail reply as it is built is its specification, with the recorder put back |
| Mutation.ScanAgrees | src/bn/cli.py:1609-1626 | the raising scan of the exit code fails, passes or refuses exactly where the recorded reading finds failed, clean or unreadable rows |
| Mutation.VerdictsAgree | src/bn/cli.py:1629-1703 | under the transform of any command: exit 0 exactly when the summary is `ok` and `measured`; exit 3 implies not `ok`, exit 4 not `measured`, a refusal neither |
| Mutation.ExitExactly | src/bn/cli.py:1609-1703 | a reply is refused if and only if its rows are no list or the scan meets one it cannot read; it exits 3 if and only if the scan meets a failure, or none beside a false `success`; else by whether it was measured |
| Mutation.DetailAndCompactAgree | src/bn/formatters.py:6916-6979 | the full-detail `ok`, chosen by the reply's kind, is the compact `ok`, chosen by the command, if and only if no counters of a `go_rename` reply to an ordinary command object; every other field is kept |
| Mutation.GoOkIsStricter | src/bn/formatters.py:7488-7560 | the counters can only take `ok` away: it is the row reading's `ok`, with every counter read and no failure counted |
| Mutation.OrdinaryCommandAnsweredAsGoRename | src/bn/cli.py:2215-2221 | a verified row beside `go_failed_count: 1` under `kind: go_rename`, answering an ordinary command, is confirmed by the compact status and not by the full detail |
| Mutation.SuccessShapeDecides | src/bn/cli.py:1609-1703 | exit 0 and `ok && measured` coincide, under either transform, on all replies carrying a given `success` if and only if it is absent, truthy or `false` |
| Mutation.CountsNeedMeasurement | src/bn/formatters.py:7101-7163 | an unmeasured summary states no derived count and is dirty; any withholding field makes it unmeasured and not `ok` |
| Mutation.SummaryStatesTheFlags | src/bn/formatters.py:7113-7136 | the compact status states what was committed, whether it was a preview and how a revert went, each from the reply's own field |
| Mutation.DirtyExactlyWhen | src/bn/formatters.py:7101-7163 | a summary by rows says dirty if and only if it is unmeasured, or a commit has a row that verified or failed irreversibly, or a revert did not complete, or residue is stated |
| Mutation.StatesItsRows | src/bn/formatters.py:7305-7439 | measured if and only if there are rows and all of them and their statuses can be read; the counts are then the rows that state each status |
| Mutation.StatesItsCounters | src/bn/formatters.py:7520-7660 | for any `go_rename` reply: measured if and only if every counter and row reads, the failure rows are as many as counted and the counter behind `changed` is there; `changed` is what landed, in an `ok` preview what verified, unknown after a failed revert, else nothing |
| Mutation.OwnOutputExits | src/bn/cli.py:1629-1703 | a summary given back to the exit code exits by the `measured` it states, and what is no object is refused |
| FailSafe.RowCorruptionIsSeen | src/bn/formatters.py:395-467 | rows that can all be read, however others were corrupted, still show what the rows sent showed |
| FailSafe.CounterCorruptionIsSeen | src/bn/formatters.py:200-283 | counters that can all be read are the counters sent |
| FailSafe.ReplyRows | src/bn_agent_bridge/mutation_engine.py:1010-1105 | rows showing any operations, whatever else they carry, are all read, and each status is counted as often as its operation |
| FailSafe.EveryOpCounts | src/bn_agent_bridge/mutation_engine.py:1010-1105 | every operation verified, changed nothing, was reverted, failed, or never ran |
| FailSafe.HonestReplyIsExact | src/bn_agent_bridge/mutation_engine.py:3215-3237 | any reply the engine sends, apply failure, preview, commit, irreversible deletion and residue included, is measured, dirty exactly when the run left or may have left a change, `ok` exactly when it succeeded, and committed, preview and rolled back as the run was |
| FailSafe.HonestCountsAddUp | src/bn_agent_bridge/mutation_engine.py:3050-3074 | the counts are the run's own, and add up to its operations if and only if every one of them ran; `changed` is withheld exactly when a revert did not complete |
| FailSafe.UnattemptedOpsAreInNoCount | src/bn_agent_bridge/mutation_engine.py:1006-1037 | every reply of a run whose second operation was never attempted counts two operations and accounts for one |
| FailSafe.AbandonedReply | src/bn_agent_bridge/mutation_engine.py:3050-3074 | such a reply, with any message and diffs, is one the engine sends |
| FailSafe.CommittedChange | src/bn_agent_bridge/create_comments.py:84-96 | in a commit, what may have been changed is what verified and what failed irreversibly |
| FailSafe.CorruptedReplyNeverReadsClean | src/bn/formatters.py:7101-7163 | a run that left or may have left the view changed gives `dirty_after` however rows and statuses are corrupted and whatever the other fields hold |
| FailSafe.HonestGoReplyIsExact | src/bn_agent_bridge/bridge.py:4730-4830 | any `go_rename` reply the bridge sends, empty, unsupported or applied, with absent buckets and `rolled_back` absent on a commit, is measured, dirty exactly when a name was or may have been left behind, `ok` exactly when it succeeded, and committed, preview and rolled back as the run was |
| FailSafe.HonestGoCountsAddUp | src/bn_agent_bridge/bridge.py:4803-4830 | the counts fall short of the operations by the candidates never reached and those already named, so they add up if and only if there is neither |
| FailSafe.OneBreaks | src/bn_agent_bridge/bridge.py:4764-4802 | the run stops at the first candidate that breaks, so at most one does |
| FailSafe.UnreachedCandidatesAreInNoCount | src/bn_agent_bridge/bridge.py:4764-4802 | every reply of a run of three candidates that stopped at its first counts three operations and accounts for one |
| FailSafe.StoppedReply | src/bn_agent_bridge/bridge.py:4803-4830 | such a reply is one the bridge sends |
| FailSafe.CorruptedGoReplyNeverReadsClean | src/bn/formatters.py:7488-7640 | a `go_rename` that left or may have left names behind gives `dirty_after` however its counters, rows and statuses are corrupted |
| Collect.TurnsRunOut | src/bn/client.py:311-360 | every turn uses up limit, time, or an unpublished total and then the rows under it |
| Collect.StepKeepsFaith | src/bn/client.py:306-360 | one more accepted page keeps the rows consecutive, within the limit, and the total fixed |
| Collect.LoopEndsRight | src/bn/client.py:353-360 | a run that returns ended on a page saying there is no more, or at the limit |
| Collect.RequestsMeetTheDeadline | src/bn/client.py:311-330 | every request of a run that returns was made before the deadline; a run is refused for time only by a clock reading that reaches it, and the first one that does ends it |
| Collect.RequestFails | src/bn/client.py:311-360 | which failure one request ends the run in: time, transport or a malformed page, each exactly |
| Collect.AnyBridgeIsSafe | src/bn/client.py:14-101 | against any bridge the loop ends and returns pages that each state the offset where the rows before them end, no row skipped, repeated or invented, on the published total |
| Collect.AcceptedExactlyWhenSound | src/bn/client.py:14-101 | a page is accepted if and only if it states its own offset and row count and its total fits the list, and then it is read as it says |
| Collect.AnotherOffsetEndsTheRun | src/bn/client.py:45-58 | a page that echoes any other offset than the one asked for ends the run |
| Collect.RepeatedPageIsRefused | src/bn/client.py:45-58 | a bridge that answers every request with its first page is refused at the repetition |
| Collect.TotalIsForcedExactlyByRows | src/bn/client.py:82-101 | the total returned must be what the rows come to, on every total the last answer might have stated, if and only if some page with rows published one or the run reaches no row at all |
| Collect.RunAgain | src/bn/client.py:306-360 | the run with another total on its last page can only come to the same rows with that total, and does when that page is empty |
| Collect.TotalBelowItsRows | src/bn/client.py:82-101 | two rows under a null total and then an empty page stating 0 are accepted: two rows come back beside a total of 0 |
| Collect.HonestPageIsAccepted | src/bn/client.py:14-101 | validation accepts every honest page and reads it as sent |
| Collect.HonestStep | src/bn/client.py:306-360 | one request to an honest bridge keeps the rows a prefix of the slice, or is refused for time or for an unbounded collection |
| Collect.HonestBridgeGivesTheSlice | src/bn/client.py:232-387 | whatever the page size, `collect` returns exactly `L[offset : offset+limit]` with the right `returned` and `has_more` |
| Collect.HonestProbe | src/bn/client.py:270-303 | a limit of 0 returns no rows, and `has_more` says whether the list goes on at that offset, for an empty page without a schema too |
| Collect.ProbeExactlyWhen | src/bn/client.py:270-303 | against any bridge a limit of 0 is answered if and only if its one page is sound and, with a row or a schema, states its columns; `has_more`, total and the other fields are then the page's |
| Collect.FetchPage | src/bn/client.py:311-360 | one turn of the loop as it runs, with its deadline, its checks and both exits |
| Collect.FetchPages | src/bn/client.py:306-360 | the while loop computes the run specified, and terminates for every clock that advances |
| Collect.Collect | src/bn/client.py:232-387 | bad arguments, the probe, the run's failure, or the envelope of its rows |
| Collect.RestateRowFields | src/bn/client.py:139-171 | `row_fields` are exactly the declared fields that no page called conditional and every object row carries; optional are exactly those some page called conditional, with the condition first stated, and those some rows carry and some do not |
| Collect.GatherColumns | src/bn/client.py:149-160 | every field any page declares, with the first condition stated for it; a field list that cannot be iterated is an error |
| Collect.Keep | src/bn/client.py:161-163 | the kept fields are the unconditional ones every row carries |
| Collect.Observe | src/bn/client.py:164-166 | a declared field on some rows only becomes conditional, with the condition that says it was only observed |
| Collect.RefreshCoverage | src/bn/client.py:368-380 | the coverage keys are the last page's, absent ones included, and no other key changes |
| Collect.Assemble | src/bn/client.py:362-387 | the envelope states the rows, the schema true of all of them, the last page's coverage and else the first page |
| CEscape.EscapeBytes | src/bn/formatters.py:6432-6448 | the append loop computes the escape of the whole payload |
| CEscape.ByteReads | src/bn/formatters.py:6432-6448 | each escape reads back as its own byte under longest match, whatever follows |
| CEscape.EscapeRoundTrips | src/bn/formatters.py:6432-6448 | every byte sequence comes back, so no bare quote and no broken escape is printed, and the text is printable ASCII |
| CEscape.SpelledShortest | src/bn/formatters.py:6425-6448 | printable ASCII stands for itself, the controls C has a letter for, quote, backslash and a lone null are two characters, every other byte four |
| CEscape.EscapedLines | src/bn/formatters.py:6457-6478 | the loop by offset cuts the payload into lines of 64 bytes |
| CEscape.LinesRoundTrip | src/bn/formatters.py:6457-6478 | the lines read back one by one make up the whole payload |
| Shlex.Lexer.GetToken | src/bn/target_hint.py:123-144 | the stateful lexer returns the first token and stops just past it |
| Shlex.QuoteLexes | src/bn/target_hint.py:47-52 | any text quoted for the shell is one token that reads as that text |
| Shlex.AnyWordLexes | src/bn/target_hint.py:123-144 | any word of the shell, whatever its quotations and escapes and the blanks before it, is the first token and stands for its text |
| Shlex.BareExactlyWhenSafe | src/bn/target_hint.py:47-52 | a word is left bare if and only if it is of safe characters, and is quoted otherwise |
| Shlex.CutQuoteIsUnclosed | src/bn/target_hint.py:123-144 | a quoted text cut short is an unclosed quotation, never a shorter token |
| TargetHint.EscapeControlsRoundTrips | src/bn/target_hint.py:37-44 | escaped controls read back, and the output holds no control character |
| TargetHint.EscapeControlsInjective | src/bn/target_hint.py:37-44 | two different texts are never escaped alike |
| TargetHint.ParseRow | src/bn/target_hint.py:123-144 | the parser driving the lexer answers as specified |
| TargetHint.RowRoundTrips | src/bn/target_hint.py:84-95 | parsing any printed row gives back its marker; its selector, or its id when that cannot be listed; and its view, id and quoted file name, each in its place, whatever they hold |
| TargetHint.RowsStateAView | src/bn/target_hint.py:123-144 | nothing parses as a row that does not state a view after its selector |
| Respell.JoinUntilRow | src/bn/target_hint.py:179-187 | lines are joined to the first prefix that parses, or none does |
| Respell.RespellListing | src/bn/target_hint.py:171-197 | the walk over the listing always advances and computes the respelled lines |
| Respell.RespellRows | src/bn/target_hint.py:161-199 | the whole respelling computes its specification, and a message without a heading is untouched |
| Respell.OrdinaryRecordsAreListable | src/bn/target_hint.py:84-95 | records whose ids hold no control characters can be listed |
| Respell.CutRowIsNoRow | src/bn/target_hint.py:123-144 | a row cut at any of its newlines parses as no row |
| Respell.RowIsTakenWhole | src/bn/target_hint.py:179-197 | whatever lines follow, a row's lines are taken as exactly that row |
| Respell.HeadingFound | src/bn/target_hint.py:163-169 | the heading found is the message's own, whatever the headline contains |
| Respell.ListingRespells | src/bn/target_hint.py:170-199 | the rows become one command per target in order, before whatever ends the listing |
| Respell.HintRespells | src/bn/target_hint.py:109-199 | a respelled hint is its headline, the instruction and one line per target that is, letter by letter, the command on that target's selector and a note of its marker, view, id and file name |
| Respell.CommandsRunEach | src/bn/target_hint.py:192-196 | line by line, each command renders its target's selector and notes the rest |
| Respell.AmbiguousMessageRespells | src/bn/target_hint.py:161-199 | the message on an ambiguous selector, under its own heading and whatever its explanation says, becomes one command per matching target |
| Respell.PositionalCommandSelects | src/bn/target_hint.py:55-59 | in a positional command the shell reads back exactly the selector, behind `--` when it starts with a dash |
| Respell.OptionCommandSelects | src/bn/target_hint.py:47-52 | in an option command the shell reads back exactly the selector, attached when it starts with a dash |
| Respell.PlainHeadlineIsKept | src/bn/target_hint.py:161-199 | a headline without the select-hint sentence is kept to the letter |
| Respell.UnlistedMessageIsKept | src/bn/target_hint.py:161-169 | a message with no listing heading is passed through as it is |
| ProcIdentity.StartTicksRecovered | src/bn/proc_identity.py:57-78 | field 22 comes back whatever spaces, parentheses or newlines the comm's text holds |
| ProcIdentity.TicksAreTheTwentiethWord | src/bn/proc_identity.py:57-78 | in any text at all the ticks are the twentieth word after the last parenthesis, if it spells a natural number |
| ProcIdentity.VerdictReads | src/bn/proc_identity.py:128-155 | "proven" exactly when recorded boot and ticks are those behind the pid now, "mismatch" exactly when the boot or the ticks differ, "unrecorded" exactly when the boot agrees and nobody has the pid |
| ProcIdentity.RebootForgets | src/bn/proc_identity.py:128-155 | after a reboot any earlier record is a mismatch, whoever has its number |
| ProcIdentity.NoEvidenceIsNoMismatch | src/bn/proc_identity.py:143-149 | half an identity, or a boot id that cannot be read, is never a mismatch |
| ProcIdentity.EvidenceDecides | src/bn/proc_identity.py:128-155 | with evidence on both sides each of the three answers, exactly |
| ProcIdentity.MismatchIsSound | src/bn/proc_identity.py:128-155 | a mismatch on a record some process wrote means that process no longer has its pid |
| ProcIdentity.KernelStepKeepsInv | src/bn/proc_identity.py:162-227 | fork, exit, reap and reboot keep every established fact about records and pins |
| ProcIdentity.ClientStepKeepsInv | src/bn/proc_identity.py:162-227 | reading the registry, pinning, judging, sending and closing keep the same invariant |
| ProcIdentity.GoneStaysGone | src/bn/proc_identity.py:162-176 | a pinned process that is gone never comes back under its number |
| ProcIdentity.NumbersComeBack | src/bn/proc_identity.py:162-176 | what a pin guards against can happen: a pinned process exits, is reaped, and its number goes to another |
| ProcIdentity.JudgeIsSound | src/bn/proc_identity.py:193-197 | a proof of identity is about the record's writer, unless the pinned process is already gone |
| ProcIdentity.SignalsReachTheWriter | src/bn/proc_identity.py:162-227 | in every interleaving a delivered signal reaches the process that wrote the record it was judged by |
| ProcIdentity.LiveWriterIsProvenAndSignalled | src/bn/proc_identity.py:128-209 | a writer of this boot, pinned while it runs, is proven and receives the signal |
| ProcIdentity.ForeignRecordWouldBeProven | src/bn/proc_identity.py:128-155 | a record of another pid with the same ticks would be proven of the wrong process |
| ProcIdentity.ProcessPin.Close | src/bn/proc_identity.py:187-191 | closing is idempotent and gives the descriptor back exactly once |
| ProcIdentity.PinAndJudge | src/bn/transport.py:338-372 | a pin taken on a record's pid and judged once, with any kernel steps before each, is the client steps the invariant covers, and delivers nothing |
| ProcIdentity.Escalate | src/bn/transport.py:400-426 | each signal of an escalation sent through a proven pin, after any kernel steps, reaches the record's writer or nobody |
| ProcIdentity.SignalThroughPin | src/bn/transport.py:338-426 | over a whole teardown the signals reach the process that wrote the record or nobody, none is sent without a proof, and the pin ends closed |
| ProcIdentity.KernelKeeps | src/bn/proc_identity.py:162-176 | forks, exits and reaps in any number keep every established fact and leave the client as it was |
| ProcIdentity.PinProcess | src/bn/proc_identity.py:211-227 | a pin is refused without pidfd or process, and otherwise holds whoever has the number now |
| SessionState.MergeFields | src/bn/session_state.py:45-50 | each key the call speaks of ends as it says, absent for None, the root is stamped, and every other key is kept |
| SessionState.MergeIsPerKey | src/bn/session_state.py:45-50 | each key ends as its last update says: a value sets it, null removes it, and others stay |
| SessionState.LastWordsOfTheLog | src/bn/session_state.py:45-52 | after any updates each key reads as the last one that spoke of it said, and as at first if none did |
| SessionState.RenameKeepsInv | src/bn/session_state.py:55-76 | the rename installs, whole and synced, the merge of all completed updates with this one last |
| SessionState.CrashKeepsInv | src/bn/session_state.py:55-96 | after a crash the surviving file accounts for a prefix of the log with no durable update missing |
| SessionState.StepKeepsInv | src/bn/session_state.py:24-96 | every step of callers, readers, failures and crashes keeps the invariant |
| SessionState.NoUpdateIsLost | src/bn/session_state.py:33-52 | at every moment each key of the file reads as the last completed update that spoke of it said; so does every lock-free read, for the moment it opened the file; and so would what a crash leaves |
| SessionState.CrashLeavesOldOrNew | src/bn/session_state.py:55-96 | a crash around one update leaves the old or the new state in full |
| SessionState.UpdateGoesThrough | src/bn/session_state.py:33-96 | an update that finds the lock free and is not interrupted completes, durably, and frees the lock |
| SessionState.ReadGoesThrough | src/bn/session_state.py:24-31 | a lock-free reader is answered with what the file held when it was opened, whatever the next caller does |
| Spill.SpillDayEntries | src/bn/output.py:192-267 | the eligible days in order, and a refusal with its reason for exactly the day-shaped names that are not |
| Spill.RefusedFor | src/bn/output.py:192-267 | a day-shaped name is passed over for its spelling, else as a link, as no directory or as outside the root, and for nothing else |
| Spill.FoundIsWhatIsThere | src/bn/output.py:192-267 | a day is found if and only if some directory of that canonical name is there, with its size and files |
| Spill.FoundDaysAreDistinct | src/bn/output.py:199-215 | no two eligible directories stand for one day |
| Spill.MeasuredDays | src/bn/output.py:387-389 | sorted, the days are strictly ascending and the same ones |
| Spill.SizePass | src/bn/output.py:393-410 | the pass keeps a prefix of the days, meets the cap or stops at today, and takes no day the cap did not need |
| Spill.Candidates | src/bn/output.py:379-411 | the candidates are a prefix in date order: every stale day, then only what the cap needs |
| Spill.ChoiceIsUnique | src/bn/output.py:379-411 | the two bounds leave one choice only, minimality included |
| Spill.AgeDecides | src/bn/output.py:379-392 | whatever the cap every day older than the window goes, and with no cap nothing else does |
| Spill.TodayIsNeverTaken | src/bn/output.py:379-410 | today and later days are always kept |
| Spill.Remove | src/bn/output.py:412-430 | a dry run removes nothing; a real one loses exactly the directories it reports removed |
| Spill.EveryCandidateIsAccountedFor | src/bn/output.py:415-430 | each candidate is removed or reported as an error, never both |
| Spill.GcSpills | src/bn/output.py:335-450 | total = kept + candidate bytes, removed + errors = candidates, and the disk loses what the report says |
| Spill.PruneOldSpillDays | src/bn/output.py:299-332 | the pruner removes the stale days in entry order and reports those it removed itself |
| Spill.BareSweepIsThePruner | src/bn/output.py:299-450 | with no arguments the sweep takes exactly the days the write path prunes |
| SocketEvidence.TrailingSeparatorKeepsTheName | src/bn/socket_evidence.py:122-134 | a trailing separator or `/.` does not change the final component compared |
| SocketEvidence.NormalPathsStay | src/bn/socket_evidence.py:122-134 | a path of plain components, from the root or not, is compared as it was asked |
| SocketEvidence.RowNamesItsPath | src/bn/socket_evidence.py:136-142 | the eighth field of a listing row is the bound name, spaces included |
| SocketEvidence.NoMeansEveryRowIsRuledOut | src/bn/socket_evidence.py:112-165 | "no" is said exactly when the listing was read, the question can be shown in it and every row is ruled out |
| SocketEvidence.YesIsBackedByARow | src/bn/socket_evidence.py:135-165 | "yes" is backed by a row whose name is, or resolves to, the file |
| SocketEvidence.YesExactlyWhen | src/bn/socket_evidence.py:135-165 | "yes" if and only if a row naming the file, by that string or as an absolute path that leads there, comes before any that leaves it open |
| SocketEvidence.ListedSocketIsRead | src/bn/socket_evidence.py:135-142 | whatever the other rows say, a listable socket's row is read as its own name |
| SocketEvidence.NoIsSound | src/bn/socket_evidence.py:112-165 | after "no", no listed socket is bound to that file, wherever its binder ran |
| SocketEvidence.MissedExactlyWhenRenamed | src/bn/socket_evidence.py:143-165 | a bound socket is missed exactly when its own file was renamed or its bound name leads elsewhere |
| SocketEvidence.RenamedSocketFileIsMissed | src/bn/socket_evidence.py:148-165 | a serving socket bound as `/a` and renamed to `/b` is answered "no" |
| Fifo.TurnsAreBounded | src/bn/cli.py:1949-2011 | every turn spends time or room, so clocks and cap bound the turns |
| Fifo.ReadFifoText | src/bn/cli.py:1893-2052 | the drain ends for every schedule, at the first turn it cannot go on from, with the outcome that turn calls for |
| Fifo.EndingIsUnique | src/bn/cli.py:1953-2011 | a schedule has one ending and one outcome |
| Fifo.SuccessIsTheWholeInput | src/bn/cli.py:1949-2052 | success is the decoding of all bytes up to end of file, nonempty and within the cap, with no bound reached on the way |
| Fifo.RefusalsNameTheirBound | src/bn/cli.py:1949-2011 | a refusal names the bound it hit, and only one that was hit: total time, a whole idle window waited in vain, or more bytes than the cap |
| Fifo.LastReadDecides | src/bn/cli.py:1949-2052 | in time, what the last read was and what the bytes decode to decide the answer, each case exactly |
| Fifo.ScheduleDoesNotDecide | src/bn/cli.py:2032-2052 | two schedules delivering the same bytes to end of file are answered the same |
| Fifo.LastWaitEndsTheDrain | src/bn/cli.py:1954-1985 | a poll the total bound cut short is followed by the total bound's refusal, never by a read |
| Fifo.BufferStaysBounded | src/bn/cli.py:1995-2011 | the buffer never exceeds the cap and one chunk, and past the cap only to refuse |
| Fanout.PlanAll | src/bn/cli.py:2684-2718 | whatever order the planners finish in, each instance has its own plan in its slot |
| Fanout.RunAll | src/bn/cli.py:2737-2787 | whatever order the readers finish in, the results are in item order; the shared table is what that order of writing leaves |
| Fanout.TableHoldsSomeNote | src/bn/cli.py:2737-2787 | what the table holds for a key was left by some read of it, and nothing only if no read of it left anything |
| Fanout.NotesGoToTheirRows | src/bn/cli.py:2828-2839 | every row finds its own note, whatever the order, if and only if rows that share instance and target call for the same note |
| Fanout.NotesDoNotDependOnTheSchedule | src/bn/cli.py:2828-2839 | when no instance and no target is listed twice, each row its page cut short is noted once, with its own note, in row order |
| Fanout.FailedRowFindsANote | src/bn/cli.py:2756-2768 | a target listed twice, read once and refused once: the failed row is noted too, whoever finishes first |
| Fanout.LastReaderDecidesTheNote | src/bn/cli.py:2756-2768 | a target listed twice and read twice: who finishes last decides the note of both rows |
| Fanout.Flatten | src/bn/cli.py:2720-2735 | the units stand in instance-then-target order, and an instance surveyed in full is named |
| Fanout.Assemble | src/bn/cli.py:2789-2795 | planning errors keep their slot and reads fill the rest in turn |
| Fanout.RowsOfInstance | src/bn/cli.py:2684-2735 | every instance is answered by at least one row, all of them its own, and a plan without repeats by rows of different keys |
| Fanout.WhatIsAsked | src/bn/cli.py:2684-2714 | which targets of an instance are asked for, in each mode and for each listing, each reported in its place by its own answer |
| Fanout.EachReadIsReported | src/bn/cli.py:2740-2772 | a read is reported with its result, or with its refusal respelled; a resolved target is named only when it was read |
| Fanout.IdsListed | src/bn/cli.py:2677-2678 | of each listed object its target id, or its selector when it states none |
| Fanout.ProblemIsOneRow | src/bn/cli.py:2684-2735 | an instance that could not be planned is one row, which names it and no target |
| Fanout.OneInstanceCannotDisturbTheRest | src/bn/cli.py:2684-2795 | whatever one bridge does, every other instance's rows are the same and stand in the same place |
| Fanout.Fanout | src/bn/cli.py:2603-2842 | for every completion order, and with no two calls assumed to be answered alike, the rows are the sequential survey's and the exit is 0 exactly when some row is ok |
| Fanout.UnitsAreTheSurvey | src/bn/cli.py:2720-2795 | the units filled in order are the rows of one instance after another, one target after another |
| Grouping.GroupsCountEveryRow | src/bn/formatters.py:5041-5050 | the group sizes sum to the number of rows |
| Grouping.RankedInRank | src/bn/formatters.py:5051-5051 | larger groups first, and among equals the one first seen |
| Grouping.GroupLeaves | src/bn/formatters.py:5041-5050 | each group holds its first leaf and its size, keys in first-seen order |
| Grouping.LeavesComeTogetherExactlyWhen | src/bn/formatters.py:5017-5034 | leaves come together if and only if they are of one kind and, where it is about one, of the same callee, or of the same base and offset |
| Grouping.ListGroups | src/bn/formatters.py:5037-5072 | the first twelve groups in rank are shown, and the tail counts the rest |
| Grouping.RenderGroupedLeaves | src/bn/formatters.py:5017-5072 | shown counts and the stated remainder add up to the header's total |
| Grouping.CapConserves | src/bn/formatters.py:5051-5072 | no leaf is lost to the cap, wherever it falls |
| Grouping.CapHidesTheSmallest | src/bn/formatters.py:5051-5072 | every shown group is at least as large as every hidden one, ties in first-seen order |
| Grouping.CollectCallers | src/bn/formatters.py:2945-2990 | each caller has its own references' sites in order; what is no object is passed over |
| Grouping.ObjectsOnly | src/bn/formatters.py:2945-2990 | every reference that is an object takes part, as often as it is listed, and nothing else does |
| Grouping.GroupRefsByCaller | src/bn/formatters.py:2945-2991 | one group per key in first-seen order |
| Grouping.RefsComeTogetherExactlyWhen | src/bn/formatters.py:2959-2981 | references come together if and only if they are in one function, or outside any and of one label, or without a label at one address |
| Grouping.FirstSectionNamed | src/bn/formatters.py:2994-3008 | the section a label falls back to is the first that has a name |
| Grouping.GroupingKeepsTheSites | src/bn/formatters.py:2945-2991 | over all groups the sites are those of all references, each as often |
| Grouping.UnlabelledRefsStayApartByAddress | src/bn/formatters.py:2966-2981 | references with no function and no label get a group each if and only if their addresses differ |
| Grouping.SilentRefsComeTogether | src/bn/formatters.py:2966-2990 | two references that state nothing at all make one group with both sites in it |

## Left out

- Numeric text: how a decimal text of a counter reads is the parameter `NumberText`; infinities and NaN are one value.
- `first_error` texts, and the summary keys that only carry a reply's own values along (overlapping functions, scan
  buckets and the like): they take no part in the verdict.
- Which reads a summary makes once its verdict stands (messages, imports, overlaps) is any list of reads.
- A library type kept by a preview or a failed declare stays in the view and is named in a list of its own; the summary
  does not count it as a change, and neither does the model.
- A cancelled `go rename`, or an engine error that leaves no reply, raises and is not modelled.
- ProcIdentity.StartTicksRecovered: a comm that is not UTF-8 makes reading the stat file fail, which answers "unknown";
  the model's stat file is text.
- The `limit` and `offset` a caller passes inside `params`, and the text of `BridgeError` messages in `collect`.
- The order of the restated `row_fields`, and the order in which a field list iterates the keys of an object.
- Target ids are texts; reading a record that holds other values is not modelled.
- `shlex.join` of a command's own arguments: the command a selector is rendered into is any text.
- `update` on a state file holding JSON that is no object raises; the model stops there.
- Directory sizes, resolution and the symlink question of spill entries are given by the entry; entries come in the sorted
  order of the listing, and `BN_SPILL_RETENTION_DAYS` is the integer it reads as.
- `realpath` and `lexists` are functions of the world; bytes are characters below 256; unbound rows, the header and
  abstract names are lines like any other.
- A blank `--target` typed on a survey is refused before anything is planned; that refusal is not modelled.
- Durations and the slow-row list of a survey, thread-pool sizes, and target ids that cannot be dictionary keys.
- FIFO time is in whole milliseconds and each clock reading is taken at the head of a turn; what an `OSError` says is
  not modelled, nor the regular-file reader beside it.
- The heading of a caller group (address, shown name, context) is the first reference's; its text is not modelled.
- Class-row and witness texts are their reads and counts; layout, and fields read outside a choke point, are not.
- Sockets and the wire protocol, argument parsing, the bridge itself, and the renderers that share no invariant with
  the ones above.
