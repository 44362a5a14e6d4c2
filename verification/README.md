# Proctoring product: protocols, compiler and data structures

A Dafny model of the state machines, protocols and data structures inside the proctoring product,
with proofs of what they promise. One module per component.

| module | component |
|---|---|
| OrExpression, SqlSyntax, FilterCompiler, FilterMeaning | the filter builder and its compilation to a WHERE clause |
| Statements, Upsert | UPDATE and DELETE texts executed on a table; the upsert loop |
| EventDelivery | the client's event queue, uploader and drop report |
| Governor, Escalation | frame-rate ladder; violation cooldown and escalation |
| BoxPool | sandbox box ids |
| Reminders | claim, send, unclaim |
| RuntimeAssets | crash-safe installation |
| CanonicalJson | the serialiser behind the attestation signature |
| Behavioral | pattern scanners, signal buffer, engine |
| AudioRing | the overwriting byte ring |
| LiveFrames | live frames and their eviction index |
| Polling | the lobby poller |
| InviteCap | the daily invite cap |
| LoggerCache | the least-recently-used logger cache |
| Wrappers, Strings, Ordering | result types, string operations and orders shared by the components |

How it is built:

- The compiler's text is a token sequence. Its meaning is not taken from the compiler: SqlSyntax
  parses it with SQL's operator precedence and evaluates it in three-valued logic (section 6.34 of
  ISO/IEC 9075-2:2003). What the database does with two non-null operands is a parameter (`Db`), so
  the theorems hold for every choice; so is `datetime.fromisoformat`.
- Concurrent protocols are labelled steps with an `Apply` function; the theorems range over every
  sequence of steps. Classes with the source's own fields are proved to follow those steps.
- Objects that the source updates in place are classes whose methods are proved against functions
  of their old state; the properties are lemmas about those functions over whole runs.
- Time, rates and percentages are reals; clock readings are inputs, non-decreasing where stated.

Where the code and its comments differ, the model follows the code:

- The identifier pattern ends in `$`, which in Python also accepts one final newline; `IsIdent` does too.
- `is_` with any operand that is neither None nor "null" asks for a non-null column, so `is_(col, True)`
  is not IS TRUE (`FilterMeaning.IsWithBoolean` says exactly when they agree).
- The upload comment says that drops are reported exactly once. The report's HTTP status is not looked
  at, and a lost reply is taken for a lost report (`EventDelivery.ReportedExactlyOnce` says exactly when
  the comment holds, `EventDelivery.ServerAccount` what is missing or repeated otherwise).
- The governor comment promises no flapping and parking in the band, and calls a sample low when the CPU
  is low and the temperature normal. A forced floor during a running low streak is undone by the next low
  sample (`Governor.ImmediateReversal`), and a cool or hot sample moves the ladder whatever the CPU does
  in the band (`Governor.BandParks`, `Governor.BandLeaves`).
- Poll failures are said to back off exponentially; a reply that is not JSON starts the back-off again
  (`Polling.BackoffExponential` and `Polling.StreakCountsFailures` say exactly when they do).
- An installation's marker is trusted whenever it reads as the expected version. That it is right depends
  on the last launch that changed the cache (`RuntimeAssets.MarkerRightIffFinished`).
- A memo sequence that starts at time zero counts as having no start, and one that comes back too early
  is forgotten (`Behavioral.MatchAnswerMemo`).

Check everything with `dafny verify dfyconfig.toml`.

## Model

| member | source | states |
|---|---|---|
| OrExpression.OrRoundTrip | app/postgres_table.py:426-460 | printing `col.op.value` clauses and parsing the text returns the same clauses if and only if no value holds a comma or ends in white space |
| OrExpression.IdentifierPattern | app/postgres_table.py:27 | identifiers are a letter or underscore followed by letters, digits and underscores, and perhaps one final newline |
| OrExpression.OperatorNames | app/postgres_table.py:53-62 | which operator each of the nine names stands for, and that there are no others |
| FilterCompiler.IsoPattern | app/postgres_table.py:35 | the texts that are tried as date-times are exactly YYYY-MM-DDTHH:MM with anything after it |
| FilterCompiler.Coercions | app/postgres_table.py:151-182 | UUIDs and dicts bind as their text, date-time texts as instants when they parse with Z read as +00:00, everything else as it is |
| FilterCompiler.Sql.Add | app/postgres_table.py:147-182 | appends the coerced value (UUID and dict to text, ISO date-times to instants) and names the next placeholder |
| FilterCompiler.PostgresTable.AddFilter | app/postgres_table.py:296-353 | builder methods append one filter and keep the earlier ones |
| FilterCompiler.PostgresTable.OrPiece | app/postgres_table.py:437-457 | one or-clause: which of the three errors it raises, or its text and its binding |
| FilterCompiler.PostgresTable.CompileOr | app/postgres_table.py:426-460 | the parenthesised group of an or-expression and its bindings, or the first error raised |
| FilterCompiler.PostgresTable.PlainClause | app/postgres_table.py:399-423 | the text and binding of one plain or negated filter |
| FilterCompiler.PostgresTable.Where | app/postgres_table.py:393-424 | the loop emits the specified clause after any parameters already bound, binds the operands in order, or raises the first filter's error |
| FilterMeaning.WhereParses | app/postgres_table.py:424 | read with SQL precedence, the clause is one complete condition: no part is left over and nothing after it is drawn in |
| FilterMeaning.WhereMeaning | app/postgres_table.py:393-460 | for every filter list, row (NULLs included) and earlier bindings, the clause's three-valued truth is the conjunction of the filters, a negated filter being the negation of its positive form; it selects the row exactly when every filter is true |
| FilterMeaning.IsSelects | app/postgres_table.py:400-403 | `is_` with None or "null" is true exactly on NULL columns, with any other operand exactly on the others, and negated the other way round; it is never unknown |
| FilterMeaning.IsText | app/postgres_table.py:400-403 | the four texts of `is_`, which bind nothing |
| FilterMeaning.OneComparison | app/postgres_table.py:426-460 | what `col.eq.value` and the other five comparison texts mean |
| FilterMeaning.OnePattern | app/postgres_table.py:445-457 | what `col.like.value`, `col.ilike.value` and `col.is.value` mean, with every `*` read as `%` |
| SqlSyntax.Comparisons | app/postgres_table.py:417-423 | comparisons are unknown exactly on NULL, decided by equality and order otherwise, and come in opposite and mirrored pairs |
| SqlSyntax.TruthTables | app/postgres_table.py:424 | the three-valued connectives, section 6.34 of ISO/IEC 9075-2:2003 |
| FilterMeaning.PredicateText | app/postgres_table.py:399-423 | the parser used for the meaning accepts no other text for a predicate than the one it is written with |
| FilterMeaning.AnyIsIn | app/postgres_table.py:404-407 | `= ANY` is three-valued membership and `<> ALL` its negation, for lists with NULLs and empty lists |
| FilterMeaning.IsWithBoolean | app/postgres_table.py:400-403 | `is_` with a Boolean operand agrees with SQL's IS TRUE / IS FALSE exactly on rows where the column is NULL or already equal to the operand |
| FilterMeaning.PrintedOrMeaning | app/postgres_table.py:344-353 | an `or_` text built from surviving values means the disjunction of its clauses, `*` read as `%` in like patterns |
| FilterMeaning.WherePlaceholders | app/postgres_table.py:181-182 | from left to right the placeholders of a clause are the next free numbers, each exactly once |
| Statements.CompileUpdate | app/postgres_table.py:563-573 | the emitted UPDATE and its parameters, or the first error in the order of the checks |
| Statements.UpdateMeaning | app/postgres_table.py:563-573 | executing the text keeps every row in place; the rows on which every filter is true hold the coerced values in the payload's columns and keep the others, all other rows are untouched, and the new selected rows are returned in order; with an empty payload the text is rejected |
| Statements.UpdatePlaceholders | app/postgres_table.py:567-572 | SET values and WHERE operands share the numbering $1..$n, one placeholder per parameter in text order |
| Statements.CompileDelete | app/postgres_table.py:575-583 | the emitted DELETE and its parameters, or the first error |
| Statements.DeleteMeaning | app/postgres_table.py:575-583 | executing the text returns exactly the rows on which every filter is true and leaves exactly the others, each in their order, none lost or duplicated |
| Upsert.DefaultColumns | app/postgres_table.py:42-51 | without on_conflict an upsert conflicts on the table's own key columns, on id for all other tables |
| Upsert.OverrideColumns | app/postgres_table.py:543-544 | a non-empty on_conflict wins: its pieces, trimmed, without the blank ones, in order |
| Upsert.BuildInsert | app/postgres_table.py:546-552 | binds the row's values in column order and lists the updated columns, the first conflict column when there is none |
| Upsert.RunUpsert | app/postgres_table.py:537-561 | the loop leaves the merge of the rows processed, returns each row as it was after its own statement, and stops at the first row that raises |
| Upsert.ExecuteUpsert | app/postgres_table.py:462-479 | the whole call: without an error all rows are merged; an error leaves the earlier rows merged, or nothing when the session context puts all rows in one transaction |
| Upsert.ExecIsMerge | app/postgres_table.py:549-559 | one emitted statement, executed with its own parameters, is one keyed merge |
| Upsert.UpsertRefinesMerge | app/postgres_table.py:545-560 | keys stay unique, and every key ends with its old row overlaid by its payload rows in order, absent columns surviving |
| Upsert.AnswersSurvive | app/postgres_table.py:42-44 | two answers of one session to different questions both survive an upsert without on_conflict |
| Upsert.UpsertTwice | app/postgres_table.py:378-382 | running the same upsert again changes nothing if and only if every payload row has a non-null value in every conflict column |
| EventDelivery.EveryEventInOnePlace | proctor.py:1746-1819 | in every reachable state of any interleaving each logged event is in exactly one place, and none is posted more than six times |
| EventDelivery.GivenUpAfterSixPosts | proctor.py:1746-1815 | in every reachable state an event that fails transiently is kept if it was posted at most five times, and given up as a loss if six times |
| EventDelivery.FiveRetries | proctor.py:1803-1815 | a new event survives five transient failures; the sixth POST acknowledges it when accepted, and loses it when it fails as well |
| EventDelivery.QueueBound | proctor.py:1739 | the queue never holds more than 500 events, and log_event finds it full at exactly 500 |
| EventDelivery.AcknowledgedInOrder | proctor.py:1733-1738 | events are acknowledged in queue order, at most once, ahead of everything pending or queued |
| EventDelivery.LossesNeverOvercounted | proctor.py:1740-1744 | exact account of losses in every reachable state; the counter and the reports posted without an exception never exceed them |
| EventDelivery.LossesExactIff | proctor.py:1865-1874 | nothing is missing from counter, reports and pending counts if and only if no put of log_event met a queue refilled since its get; each such put hides one loss |
| EventDelivery.ServerAccount | proctor.py:1779-1792 | what the server stored of the reports: in every reachable state it exceeds the losses by the drops stored and folded back, and falls short by the drops refused without an exception |
| EventDelivery.ReportedExactlyOnce | proctor.py:1777-1792 | every drop is reported exactly once, at every moment of a run, if and only if each report raises exactly when the server does not store it |
| EventDelivery.LostReplyReportsTwice | proctor.py:1783-1792 | a stored report whose reply is lost is stored again after the next success |
| EventDelivery.ReportsCanMiss | proctor.py:1777-1792 | both failures are reachable: two drops stored for one loss, and a loss nobody will hear of |
| EventDelivery.ExactWhenWhole | proctor.py:1859-1874 | when log_event is not interrupted, losses equal the counter plus reports, and events are acknowledged in log order; with reports that raise exactly when not stored, the server has stored what was reported |
| EventDelivery.RefillLosesTwo | proctor.py:1865-1874 | with a full queue, a producer that refills it between another's get and put makes two losses and one count |
| EventDelivery.LogWholeEffect | proctor.py:1859-1874 | an uninterrupted log_event appends, dropping and counting the oldest event when the queue is full |
| EventDelivery.Client.LogEvent | proctor.py:1848-1874 | the client's variables follow the protocol step |
| EventDelivery.Client.UploadTurn | proctor.py:1751-1819 | one turn of the upload loop, for every reply and every outcome of the drop report, follows the protocol steps |
| Governor.BuildTiers | proctor.py:1137-1144 | for every target and low rate the rungs are the clamped rates, strictly descending, from the target (or the low rate when higher) to the low rate |
| Governor.ShippedLadder | proctor.py:1132-1144 | at the shipped rates the rungs are 7, 5, 4 and 3 |
| Governor.SignalTable | proctor.py:1314-1360 | which memory, battery, load and temperature readings make a sample forced, high or low |
| Governor.HardwareGovernor.constructor | proctor.py:1131-1164 | starts on the top rung at its rate; the invariant holds from the start exactly when that rate is not negative |
| Governor.HardwareGovernor.SetMinFpsFloor | proctor.py:1264-1275 | changes the floor and re-applies it to the current rung |
| Governor.HardwareGovernor.MaybeUpdate | proctor.py:1286-1388 | one sample moves the whole governor state as specified, whatever combination of load, heat, battery and memory it carries |
| Governor.HardwareGovernor.TakeStride | proctor.py:1362-1388 | streaks and at most one rung after an unforced sample |
| Governor.UpdateKeepsInv | proctor.py:1339-1388 | rate = max(rung, floor), throttled iff below the top, one streak at most; unforced samples move one rung at most, forced ones reach the floor; a notice exactly when the rung changes |
| Governor.RunKeepsInv | proctor.py:1277-1284 | the invariant after every run of samples and floor changes, with one notice per change of rung |
| Governor.HighRun | proctor.py:1372-1381 | k high samples in a row lower the ladder by exactly k rungs, one fewer without a running streak, never past the bottom |
| Governor.LowRun | proctor.py:1382-1388 | k low samples in a row raise it by exactly k rungs, one fewer without a running streak, never past the top |
| Governor.LadderReached | proctor.py:1372-1388 | as many high (low) samples as rungs reach the bottom (top) from any state |
| Governor.ImmediateReversal | proctor.py:1347-1388 | a step down is undone by the next sample if and only if it was forced during a low streak and the next sample is low; a step up if and only if the next sample is forced |
| Governor.BandParks | proctor.py:1375-1377 | over any run with the CPU in the hysteresis band, rung, rate and streaks stay if and only if every temperature is unknown or in its own band |
| Governor.BandLeaves | proctor.py:1316-1326 | with the CPU in the band, cool samples alone climb to the top and hot ones alone fall to the bottom |
| Escalation.Proctor.CanLogNow | proctor.py:3297-3303 | passes and stamps after eight seconds, otherwise changes nothing |
| Escalation.Proctor.TrackViolation | proctor.py:3320-3326 | prunes one type's history to the window and appends the new entry |
| Escalation.Proctor.GetEscalatedSeverity | proctor.py:3328-3340 | the count in the window and the severity that it gives |
| Escalation.Proctor.LogIfAllowedNow | proctor.py:3342-3361 | the whole state after the call, and what is emitted |
| Escalation.LogSpacedAndEscalated | proctor.py:3320-3361 | in every run of both closures, events of one type are eight seconds apart; three events of a type in the trailing 300 seconds of the full log give critical, two one tier above the base, fewer the base |
| Escalation.NeverBelowBase | proctor.py:3328-3340 | no emitted severity is below its base |
| Escalation.AtMost38 | proctor.py:964-969 | no 300-second window holds more than 38 logged events of one type |
| Escalation.CanLogSilencesLog | proctor.py:3297-3303 | after can_log has passed, log_if_allowed of the same type emits nothing exactly while eight seconds have not gone by |
| BoxPool.PoolSafe | execsvc/app.py:52-60 | under any interleaving, free ids and ids of unreleased threads partition {0, ..., size - 1} |
| BoxPool.NoSharedBox | execsvc/app.py:164-177 | no two unreleased threads use one box, and a box in use is not in the queue |
| BoxPool.HeldUntilFinished | execsvc/app.py:164-176 | whatever happens to its request, a live thread keeps its box, and the box stays out of the queue, until the thread finishes |
| BoxPool.RequestLife | execsvc/app.py:164-177 | in every run answered and cancelled requests stay so, a request is answered only once its thread is done, and one cancelled while waiting never gets a box |
| BoxPool.CancelOnlyRequest | execsvc/app.py:164-171 | a cancellation ends a waiting or running request, frees no box and stops no thread |
| BoxPool.AllBoxesReturn | execsvc/app.py:176 | once every thread has been released all boxes are free |
| BoxPool.EagerReleaseShares | execsvc/app.py:166-171 | releasing at cancellation instead would put two live threads in one box |
| BoxPool.Pool.Get | execsvc/app.py:172 | takes the first free box |
| BoxPool.Pool.Put | execsvc/app.py:176 | puts a box at the end of the queue |
| BoxPool.Pool.Start | execsvc/app.py:172-175 | acquiring a box and starting its thread is the protocol's Acquire step |
| BoxPool.Pool.Done | execsvc/app.py:176 | the done-callback is the protocol's Callback step |
| Reminders.EverySlotInOnePlace | app/reminders.py:112-133 | in every reachable state a slot is marked exactly when it is in one place: sent, skipped, held by one worker, or left by a worker that crashed or raised |
| Reminders.LostExactlyWhenLeft | app/reminders.py:122-133 | a marked slot that was neither sent nor skipped and that nobody holds is one left by a crash or an exception; without either there is none |
| Reminders.AtMostOneReminder | app/reminders.py:112-131 | for any number of workers with stale lists, at most one successful send per invite and bucket, and one owner of a claim at a time |
| Reminders.UnclaimOnlyOwn | app/reminders.py:130-131 | the unconditional unclaim resets only the worker's own claim, never a sent, skipped or abandoned one |
| Reminders.FailureIsRetried | app/reminders.py:129-131 | after a reported failure the row can be claimed again |
| Reminders.SentStaysMarked | app/reminders.py:125-129 | a sent slot stays marked in every later state |
| Reminders.ClaimSelects | app/reminders.py:125 | the claim's filters select exactly the invite's row with a NULL reminder column |
| Reminders.InviteTable.MarkIfNull | app/reminders.py:122-127 | a test-and-set of one reminder column |
| Reminders.InviteTable.Tick | app/reminders.py:116-133 | one worker's loop over a candidate list, with exceptions at any point of a turn, follows the protocol steps |
| RuntimeAssets.RuntimeCache.EnsureRuntimeAssets | lib/runtime-assets.js:46-111 | the cache after the mutations made before the crash, and whether the call returned |
| RuntimeAssets.RuntimeCache.ReplaceTrees | lib/runtime-assets.js:94-99 | each directory is deleted and then replaced, in order |
| RuntimeAssets.RuntimeCache.WriteVersion | lib/runtime-assets.js:102-105 | the marker is truncated and written last |
| RuntimeAssets.FetchDecision | lib/runtime-assets-version.js:9-19 | a fetch is unnecessary exactly when a readable marker's trimmed text is the expected version in decimal |
| RuntimeAssets.TrustworthyMarker | lib/runtime-assets-version.js:9-19 | with versions that never go back and a crash after any mutation of any launch, no fetch needed means both directories are complete for the expected version |
| RuntimeAssets.UninterruptedInstalls | lib/runtime-assets.js:77-110 | an uninterrupted launch leaves the expected version complete and trusted |
| RuntimeAssets.MarkerRightIffFinished | lib/runtime-assets-version.js:9-19 | for launches in any order of versions and any crash points: a marker that vouches for a version is right if and only if the last launch that changed the cache ran to its end |
| RuntimeAssets.RollbackTrustsStaleMarker | lib/runtime-assets-version.js:9-19 | with a version installed, an installation of another one that stops before its marker leaves a cache that still vouches for the first |
| RuntimeAssets.CutMarkerVouches | lib/runtime-assets.js:102-105 | a marker cut short by one character vouches for the shorter version |
| CanonicalJson.CanonicalRoundTrip | lib/attestation.js:56-60 | a parser for sections 4, 6 and 7 of RFC 8259 recovers exactly the object's members, each once, with the keys in ascending order of code units |
| CanonicalJson.TwoMembers | lib/attestation.js:56-60 | an object given v and then ts is written with ts first, without spaces |
| CanonicalJson.PlainText | lib/attestation.js:58 | ordinary strings are written as they are |
| CanonicalJson.LongEscapes | lib/attestation.js:58 | other control characters are escaped with four lower-case hexadecimal digits |
| CanonicalJson.Surrogates | lib/attestation.js:58 | half of a surrogate pair is escaped; two halves are written as they are exactly when they make a pair |
| Ordering.LessIsFirstDifference | lib/attestation.js:57 | the key order: at the first difference the earlier key ends or has the smaller code unit |
| CanonicalJson.CanonicalInjective | lib/attestation.js:56-60 | two objects have the same canonical text if and only if they have the same contents, whatever the insertion order |
| Behavioral.MatchNoteReading | behavioral_analysis.py:88-126 | fires if and only if fifteen consecutive entries are away, turned and silent; the span is that of the first such run |
| Behavioral.MatchNervousEvasion | behavioral_analysis.py:195-236 | counts exactly the maximal away-runs shorter than two seconds, an open last run included, and fires on five |
| Behavioral.MatchAnswerMemo | behavioral_analysis.py:152-192 | fires if and only if some attempt ends in a completion three to twelve seconds after its start, a start at time zero apart; the span is that of the first such attempt |
| Behavioral.MemoWitnesses | behavioral_analysis.py:152-186 | every match has entries away, down and centred in order; such entries give a match exactly when the first one starts an attempt, not at time zero, that nothing completes earlier |
| Behavioral.MemoCanBeMissed | behavioral_analysis.py:175-186 | such entries can exist without any match: a first glance back that comes too early ends the attempt |
| Behavioral.SignalBuffer.Push | behavioral_analysis.py:40-44 | appends and prunes; what is pruned is outside the window |
| Behavioral.SignalBuffer.Prune | behavioral_analysis.py:46-49 | keeps the end of the history, its first entry within the window |
| Behavioral.SignalBuffer.GetEntries | behavioral_analysis.py:51-57 | returns exactly the entries of the whole history that are within the lookback, if there is one, and within the window |
| Behavioral.EligibleIs | behavioral_analysis.py:355-363 | the candidates for a report are exactly the matches whose pattern was last reported at least 30 seconds ago, in matcher order |
| Behavioral.Engine.Check | behavioral_analysis.py:333-372 | reports the first match of highest confidence that is not cooling down; reports of one pattern are 30 seconds apart |
| AudioRing.AudioRingBuffer.Write | audio_processor.py:266-282 | afterwards the ring holds the last cap bytes of its old contents followed by the data |
| AudioRing.AudioRingBuffer.Read | audio_processor.py:284-298 | returns and removes the first min(n, size) bytes |
| AudioRing.RunInOrder | audio_processor.py:249-254 | over any run, bytes read are an in-order selection of bytes written, written = read + dropped + held, and what is held is the end of the stream |
| AudioRing.SamplesStayWhole | audio_processor.py:257-258 | with an even capacity and even lengths, every 16-bit sample read is one sample written |
| LiveFrames.Redis.SetLiveFrame | app/cache.py:188-238 | the two keyspaces after a call, for refused, plain and evicting calls; a call without time to live, without bytes or with too many is refused and changes nothing |
| LiveFrames.ZAddFacts | app/cache.py:223 | re-adding a member replaces its entry and keeps the index sorted and duplicate-free |
| LiveFrames.IndexCoversFrames | app/cache.py:222-234 | after any orderly run the index has at most cap entries in time order and covers every live frame, across expiries of the whole index |
| LiveFrames.EvictsOldest | app/cache.py:226-234 | exactly as many sessions as are over the cap are evicted, all with the lowest scores, and only their frames are deleted |
| Polling.Poller.OnTick | lib/polling.js:27-30 | one request at a time, none while ticks are being skipped |
| Polling.Poller.OnReply | lib/polling.js:31-80 | the whole state after each kind of reply |
| Polling.Poller.Deliver | lib/polling.js:54-72 | force submit and the dispatch of one successful response |
| Polling.QualifiesIs | lib/polling.js:59-63 | the events worth a callback: high or medium severity and a type that mentions none of the eight ignored words |
| Polling.DispatchCount | lib/polling.js:59-72 | an id is dispatched at most once over a run, and exactly when some response shows it above all earlier qualifying ids |
| Polling.ExactlyOnce | lib/polling.js:59-72 | every qualifying event is dispatched exactly once if and only if new qualifying ids always appear above earlier ones |
| Polling.ForceSubmitOnce | lib/polling.js:54-57 | force submit fires at most once, exactly when some successful response announces a submitted exam |
| Polling.AttemptsClosedForm | lib/polling.js:46-47 | exact number of requests in n ticks of outage when failures arrive at once |
| Polling.OutageBound | lib/polling.js:15-24 | when every reply is an HTTP or network error, an outage of N ticks makes at most the exact number for immediate failures, hence at most 5 + N/31 requests, whenever the replies arrive; immediate failures reach it |
| Polling.AnyOutageBound | lib/polling.js:50-79 | with failures of every kind N ticks make at most (N + 2) / 3 requests, and exactly as many when no reply is JSON and each arrives before the next tick |
| Polling.BadJsonOutage | lib/polling.js:50-79 | thirty ticks of replies that are not JSON make ten requests |
| Polling.StreakCountsFailures | lib/polling.js:46-51 | after any run the streak counts every failure since the last success if and only if none of them but the first was a reply that is not JSON |
| Polling.BackoffExponential | lib/polling.js:15-24 | a failure backs off exponentially in the failures since the last success, up to the cap, if and only if none of the last four of them, the first one apart, was a reply that is not JSON |
| InviteCap.CounterTable.ClaimAndBump | app/invites.py:75-121 | the counter table and the answer of one atomic claim |
| InviteCap.CounterTable.ClaimAndBumpLegacy | app/invites.py:124-137 | the same for the uninterrupted legacy path |
| InviteCap.CounterTable.ClaimCap | app/invites.py:28-72 | which path answers and on which day it counts, and what is counted when the atomic claim raises |
| InviteCap.LostCommitCountsTwice | app/invites.py:67-72 | a claim committed without an answer and claimed again on the legacy path is counted twice exactly when two such batches fit |
| InviteCap.CapNeverPassed | app/invites.py:82-84 | for any order of claims, grants for a teacher and day add up to the growth of the stored count, which stays within the cap |
| InviteCap.OutcomeExact | app/invites.py:106-121 | a denial happens exactly when the batch does not fit and changes no count; the table and the remainder are exact; other keys are untouched |
| InviteCap.LegacyAgreesSequentially | app/invites.py:124-137 | one at a time and on the same days, both paths give the same answers and counts over every history |
| InviteCap.SplitLegacyOvershoots | app/invites.py:124-137 | two callers that both read first are both granted exactly when each fits alone; one grant goes uncounted, and they pass the cap exactly when running in turn would have denied the second |
| InviteCap.OvershootWitness | app/invites.py:124-137 | a cap of 5 with two batches of 3 grants six and counts three |
| LoggerCache.LoggerPool.GetLogger | app/logger.py:98-117 | the cache stays the newest part of the access history, and exactly the cached sessions keep a registered logger with one handler |
| LoggerCache.LoggerPool.EvictLru | app/logger.py:87-95 | removes the least recently used session and its handlers |
| LoggerCache.RecencyOrder | app/logger.py:100-103 | the recency list holds each session once, in order of last access |
| LoggerCache.CacheIsNewest | app/logger.py:98-117 | after any accesses the cache holds, in order, exactly the last 200 (or fewer) distinct sessions |

## Left out

- SELECT and plain INSERT: ORDER BY, LIMIT, OFFSET, DISTINCT ON and the count query; their WHERE clause is the one modelled.
- SQL at the level of characters: tokens stand for the quoted identifiers, operators and keywords, so spacing and quoting are not modelled. The upsert statement is a record of its parts rather than tokens.
- The database: column types, defaults other than NULL, unknown columns, triggers, row-level security and constraints other than a unique index on the conflict columns. `_json_safe` is not modelled.
- ISO date-times written with non-ASCII digits: fromisoformat refuses them, so they bind as text either way.
- Event payloads: an event is its number, and acknowledged means answered with success; an event that the server stored although its reply was lost is posted again. `_flush_events`, `_post_event_now` and the length of the back-off sleep are not modelled.
- EventDelivery.Client.UploadTurn: one producer and no interleaving; interleavings are covered by the step-level theorems.
- Governor: rates are reals, so `round` acts on exact products; in floating point a product such as 45 * 0.7 can fall on the other side of a half.
- Governor: reading sensors and the background thermal task; their results are fields of a sample.
- Escalation: the text of the details and the violation counter.
- BoxPool: authentication, validation and limits of a run request; loop shutdown, which cancels the sandbox task itself.
- Reminders: the time windows and the exam query; they only choose candidates, and candidates are arbitrary here. A send that reports failure after the mail left may be repeated.
- RuntimeAssets: download, checksum and extraction happen before the cache is touched; a failure there is a crash after zero mutations. Versions are natural numbers written in decimal.
- CanonicalJson: fractional numbers, integers beyond 2^53, which JavaScript prints with their shortest digits padded with zeros or with an exponent, nested values and undefined.
- Behavioral: confidence formulas, `match_phone_consulting`, `match_collaboration` and `match_sustained_offtask`, which only look at single entries or one fraction.
- AudioRing.AudioRingBuffer.Read: waiting for bytes; an empty ring returns nothing, as after a timeout. The lock makes each call one step.
- LiveFrames: an unreachable Redis in the middle of a call, concurrent calls, and other writers of the same keys.
- Polling: callbacks that throw, and starting or stopping the interval.
- InviteCap: two legacy callers that both insert the day's first row; the second insert raises and the send is let through. A legacy write that takes effect and raises all the same.
- LoggerCache: log records, levels and formatting. The registry starts empty, so logger names that were registered elsewhere, the root logger among them, are outside "one handler each".
- Camera, speech and gaze inference, windows, mail, HTTP wiring and reporting are not part of this model.
