# flatbed verification

A Dafny model of the stateful and arithmetic core of `flatbed`: the local queue
and its executor, the pager and its cursors, the codec the TypeScript generator
emits, readiness gates, the worker supervisor, NATS subjects, replies and
connecting, and the `.fbs` declaration scanner. Run
`dafny verify dfyconfig.toml` to check it.

Code that changes state step by step is a class or a method with loops, proved
against specification functions; what the source promises is proved about those
functions, over every input, every run or every interleaving. Code that several
threads or tasks run at once is a step system whose moves are its lock sections,
atomic operations, channel writes and timers, in any order.

| files | component |
|---|---|
| `LocalQueueSpec`, `LocalQueue` | the lock sections of the local queue, as functions and as a mutable class |
| `LocalQueueSystem` | runs: producers and executor take lock sections in any order, beside a ledger of what was pushed, ended and handled |
| `LocalQueueStructure`, `LocalQueueConservation`, `LocalQueueAttempts`, `LocalQueueRuns`, `LocalQueueLedger`, `LocalQueueWaiting` | what every step keeps, and what whole runs promise |
| `LocalQueueWake` | pushes, `notify_one` and the worker's check-then-wait |
| `LocalQueueTerms`, `LocalQueueTimeline`, `LocalQueueTurns` | `serve` under leader election, with a clock and a log, and what its runs promise in terms of the moves and the time alone |
| `Cursor`, `Pager`, `PagerKeys` | the signed cursor byte for byte, one page, whole walks, and walks over keys of any size |
| `FlagBits`, `TableCodec` | the meaning of the emitted encoders and decoders |
| `Readiness`, `RestartPolicy` | the lock-free counter, restart arithmetic |
| `SupervisorHealth`, `SupervisorExits` | many supervisors at once, and what a worker's exit leads to |
| `Subjects`, `Headers`, `Replies`, `Connect` | subject patterns and overlap, replies and rejections, the retry loop |
| `Comments`, `DeclOrder`, `DeclStrings` | comment stripping, the declaration scan, and what it reads in strings |
| `Wrappers`, `Sequences`, `Characters`, `Durations` | what several of them share |

## Where the code falls short of its promise

Each of these has a lemma that gives the exact condition.

- A page of an effective size of 0, or of 4294967295 with more rows than that on
  the side it reads, does not show the rows or the cursors its length calls for.
  `Pager.FirstPage`, `Pager.NextPage` and `Pager.PreviousPage` say that every
  other page does and these do not, `Pager.WalksGoWrongAtAMisfit` says the same of
  whole walks, and `Pager.ZeroSizeIsADeadEnd` what a size of 0 gives in the middle
  of one.
- A plain enum 8 bytes wide does not survive the codec: its members are declared as
  numbers, the 8-byte reader and its default give bigints. A table comes back exactly
  when no such member is in it (`TableCodec.TableRoundTrip`,
  `TableCodec.WideEnumDoesNotComeBack`, `TableCodec.AbsentIsTyped`). The other
  generator of the repository refuses such an enum
  (`clients/ts/flatbed-client/src/generate/read-bfbs.ts:121-129`).
- A cursor of more than 3072 bytes before base64 is minted and can never be
  opened (`Cursor.OpenInvertsMintUpToTheCap`); a walk goes on exactly while the keys
  at the ends of its pages fit (`PagerKeys.WalksGoOnIffTheirKeysHold`).
- A restart policy that allows 4294967295 restarts never escalates, since the
  attempt count saturates there (`RestartPolicy.EscalationIsExact`). The module
  documentation says the bound measures consecutive rapid failures; the exit of
  the long run before them counts as well, and the lemma follows the code.
- The readiness counter can pass below zero and wrap, from any quiet state with a
  gate, exactly when two calls on one gate may overlap
  (`Readiness.WrapsIffCallsOverlap`). Nothing in `set_ready` keeps them apart, and
  the connector's own gate is set both by the task that connects
  (`crates/flatbed/src/nats_connect.rs:300-305`) and by the client's event callback
  (`crates/flatbed/src/nats_connect.rs:376-396`).
- An error whose code has a character above U+009F is read by the requester as a
  success (`Replies.RejectionInvertsReplyErr`,
  `Replies.UnreadableCodeLooksLikeSuccess`).
- The connect loop ends within a bounded number of attempts exactly when there is
  no time at all, or the lower backoff is positive and the upper at least 2ns
  (`Connect.LoopEndsIffItBacksOff`).
- The declaration scan reads the text of string literals too: it returns what a reader
  that passes strings over returns exactly when no string holds a name behind a
  keyword (`DeclStrings.ScanIgnoresStringsIff`, `DeclStrings.AStringCanDeclare`).
- Comment stripping loses a newline exactly when the text ends with it inside an
  open block comment (`Comments.NewlinesAreKept`).

## Model

| member | source | states |
|---|---|---|
| LocalQueue.Sender.Send | crates/flatbed/src/local_queue.rs:524-538 | a set-aside key is refused, a queued key coalesces and changes nothing, a full queue refuses, otherwise the message joins the end of the line |
| LocalQueue.Sender.Status | crates/flatbed/src/local_queue.rs:543-558 | where a key stands: in hand before queued before set aside, positions counted from 1 |
| LocalQueue.Sender.Requeue | crates/flatbed/src/local_queue.rs:567-580 | a set-aside message rejoins the end of the line with a clean count, unless the queue is full and it stays |
| LocalQueue.Sender.Forget | crates/flatbed/src/local_queue.rs:584-591 | drops exactly the set-aside entry of the key |
| LocalQueue.Sender.TryNext | crates/flatbed/src/local_queue.rs:600-619 | one pass of the loop: the head becomes the one in hand with its count raised by one, saturating |
| LocalQueue.Sender.EvictOldest | crates/flatbed/src/local_queue.rs:486-497 | the eviction loop keeps the newest letters, as many as the capacity allows |
| LocalQueue.Sender.SetAside | crates/flatbed/src/local_queue.rs:467-499 | a queued resend goes, the letter joins the set, the oldest are evicted |
| LocalQueue.Sender.Retry | crates/flatbed/src/local_queue.rs:621-639 | the message is set aside on its last attempt, gives way to a resend which takes its count, or rejoins the line |
| LocalQueue.Sender.Fail | crates/flatbed/src/local_queue.rs:641-648 | the message in hand is set aside under the cause, with the cause's reason if it has one |
| LocalQueue.Sender.ReleaseInFlight | crates/flatbed/src/local_queue.rs:650-652 | empties the hand and touches nothing else |
| LocalQueue.Sender.Clear | crates/flatbed/src/local_queue.rs:655-663 | empties all three collections and counts what it dropped |
| LocalQueueRuns.StepKeepsInvariant | crates/flatbed/src/local_queue.rs:524-663 | every lock section, in any order, keeps distinct keys, bounds, the ledger's balance and exact counts together |
| LocalQueueRuns.StructureOnEveryRun | crates/flatbed/src/local_queue.rs:448-500 | after any run queued keys are distinct, set-aside keys are distinct and neither queued nor in hand, and both capacities hold, the hand counted |
| LocalQueueRuns.EachMessageInOnePlace | crates/flatbed/src/local_queue.rs:467-663 | after any run a message was pushed as often as it is queued, in hand, set aside or ended, all places added up |
| LocalQueueConservation.StepConserves | crates/flatbed/src/local_queue.rs:467-663 | each lock section only moves messages or ends them under a named cause |
| LocalQueueRuns.AttemptsAreHandleCalls | crates/flatbed/src/local_queue.rs:600-648 | counts are the `handle` calls since the key's last clean slate, saturating; queued counts stay under the limit, no key passes it, an exhausted letter carries exactly it |
| LocalQueueRuns.OutcomeLetters | crates/flatbed/src/local_queue.rs:621-648 | after any run a retry writes a letter on the limit's own call and on no other, a failure always does, and what the letter says |
| LocalQueueLedger.AttemptsAreTheRunsOwn | crates/flatbed/src/local_queue.rs:600-648 | after any run, counted over its events, the count in hand and in line is how often the key was handed to `handle` since it was last done, set aside or dropped, and the reason in hand the last one given since |
| LocalQueueLedger.LedgerTellsTheSends | crates/flatbed/src/local_queue.rs:524-538 | over any run a message was pushed as often as `send` accepted it for a key that was not queued |
| LocalQueueLedger.EndsAreNamed | crates/flatbed/src/local_queue.rs:467-663 | each event ends messages under its own names only, a resend or an eviction only where a message was set aside |
| LocalQueueRuns.AnswersAgreeWithStatus | crates/flatbed/src/local_queue.rs:524-591 | after any run what `send`, `requeue` and `forget` answer agrees with `status` before and after: a refusal changes nothing, an acceptance leaves the key queued, a requeued key is last in line, a forgotten one absent |
| LocalQueueRuns.StatusTellsWhere | crates/flatbed/src/local_queue.rs:543-558 | after any run a key is reported in hand iff the hand holds it, queued at p iff it is p-th in line and not in hand, set aside with a letter iff a set-aside entry of the key has that letter, absent iff none of these |
| LocalQueueRuns.LettersAreReported | crates/flatbed/src/local_queue.rs:621-648 | after any run the letter a failure or a spent retry returns is what `status` reports of the key next, and other keys that are still set aside keep theirs |
| LocalQueueWaiting.NeverMovesBack | crates/flatbed/src/local_queue.rs:600-639 | a queued entry is taken by the take its index counts to, or dropped with its key or its term, or still waits, nearer by every take |
| LocalQueueWaiting.OnlyLossDrops | crates/flatbed/src/local_queue.rs:467-475 | an entry whose key is not in hand keeps its place promise through retries, resends, requeues and evictions of others |
| LocalQueueWaiting.QueuedPositionIsAPromise | crates/flatbed/src/local_queue.rs:543-558 | a reported position p: the p-th following take at the latest takes that very message, while leadership holds |
| LocalQueueWake.MoveKeepsWakeups | crates/flatbed/src/local_queue.rs:524-619 | any move of a producer, the worker or a cancellation keeps: a waiting worker and a non-empty queue have a permit or an unsignalled push |
| LocalQueueWake.NeverLosesAWakeup | crates/flatbed/src/local_queue.rs:600-619 | the same over every interleaving |
| LocalQueueWake.WaitingWorkerTakesTheHead | crates/flatbed/src/local_queue.rs:600-619 | after any interleaving, once pushes are signalled, a worker in `next` takes the head of the line within two moves of its own |
| LocalQueueWake.MovesAreARunOfTheQueue | crates/flatbed/src/local_queue.rs:524-652 | under the protocol the queue goes through a run of lock sections in which the worker's look takes a message iff there is one |
| LocalQueueWake.LooksAreBounded | crates/flatbed/src/local_queue.rs:536-617 | signals never outnumber pushes, a signal is due iff one is owed, and every look at the queue is paid by a call of `next` or a signal |
| LocalQueueWake.SignalIsKept | crates/flatbed/src/local_queue.rs:536-617 | a signal to a worker that is not parked keeps its next poll from waiting |
| LocalQueueWake.ParkedWorkerIsWoken | crates/flatbed/src/local_queue.rs:600-619 | a signal to a parked worker lets it resume and look, and one dropped before it resumes keeps the wake-up for its next poll |
| LocalQueueWake.WorkerFollowsItsLoop | crates/flatbed/src/local_queue.rs:600-619 | after any interleaving what the worker can do next follows from its own last move |
| LocalQueueWake.NothingHoldsProducers | crates/flatbed/src/local_queue.rs:524-591 | producers can move at any time, and the worker can be dropped anywhere |
| LocalQueueTerms.MoveKeepsIsolated | crates/flatbed/src/local_queue.rs:701-778 | each move of the executor, the clock and the election keeps what is held inside its term |
| LocalQueueTerms.TermsAreIsolated | crates/flatbed/src/local_queue.rs:701-734 | on every run, by the marks in its log, each take came after its term's acquisition, a full settle and a full retry pause; every message held or set aside was pushed in the term, and every attempt count, in line, in hand or in a dead letter, is at most the takes of its key in the term |
| LocalQueueTerms.MoveKeepsCounted | crates/flatbed/src/local_queue.rs:701-778 | each move keeps the queue's own invariant and the letters' counts inside the term |
| LocalQueueTimeline.TakesSettleFirst | crates/flatbed/src/local_queue.rs:749-754 | every take lies at least the settle time after a move that started its serving, with no loss and no new serving between |
| LocalQueueTimeline.TakesWaitOutPauses | crates/flatbed/src/local_queue.rs:762-771 | every take lies at least the retry delay after any earlier retry of its serving that returned no letter |
| LocalQueueTimeline.LossesAreOnTheChannel | crates/flatbed/src/k8s.rs:145-156 | a loss is observed only after a flip to follower or the channel's end |
| LocalQueueTimeline.HoldingsAreOfTheTerm | crates/flatbed/src/local_queue.rs:701-734 | every message in line, in hand or set aside was sent by a move after the last loss, and every count is at most the takes of the key among the moves since |
| LocalQueueTurns.WhatServeCanDo | crates/flatbed/src/local_queue.rs:701-778 | after any run, by the moves before: acquiring, settling, taking, reporting and observing a loss are each possible exactly when they should be, a take as soon as settle and pause are over |
| LocalQueueTurns.WhatTheOthersCanDo | crates/flatbed/src/local_queue.rs:524-591 | time, producers and the supervisor are never held back, the channel not until it closes |
| LocalQueueTurns.MovesAreARunOfTheQueue | crates/flatbed/src/local_queue.rs:701-734 | across terms and re-runs the queue goes through a run of its lock sections, a loss clearing it and a re-run dropping what was in hand |
| Cursor.BigEndianRoundTrip | crates/flatbed/src/pagination.rs:276 | a length survives its big-endian bytes |
| Cursor.FeedTag | crates/flatbed/src/pagination.rs:253-261 | the updates of the MAC add up to the label and the length-prefixed parts |
| Cursor.LabelIsItsText | crates/flatbed/src/pagination.rs:77 | the label under the tag |
| Cursor.TagInputDeterminesEverything | crates/flatbed/src/pagination.rs:253-261 | the bytes under the tag determine method, path, caller and payload |
| Cursor.DecodeInvertsPayload | crates/flatbed/src/pagination.rs:305-321 | the payload's fields are read back as they were written |
| Cursor.DecodedIsLaidOut | crates/flatbed/src/pagination.rs:305-321 | a payload that decodes is version 1, a direction of 0 or 1, and a key and filters that are read |
| Cursor.LaidOutDecodes | crates/flatbed/src/pagination.rs:305-321 | and every payload so laid out decodes |
| Cursor.OpenInvertsMintUpToTheCap | crates/flatbed/src/pagination.rs:263-322 | a minted cursor opens under its binding to the same filters, direction and key iff it is at most 3072 bytes, and minting needs a key of at most 65535 bytes |
| Cursor.OpenedCarriesItsMac | crates/flatbed/src/pagination.rs:284-321 | a cursor opens iff it is at most 4096 characters that decode to a payload the codec reads followed by the first 16 bytes of the MAC over label, binding and that payload |
| Cursor.OtherBindingsNeedACollision | crates/flatbed/src/pagination.rs:300-303 | under another binding it opens iff the first 16 MAC bytes of two different inputs agree |
| Cursor.EditedPayloadsNeedACollision | crates/flatbed/src/pagination.rs:300-303 | an edited payload under an old tag is let through iff the first 16 MAC bytes of the two inputs, which differ, agree |
| Pager.ServePage | crates/flatbed/src/pagination.rs:175-242 | the truncating, reversing and minting of `page` is the page the walks are proved about |
| Pager.ReverseInPlace | crates/flatbed/src/pagination.rs:222-224 | the rows are reversed in place |
| Pager.EffectiveSizeIsCapped | crates/flatbed/src/pagination.rs:244-251 | none asked for is the default, and nothing passes the maximum |
| Pager.RefusedCursors | crates/flatbed/src/pagination.rs:194-206 | a cursor beside filters and a cursor that does not open are each refused under their own code and nothing else is; an empty cursor is a first page |
| Pager.PageReportsWhatWasApplied | crates/flatbed/src/pagination.rs:194-251 | one query is made, for the capped size and a row more, under the request's or the cursor's filters; the page reports that size and those filters and holds at most that many items, and a failing query is the page's failure |
| Pager.AfterIsSuffix | crates/flatbed/src/pagination.rs:98-118 | in a list sorted by a strict total order the rows past a key are the list behind its row |
| Pager.BeforeIsPrefix | crates/flatbed/src/pagination.rs:98-118 | and the rows before a key are the list in front of it |
| Pager.FittingKeysReopen | crates/flatbed/src/pagination.rs:263-322 | cursors of keys that fit under the cap reopen in either direction |
| Pager.FirstPage | crates/flatbed/src/pagination.rs:194-241 | the first page shows the first rows, no previous cursor, and a next cursor iff rows remain, if and only if its size fits the list |
| Pager.NextPage | crates/flatbed/src/pagination.rs:194-241 | the cursor behind a row shows the rows after it, nearest first, if and only if the size fits them |
| Pager.PreviousPage | crates/flatbed/src/pagination.rs:194-241 | the cursor before a row shows the rows before it, in display order, if and only if the size fits them |
| Pager.NextCursorNeedsACountableSize | crates/flatbed/src/pagination.rs:216-221 | a first page's next cursor is right iff the effective size is neither 0 nor the largest, or the list fits the page |
| Pager.ZeroSizeIsADeadEnd | crates/flatbed/src/pagination.rs:216-232 | an effective size of 0 behind any cursor gives no rows and no cursor, whichever way it turns |
| Pager.WalkShowsItsSpan | crates/flatbed/src/pagination.rs:194-241 | any walk of turns that fit, page size changing at will, can turn exactly where rows lie and shows exactly the rows counted |
| Pager.WalksGoWrongAtAMisfit | crates/flatbed/src/pagination.rs:194-241 | a walk shows the rows counted on every page iff every turn's size fits the rows beyond it |
| Pager.AnyWalkOfARoute | crates/flatbed/src/pagination.rs:175-242 | the same through real cursors of a real route over a static sorted list |
| Pager.FixedSizeWalkOfARoute | crates/flatbed/src/pagination.rs:175-242 | at one size any walk of a route's real cursors goes on exactly while a chunk lies that way, and shows chunk i, nexts minus previouses: those rows, a previous cursor iff i > 0, a next one iff (i+1)·s < n; the empty list included |
| Pager.ReadingOnYieldsTheList | crates/flatbed/src/pagination.rs:175-242 | reading a route on from its first page by next alone yields the whole list, each row once and in order, and stops |
| Pager.NextVisitsEveryRowOnce | crates/flatbed/src/pagination.rs:194-241 | from any page shown, following next alone shows every remaining row once, in order, and stops |
| PagerKeys.ForwardTurn | crates/flatbed/src/pagination.rs:194-241 | a next cursor is answered iff it fits under the cap and the page it leads to can mint its own, and then shows the rows after it |
| PagerKeys.BackwardTurn | crates/flatbed/src/pagination.rs:194-241 | the same for a previous cursor |
| PagerKeys.WalksGoOnIffTheirKeysHold | crates/flatbed/src/pagination.rs:175-322 | over a list with keys of any size a walk goes on iff rows lie that way, its cursor fits and the next page's cursors can be minted, and shows exactly the rows counted |
| FlagBits.EncodeLoop | crates/flatbed_build/src/ts_codec.rs:294-296 | the OR over the names |
| FlagBits.DecodeInvertsEncode | crates/flatbed_build/src/ts_codec.rs:282-304 | decoding encoded flags gives them in schema order without repeats and never throws |
| FlagBits.DecodeThrowsOnUnnamedBits | crates/flatbed_build/src/ts_codec.rs:297-302 | decoding throws iff a bit has no name |
| FlagBits.OneFlagAlone | crates/flatbed_build/src/ts_codec.rs:132-138 | the mask of one declared flag decodes to that flag's name alone |
| TableCodec.ReadInvertsWrite | crates/flatbed_build/src/ts_codec.rs:579-601 | an integer in range survives its width, signed or not |
| TableCodec.RangesOfTheTypes | crates/flatbed_build/src/ts_codec.rs:579-601 | the ranges of the eight integer types |
| TableCodec.BuildVector | crates/flatbed_build/src/ts_codec.rs:425-458 | elements added back to front stand in order |
| TableCodec.FieldsLand | crates/flatbed_build/src/ts_codec.rs:344-368 | a field's slots hold what it wrote, whatever the other fields write |
| TableCodec.LeftOutIsTheDefault | crates/flatbed_build/src/ts_codec.rs:122-161 | a scalar left out as default decodes to the value that was passed, number or bigint alike |
| TableCodec.AbsentIsTyped | crates/flatbed_build/src/ts_codec.rs:122-161 | a field that is absent decodes to a value of its declared type, unless it is a plain enum 8 bytes wide |
| TableCodec.UnionsWriteTheirTag | crates/flatbed_build/src/ts_codec.rs:306-326 | a union's member is of its first arm of the name, whose tag goes into the slot before its own |
| TableCodec.UnknownTagsAreAbsent | crates/flatbed_build/src/ts_codec.rs:306-326 | a union decodes as absent without one of its slots or with a tag the schema lacks |
| TableCodec.UnionsAreReadByTag | crates/flatbed_build/src/ts_codec.rs:306-326 | any other entry, whoever wrote it, decodes to the arm of its tag around the table, or throws with it |
| TableCodec.IntDefaults | crates/flatbed_build/src/ts_codec.rs:151-159 | an integer field with the literal n as default, or 0 with none, decodes to n when absent and is left out iff it is n, a number or a bigint by its width |
| TableCodec.EnumDefaults | crates/flatbed_build/src/ts_codec.rs:142-149 | an enum field's default is the value of the first variant of the declared name |
| TableCodec.BoolDefaults | crates/flatbed_build/src/ts_codec.rs:138-153 | a bool field's default is the declared one, false without |
| TableCodec.FlagDefaults | crates/flatbed_build/src/ts_codec.rs:131-138 | a flags field's default is the declared flag alone, none without |
| TableCodec.UnionRoundTrip | crates/flatbed_build/src/ts_codec.rs:306-326 | a union's discriminator and value, two slots apart by one, come back as the variant and its value, iff the value holds no member of an 8-byte plain enum |
| TableCodec.VectorRoundTrip | crates/flatbed_build/src/ts_codec.rs:425-458 | a vector comes back in order, iff its elements hold no such member |
| TableCodec.FieldRoundTrip | crates/flatbed_build/src/ts_codec.rs:370-421 | every kind of field decodes from its own slots to its value, iff that holds no such member |
| TableCodec.ReadBackIsCanonical | crates/flatbed_build/src/ts_codec.rs:492-562 | what a value comes back as is what it should iff it holds no member of an 8-byte plain enum |
| TableCodec.TableRoundTrip | crates/flatbed_build/src/ts_codec.rs:344-562 | for any schema with distinct slots, decoding an encoded table, through nested tables, vectors, unions and flags, gives the value back iff no member of an 8-byte plain enum is in it; such a member, and only that, comes back as a bigint |
| TableCodec.WideEnumDoesNotComeBack | crates/flatbed_build/src/ts_codec.rs:124-146 | the schema `enum E: ulong { A } table T { e: E; }`: every number comes back as a bigint |
| TableCodec.AbsentWideEnumIsABigInt | crates/flatbed_build/src/ts_codec.rs:528-534 | and so does a member that is absent |
| TableCodec.EverySlotIsAllocated | crates/flatbed_build/src/ts_codec.rs:364-367 | every slot written is below the `startObject` count, which is no larger than needed |
| Readiness.Registry.AddGate | crates/flatbed/src/readiness.rs:62-71 | counts and then pushes the gate, not ready |
| Readiness.Registry.SetReady | crates/flatbed/src/readiness.rs:129-138 | swaps the flag and moves the counter only on a change |
| Readiness.CounterAgreesWithRegistry | crates/flatbed/src/readiness.rs:62-90 | under any interleaving the counter is the unready gates, early registrations and moves still owed, modulo the word |
| Readiness.BlockedOnNamesTheUnready | crates/flatbed/src/readiness.rs:84-90 | the list names exactly the gates that are not ready |
| Readiness.QuietProbeTellsTheTruth | crates/flatbed/src/readiness.rs:78-90 | with no call in flight the probe is ready iff nothing is blocking |
| Readiness.OneWriterNeverWraps | crates/flatbed/src/readiness.rs:129-138 | with one writer per gate the counter is exact and between zero and the number of gates |
| Readiness.WrapsIffCallsOverlap | crates/flatbed/src/readiness.rs:129-138 | from any quiet state with a gate, at most k calls in flight per gate keep the true count from falling below zero iff k ≤ 1 |
| Readiness.TwoWritersWrap | crates/flatbed/src/readiness.rs:129-138 | from any such state, two writers on a gate reach the wrapped word |
| Readiness.TwoWritersCanWrap | crates/flatbed/src/readiness.rs:129-138 | its shortest instance, from the start: seven moves on one gate |
| RestartPolicy.DelayBounds | crates/flatbed/src/supervisor.rs:128-141 | the delay is the doubling ramp, never under the floor nor over the cap |
| RestartPolicy.DelayDoubles | crates/flatbed/src/supervisor.rs:136-141 | the first delay is the floor, each next one twice the last under the cap, for 32 attempts |
| RestartPolicy.JitterBounds | crates/flatbed/src/supervisor.rs:408-417 | the sleep lies between half and all of the delay, up to millisecond truncation |
| RestartPolicy.EscalationIsExact | crates/flatbed/src/supervisor.rs:324-331 | the count passes the bound m iff there are m+1 exits and the last m runs were rapid |
| RestartPolicy.Supervise | crates/flatbed/src/supervisor.rs:304-357 | the loud path at the first exit the rule names and a restart after every earlier one, each with its sleep, on either outcome |
| SupervisorHealth.MoveKeepsTruth | crates/flatbed/src/supervisor.rs:279-398 | each write of each supervisor keeps health, states and shutdown in agreement |
| SupervisorHealth.HealthTellsTheTruth | crates/flatbed/src/supervisor.rs:279-398 | after any interleaving the process is unhealthy iff a worker failed, up to the one write between; a plain `Ok(())` without a policy never starts shutdown |
| SupervisorHealth.FailureIsForever | crates/flatbed/src/supervisor.rs:388-398 | neither failure, nor ill health, nor shutdown reverts |
| SupervisorExits.ExitWithoutPolicyIsLoud | crates/flatbed/src/supervisor.rs:319-398 | an exit without a policy looked at outside shutdown leads, whatever the others do between, to exactly two writes after `Ok(())` and three after anything else: failed, unhealthy, and shutdown signalled by this worker iff the exit is not `Ok(())` |
| SupervisorExits.SpentPolicyIsLoud | crates/flatbed/src/supervisor.rs:329-340 | with a spent policy any exit leads to all three |
| SupervisorExits.UnspentPolicyRunsAgain | crates/flatbed/src/supervisor.rs:342-357 | with restarts left it leads through the backing-off state to another run, unless a shutdown ends the pause; the worker is not failed on the way and signals nothing |
| SupervisorExits.PanickingCheckIsLoud | crates/flatbed/src/supervisor.rs:285-298 | a panicking `enabled` check leads to failed, unhealthy and shutdown |
| SupervisorExits.ExitInShutdownIsQuiet | crates/flatbed/src/supervisor.rs:311-317 | an exit looked at in a shutdown ends the supervisor and leaves states and health alone |
| SupervisorExits.DisabledIsLeftAlone | crates/flatbed/src/supervisor.rs:287-294 | a rejected worker is recorded as disabled and never moves again |
| SupervisorExits.EnabledRuns | crates/flatbed/src/supervisor.rs:300-309 | an enabled worker's next moves are to begin and to end or be cancelled |
| SupervisorExits.CancelledSaysNothing | crates/flatbed/src/supervisor.rs:306-309 | a cancelled run ends its supervisor, stays shown as running and signals nothing |
| SupervisorExits.ShutdownFromOutside | crates/flatbed/src/supervisor.rs:300-317 | the process can be told to shut down at any time, which alone changes no state and no health |
| SupervisorExits.StatesAreTheLastWrites | crates/flatbed/src/supervisor.rs:186-192 | after any run the state map shows of a worker what its own moves last wrote |
| SupervisorExits.OneRunInShutdown | crates/flatbed/src/supervisor.rs:304-317 | over any run a worker begins at most one run while shutdown is signalled |
| Subjects.JoinInvertsSplit | crates/flatbed_macros/src/nats_route.rs:67 | a subject is its tokens joined |
| Subjects.SplitInvertsJoin | crates/flatbed_macros/src/nats_route.rs:111-113 | tokens without a dot survive joining |
| Subjects.ParseSubject | crates/flatbed_macros/src/nats_route.rs:59-116 | a pattern is accepted iff no token is at fault, otherwise the first fault is the error; accepted, each capture is a wildcard in the wire subject and listed with its index |
| Subjects.AcceptedPatterns | crates/flatbed_macros/src/nats_route.rs:59-116 | no token is at fault iff each is free of braces, wildcards, white space and control characters, or is a name of ASCII letters, digits and underscores in braces that no earlier token is |
| Subjects.FaultsAreTold | crates/flatbed_macros/src/nats_route.rs:67-107 | which error each faulty token gets |
| Subjects.FirstFaultIsOne | crates/flatbed_macros/src/nats_route.rs:67-107 | the fault reported is unique |
| Subjects.OverlapIsSharedSubject | crates/flatbed/src/nats_route.rs:208-216 | two wire subjects overlap iff some concrete subject matches both |
| Subjects.FindConflictFinds | crates/flatbed/src/nats_route.rs:218-231 | a conflict names the first overlapping pair, and there is none iff no pair overlaps |
| Subjects.RoutingIsUnambiguous | crates/flatbed/src/nats_route.rs:218-231 | no conflict iff no concrete subject reaches two routes |
| Subjects.WireOfAPattern | crates/flatbed_macros/src/nats_route.rs:59-116 | an accepted pattern's wire subject has only concrete tokens and wildcards, one per declared token |
| Subjects.SubjectsOfAPattern | crates/flatbed_macros/src/nats_route.rs:59-116 | a subject reaches an accepted pattern iff it has as many tokens and the literal ones are equal |
| Subjects.FillInvertsExtract | crates/flatbed/src/nats_route.rs:392-405 | filling captured values into the pattern reproduces any matching subject, and exactly the declared names are captured |
| Headers.SetHeader | crates/flatbed/src/nats_route.rs:341-353 | sets one flattened value under the lower-cased name and touches no other; a name that is none changes nothing |
| Headers.NamesAreReadInLowerCase | crates/flatbed/src/nats_route.rs:341-366 | a name is read iff it is made of an HTTP token's characters in either case, and then in lower case |
| Headers.CaseDoesNotMatter | crates/flatbed/src/nats_route.rs:341-366 | texts that differ in the case of ASCII letters only are read as one name |
| Headers.FlattenedIsAValue | crates/flatbed/src/nats_route.rs:338-346 | a flattened text can always be carried, and is readable iff it has nothing above U+009F |
| Headers.ToNatsHeaders | crates/flatbed/src/nats_route.rs:377-386 | the readable values go out under their names, in order |
| Headers.FromNatsHeaders | crates/flatbed/src/nats_route.rs:358-375 | names come in lower case; what is no name or no value is skipped |
| Headers.ReceivedValues | crates/flatbed/src/nats_route.rs:358-375 | a name comes to hold exactly the values that can be carried of entries whose name reads so |
| Headers.WireKeepsReadable | crates/flatbed/src/nats_route.rs:358-386 | both conversions together keep, under each name, exactly the readable values in order |
| Replies.ReplyErr | crates/flatbed/src/nats_route.rs:295-328 | under each name an error reply carries the framework's value or else the error's own |
| Replies.ReplyOk | crates/flatbed/src/nats_route.rs:243-275 | a success carries no error header whatever the handler set; an unserializable JSON body becomes a SERIALIZATION_ERROR reply |
| Replies.ReadReply | crates/flatbed/src/nats_request.rs:234-243 | a reply is a rejection iff it has a readable code |
| Replies.Rejection | crates/flatbed/src/nats_request.rs:354-376 | the error rebuilt from the headers, without the framework's five |
| Replies.RejectionInvertsReplyErr | crates/flatbed/src/nats_request.rs:354-376 | an error sent and read back is a rejection iff its code flattens to readable text, and then status, code, message and own readable headers come back, an empty code as "ERROR" |
| Replies.PrintableErrorsComeBackWhole | crates/flatbed/src/nats_request.rs:354-376 | a printable code and message come back unchanged |
| Replies.SuccessIsNeverARejection | crates/flatbed/src/nats_route.rs:267-275 | no success reply is read as a rejection |
| Replies.SuccessComesBack | crates/flatbed/src/nats_route.rs:243-275 | the requester reads a success's content type and id, and the handler's readable headers under every name but the five |
| Replies.ErrorsSayTheirEncoding | crates/flatbed/src/nats_route.rs:295-328 | and an error's |
| Replies.UnserializableIsInternal | crates/flatbed/src/nats_route.rs:243-265 | a body that cannot be serialized is read as a 500 SERIALIZATION_ERROR |
| Replies.UnreadableCodeLooksLikeSuccess | crates/flatbed/src/nats_route.rs:377-386 | an error code that is not: the reply is read as a success |
| Replies.StatusRoundTrip | crates/flatbed/src/nats_request.rs:355-357 | a status survives its three digits |
| Replies.OtherTextsAreInternalErrors | crates/flatbed/src/nats_request.rs:355-357 | anything else is read as 500 |
| Replies.RequestHeaders | crates/flatbed/src/nats_request.rs:300-309 | the encoding's content type replaces the caller's, a readable request id is kept |
| Replies.ResponderReadsTheEncoding | crates/flatbed/src/nats_route.rs:70-75 | the responder reads the encoding the request was made in, whatever the caller set |
| Replies.ResponderReadsTheId | crates/flatbed/src/nats_route.rs:412-416 | the responder reads the caller's id, or the generated one |
| Connect.BackoffStaysOnTheRamp | crates/flatbed/src/nats_connect.rs:403-417 | a backoff is at least half the ramp and under the whole of it |
| Connect.BackoffDrawsFromTheWindow | crates/flatbed/src/nats_connect.rs:403-417 | some entropy gives each delay from half the ramp up to twice that half, as far as 64 bits reach, and none gives another |
| Connect.RampDoubles | crates/flatbed/src/nats_connect.rs:403-406 | the ramp starts at the lower backoff and doubles under the upper one, for 17 attempts |
| Connect.ConnectWithRetry | crates/flatbed/src/nats_connect.rs:243-298 | whatever each attempt does the loop returns no later than the deadline; it gives up only when the next attempt would start at or past it, counts its attempts and reports the most recent error |
| Connect.AttemptsAreTheirDials | crates/flatbed/src/nats_connect.rs:257-270 | an attempt times out iff its dial outlasts the attempt timeout or the deadline, and otherwise ends as its dial does |
| Connect.SourceIsTheLastRefusal | crates/flatbed/src/nats_connect.rs:295 | the reported source is the last attempt's that finished with an error, absent iff none did |
| Connect.RunsAreSpacedUnderTheDeadline | crates/flatbed/src/nats_connect.rs:273-277 | (attempts − 1) · ⌊min/2⌋ is under the deadline |
| Connect.LoopEndsIffItBacksOff | crates/flatbed/src/nats_connect.rs:243-298 | the attempts are bounded iff there is no time or the settings back off at all |
| Comments.StripComments | crates/flatbed_build/src/source_order.rs:72-121 | the nested loops output what the four-mode machine keeps |
| Comments.NewlinesAreKept | crates/flatbed_build/src/source_order.rs:68-71 | newlines are kept, except one that ends the text inside an open block comment |
| Comments.StrippingTwiceIsStrippingOnce | crates/flatbed_build/src/source_order.rs:72-121 | no comment is left: stripping is idempotent |
| Comments.BlockCommentsLeaveBreaks | crates/flatbed_build/src/source_order.rs:83-97 | a closed block comment leaves its line breaks only |
| Comments.PartsAreStripped | crates/flatbed_build/src/source_order.rs:68-121 | a text written as plain characters, lone slashes, string literals with escapes and comments in a row is stripped to its plain parts and literals, a line break for a line comment and the line breaks of a block comment |
| DeclOrder.BoundaryMeansWholeWord | crates/flatbed_build/src/source_order.rs:46-66 | the boundary test finds exactly the whole words |
| DeclOrder.SourceDeclOrder | crates/flatbed_build/src/source_order.rs:18-44 | the index-driven scan returns what the lexer's tokens declare, in order |
| DeclOrder.DeclaredAreTheDeclaredPositions | crates/flatbed_build/src/source_order.rs:18-44 | the names returned are, each once and in order, exactly the words behind a keyword that is not itself read as a name |
| DeclOrder.NamesFollowKeywords | crates/flatbed_build/src/source_order.rs:18-44 | every name returned follows a keyword across white space only |
| DeclOrder.HeadDeclarationIsRead | crates/flatbed_build/src/source_order.rs:25-37 | a keyword, white space and a word give that name first, and reading goes on behind it |
| DeclStrings.ScanIgnoresStringsIff | crates/flatbed_build/src/source_order.rs:18-44 | the scan returns what a reader that passes string literals over returns iff no string holds a word read as a name |
| DeclStrings.LiteralsClose | crates/flatbed_build/src/source_order.rs:98-116 | where that reader takes a literal to end: at the first quote not behind a backslash, as the stripping does |
| DeclStrings.KeywordIsInTheString | crates/flatbed_build/src/source_order.rs:25-37 | such a word follows a keyword that is in a string too |
| DeclStrings.AStringCanDeclare | crates/flatbed_build/src/source_order.rs:68-71 | a string that holds `table X` declares X |

## Left out

- LocalQueueTerms.TermsAreIsolated: speaks of the watch values the executor observes; a flip seen by nobody is not a loss.
- LocalQueueSystem.System: `handle` and `dead_letter` are the environment's choices; running the hook and its timeout are not steps of the model.
- Pager.AnyWalkOfARoute: the list does not change during a walk and `fetch` honours its contract; concurrent edits are not modelled.
- Cursor.Lawful: JSON of keys, FlatBuffers of filters, HMAC-SHA256 and base64url are functions with round-trip and length laws, not their algorithms; comparing tags in constant time is not modelled.
- Pager.Request: `page` and `page_size` stand beside the filters instead of being taken out of and put back into the message.
- TableCodec.EncodeValue: a number given to an 8-byte add leaves its bytes, the most the builder can do with it; if the builder throws on it, the value does not come back either. Numbers are exact.
- TableCodec.TableRoundTrip: floats, byte offsets, alignment and the root functions are not modelled; a table on the wire is a tree of slots.
- FlagBits.Encode: unsigned integers are sets of bit positions, so the conversion between `number` and `bigint` of narrow flags is the identity.
- Connect.ConnectWithRetry: the attempt count is unbounded, durations do not overflow, reading and parsing credentials and the gate update are left out.
- SupervisorHealth.HealthTellsTheTruth: whether a policy is spent is the environment's choice there; `RestartPolicy` decides it.
- Headers.FromNatsHeaders: the client library's own parsing and trimming of header lines, and the length limit of a header name, are not modelled.
- Replies.ReplyOk: serialization is given as its outcome; payload decoding on the requester's side is left out.
- Subjects.ExtractParams: the map is built from the captured tokens as values; routes reach it with the indices `ParseSubject` recorded.
- Clocks, entropy, request ids and `SystemTime` are parameters; poisoned locks, logging, telemetry and error reporting are left out.
- Kubernetes reconcilers, the KV worker, the JetStream consumer, HTTP serving, OpenAPI emission and the string emission of the generators are thin wrappers over code not modelled here.
