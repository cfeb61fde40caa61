# A verified model of the proxy's core

The repository is a game proxy: it sits between a client and a server, decodes and rewrites the packets
that pass, runs timers and scripts, and hands events to listeners. This project models five of its
components in Dafny and proves what they promise.

**The task scheduler** (`SchedulerShared`, `SchedulerSystem`, `SchedulerInvariant`, `SchedulerRuns`,
`SchedulerEffects`, `SchedulerCalls`, `SchedulerProgress`, `SchedulerClass`). One timer thread, any number of workers and any number of callers
share a priority queue, a first-in-first-out ready queue, three id sets, a tag index and a counter behind
one mutex. `SchedulerShared` says what each critical section does to the shared data; `SchedulerSystem`
makes every critical section one atomic step of a state machine, with a program counter for each thread;
`SchedulerClass` is the imperative class, each of whose methods is proved to do what `SchedulerShared`
says. The state machine also keeps a history (the task behind each id, where it is, and the first id of
its periodic chain) that no step reads. An inductive invariant ties every container to the history; the
properties of whole runs follow from it: what never happens (`SchedulerRuns`), what each call of a caller
brings about (`SchedulerEffects`, `SchedulerCalls`), and that due and ready tasks are served
(`SchedulerProgress`). Waits may end at any moment their condition allows, so spurious
wake-ups are covered. The code's own behaviour is kept: a worker does not look at the cancelled marks
when it takes a task, so a task cancelled in the ready queue still runs once (and no more).

**The seed sequence and the hashes** (`Words`, `SeedProgram`, `SeedSequence`, `SeedPasses`, `SeedSeqFe`,
`Hashing`, `Sampling`). `seed_seq_fe` mixes 32-bit words in place by nested loops; `param` runs them backwards with
modular inverses. The loops are seen as straight-line programs of three reversible operations, whose
reversal is proved once. `SeedSeqFe` holds the loops over arrays, proved against those programs;
`SeedPasses` says what each pass does to each element, and works an example through.
`Words` has the arithmetic modulo 2^32, `Hashing` the two hashes, `Sampling` the selection by a stable
partition, which may visit the elements in any order.

**The wire codec** (`Bytes`, `ByteStreams`, `Repetition`, `Variants`, `TextParsing`, `Packets`,
`Redirect`, `ScriptBridge`). A printer and a parser at three nested levels: little-endian bytes, typed variant lists,
delimited text; then packet framing; then the packet that redirects a client to another server, which the
proxy rewrites. Every round trip is stated with the exact condition under which it holds, and the
written form also byte by byte. `ScriptBridge` is the second reader of packets, the one that scripts use,
which goes by the size in the header.

**The script scheduler** (`ScriptTasks`, `ScriptTiming`, `ScriptNested`, `ScriptScheduler`). A tick scheduler whose
callbacks may schedule and cancel while an update is going on. What a callback does is an input of the
update: a list of calls for each task, and whether it returns `false`. Runs are arbitrary lists of calls
and updates.

**The event dispatcher** (`Dispatching`). A list of listeners kept in priority order by insertion, proved
equal to the stable sort of the live registrations after every run.

`Wrappers` and `Sequences` are small helpers.

Where a promised property has a condition, the condition is part of the theorem and is exact:
`ParamRecoversIff` (the number of mix rounds), `GenerateSeparates` (the number of words requested),
`Variants.RoundTrip` (1 to 255 variants with strings below 2^32 bytes), `TextParsing.RoundTrip` (which
entries the text form can carry), `Packets.MessageRoundTrip` (texts of at most 65535 bytes, because the
length is cut to 16 bits), `Redirect.EndToEnd` (which packets survive the whole way), `SeesCall` (whose
variants scripts see) and `SeesGame` (which game packets scripts take for variants).

## Model

| member | source | states |
|---|---|---|
| SchedulerInvariant.InitialInv | src/core/scheduler.cpp:7-25 | the invariant holds when the scheduler starts, whatever the number of threads |
| SchedulerInvariant.StepKeepsInv | src/core/scheduler.cpp:63-437 | every step of every thread and caller keeps the global invariant: the pending ids are the disjoint union of those queued and ready, the running ids are those held by workers and as many as the active count, cancelled ids are pending or running, the tag index has exactly the live ids of each tag and no empty set, ids are unique and below the counter, at most one occurrence of a chain is not over |
| SchedulerRuns.RunInv | src/core/scheduler.cpp:63-437 | the invariant holds in every state of every run |
| SchedulerRuns.OnePlace | src/core/scheduler.cpp:315-385 | a drawn id is in the queue, in the ready queue or with a worker exactly when its one place says so |
| SchedulerRuns.RankGrows | src/core/scheduler.cpp:315-437 | over any run a task only moves on: drawn, queued, ready, held, over |
| SchedulerRuns.StartsOnce | src/core/scheduler.cpp:369-378 | no id is started twice in any run |
| SchedulerRuns.StartsDue | src/core/scheduler.cpp:315-338 | in no run does an occurrence start before its `execute_at` |
| SchedulerRuns.ChainsDoNotOverlap | src/core/scheduler.cpp:402-428 | a periodic chain never has two live occurrences, with any number of workers |
| SchedulerRuns.ChainSpacing | src/core/scheduler.cpp:387-428 | in every run an occurrence starts no sooner than `interval` after an earlier occurrence of its chain finished |
| SchedulerRuns.DispatchOrder | src/core/scheduler.hpp:90-97 | of two tasks ever queued together, the strictly later by time and priority starts only after the other has started or been dropped |
| SchedulerRuns.EventPlaces | src/core/scheduler.cpp:63-437 | each event of a task finds it in the one place from which the event can happen |
| SchedulerRuns.NewIds | src/core/scheduler.cpp:58-61 | ids appear one at a time, drawn by a caller or by a worker that renews a periodic task, and are the counter's value |
| SchedulerEffects.CancellableIsWaiting | src/core/scheduler.cpp:169-183 | in every state of every run `cancel` accepts exactly the ids that are queued or ready, so not a running one |
| SchedulerEffects.FinishRenews | src/core/scheduler.cpp:402-428 | in every run, once an occurrence has finished, its chain has another one that is not over exactly when the task is periodic, is not cancelled and is not told to stop |
| SchedulerEffects.RenewalIsQueued | src/core/scheduler.cpp:402-428 | in every run that occurrence is the only one, has the next id, is queued one interval later and is otherwise the same task |
| SchedulerEffects.IdleByFinishOrDrop | src/core/scheduler.cpp:277-437 | in every run, the step by which nothing is pending or running any more is the finish of a worker, which notifies `wait_all`, or else the drop of a cancelled task by the timer |
| SchedulerEffects.IdleUnnotified | src/core/scheduler.cpp:277-335 | the second kind happens: a run of five steps ends with the drop, which meets the condition of `wait_all` and does not notify it |
| SchedulerEffects.HitMarks | src/core/scheduler.cpp:169-216 | a `cancel`, `cancel_by_tag` or `cancel_all` marks exactly the queued and ready tasks that it is about, and changes no place |
| SchedulerEffects.CancelEffect | src/core/scheduler.cpp:169-216 | after a cancelling call of any of the three kinds that finds its task queued or ready, in every continuation: never pending again; if it was queued it never starts; if it was ready it can only take its one run; its chain gets no further occurrence |
| SchedulerEffects.CancelledOn | src/core/scheduler.cpp:185-216 | the same for any id that carries the cancelled mark |
| SchedulerEffects.PendingByTag | src/core/scheduler.cpp:243-263 | in every reachable state the ids counted under a tag are exactly the pending ids whose task has that tag |
| SchedulerEffects.CancelByTagEffect | src/core/scheduler.cpp:185-207 | in every reachable state, after `cancel_by_tag` nothing is pending under the tag, other tags are unchanged, and nothing else stops being pending |
| SchedulerEffects.CancelAllEffect | src/core/scheduler.cpp:209-216 | after `cancel_all` nothing is pending |
| SchedulerEffects.StopEffect | src/core/scheduler.cpp:32-56 | after `stop` each worker starts at most one more callback, the timer pops at most one more task, and the threads take at most as many steps as a measure allows |
| SchedulerEffects.MeasureStep | src/core/scheduler.cpp:285-367 | once stopped, every step of a thread lowers the measure and no other step raises it |
| SchedulerEffects.MeasureZero | src/core/scheduler.cpp:285-367 | the measure is zero exactly when all threads have left their loops |
| SchedulerEffects.ThreadsWindDown | src/core/scheduler.cpp:285-437 | the number of thread steps after `stop`, with the measure left, is at most the measure at the start |
| SchedulerEffects.NotStuck | src/core/scheduler.cpp:287-367 | after `stop`, if callbacks return, a thread that has not left its loop has a next step |
| SchedulerEffects.LateSchedule | src/core/scheduler.cpp:79-83 | a `schedule` that locks after `stop` changes none of the shared data |
| SchedulerCalls.DrawnIsRequested | src/core/scheduler.cpp:70-78 | in every run, from the moment an id is drawn for a request, the task behind it has the request's tag, priority, interval, callback and flag and is due the delay after the clock was read |
| SchedulerCalls.StartsAfterDelay | src/core/scheduler.cpp:70-97 | in no run does a scheduled task start before its delay has passed, and what starts is the callback that was given |
| SchedulerCalls.LockAccepts | src/core/scheduler.cpp:79-97 | in every run a `schedule` that gets the lock queues its task exactly when there has been no `stop`, and otherwise refuses it |
| SchedulerCalls.CallersNeverWait | src/core/scheduler.cpp:156-275 | no call of a caller waits for anything but the lock |
| SchedulerCalls.RunningUntilStop | src/core/scheduler.cpp:32-40 | in every run the scheduler is running exactly as long as there has been no `stop` |
| SchedulerCalls.PausedUntilResume | src/core/scheduler.cpp:265-275 | in every run it is paused exactly when there has been a `pause` and no `resume` since |
| SchedulerCalls.PauseHoldsQueue | src/core/scheduler.cpp:298-308 | from a `pause` to the next `resume` no task leaves the queue |
| SchedulerCalls.MarkedIff | src/core/scheduler.cpp:169-216 | in every run the cancelled marks are exactly those of the tasks that are queued, ready or running and that some cancelling call found queued or ready |
| SchedulerCalls.PendingIff | src/core/scheduler.cpp:218-222 | `is_pending` holds exactly for the queued and ready tasks that no cancelling call has found |
| SchedulerCalls.DroppedWasCancelled | src/core/scheduler.cpp:321-335 | in every run only tasks that a cancelling call has found are dropped |
| SchedulerCalls.CountedByTag | src/core/scheduler.cpp:185-207 | `cancel_by_tag` counts the queued and ready tasks with the tag, also those cancelled before |
| SchedulerCalls.FinishGoesOn | src/core/scheduler.cpp:402-428 | in every run a chain goes on after an occurrence exactly when it is periodic, no cancelling call has found that occurrence, and its flag, if any, is set |
| SchedulerProgress.InitialThreads | src/core/scheduler.cpp:7-25 | there are as many workers as asked for and at least one, and every thread begins at its loop |
| SchedulerProgress.ThreadsRun | src/core/scheduler.cpp:285-367 | as long as the scheduler runs no thread leaves its loop |
| SchedulerProgress.TimerServes | src/core/scheduler.cpp:315-338 | in every run, when the timer has the lock, is not paused and something is due, a task that no other comes strictly before leaves the queue |
| SchedulerProgress.TimerCanStep | src/core/scheduler.cpp:285-347 | while something is due the timer of a running, unpaused scheduler has a next step |
| SchedulerProgress.DueIsServed | src/core/scheduler.cpp:285-347 | in every run, while nothing stops or pauses it, the timer lets a task leave the queue by its third step once something is due |
| SchedulerProgress.TakeServes | src/core/scheduler.cpp:349-378 | a waiting worker takes the task that has been ready the longest, also after `stop` |
| SchedulerProgress.WorkerCanStep | src/core/scheduler.cpp:349-437 | while something is ready no worker of a running scheduler is stuck |
| SchedulerProgress.ReadyIsServed | src/core/scheduler.cpp:349-437 | in every run, while something is ready, every worker starts a task by its third step |
| SchedulerClass.Scheduler.constructor | src/core/scheduler.cpp:7-11 | the initial shared data |
| SchedulerClass.Scheduler.GenerateId | src/core/scheduler.cpp:58-61 | returns the counter and moves it on, changing nothing else |
| SchedulerClass.Scheduler.InsertLocked | src/core/scheduler.cpp:79-97 | the locked part of scheduling, refused with id 0 once stopped |
| SchedulerClass.Scheduler.SchedulePeriodic | src/core/scheduler.cpp:113-154 | the whole new state; an empty callback draws no id and changes nothing |
| SchedulerClass.Scheduler.Cancel | src/core/scheduler.cpp:169-183 | true exactly for a pending id, which it marks; false, also for a running task, changes nothing |
| SchedulerClass.Scheduler.CancelByTag | src/core/scheduler.cpp:185-207 | marks exactly the pending ids under the tag and returns their number |
| SchedulerClass.Scheduler.CancelAll | src/core/scheduler.cpp:209-216 | marks exactly the pending ids |
| SchedulerClass.Scheduler.IsPending | src/core/scheduler.cpp:218-222 | pending and not cancelled |
| SchedulerClass.Scheduler.PendingCount | src/core/scheduler.cpp:230-241 | the number of ids for which `is_pending` holds |
| SchedulerClass.Scheduler.PendingCountByTag | src/core/scheduler.cpp:243-263 | the number of pending, uncancelled ids under the tag |
| SchedulerClass.Scheduler.StopLocked | src/core/scheduler.cpp:32-40 | clears the running flag and tells whether it was set |
| SchedulerClass.Scheduler.Top | src/core/scheduler.cpp:315 | a queued task that no other comes strictly before |
| SchedulerClass.Scheduler.TimerSection | src/core/scheduler.cpp:315-339 | a due top task goes to the ready queue, or away with its books when cancelled; one that is not due stays |
| SchedulerClass.Scheduler.WorkerTakes | src/core/scheduler.cpp:369-374 | takes the front of the ready queue without looking at the cancelled marks |
| SchedulerClass.Scheduler.WorkerFinishes | src/core/scheduler.cpp:387-430 | the whole new state: books cleared and, unless cancelled or told to stop, the next occurrence queued |
| Words.FastExp | src/utils/randutils.hpp:233-245 | repeated squaring gives the power, for every base and every 32-bit exponent |
| Words.OddInverse | src/utils/randutils.hpp:336-337 | an odd word to the power 2^32 - 1 is its inverse modulo 2^32 |
| Words.OddOrder | src/utils/randutils.hpp:336-337 | an odd word to the power 2^32 is one |
| Words.PowTruncated | src/utils/randutils.hpp:342 | cutting an exponent to 32 bits does not change the power of an odd word |
| SeedProgram.DoAllKeepsOdd | src/utils/randutils.hpp:302-309 | the running hash constant stays odd along the mixing loops, so that every division of `param` is exact |
| SeedProgram.UndoDo | src/utils/randutils.hpp:345-366 | one backward step after the forward step gives the store and the constant back |
| SeedProgram.DoUndo | src/utils/randutils.hpp:345-366 | one forward step after the backward step gives them back |
| SeedProgram.UndoAllDoAll | src/utils/randutils.hpp:339-368 | reversed nested loops undo the loops, of any length |
| SeedProgram.DoAllUndoAll | src/utils/randutils.hpp:339-368 | and the other way round |
| SeedSequence.StoreOpsLength | src/utils/randutils.hpp:341-342 | loading and cross-mixing hash exactly count * count times, the exponent from which `param` starts |
| SeedSequence.ParamOfSeed | src/utils/randutils.hpp:280-370 | for every count and every number of rounds from one, `param` after seeding with at most count words returns them and zeros after them |
| SeedSequence.SeedOfParam | src/utils/randutils.hpp:280-370 | for every state, seeding with the output of `param` reproduces it |
| SeedSequence.ParamRecoversIff | src/utils/randutils.hpp:211-213 | `param` recovers every seed exactly when `mix_rounds` is at least one |
| SeedSequence.SeedOneWord | src/utils/randutils.hpp:198-200 | changing exactly one seed word, of any number of words, changes the state |
| SeedSequence.SeedReaches | src/utils/randutils.hpp:178-184 | with the words beyond the store fixed, every state is reached |
| SeedSequence.SeedReachesOnce | src/utils/randutils.hpp:178-184 | and by one choice of the first count words only |
| SeedSequence.GeneratedInjective | src/utils/randutils.hpp:186-196 | equal outputs of at least count words come from equal states |
| SeedSequence.GenerateSeparates | src/utils/randutils.hpp:186-196 | `generate` tells all states apart exactly when at least count words are requested |
| SeedSequence.OneWordChangesOutput | src/utils/randutils.hpp:198-200 | seed data that differ in one word give different outputs of at least count words |
| SeedPasses.LoadPass | src/utils/randutils.hpp:316-322 | the loading pass hashes every element in its place, each with the next constant |
| SeedPasses.CrossPass | src/utils/randutils.hpp:323-326 | a cross-mixing pass leaves its source element as it is and mixes it, hashed anew each time, into every other element |
| SeedPasses.AbsorbPass | src/utils/randutils.hpp:327-329 | a pass for a word beyond the store mixes it, hashed anew each time, into every element |
| SeedPasses.ExampleMix | src/utils/randutils.hpp:298-330 | the store of two words that 1, 2, 3 and 4 give, which fixes the constants, the hash and the mix |
| SeedPasses.ExampleOutput | src/utils/randutils.hpp:373-393 | the first three words that it generates |
| SeedPasses.OutputTells | src/utils/randutils.hpp:373-393 | two states give the same word at a position, of any number requested, exactly when they agree in the element that is read there, counted around |
| SeedSeqFeModule.SeedSeqFe.MixEntropy | src/utils/randutils.hpp:298-330 | the in-place loops compute the mix of the words, also when the input is the store itself |
| SeedSeqFeModule.SeedSeqFe.LoadPhase | src/utils/randutils.hpp:316-322 | the loading loop, padding with hashed zeros |
| SeedSeqFeModule.SeedSeqFe.CrossPhase | src/utils/randutils.hpp:323-326 | the cross-mixing loops over distinct elements |
| SeedSeqFeModule.SeedSeqFe.AbsorbPhase | src/utils/randutils.hpp:327-329 | the loops over the words beyond the store |
| SeedSeqFeModule.SeedSeqFe.Seed | src/utils/randutils.hpp:280-288 | mixing, then stirring once for each further round |
| SeedSeqFeModule.SeedSeqFe.Stir | src/utils/randutils.hpp:290-294 | mixing the store into itself |
| SeedSeqFeModule.SeedSeqFe.Param | src/utils/randutils.hpp:332-370 | writes the words whose recovery is proved above and leaves the store alone |
| SeedSeqFeModule.SeedSeqFe.Generate | src/utils/randutils.hpp:373-393 | fills the destination from the store read cyclically and leaves the store alone |
| SeedSeqFeModule.UncrossPhase | src/utils/randutils.hpp:344-361 | the reversed cross-mixing loops undo the cross-mixing |
| SeedSeqFeModule.UnloadPhase | src/utils/randutils.hpp:362-367 | the reversed loading loop undoes the loading |
| Hashing.FnvReversible | src/utils/hash.hpp:10-13 | each FNV-1a step is a bijection of the hash and tells all bytes apart, whether or not `char` is signed |
| Hashing.ProtonReversible | src/utils/hash.hpp:30-32 | the same for the Proton hash |
| Hashing.FnvOneByte | src/utils/hash.hpp:8-16 | inputs of equal length that differ in one byte never collide |
| Hashing.ProtonOneByte | src/utils/hash.hpp:18-36 | the same for the Proton hash |
| Hashing.FnvKnownValues | src/utils/hash.hpp:8-16 | the FNV-1a values of nothing, of "a", and of a byte that is negative as a signed `char`, which fix the start value, the prime and the sign extension |
| Hashing.ProtonKnownValues | src/utils/hash.hpp:18-36 | the values of nothing, of "a" and of "ab", which fix the start value and the step |
| Hashing.Digits | src/utils/hash.hpp:31 | a word is 2^27 times its first five bits, and the other 27 |
| Hashing.RotateIsExact | src/utils/hash.hpp:31 | the rotation of a word is 32 times its last 27 bits, and its first five |
| Hashing.CommonEnding | src/utils/hash.hpp:8-36 | inputs with a common ending collide exactly when what comes before it does |
| Hashing.Fnv1a32 | src/utils/hash.hpp:8-16 | the loop computes the FNV-1a fold from any starting value |
| Hashing.ProtonHash | src/utils/hash.hpp:18-36 | the loop computes the Proton fold; a null pointer gives the start value, a length of zero the C string |
| Sampling.SelectsExactly | src/utils/randutils.hpp:785-796 | for all draws within range, and for every order in which the elements are visited, exactly min(max(to_go, 0), length) of them are selected |
| Sampling.EverySelectionIsPossible | src/utils/randutils.hpp:785-796 | every selection of that many elements is made by some draws, in every order of visiting |
| Sampling.FlagsAt | src/utils/randutils.hpp:785-796 | a call selects its element exactly when its draw is below the number still wanted |
| Sampling.SampledAt | src/utils/randutils.hpp:785-796 | the place of every element in the result: the number of selected ones before it, or after all selected ones the number of others before it |
| Sampling.SampledIsAPermutation | src/utils/randutils.hpp:785-796 | nothing is lost or added |
| Sampling.Sample | src/utils/randutils.hpp:779-797 | for every order in which the partition calls its predicate, the range becomes the selected elements and then the others, each in their order; the end of the selected ones is returned |
| Bytes.LittleEndian | src/utils/byte_stream.hpp:47-51 | integers are written with the least significant byte first |
| Bytes.ShortText | src/utils/byte_stream.hpp:107-121 | a string behind its length reads back when all of it is there; otherwise the read fails with the length consumed |
| ByteStreams.ByteStream.WriteData | src/utils/byte_stream.hpp:31-36 | appends exactly the bytes |
| ByteStreams.ByteStream.ReadData | src/utils/byte_stream.hpp:74-83 | all the bytes and moves past them, or nothing |
| ByteStreams.ByteStream.WriteText16 | src/utils/byte_stream.hpp:58-65 | the size cut to 16 bits, if asked for, and the text |
| ByteStreams.ByteStream.ReadString16 | src/utils/byte_stream.hpp:107-121 | a given length, or for zero the one in the stream; when too few bytes follow, that length has been consumed and the string is what it was |
| ByteStreams.ByteStream.ReadString32 | src/utils/byte_stream.hpp:107-121 | the same with a 32-bit length |
| Repetition.ReadOfWritten | src/packet/packet_variant.hpp:62-147 | a list written item by item reads back exactly when each of its items does |
| Repetition.FirstChanged | src/packet/packet_variant.hpp:62-147 | the first item that does not survive comes back in its place, whatever follows |
| Repetition.CountedRoundTrip | src/packet/packet_variant.hpp:57-147 | the same with a one-byte count sent ahead: exactly for 1 to 255 such items |
| Variants.BodyIsExact | src/packet/packet_variant.hpp:11-91 | the type byte of each kind of variant and the words, or the length and the bytes, that follow it |
| Variants.EncodeIsExact | src/packet/packet_variant.hpp:55-94 | where each item begins on the wire, and its index byte, type byte and body there |
| Variants.DecodeOfCutShort | src/packet/packet_variant.hpp:106-147 | an unknown type appends and consumes nothing; missing words are read as zeros and consume nothing |
| Variants.RoundTrip | src/packet/packet_variant.hpp:55-150 | whatever bytes follow, `deserialize` succeeds on `serialize` and gives the same list exactly for 1 to 255 variants with strings below 2^32 bytes |
| Variants.Normalised | src/packet/packet_variant.hpp:55-150 | for any bytes that yield a variant, one more trip over the wire changes nothing |
| Variants.LongTextIsCut | src/packet/packet_variant.hpp:71-73 | the first string of 2^32 bytes or more comes back in its place, shorter by at least 2^32 bytes |
| Variants.RecoversShort | src/packet/packet_variant.hpp:65-91 | one variant survives exactly when its string, if it is one, is below 2^32 bytes |
| Variants.PacketVariant.Serialize | src/packet/packet_variant.hpp:55-94 | the loop writes the wire form |
| Variants.PacketVariant.Deserialize | src/packet/packet_variant.hpp:96-150 | the loop appends what the wire form holds; it fails, appending nothing, exactly without a positive count |
| TextParsing.SplitPieces | src/utils/text_parse.hpp:56-65 | the pieces have no delimiter and lie in the text |
| TextParsing.JoinOfSplit | src/utils/text_parse.hpp:56-65 | joined again they are the text |
| TextParsing.SplitJoined | src/utils/text_parse.hpp:56-65 | splitting undoes joining for pieces without the delimiter |
| TextParsing.TokensWithoutEmpty | src/utils/text_parse.hpp:49-68 | without empty tokens, the tokens of a text are those of its parts, a part without a delimiter being one |
| TextParsing.TokensAfterLeading | src/utils/text_parse.hpp:49-68 | with empty tokens, leading delimiters are passed over and what follows is split at every delimiter |
| TextParsing.ParsedByLine | src/utils/text_parse.hpp:22-47 | parsing two texts with a line break in between gives the entries of both |
| TextParsing.ParsedOfLine | src/utils/text_parse.hpp:22-47 | a line gives one entry, its first token and the others, or none with fewer than two tokens |
| TextParsing.RawByEntry | src/utils/text_parse.hpp:209-237 | printing two lists gives both texts with a line break in between unless the second begins with an empty key; one entry is its prefix, its key, and each value after a delimiter |
| TextParsing.GetOfFirst | src/utils/text_parse.hpp:70-89 | a lookup gives the value of the first entry with the key, wherever it stands, and nothing when that entry has too few |
| TextParsing.ParseIsGood | src/utils/text_parse.hpp:22-47 | parsing any text gives entries with a key, a value, and no delimiter or line break inside |
| TextParsing.RoundTrip | src/utils/text_parse.hpp:22-237 | printing and parsing gives the entries back exactly when they are of that form |
| TextParsing.Normalised | src/utils/text_parse.hpp:22-237 | for every text and every delimiter byte, parsing what was printed from a parse changes nothing |
| TextParsing.NormalisedIsNoLonger | src/utils/text_parse.hpp:209-237 | printing what was parsed is never longer than what was read |
| TextParsing.TextParse.Tokenize | src/utils/text_parse.hpp:49-68 | drops leading empty tokens, or all empty ones |
| TextParsing.TextParse.Parse | src/utils/text_parse.hpp:22-47 | replaces the data by the entries of the lines with at least two tokens |
| TextParsing.TextParse.GetRaw | src/utils/text_parse.hpp:209-237 | the text form, with no line break before an empty key |
| TextParsing.TextParse.GetText | src/utils/text_parse.hpp:70-89 | the value of the first entry with the key, whatever comes before it, or nothing without such an entry or value |
| TextParsing.TextParse.Add | src/utils/text_parse.hpp:134-137 | appends the entry, whether or not its key is new |
| Packets.ExtendIsExact | src/packet/packet_helper.hpp:106-110 | of the header only the extended bit and the data size change, the size being cut to 32 bits |
| Packets.HeaderLayout | src/packet/packet_types.hpp:91-154 | the places of the type, the flags and the data size follow from the sizes of the packed fields |
| Packets.SentCall | src/packet/packet_helper.hpp:113-127 | the header that a printed call is read with has the call type, the extended bit, the size of the variant data cut to 32 bits, and for the rest the bytes that were given |
| Packets.SentGame | src/packet/packet_helper.hpp:99-111 | the header that a printed game payload is read with is the given one without extra bytes, and otherwise has the extended bit and their number as well |
| Packets.FrameIsExact | src/packet/packet_helper.hpp:91-163 | a frame is the type as a little-endian word, the header if there is one, the payload, and a zero byte |
| Packets.RefusedIff | src/packet/packet_decoder.cpp:16-138 | a packet is refused exactly when its type is missing or unknown, or it is a call without a positive count |
| Packets.HelloIsKept | src/packet/packet_decoder.cpp:25-34 | a greeting gives a text payload without entries |
| Packets.TextOfPacket | src/packet/packet_decoder.cpp:35-38 | the text of any packet of at most 65540 bytes: all but the type and the last byte |
| Packets.ShortGame | src/packet/packet_decoder.cpp:58-72 | a game packet without room for a header is kept under a header of zeros |
| Packets.TextOfFrame | src/packet/packet_decoder.cpp:37-38 | the decoder reads the text back up to 65535 bytes, and a shorter one beyond |
| Packets.MessageRoundTrip | src/packet/packet_decoder.cpp:35-57 | a text payload of type 2 or 3, with the trailing zero byte, is recovered exactly when its entries survive printing and the text has at most 65535 bytes |
| Packets.GameRoundTrip | src/packet/packet_decoder.cpp:58-134 | whatever follows, a game payload is recovered, extra bytes first, exactly when its type is not that of a call |
| Packets.ParseOfCall | src/packet/packet_decoder.cpp:94-117 | a printed call is read as a call with whatever its variants decode to, and as nothing when the count is taken for zero |
| Packets.CallRoundTrip | src/packet/packet_decoder.cpp:94-117 | whatever follows, a call is recovered exactly with 1 to 255 variants with strings below 2^32 bytes |
| Packets.Serialize | src/packet/packet_helper.hpp:91-130 | the stream writes build the wire form of each kind of payload |
| Packets.Decode | src/packet/packet_decoder.cpp:16-138 | the stream reads take it apart, unknown types and short packets giving nothing |
| Redirect.FieldsAreClean | src/packet/game/server.hpp:48-56 | whatever is read, the door and the token have no delimiter and no line break |
| Redirect.EndToEnd | src/packet/game/server.hpp:30-78 | written, serialized, framed, decoded and read, any packet arrives as a call, and is the same exactly when door and token have no delimiter or line break, the strings are below 2^32 bytes, and the address can be carried: no delimiter, and non-empty without a line break unless door and token are empty |
| Redirect.ArrivesIff | src/packet/game/server.hpp:30-78 | the same for the variants alone |
| Redirect.RewritePreserves | src/core/handlers/connection_handler.cpp:88-96 | for any packet that was read, the frame that is sent for the rewrite to a delimiter-free, non-empty address and a new port arrives with these and with every other field unchanged, exactly as far as the strings fit their length prefixes |
| Redirect.NameIsExact | src/packet/game/server.hpp:69 | the name of the call |
| Redirect.FieldsAreExact | src/packet/game/server.hpp:44-60 | which variant each field comes from, the cuts of the port and the login mode, the address as the text before the first delimiter, and what missing or mistyped variants give |
| Redirect.OnSendToServer.Read | src/packet/game/server.hpp:30-61 | the fields; with fewer than five variants only the variants and the header are kept |
| Redirect.OnSendToServer.Write | src/packet/game/server.hpp:63-78 | the call under the packet's header with its seven variants, one by one |
| Redirect.Rewrite | src/core/handlers/connection_handler.cpp:91-95 | the frame that is sent for the copy with the proxy's address and port |
| ScriptBridge.SeesText | src/scripting/script_event_bridge.cpp:63-76 | a script sees the entries of a framed text payload exactly when they survive printing, however long the text is |
| ScriptBridge.SeesCall | src/scripting/script_event_bridge.cpp:77-91 | whatever bytes follow, a script sees the variants of a serialized call exactly when there are 1 to 255, their strings are below 2^32 bytes, and so is all of them together |
| ScriptBridge.SeesGame | src/scripting/script_event_bridge.cpp:77-96 | a game payload with extra bytes is seen as its header exactly when the first of them is zero; otherwise scripts are given variants |
| ScriptBridge.NothingIff | src/scripting/script_event_bridge.cpp:45-101 | a script is given nothing exactly without a type, for a type that is neither text nor game packet, for an empty text, or without room for a header |
| ScriptBridge.HeaderIsSeen | src/scripting/script_event_bridge.cpp:77-96 | it is given the header when that announces no extra data, or more than follows |
| ScriptBridge.ParsePacket | src/scripting/script_event_bridge.cpp:45-101 | the stream reads give that view; no bytes, no type or another type give nothing |
| ScriptTiming.FiresAsAlone | src/scripting/script_scheduler.cpp:83-133 | over any run a task that nothing cancels fires exactly when it would by itself, whatever other tasks and their callbacks do |
| ScriptTiming.OneShotFires | src/scripting/script_scheduler.cpp:19-36 | an uncancelled one-shot fires exactly in the first update by which its delay has passed, and in no other |
| ScriptTiming.PeriodicFires | src/scripting/script_scheduler.cpp:38-58 | for an uncancelled periodic task with first delay d, interval i > 0 and ticks of at most e, the n-th firing comes at a cumulative time t with d + (n-1)i <= t < d + (n-1)i + n*e |
| ScriptTiming.PeriodicGoesOn | src/scripting/script_scheduler.cpp:96-104 | it does fire for the n-th time once enough time has passed |
| ScriptTiming.UpdateRunsInOrder | src/scripting/script_scheduler.cpp:89-128 | an update runs due tasks only, each at most once, in the order in which they were scheduled |
| ScriptTiming.UpdateFires | src/scripting/script_scheduler.cpp:89-128 | a live task fires in an update exactly when its time has come and no callback that ran before its turn cancelled it |
| ScriptTiming.UpdateTracks | src/scripting/script_scheduler.cpp:83-133 | one update of a task that no callback cancels: whether it fires and what is left of it |
| ScriptTiming.UpdateSurvivors | src/scripting/script_scheduler.cpp:107-132 | a live task is gone after an update exactly when a callback that ran cancelled it, or it was due and is a one-shot or its callback returned `false` |
| ScriptTiming.UpdateCancels | src/scripting/script_scheduler.cpp:107-132 | a task that some callback of an update cancels is gone after it |
| ScriptTiming.CancelIsFinal | src/scripting/script_scheduler.cpp:60-81 | after a cancel that finds its task, it never fires in any continuation |
| ScriptTiming.NeverAgain | src/scripting/script_scheduler.cpp:125-132 | a task that is cancelled or over never fires again |
| ScriptTiming.AfterKeepsOrder | src/scripting/script_scheduler.cpp:14-17 | in every run the ids in the list grow and are below the counter |
| ScriptNested.UpdateCountsCalls | src/scripting/script_scheduler.cpp:19-58 | an update raises the counter by the number of scheduling calls that the callbacks that ran made |
| ScriptNested.UpdateSchedules | src/scripting/script_scheduler.cpp:83-133 | the task that the n-th of these calls asks for is in the list after the update, with the n-th new id and its whole first delay, exactly unless a later call of the update cancels it; it does not fire in that update |
| ScriptNested.UpdateAddsOnly | src/scripting/script_scheduler.cpp:83-133 | what is in the list after an update is not cancelled and was there before or was asked for in it |
| ScriptNested.NestedOneShotFires | src/scripting/script_scheduler.cpp:19-36 | a one-shot that a callback schedules fires exactly in the first later update by which its delay has passed |
| ScriptNested.NestedPeriodicFires | src/scripting/script_scheduler.cpp:38-58 | a periodic task that a callback schedules keeps the times of `PeriodicFires`, from the end of that update on |
| ScriptNested.NestedPeriodicGoesOn | src/scripting/script_scheduler.cpp:96-104 | and fires for the n-th time once enough time has passed |
| ScriptSchedulers.ScriptScheduler.Schedule | src/scripting/script_scheduler.cpp:19-36 | appends the one-shot, other records untouched |
| ScriptSchedulers.ScriptScheduler.SchedulePeriodic | src/scripting/script_scheduler.cpp:38-58 | appends the periodic task; without a positive first delay it waits one interval |
| ScriptSchedulers.ScriptScheduler.Cancel | src/scripting/script_scheduler.cpp:60-72 | marks the record with the id and says whether there was one |
| ScriptSchedulers.ScriptScheduler.CancelAll | src/scripting/script_scheduler.cpp:74-81 | marks every record |
| ScriptSchedulers.ScriptScheduler.Update | src/scripting/script_scheduler.cpp:83-133 | the three loops over shared records, with callbacks that change the list, do what the update of the state does, and run the same tasks |
| ScriptSchedulers.ScriptScheduler.IsPending | src/scripting/script_scheduler.cpp:135-143 | some record has the id and is not cancelled |
| ScriptSchedulers.ScriptScheduler.PendingCount | src/scripting/script_scheduler.cpp:145-151 | the number of records that are not cancelled |
| Dispatching.DispatchOrder | src/event/event.hpp:160-216 | after any run of appends, prepends and removals the call order is the stable sort of the live registrations, and a dispatch calls the prefix that ends at the first canceller, or at the first listener for an event that is cancelled already |
| Dispatching.StableSortIsUnique | src/event/event.hpp:176-191 | the stable sort is determined by being sorted and keeping each priority's registrations in order |
| Dispatching.InsertSorts | src/event/event.hpp:180-190 | inserting before the first larger priority keeps the stable sort |
| Dispatching.WithoutSorts | src/event/event.hpp:198-206 | removing keeps the stable sort |
| Dispatching.LiveIff | src/event/event.hpp:176-206 | the live registrations of an event are exactly those that were made and not removed, in the order they came in, each with the handle that was given out |
| Dispatching.WithoutAt | src/event/event.hpp:198-206 | removing cuts out the one listener with the handle and leaves the others in place |
| Dispatching.RunAgrees | src/event/event.hpp:176-206 | the maintained order and the registrations agree along every run |
| Dispatching.InvokedIsExact | src/event/event.hpp:160-163 | no listener before the last one called cancels, and if any is left out the last one called does, or the event was cancelled before |
| Dispatching.EventListeners.AppendListener | src/event/event.hpp:176-191 | the new entry and the new listener both go before the first entry with a larger priority, or to the end |
| Dispatching.EventListeners.PrependListener | src/event/event.hpp:193-196 | the same at priority -128 |
| Dispatching.EventListeners.RemoveListener | src/event/event.hpp:198-206 | both lists lose the one with the handle, wherever it stands, and nothing else; says whether there was one |
| Dispatching.EventListeners.Dispatch | src/event/event.hpp:208-216 | calls the listeners in order: none but the last one called cancels, and when any is left out the last one called does; for an event that is cancelled already, exactly the first |

## Left out

- Scheduler waits: the thread that waits in `wait_all` is not a thread of the state machine; what is stated is which steps meet its condition and which of them notify it. No upper bound on lateness is claimed, because a newly scheduled earlier task does not cut the timer's wait short (src/core/scheduler.cpp:341-344).
- Scheduler threads: memory ordering of the atomics, thread creation and joining, `is_running` and exceptions beyond being swallowed. Callbacks are opaque; they act through the callers' steps.
- `std::priority_queue`: any task that no other comes strictly before may be the top; the heap is not modelled.
- Wrap-around of 64-bit ids and of clock values: ids and times are unbounded.
- `seed_seq_fe` for word types other than `std::uint32_t`; input words are taken to be 32-bit words.
- `auto_seeded`, the distribution wrappers and the other range helpers of `randutils.hpp`; `sample` takes its draws and the order of its predicate's calls as inputs.
- `proton_file` and the user-defined literals of `hash.hpp`.
- `ByteStream::skip`, `backtrack`, the vector overloads and the stream operators; the host is taken to be little-endian, as the packed structures that are copied to the wire require.
- Floats are carried as their 32-bit patterns.
- TextParsing.TextParse.Tokenize: delimiters are single bytes, as every C++ caller in the repository passes; a script may pass a longer one, which can overlap the text on either side of it and has no model.
- TextParsing.TextParse.Parse: the same.
- TextParsing.TextParse.GetRaw: the same.
- Numeric conversions in `TextParse::get` and `add`, and `set`, `remove`, `contains` and `get_key_values`.
- Packets.Decode: stops at the payload; whether the registry then creates a packet for it, or refuses, has no model.
- Packet classes other than `OnSendToServer`, and logging.
- The `raw_data` pass-through of generic packets.
- Script callbacks are lists of calls with a result; Lua and its errors are not modelled (an error counts as not returning `false`).
- The event dispatcher's base class comes from a library that is not part of this model: inserting before a handle, appending, removing by handle and asking after each call whether to go on are taken as its documentation has them. Handles are used with the event type that gave them out.
- EventListeners.Dispatch: listeners that change the list during the dispatch are left out; what the base class then does is up to that library.
- EventListeners: the lists of one event type; the map from event types to lists is in the run-level `Table` only.
- ENet, HTTPS, DNS, zlib, configuration, world, tile and item parsing: input and output, libraries, or readers without a printer.
