# Models of the Vireo core

Vireo runs LabVIEW programs. These Dafny modules model five parts of its C++ core and prove what each of them is for.
Code that works in place is modelled in place: buffers are arrays, clumps are linked objects on the heap, the event oracle
and the comparison snippets are objects with fields, and loops keep their invariants. Beside such code stands a definition
that does not follow it (a grammar with a meaning, a state machine, a set, an order, multi-indices, a calendar), the methods
are proved against it, and the theorems are about it.

1. Pattern matching (`PatternGrammar`, `PatternCompiler`, `PatternMatcher`, `PatternLaws`). The grammar that the source documents gets a
   relational meaning: how often each item is repeated to spell a stretch of text. `MakePat` writes exactly the code of the
   syntax tree into its buffer, opcode patches and length bytes included. `AMatch`, which interprets the bytes, finds the
   greedy match of the meaning or none when there is none. `MatchPat` finds the leftmost one.
   `PatternLaws` says in plain terms what the meaning is: which bytes classes list, how repetitions unfold, and that a
   quoted text matches itself.
2. The clump scheduler (`Scheduler`, `SchedulerTheorems`, `SchedulerSteps`, `ClumpQueue`, `ExecutionContext`). `Scheduler` is a state machine
   over abstract lists with an invariant that every step keeps. `SchedulerTheorems` draws the consequences over whole runs:
   one place for each clump, no lost wake-ups, paired calls and returns, fairness, freedom from deadlock. `SchedulerSteps`
   says what each step does, and that a clump runs at its last trigger.
   `ExecutionContext` is the code on linked clumps; each of its instructions and its slice loop makes steps of the state
   machine, and the asserts in the code hold, except that a program can make that of `Trigger` fail, and a root clump that
   needs several triggers that of `PressGo`.
3. The event oracle (`EventState`, `EventInvariant`, `EventTheorems`, `EventRegistration`,
   `EventReregistration`, `EventWakeUps`, `EventOracle`). Registration lists are
   sets, broadcasts are exact, queues are reused safely, and over whole runs events are delivered in order and once.
   `EventOracle` has the loops.
4. Aggregates and arrays (`AggregateOrder`, `AggregateCompare`; `FlatIndex`, `BoxCopy`, `RowShift`, `ArrayND`, `NDArray`,
   `Interleave`). Comparison through snippets and accumulators is a total lexicographic order, and restores every operand.
   Insertion and deletion along a dimension move overlapping rows without losing an element, and undo each other.
5. The calendar (`Calendar`). The bounded search for a year always finds it, and dates come back from their seconds.

`dafny verify dfyconfig.toml` checks all of it.

Where the code and its documentation, or a plain reading of its purpose, part, the model follows the code, and a theorem
says exactly when they part:

- A quantifier right after a leading `^` stands for itself according to the grammar (source/core/MatchPat.cpp:73-80), but
  it is or'ed into the anchor's opcode, and such a pattern matches nothing (`QuantifiedAnchorExactly`).
- The length of a class is kept in one byte, so a body of more than 254 bytes is not read back (`ClassLengthByte`), but as
  a shorter class and instructions (`LongClass`).
- Two inputs of an event registration for the same event and reference share one registration, and re-registering one of
  them removes it for both (`ReregistrationFaithful` for one input, `CallFaithful` for a whole call).
- A handled time-out counts as a handled event, so a structure can later sleep while an event waits
  (`SleepsOnEventExactly`, with a bound over whole runs in `SleepsWithin` and a run in `SleepsOnAnEvent`); a comment at
  source/core/Events.cpp:1076 asks for a related case to be handled.
- Inserting into an array without elements sets its size, but loses the inserted elements (`InsertionIntoNothingExactly`).
- A request to delete slices before the start of an array, or a negative number of them, asks for a deleted array with a
  negative dimension (`PortionExactly`, `PortionBelowZero`).
- Deleting from an array without elements leaves a separate output as it was (`DeletionFromNothing`), and a subset in place
  keeps no element (`InPlaceSubsetExactly`).
- For years up to 0 the code gives a year the length of the year before it (`YearLengthAgrees`), so on the last day of some
  of these years no month is found (`GetDate`).

## Model

| member | source | states |
|---|---|---|
| `PatternGrammar.SpellsStaysInside` | source/core/MatchPat.cpp:255-263 | a word of the pattern that starts at i ends at or after i and inside the text; nothing matches from beyond the end |
| `PatternGrammar.GreedyMatchUnique` | source/core/MatchPat.cpp:281-344 | of all ways to match at a position the greediest (lexicographically greatest repetition counts) fixes the end, so naming it determines the answer |
| `PatternGrammar.LexAtLeastAntisymmetric` | source/core/MatchPat.cpp:281-344 | two vectors of repetition counts that are each at least as greedy as the other are equal |
| `PatternGrammar.DenotesConcat` | source/core/MatchPat.cpp:73-85 | the meaning is compositional: the items xs + ys match from i to j exactly when xs match up to some m and ys go on from there |
| `PatternCompiler.ScanForBackslash` | source/core/MatchPat.cpp:34-66 | reads the byte an escape spells (one or two hex digits, a letter escape, any other byte, a lone final backslash) and moves past exactly its source |
| `PatternCompiler.LexBody` | source/core/MatchPat.cpp:176-182 | copies the body of a class with escapes resolved, up to the closing bracket or the end, behind what was already written |
| `PatternCompiler.PutClass` | source/core/MatchPat.cpp:175-184 | opcode, length byte (patched in afterwards) and body of a class are exactly the code of a class item |
| `PatternCompiler.PutAtom` | source/core/MatchPat.cpp:129-185 | each branch that emits an atom writes the code of the atom the grammar reads at that place, and consumes its source |
| `PatternCompiler.PatchOpcode` | source/core/MatchPat.cpp:139-159 | or'ing a quantifier into the last opcode, in place, turns the written program into that of the quantified item |
| `PatternCompiler.Settle` | source/core/MatchPat.cpp:126-127 | an atom that no quantifier follows is final: neither the bytes written nor the reading of the rest depend on lastP any more |
| `PatternCompiler.Literal` | source/core/MatchPat.cpp:139-159 | a quantifier character with nothing before it to repeat stands for itself, in the grammar and in the bytes |
| `PatternCompiler.WroteAtom` | source/core/MatchPat.cpp:116-186 | the loop invariant (bytes written, lastP, and what the rest of the pattern will add) is kept by an atom |
| `PatternCompiler.WroteQuant` | source/core/MatchPat.cpp:139-159 | the loop invariant is kept by a quantifier for the pending atom, and by one for the leading anchor |
| `PatternCompiler.WroteLiteral` | source/core/MatchPat.cpp:139-159 | the loop invariant is kept by a quantifier character that stands for itself |
| `PatternCompiler.WroteAll` | source/core/MatchPat.cpp:187-189 | at the end of the pattern the bytes and the final zero are the program |
| `PatternCompiler.MakePat` | source/core/MatchPat.cpp:96-190 | compiler: the in-place loop over buffer, write position and lastP produces the code of the syntax tree that the documented grammar assigns to the pattern |
| `PatternMatcher.InSet` | source/core/MatchPat.cpp:348-375 | the scan over a class text decides membership: ranges inside one lexical class, `^` complement over printable bytes, `~` complement over all |
| `PatternMatcher.DecodeStep` | source/core/MatchPat.cpp:259-337 | the byte program can be decoded: at an item boundary the opcode and operand of the next item stand, and behind them the rest |
| `PatternMatcher.OnceAnswers` | source/core/MatchPat.cpp:263-280 | an item matched once passes the greedy answer for the rest of the program on unchanged |
| `PatternMatcher.EosAnswers` | source/core/MatchPat.cpp:272-275 | `$` passes the answer on at the end of the text and fails elsewhere |
| `PatternMatcher.RepeatAnswers` | source/core/MatchPat.cpp:339-344 | the first success while counting repetitions down is the greedy match |
| `PatternMatcher.RepeatFails` | source/core/MatchPat.cpp:339-344 | when no count of repetitions leads to a match, nothing matches |
| `PatternMatcher.Span` | source/core/MatchPat.cpp:285-316 | the pointer loop stops after the longest run the repeated atom accepts |
| `PatternMatcher.AtomMatches` | source/core/MatchPat.cpp:323-334 | the one-byte test for `?` accepts exactly the bytes of the atom |
| `PatternMatcher.Extent` | source/core/MatchPat.cpp:281-334 | the limits of the star loop are exactly the viable repetitions, except that `.?` may start one past the end of the text |
| `PatternMatcher.StarLoop` | source/core/MatchPat.cpp:339-344 | trying the rest at x, x-1, ... gives the greedy answer of the whole, the step beyond the end included |
| `PatternMatcher.AMatch` | source/core/MatchPat.cpp:255-346 | interpreter correctness: it succeeds exactly when some text from s on belongs to the meaning of the items, and returns the end of the greedy match; a start beyond the end always fails |
| `PatternMatcher.EosIsLast` | source/core/MatchPat.cpp:160-165 | the compiler never emits a repeated `$` |
| `PatternMatcher.ProgramDecodes` | source/core/MatchPat.cpp:96-190 | when every class body fits its length byte, the compiled program behind the anchor byte decodes to the items of the pattern |
| `PatternMatcher.FirstCharacter` | source/core/MatchPat.cpp:217-223 | the fast path is sound: where the first plain character does not stand nothing can match |
| `PatternMatcher.Search` | source/core/MatchPat.cpp:207-231 | an unanchored search stops at the first position from the offset on where the language has a word, an anchored one looks at the offset only; -1 exactly when there is none; the fast path for a first plain character gives the same |
| `PatternMatcher.MatchPat` | source/core/MatchPat.cpp:201-253 | before + match + after is the text, and the match is the leftmost, greedy one |
| `PatternMatcher.MatchPattern` | source/core/MatchPat.cpp:381-412 | compiler and interpreter together: leftmost greedy match of the documented language for every pattern of single bytes whose classes fit, except a quantifier right after the anchor, for which nothing ever matches |
| `PatternMatcher.QuantifiedAnchorDiffers` | source/core/MatchPat.cpp:127-145 | `^*` is documented to match the text `*`, and does not |
| `PatternMatcher.QuantifiedAnchorExactly` | source/core/MatchPat.cpp:127-159 | with a quantifier after the anchor the answer "no match" is the documented one for every text exactly when some class that must appear lists nothing |
| `PatternMatcher.ClassLengthByte` | source/core/MatchPat.cpp:183-183 | the length byte of a class leads back to its body exactly when the body has at most 254 bytes |
| `PatternMatcher.LongClass` | source/core/MatchPat.cpp:175-184 | a class with a longer body is read as the class of the bytes that its length byte leaves it, followed by the rest of the body as instructions; when the length byte is 0 it has no class text |
| `PatternLaws.SpecialBytes` | source/core/MatchPat.cpp:73-84 | the special characters are those the grammar names |
| `PatternLaws.Kinds` | source/core/MatchPat.cpp:18-32 | the lexical classes that ranges are made of are the digits, the capitals and the small letters |
| `PatternLaws.Quantifiers` | source/core/MatchPat.cpp:76-78 | `*`, `+` and `?` are the quantifiers, and which is which |
| `PatternLaws.Escapes` | source/core/MatchPat.cpp:39-63 | what a backslash before each byte spells: control characters, a hexadecimal digit, else the byte itself |
| `PatternLaws.HexSpells` | source/core/MatchPat.cpp:42-49 | two hexadecimal digits behind a backslash spell every byte |
| `PatternLaws.Range` | source/core/MatchPat.cpp:361-370 | a range between two digits, two capitals or two small letters lists exactly the bytes from the first to the last; between others the three bytes stand for themselves |
| `PatternLaws.RangeAdds` | source/core/MatchPat.cpp:361-366 | a range at the front of a class adds exactly its bytes |
| `PatternLaws.Complements` | source/core/MatchPat.cpp:353-359 | `~` complements a class over all bytes, `^` over those from the blank up |
| `PatternLaws.ClassReads` | source/core/MatchPat.cpp:175-182 | a class reads up to its bracket |
| `PatternLaws.ClassParses` | source/core/MatchPat.cpp:126-184 | a class with a quantifier is one item |
| `PatternLaws.AtomsParse` | source/core/MatchPat.cpp:126-174 | what a plain byte, a dot and a dollar sign read as, alone and with a quantifier |
| `PatternLaws.SingleAtoms` | source/core/MatchPat.cpp:263-280 | a plain byte matches itself, a dot any byte, a dollar sign the end of the text |
| `PatternLaws.Repetitions` | source/core/MatchPat.cpp:76-78 | `a*` is nothing or `a` and `a*`, `a+` is `a` and `a*`, `a?` is nothing or `a` |
| `PatternLaws.TakesAll` | source/core/MatchPat.cpp:281-316 | a repetition that ends a pattern takes all the bytes it can |
| `PatternLaws.RangeMatches` | source/core/MatchPat.cpp:255-373 | a pattern such as `[a-z]+` matches exactly the nonempty stretches of bytes in the range |
| `PatternLaws.QuoteParses` | source/core/MatchPat.cpp:116-186 | quoting special bytes makes every text a pattern of plain characters |
| `PatternLaws.QuotedMatchesItself` | source/core/MatchPat.cpp:73-84 | a quoted text matches exactly itself |
| `PatternLaws.QuotedSearch` | source/core/MatchPat.cpp:201-253 | searching for a quoted text finds its first occurrence from the offset on, or says that there is none |
| `Scheduler.TriggerKeeps` | source/core/VirtualInstrument.cpp:156-168 | Trigger keeps the invariant: every clump in one place, counts zero exactly when triggered, lists and caller links consistent |
| `Scheduler.BlockKeeps` | source/core/VirtualInstrument.cpp:170-194 | joining a wait list, at its front or at its end, keeps the invariant |
| `Scheduler.CallKeeps` | source/core/ExecutionContext.cpp:199-227 | CallVI of a clump that is not active keeps the invariant, and its asserts (count 1, no caller) cannot fail |
| `Scheduler.ReturnKeeps` | source/core/ExecutionContext.cpp:54-71 | Done resuming the caller keeps the invariant |
| `Scheduler.DrainKeeps` | source/core/ExecutionContext.cpp:85-97 | Done queueing all waiters keeps the invariant |
| `Scheduler.ResetKeeps` | source/core/ExecutionContext.cpp:99-102 | Done resetting the count and the start of the code keeps the invariant |
| `Scheduler.FinishKeeps` | source/core/ExecutionContext.cpp:46-103 | the whole of Done keeps the invariant and leaves nothing running |
| `Scheduler.DispatchKeeps` | source/core/ExecutionContext.cpp:314-330 | taking the next clump off the run queue keeps the invariant |
| `Scheduler.RequeueKeeps` | source/core/ExecutionContext.cpp:379-409 | putting the running clump at the end of the run queue keeps the invariant |
| `Scheduler.WakeKeeps` | source/core/Synchronization.cpp:67-89 | queueing a clump that an observed object wakes keeps the invariant |
| `Scheduler.ExecuteKeeps` | source/core/ExecutionContext.cpp:337-413 | each instruction of the running clump keeps the invariant |
| `Scheduler.ReachesKeeps` | source/core/ExecutionContext.cpp:337-413 | the invariant holds over all runs, whatever is triggered or woken from outside and however slices end |
| `Scheduler.ReachableGood` | source/core/ExecutionContext.cpp:337-413 | every reachable state of a well-formed program satisfies the invariant |
| `Scheduler.ReachesTransitive` | source/core/ExecutionContext.cpp:337-413 | runs compose |
| `Scheduler.ReachableOnward` | source/core/ExecutionContext.cpp:337-413 | a run that starts in a reachable state ends in one, so whatever holds of reachable states holds after every call of ExecuteSlices |
| `SchedulerTheorems.OnePlace` | source/core/ExecutionContext.cpp:199-234 | in every reachable state a clump is in exactly one of: untriggered, running, the run queue (once), one wait list (once), caller of exactly one callee, asleep; its count is positive exactly when it is untriggered |
| `SchedulerTheorems.NoLostWakeUp` | source/core/ExecutionContext.cpp:185-196 | a clump on a wait list always waits for one that has not finished |
| `SchedulerTheorems.DoneReleases` | source/core/ExecutionContext.cpp:46-103 | Done makes every waiter runnable, resumes the caller just after its call with the results copied out, and leaves the finished clump idle with no caller, no waiters and a full count |
| `SchedulerTheorems.FinishEffect` | source/core/ExecutionContext.cpp:46-102 | the order Done queues clumps in: the caller first, then the waiters in list order |
| `SchedulerTheorems.CallsAndReturnsAlternate` | source/core/ExecutionContext.cpp:199-234 | over a whole run the copy-ins and copy-outs of a callee alternate, each return for the caller and instruction of the last call; never a second copy-in in between |
| `SchedulerTheorems.CallersAcyclic` | source/core/ExecutionContext.cpp:199-234 | caller links have no cycle |
| `SchedulerTheorems.MovesUp` | source/core/ExecutionContext.cpp:379-409 | with each action a queued clump moves up by one if the action dequeues and keeps its position if not, whatever is enqueued meanwhile |
| `SchedulerTheorems.Fairness` | source/core/ExecutionContext.cpp:379-409 | a clump at position k of the run queue runs after exactly k+1 dequeues, in every continuation of the run |
| `SchedulerTheorems.RotationKeepsRunnable` | source/core/ExecutionContext.cpp:379-409 | the end of a slice (rotation or time-out) changes no clump's chance to run |
| `SchedulerTheorems.BlameChain` | source/core/ExecutionContext.cpp:185-234 | when nothing can run, each blocked clump is blocked, through a chain of waits and calls, by a sleeper or by a clump that still lacks triggers |
| `SchedulerTheorems.NoDeadlock` | source/core/ExecutionContext.cpp:185-234 | with fire counts 1, no sleepers and an acyclic graph of waits and calls, a state with nothing running and nothing queued has every clump finished or not started |
| `SchedulerTheorems.SelfWaitDeadlocks` | source/core/ExecutionContext.cpp:185-196 | acyclicity is needed: a clump that waits for itself is stuck in a reachable state |
| `SchedulerSteps.CountStep` | source/core/VirtualInstrument.cpp:165-167 | each action takes one off the count of the clump it triggers, Done restores the count of the clump that finishes, and no other count changes |
| `SchedulerSteps.TriggersCounted` | source/core/VirtualInstrument.cpp:156-168 | over every run the triggers a clump has got since its last Done and those it still needs make its fire count |
| `SchedulerSteps.RunsAtLastTrigger` | source/core/VirtualInstrument.cpp:156-168 | over every run from the start a clump is idle exactly while it has got fewer triggers than its fire count since its last Done, and it never gets more |
| `SchedulerSteps.TriggerEffect` | source/core/VirtualInstrument.cpp:156-168 | a trigger that is not the last one only counts; the last one puts the clump at the end of the run queue; nothing else changes |
| `SchedulerSteps.WaitEffect` | source/core/ExecutionContext.cpp:185-196 | Wait goes on when the target has finished; otherwise the clump stops behind the instruction, first in the wait list, and the next queued clump runs |
| `SchedulerSteps.CallEffect` | source/core/ExecutionContext.cpp:199-234 | a call of an idle clump copies in, triggers it and leaves the caller at the call; a call of an active one waits at the call, last in the wait list |
| `SchedulerSteps.SleepEffect` | source/core/VirtualInstrument.cpp:229-246 | a clump that goes to sleep is in no list and goes on where the instruction says |
| `SchedulerSteps.WakeEffect` | source/core/Synchronization.cpp:67-89 | a clump that is woken goes to the end of the run queue, and nothing else changes |
| `SchedulerSteps.GoesOnWhereItStopped` | source/core/ExecutionContext.cpp:337-413 | no action moves a clump on in its code but its own instruction, and the Done of the clump it called |
| `SchedulerSteps.RotationEffect` | source/core/ExecutionContext.cpp:379-409 | the end of a slice puts the running clump behind all queued ones, and neither it nor the next dequeue moves any clump on |
| `ClumpQueue.VIClumpQueue.constructor` | source/core/Queue.cpp:12-16 | a new queue is empty |
| `ClumpQueue.VIClumpQueue.Enqueue` | source/core/Queue.cpp:19-37 | the intrusive list represents a sequence without duplicates, and enqueueing appends to it |
| `ClumpQueue.VIClumpQueue.Dequeue` | source/core/Queue.cpp:40-59 | dequeueing removes and unlinks the first element, or returns null on an empty queue |
| `ExecutionContext.EnqueueRepresents` | source/core/ExecutionContext.cpp:453-458 | relinking the last queued clump represents enqueueing in the abstract state, and disturbs no other list |
| `ExecutionContext.DequeueRepresents` | source/core/ExecutionContext.cpp:314-330 | unlinking the head represents taking the first clump, and disturbs no other list |
| `ExecutionContext.InsertRepresents` | source/core/VirtualInstrument.cpp:170-177 | two pointer writes represent joining a wait list at the front |
| `ExecutionContext.AppendRepresents` | source/core/VirtualInstrument.cpp:179-194 | one pointer write at the end of the walk represents joining a wait list at its end |
| `ExecutionContext.DrainByOne` | source/core/ExecutionContext.cpp:85-97 | queueing the disconnected waiters one by one is the single abstract step of draining the list |
| `ExecutionContext.ExecutionContext.constructor` | source/core/ExecutionContext.cpp:298-307 | a context for clumps that have not been triggered represents the start state |
| `ExecutionContext.ExecutionContext.EnqueueRunQueue` | source/core/ExecutionContext.cpp:453-458 | its asserts hold for a clump in no list, and it appends the clump to the run queue |
| `ExecutionContext.ExecutionContext.TriggerElt` | source/core/VirtualInstrument.cpp:156-168 | decrements the count and queues the clump at zero, on the heap as in the abstract state |
| `ExecutionContext.ExecutionContext.InsertIntoWaitList` | source/core/VirtualInstrument.cpp:170-177 | the heap represents the running clump at the front of the wait list |
| `ExecutionContext.ExecutionContext.AppendToWaitList` | source/core/VirtualInstrument.cpp:179-194 | the heap represents the running clump at the end of the wait list |
| `ExecutionContext.ExecutionContext.SuspendRunningQueueElt` | source/core/ExecutionContext.cpp:314-330 | saves the place of the running clump and resumes the next one at its saved place, or gives up the slice when there is none |
| `ExecutionContext.ExecutionContext.Trigger` | source/core/ExecutionContext.cpp:122-126 | the instruction, when its assert holds, is the abstract step |
| `ExecutionContext.ExecutionContext.Wait` | source/core/ExecutionContext.cpp:185-196 | waits unless the target has finished; the abstract step |
| `ExecutionContext.ExecutionContext.CallVI` | source/core/ExecutionContext.cpp:199-234 | calls an idle target or queues up for a busy one; the abstract step |
| `ExecutionContext.ExecutionContext.QueueWaiters` | source/core/ExecutionContext.cpp:89-97 | the loop over a disconnected chain, which is read while its links are cleared, queues exactly the waiters in order |
| `ExecutionContext.ExecutionContext.Done` | source/core/ExecutionContext.cpp:46-103 | returns to the caller, drains the waiters, resets the clump; the abstract step |
| `ExecutionContext.ExecutionContext.Sleep` | source/core/VirtualInstrument.cpp:229-246 | suspends the running clump without putting it in any list |
| `ExecutionContext.ExecutionContext.ExecuteInstruction` | source/core/ExecutionContext.cpp:354-361 | one dispatch is one abstract step, or reports exactly that the one breakable assert (Trigger on a zero count) fails |
| `ExecutionContext.ExecutionContext.PickNext` | source/core/ExecutionContext.cpp:345-346 | takes the next clump and its saved place |
| `ExecutionContext.ExecutionContext.Requeue` | source/core/ExecutionContext.cpp:386-391 | saves the place and puts the running clump at the end of the queue |
| `ExecutionContext.ExecutionContext.WakeUp` | source/core/Synchronization.cpp:67-89 | a woken clump goes to the end of the run queue |
| `ExecutionContext.ExecutionContext.PressGo` | source/core/VirtualInstrument.cpp:101-113 | starting an idle VI triggers its root clump, an active one is left alone; the assert fails exactly when the root clump is idle and does not start with its first trigger |
| `ExecutionContext.ExecutionContext.RunSlice` | source/core/ExecutionContext.cpp:348-374 | a slice executes numSlices + 1 instructions, but at least one, unless one leaves nothing to run or is a Done that queues waiting clumps; it is a run of the state machine, and the asserts at the top of the loop hold |
| `ExecutionContext.ExecutionContext.EndSlice` | source/core/ExecutionContext.cpp:376-412 | between slices, while there is time, the running clump goes behind those queued and the next one runs, or goes on when it is alone, or a clump that woke up runs; without time it is put back |
| `ExecutionContext.ExecutionContext.WakeDue` | source/core/ExecutionContext.cpp:376-377 | the sleepers that are due are awake afterwards, behind those queued |
| `ExecutionContext.ExecutionContext.ExecuteSlices` | source/core/ExecutionContext.cpp:337-418 | every call makes a run of the state machine with at least one instruction a slice, and leaves clumps in the run queue, which it reports, only when all the time has been used; the only assert that can fail is that of Trigger |
| `EventState.InsertAdds` | source/core/Events.cpp:245-267 | on a list without duplicates or empty sublists, insertion adds exactly one registration to the set the list stands for, and keeps the list well formed |
| `EventState.RemoveDeletes` | source/core/Events.cpp:270-292 | removal deletes exactly one registration from the set, and leaves no empty sublist |
| `EventState.FirstFree` | source/core/Events.cpp:350-356 | the first free queue slot: everything before it is active |
| `EventState.NewQueueID` | source/core/Events.cpp:350-366 | a new queue never gets number 0 |
| `EventInvariant.RegisteredIsActive` | source/core/Events.cpp:298-335 | no registration names a free queue or queue 0 |
| `EventInvariant.PushKeeps` | source/core/Events.cpp:88-100 | queueing an event keeps the invariant (free queues empty, queues in order of sequence number, no number twice, every registration owned by a refnum with an active queue of its own) |
| `EventInvariant.PopKeeps` | source/core/Events.cpp:137-142 | removing the event handed out keeps the invariant |
| `EventInvariant.OccurKeeps` | source/core/Events.cpp:212-231 | a broadcast keeps the invariant |
| `EventInvariant.BroadcastExact` | source/core/Events.cpp:221-228 | a broadcast appends exactly one event to each queue on the list with this reference, numbered in list order, and changes no other queue |
| `EventInvariant.OccurExact` | source/core/Events.cpp:212-231 | an occurring event reaches exactly the queues registered for its source, type and reference, once each, with fresh numbers |
| `EventInvariant.NewQueueIsNew` | source/core/Events.cpp:350-367 | a new queue was not in use, is not queue 0 and is empty, so a reused queue never sees old events; the queues in use stay as they are |
| `EventInvariant.NewQueueKeeps` | source/core/Events.cpp:350-367 | allocating a queue keeps the invariant |
| `EventInvariant.RegisterFirstKeeps` | source/core/Events.cpp:938-952 | registering a new input keeps the invariant |
| `EventInvariant.RegisterAgainKeeps` | source/core/Events.cpp:796-811 | replacing the reference of an input keeps the invariant |
| `EventInvariant.RegisterArgsKeep` | source/core/Events.cpp:903-959 | a registration call keeps the invariant, also when it stops half-way at a bad argument |
| `EventInvariant.DisposeEffect` | source/core/Events.cpp:767-782 | disposing of a refnum empties and frees its queue and removes exactly the registrations for that queue |
| `EventInvariant.DisposeKeeps` | source/core/Events.cpp:767-782 | disposing of a refnum keeps the invariant |
| `EventInvariant.EarliestFrom` | source/core/Events.cpp:493-525 | the merge over the refnums keeps the earliest event found so far, its position and the number of inputs before it |
| `EventInvariant.FindsEarliest` | source/core/Events.cpp:493-525 | GetPendingEventInfo chooses a queue that holds the earliest pending event of all the queues the structure watches |
| `EventInvariant.ReregistrationFaithful` | source/core/Events.cpp:796-811 | re-registering an input for another reference keeps registrations and inputs in step exactly when it had no reference or no other input has the same event and reference |
| `EventTheorems.ReachesKeeps` | source/core/Events.cpp:212-231 | over any sequence of events, queue requests, registrations, re-registrations, disposals and structure runs the invariant holds: no registration names a free queue and free queues are empty |
| `EventTheorems.DoEvolves` | source/core/Events.cpp:212-231 | an action puts only newer events into a queue, and never moves a refnum to a queue with events |
| `EventTheorems.DispatchEffect` | source/core/Events.cpp:1033-1159 | a structure that runs gets the front event of a queue it watches, the earliest of all of them, and exactly that event is removed; it times out only when all of them are empty |
| `EventTheorems.DeliveryMovesOn` | source/core/Events.cpp:1067-1159 | an event delivered comes after all those delivered before, and everything still pending comes after it |
| `EventTheorems.DeliveryOrder` | source/core/Events.cpp:493-525 | from any state on, deliveries to a fixed set of queues have strictly increasing sequence numbers, however events, registrations and other structures interleave |
| `EventTheorems.DeliveredInOrder` | source/core/Events.cpp:493-525 | the same, with a bound from the events delivered before the run |
| `EventTheorems.GoneForGood` | source/core/Events.cpp:88-100 | a number that has been used and is in no queue never comes back |
| `EventTheorems.DeliveredOnce` | source/core/Events.cpp:137-142 | in a whole run no queued event is delivered twice, to whomever |
| `EventRegistration.Sources` | source/core/Events.cpp:536-543 | user events have source 25, events from value changes on 1000, the others 0 |
| `EventRegistration.NewCallFaithful` | source/core/Events.cpp:850-961 | a call without a valid refnum registers all its inputs, with their types and references, for a new empty queue, or when it stops at an argument out of order exactly those before it |
| `EventRegistration.InputsReached` | source/core/Events.cpp:212-231 | while registrations and inputs of a refnum are in step, an event is put into its queue, once, exactly when an input asks for it |
| `EventRegistration.NewCallReached` | source/core/Events.cpp:850-961 | after a call for a new refnum an event of the type and reference of any argument is the one event in its queue |
| `EventRegistration.CallAgain` | source/core/Events.cpp:903-918 | a re-registration is through exactly when it has an argument for each input and each is unwired, without type or of the type of the input; then each input has the new reference or the old one |
| `EventReregistration.HalfwayStep` | source/core/Events.cpp:801-810 | re-registering one input gives up its old registration and takes up the new one, for all registrations of the queue |
| `EventReregistration.CallIsLive` | source/core/Events.cpp:903-959 | after a whole call, or the part of one before an argument that is out of order, what is registered is what the inputs have given up and taken up in turn |
| `EventReregistration.LiveInTheEnd` | source/core/Events.cpp:801-810 | what an input has in the end is registered exactly when every giving up of it is followed by a taking up |
| `EventReregistration.CallFaithful` | source/core/Events.cpp:850-961 | a whole re-registration call keeps registrations and inputs in step exactly when each event and reference that an input gives up, and that some input has in the end, is taken up again by a later input |
| `EventReregistration.SharedRegistrationLost` | source/core/Events.cpp:796-811 | a run of one registration call with two inputs for the same event and reference, after which re-registering the first input takes the registration from the second |
| `EventWakeUps.DispatchSlack` | source/core/Events.cpp:1047-1065 | a structure pays one handled firing for the event it gets, and one for a time-out without getting any |
| `EventWakeUps.DoSlack` | source/core/Events.cpp:1033-1065 | no action but a time-out of the structure lets the firings it has not handled fall further behind the events waiting for it |
| `EventWakeUps.RunSlack` | source/core/Events.cpp:1033-1065 | over a run a structure falls behind by at most the time-outs it has handled |
| `EventWakeUps.SleepsWithin` | source/core/Events.cpp:1047-1065 | a structure that goes to sleep leaves at most as many events waiting in a watched queue as it has handled time-outs; one that never timed out never sleeps on an event |
| `EventWakeUps.ObserveFires` | source/core/Events.cpp:1033-1041 | observing its queues fires the structure once for each event in a queue it did not observe before, however often a queue is named |
| `EventWakeUps.SleepsExactly` | source/core/Events.cpp:1033-1065 | a structure sleeps exactly when it has not been woken and has handled at least as many firings as there have been, the events it comes to observe included |
| `EventWakeUps.SleepsOnEventExactly` | source/core/Events.cpp:1033-1065 | when an event waits in a watched queue, the structure sleeps on it exactly when it has not been woken and has handled at least as many firings as there have been, the events it comes to observe included; otherwise it gets its event |
| `EventWakeUps.SleepsOnAnEvent` | source/core/Events.cpp:1047-1065 | one handled time-out is enough: a run in which the structure sleeps, times out, an event comes, and it sleeps again although the event waits in its queue |
| `EventOracle.EventOracle.constructor` | source/core/Events.cpp:201-204 | a new oracle has the reserved queue 0 and the application bucket |
| `EventOracle.EventOracle.PushEvent` | source/core/Events.cpp:88-100 | appends the event with the next sequence number and fires the observer |
| `EventOracle.EventOracle.ObserveQueue` | source/core/Events.cpp:126-135 | a new observer is fired once for each event already queued |
| `EventOracle.EventOracle.ClearQueue` | source/core/Events.cpp:101-107 | discards all events of an unlocked queue and nothing else |
| `EventOracle.EventOracle.DiscardTopEvent` | source/core/Events.cpp:148-156 | discards the front event, or reports that there is none |
| `EventOracle.EventOracle.DeleteEventQueue` | source/core/Events.cpp:189-192 | empties and frees a queue; a number out of range is ignored |
| `EventOracle.EventOracle.GetEventData` | source/core/Events.cpp:119-125 | hands out the front event and locks the queue, or a time-out without locking |
| `EventOracle.EventOracle.DoneProcessingEvent` | source/core/Events.cpp:137-142 | removes the front event of a locked queue and unlocks it; leaves an unlocked queue alone |
| `EventOracle.EventOracle.GetNewQueueObject` | source/core/Events.cpp:350-367 | reuses the first free slot after slot 0, or appends one |
| `EventOracle.EventOracle.EventListInsert` | source/core/Events.cpp:245-267 | both loops give the list with the registration added, and the status says whether the sublist and the entry were there |
| `EventOracle.EventOracle.EventListRemove` | source/core/Events.cpp:270-293 | both loops give the list with the registration removed, and the result says whether it was there |
| `EventOracle.EventOracle.RegisterForEvent` | source/core/Events.cpp:298-335 | registers a reference in the application bucket; an invalid queue or no reference changes nothing |
| `EventOracle.EventOracle.UnregisterForEvent` | source/core/Events.cpp:339-345 | removes a registration; an invalid queue changes nothing |
| `EventOracle.EventOracle.OccurEvent` | source/core/Events.cpp:212-231 | the iterator loops are the broadcast step, and keep the invariant |
| `EventOracle.EventOracle.RegisterForEventsCore` | source/core/Events.cpp:796-811 | registers a scalar reference, or on re-registration replaces the old one when it differs |
| `EventOracle.EventOracle.RegisterForEvents` | source/core/Events.cpp:850-961 | registers or re-registers all inputs of a refnum, skipping wildcards and stopping at the first argument that is out of order, and keeps the invariant |
| `EventOracle.EventOracle.UnregisterForEventsAux` | source/core/Events.cpp:767-782 | disposes of a refnum; an invalid one changes nothing |
| `EventOracle.EventOracle.GetPendingEventInfo` | source/core/Events.cpp:493-525 | finds the earliest pending event of the static queue and those of the refnums |
| `EventOracle.EventOracle.WaitForEventsAndDispatch` | source/core/Events.cpp:1033-1159 | observes all queues, then sleeps, times out or hands out the earliest event, and removes it afterwards; keeps the invariant |
| `AggregateOrder.CompareBasics` | source/core/GenericFunctions.cpp:1973-2142 | two values compare as equal exactly when they are the same, and swapping operands swaps the order |
| `AggregateOrder.CompareTransitive` | source/core/GenericFunctions.cpp:1973-2142 | the order on nested arrays and clusters is transitive, strictly so when one step is strict |
| `AggregateOrder.Trichotomy` | source/core/GenericFunctions.cpp:1973-2142 | exactly one of LT, EQ and GT holds; LE is not GT, GE is not LT, NE is not EQ, EQ is structural equality |
| `AggregateOrder.LessTransitive` | source/core/GenericFunctions.cpp:2009-2040 | LT is transitive |
| `AggregateOrder.FirstDifference` | source/core/GenericFunctions.cpp:2351-2399 | lists compare as their first different elements do, or as their lengths when one runs out first |
| `AggregateOrder.Lexicographic` | source/core/GenericFunctions.cpp:2351-2399 | LT on lists holds exactly when they agree up to a position where the left one ends or has the smaller element |
| `AggregateOrder.LessPrecedes` | source/core/GenericFunctions.cpp:2009-2040 | the order is the one defined in its own terms: smaller numbers first, lists by their first difference or their end |
| `AggregateOrder.OperatorsMean` | source/core/GenericFunctions.cpp:1973-2142 | the six operators mean equality, difference and that order |
| `AggregateOrder.NumbersMean` | source/core/GenericFunctions.cpp:1973-2142 | on arrays of numbers LT holds exactly when they agree up to a position where the left one ends or has the smaller number, and the other operators accordingly |
| `AggregateOrder.ThreeBeforeFive` | source/core/GenericFunctions.cpp:2009-2040 | 3 comes before 5, and a list before those that continue it |
| `AggregateCompare.ReadyFrame` | source/core/GenericFunctions.cpp:1838-1881 | whether a snippet is ready to run depends on its own instructions' operands only |
| `AggregateCompare.OneRan` | source/core/GenericFunctions.cpp:1838-1881 | after one instruction of a snippet has run, all operands of the snippet's instructions are restored and the others are still ready |
| `AggregateCompare.Comparison.Run` | source/core/GenericFunctions.cpp:1838-1881 | calling an instruction decides the relation between the values its operands address, and leaves them as they were |
| `AggregateCompare.Comparison.RunCommuted` | source/core/GenericFunctions.cpp:2009-2040 | running an instruction with its operands swapped decides the converse relation, and puts the operands back |
| `AggregateCompare.Comparison.RunWhile` | source/core/GenericFunctions.cpp:1973-2006 | the loop that stops at the first differing field decides EQ and NE of the field lists |
| `AggregateCompare.Comparison.RunBothWays` | source/core/GenericFunctions.cpp:2009-2142 | the loop that runs each instruction both ways decides LT, GT, LE and GE of the field lists |
| `AggregateCompare.Comparison.IsEQAccumulator` | source/core/GenericFunctions.cpp:1973-1988 | EQ of the operands, null only equal to null; says whether they are still undecided; operands restored |
| `AggregateCompare.Comparison.IsNEAccumulator` | source/core/GenericFunctions.cpp:1991-2006 | NE of the operands, with the same frame |
| `AggregateCompare.Comparison.IsLTAccumulator` | source/core/GenericFunctions.cpp:2009-2040 | LT of the operands, null first, with the same frame |
| `AggregateCompare.Comparison.IsGTAccumulator` | source/core/GenericFunctions.cpp:2043-2074 | GT of the operands, null first, with the same frame |
| `AggregateCompare.Comparison.IsLEAccumulator` | source/core/GenericFunctions.cpp:2077-2108 | LE of the operands, null first, with the same frame |
| `AggregateCompare.Comparison.IsGEAccumulator` | source/core/GenericFunctions.cpp:2111-2142 | GE of the operands, null first, with the same frame |
| `AggregateCompare.Comparison.MoveOperands` | source/core/GenericFunctions.cpp:1847-1860 | adding the two cluster addresses turns field offsets into field addresses, for every instruction of the snippet |
| `AggregateCompare.Comparison.MoveBack` | source/core/GenericFunctions.cpp:1862-1875 | subtracting them restores the offsets |
| `AggregateCompare.Comparison.ClusterAggBinaryOp` | source/core/GenericFunctions.cpp:1838-1881 | comparing two clusters of any depth decides the lexicographic relation, and restores every operand it moved |
| `AggregateCompare.Comparison.CompareElements` | source/core/GenericFunctions.cpp:2378-2385 | the loop over common elements either decides the relation of the arrays or has found them equal so far |
| `AggregateCompare.Comparison.PassNull` | source/core/GenericFunctions.cpp:2372-2395 | an array that has run out is passed as null, which comes first |
| `AggregateCompare.Comparison.VectorVectorBinaryAccumulatorOp` | source/core/GenericFunctions.cpp:2351-2399 | comparing two arrays of any nesting decides the lexicographic relation, the shorter one first when it is a prefix |
| `FlatIndex.AddrBound` | source/core/TypeAndDataManager.cpp:2296-2319 | the address of an index stays below the product of the dimensions it uses |
| `FlatIndex.AddrSplit` | source/core/TypeAndDataManager.cpp:2296-2319 | an address splits at any dimension into an inner position, the index there and an outer position |
| `FlatIndex.EveryAddress` | source/core/TypeAndDataManager.cpp:2296-2319 | every address of a packed array is the address of an index inside it |
| `FlatIndex.TotalSplit` | source/core/TypeAndDataManager.cpp:2358-2462 | the number of elements is that of the outer positions times the length of a row |
| `BoxCopy.CopiedSlice` | source/core/GenericFunctions.cpp:1648-1654 | copying one more slice along the slowest dimension extends the copied box by that slice |
| `BoxCopy.CopyRow` | source/core/GenericFunctions.cpp:1628-1646 | rank 1: a block copy of packed rows, or element by element, copies the row and nothing else; the rest of a packed row is initialised exactly when the destination was not |
| `BoxCopy.ArrayToArrayCopyHelper` | source/core/GenericFunctions.cpp:1625-1657 | for any rank and any slab lengths that give the elements of the box different addresses in the destination, destination[i] = source[i] for every index of the box, and nothing else changes when preinitialised; when not, the rests of packed rows are initialised, and nothing else |
| `BoxCopy.NestedApart` | source/core/TypeAndDataManager.cpp:2408-2442 | the layout of an array, packed or with room to grow, gives different addresses, and no element lies in the rest of a row |
| `BoxCopy.TransposedApart` | source/core/GenericFunctions.cpp:1648-1654 | slab lengths need not grow: a transposed layout gives different addresses too |
| `RowShift.BackCounts` | source/core/Array.cpp:847-850 | the odometer of the insertion loop counts down by one and stops exactly after zero |
| `RowShift.ForthCounts` | source/core/Array.cpp:1340-1343 | the odometer of the deletion loop counts up by one and stops exactly at the last reading |
| `RowShift.StepBack` | source/core/Array.cpp:848-849 | the borrow loop is the odometer step down |
| `RowShift.StepForth` | source/core/Array.cpp:1341-1342 | the carry loop is the odometer step up |
| `RowShift.OpenRow` | source/core/Array.cpp:840-846 | moves one row, end first, to its longer place with a cleared gap; overlapping moves lose nothing |
| `RowShift.OpenGap` | source/core/Array.cpp:838-858 | over the whole loop no source element is overwritten before it is read, every row gets its gap, and the write pointer ends at the start of the array, so the "wild ptr" error cannot occur |
| `RowShift.CopySubArray` | source/core/Array.cpp:1203-1231 | copies a block of flat elements, which may overlap, and advances both pointers |
| `RowShift.CloseRow` | source/core/Array.cpp:1336-1339 | one row is split between output and deleted part, also when the output is the input |
| `RowShift.CloseGap` | source/core/Array.cpp:1336-1343 | over the whole loop the deleted part gets the deleted slices and the output the rest, in place or not |
| `ArrayND.AddressInjective` | source/core/TypeAndDataManager.cpp:2296-2319 | different indices of an array have different addresses |
| `ArrayND.OpenedIndex` | source/core/Array.cpp:838-850 | in terms of indices: before the insertion point nothing moves, inside the gap there are zeros, behind it every element has moved by the gap |
| `ArrayND.ClosedIndex` | source/core/Array.cpp:1336-1343 | in terms of indices: what remains is the input with the deleted slices skipped |
| `ArrayND.TakenIndex` | source/core/Array.cpp:1336-1343 | in terms of indices: the deleted part is the input from the first deleted slice on |
| `ArrayND.OutsideBox` | source/core/Array.cpp:851-854 | an index outside the inserted box is not touched by the final copy |
| `ArrayND.InsertionDone` | source/core/Array.cpp:838-854 | opening the gap and copying the clipped subarray is an insertion: the original outside the inserted slices, and inside them the subarray where it fits and zeros elsewhere |
| `ArrayND.DeletionDone` | source/core/Array.cpp:1336-1343 | splitting all rows is a deletion |
| `ArrayND.DeleteThenInsert` | source/core/Array.cpp:765-860 | an insertion of the deleted part where it was, into what a deletion left, is the array that was deleted from |
| `ArrayND.InsertThenDelete` | source/core/Array.cpp:1288-1348 | deleting what has been inserted gives the array back, and of the inserted array the part that fitted, with zeros elsewhere |
| `ArrayND.InsertionIntoNothing` | source/core/Array.cpp:817-859 | inserting two elements into an array without elements leaves initial values: the inserted elements are lost |
| `ArrayND.InsertionIntoNothingExactly` | source/core/Array.cpp:817-859 | for an array without elements the result is right, whatever is inserted, exactly when the clipped subarray is empty |
| `NDArray.NDArray.ResizeDimensions` | source/core/TypeAndDataManager.cpp:2358-2462 | sets the dimensions, and keeps the elements that have a place in flat storage, or none |
| `NDArray.BeginAtND` | source/core/TypeAndDataManager.cpp:2296-2321 | the address of an index of all or some dimensions, and nothing exactly when the index has too many dimensions or lies outside the array |
| `NDArray.CoerceArgs` | source/core/Array.cpp:675-697 | negative starts become 0, lengths are cut to what is there, null means the rest; in place an offset is an error |
| `NDArray.ArraySubsetND` | source/core/Array.cpp:662-705 | the output has the coerced lengths and out[i] = in[start + i] for every index; a wrong number of arguments or an offset in place changes nothing; in place without offsets the output holds initial values |
| `NDArray.CoercedExactly` | source/core/Array.cpp:676-694 | along each dimension the subset has exactly the positions asked for that exist |
| `NDArray.InPlaceSubsetExactly` | source/core/Array.cpp:698-703 | in place the result is the subset, whatever the array holds, exactly when the subset has no elements |
| `NDArray.InPlaceSubsetLoses` | source/core/Array.cpp:698-703 | one of two rows, taken in place, is lost |
| `NDArray.InsertPart` | source/core/Array.cpp:817-859 | on a buffer whose first elements are the old array: an insertion |
| `NDArray.ArrayInsertSubsetND` | source/core/Array.cpp:765-862 | arguments that make no sense leave a copy of the input; otherwise the array is extended and, when it has elements, the result is the insertion |
| `NDArray.InsertsAtEnd` | source/core/Array.cpp:730-731 | without an index and a dimension the subarray goes to the end of the slowest dimension |
| `NDArray.PlansExactly` | source/core/Array.cpp:772-807 | an insertion is made exactly when the dimension exists, there is something to insert and the index lies in the dimension or just behind it |
| `NDArray.DeletesLast` | source/core/Array.cpp:1241-1253 | without arguments the last slice of the slowest dimension is deleted, if there is one |
| `NDArray.CoerceSlices` | source/core/Array.cpp:1241-1312 | the slices deleted are exactly those of the requested range that exist, and none when the dimension does not; the length given to the deleted array is theirs exactly when the request can be served |
| `NDArray.PortionExactly` | source/core/Array.cpp:1249-1261 | the length computed for the deleted array is not negative exactly when the number of slices asked for is not, and the range does not end before the array starts |
| `NDArray.PortionBelowZero` | source/core/Array.cpp:1256-1300 | two of three slices from five before the start: the deleted array is to have a dimension of -3 |
| `NDArray.DeletePart` | source/core/Array.cpp:1325-1344 | on flat storage: a deletion, in place or not |
| `NDArray.ArrayDeleteND` | source/core/Array.cpp:1234-1350 | exactly when the request can be served, which the arguments tell, output and deleted part are the two parts of the input, for a separate output or in place |
| `NDArray.DeletionFromNothing` | source/core/Array.cpp:1321-1347 | from an input without elements a separate output holds the right elements exactly when it held none before |
| `NDArray.DeletionLeavesOutput` | source/core/Array.cpp:1321-1347 | an output that held an element keeps it |
| `NDArray.DeleteAndInsertBack` | source/core/Array.cpp:1288-1348 | calling ArrayDeleteND, in place or not, and then ArrayInsertSubsetND with the deleted array at the same place gives the array back, dimensions and elements, for every request that can be served, unless all slices were deleted: then all elements are initial values |
| `Interleave.ArrayInterleave` | source/core/Array.cpp:1618-1641 | element i of input k goes to i*n+k, up to the length of the shortest input |
| `Interleave.ArrayDecimate` | source/core/Array.cpp:1650-1669 | output k gets every n-th element from k on, as many as all outputs can have |
| `Interleave.DecimateInterleaved` | source/core/Array.cpp:1618-1669 | decimating what was interleaved gives the inputs back, cut to the shortest |
| `Interleave.InterleaveDecimated` | source/core/Array.cpp:1618-1669 | interleaving what was decimated gives the input back when it divides evenly |
| `Calendar.LeapIs` | source/core/Date.cpp:174-176 | leap years are those divisible by 4, not by 100 unless by 400 |
| `Calendar.FourCenturies` | source/core/Date.cpp:102-105 | 400 years have 97 leap years and 146097 days, whole weeks |
| `Calendar.MonthStarts` | source/core/Date.cpp:200-207 | the days before each month in the closed form of the year that begins in March, which fixes the length of every month |
| `Calendar.MonthLengths` | source/core/Date.cpp:200-203 | April, June, September and November have thirty days, February 28 or 29, the others 31 |
| `Calendar.Epoch` | source/core/Date.cpp:341-355 | 1904 began on a Friday with second 0 |
| `Calendar.UnixEpoch` | source/include/Date.h:23-23 | Unix time begins on a Thursday, 2082844800 seconds later |
| `Calendar.LastOfMarch` | source/core/Date.cpp:341-355 | 31 March 2001 is a date, with second 3068841600 |
| `Calendar.LastSecond` | source/core/Date.cpp:341-355 | the second before 1904 is the last of 1903 |
| `Calendar.LeapStep` | source/core/Date.cpp:102-105 | the truncating count of leap years goes up by one exactly at leap years; up to year 0 it is the year before that decides |
| `Calendar.YearLength` | source/core/Date.cpp:102-105 | the length of a year as the code counts it |
| `Calendar.YearLengthAgrees` | source/core/Date.cpp:174-176 | it is the length isLeapYear says exactly for years from 1 on, and for earlier years when neither the year nor the one before is a leap year |
| `Calendar.OnlyYear` | source/core/Date.cpp:124-139 | a second belongs to one year only |
| `Calendar.SearchFinds` | source/core/Date.cpp:113-146 | the year of every second count, negative or not, lies inside the bounds of the search |
| `Calendar.GetYear` | source/core/Date.cpp:108-158 | the bounded loop always finds the year, leaves the seconds into it within its length, and gives the weekday of its first day |
| `Calendar.FindMonth` | source/core/Date.cpp:198-213 | the month loop finds the month and the seconds into it, or -2 exactly when the seconds exceed the year |
| `Calendar.DateUTCToTimestamp` | source/core/Date.cpp:341-355 | the seconds of a date |
| `Calendar.InItsYear` | source/core/Date.cpp:341-355 | the seconds of a valid date lie in its own year |
| `Calendar.StrictlyMonotone` | source/core/Date.cpp:341-355 | a later date, in lexicographic order of its six fields, has more seconds |
| `Calendar.SameSeconds` | source/core/Date.cpp:341-355 | no two valid dates from year 1 on have the same seconds |
| `Calendar.WeekDayAdvances` | source/core/Date.cpp:270-272 | the weekday goes on by one from each day to the next, across month and year ends, and comes round after seven |
| `Calendar.GetDate` | source/core/Date.cpp:179-272 | round trip: every valid date from year 1 on is recovered from its seconds; what is returned is always the date that has these seconds, except month -2 on the extra last day of some years up to 0; the weekday advances day by day |
| `Calendar.LastDay` | source/core/Date.cpp:198-213 | exactly when the month loop runs past December |

## Left out

Contracts that say less than the code does:

- PatternCompiler.MakePat: patterns of single-byte characters only; multi-byte UTF-8 characters and the allocation of the
  program string are not modelled.
- PatternMatcher.Search: needs every class body to fit its length byte, as do the other matching theorems; what a longer
  class does is left open beyond `ClassLengthByte`.
- PatternMatcher.MatchPat: as `Search`, and the programs are those of the compiler.
- PatternMatcher.LongClass: says how the bytes of a long class are read, not what the instructions in its body match.
- PatternMatcher.MatchPattern: null pattern or text pointers are not modelled.
- Scheduler.CallKeeps: targets of `CallVI` have fire count 1, as the assert in the code demands.
- ExecutionContext.ExecutionContext.CallVI: running the copy-in snippet is recorded, not executed; a copy-in that stops the
  caller is left out.
- ExecutionContext.ExecutionContext.Done: running the copy-out snippet is recorded, not executed; clean-up when a top VI
  finishes is left out.
- ExecutionContext.ExecutionContext.Sleep: observers and timers are one flag; which object wakes a clump and when is left
  open.
- ExecutionContext.ExecutionContext.WakeUp: which observer is removed and whose timer is cancelled is left out.
- ExecutionContext.ExecutionContext.PressGo: setting up the parameter block is left out.
- ExecutionContext.ExecutionContext.ExecuteSlices: time is a number of slices, and any sleeper may wake between slices; the
  waiting time in the reply, allocation failures and clean-up are left out.
- EventOracle.EventOracle.RegisterForEvent: the application bucket only; buckets for controls rest on control queries the
  source marks as unfinished.
- EventOracle.EventOracle.RegisterForEventsCore: scalar references only; arrays and clusters of references are left out.
- EventOracle.EventOracle.RegisterForEvents: a fresh refnum is a parameter, the checks of argument types and the error input
  are left out.
- EventOracle.EventOracle.PushEvent: event data and their copies are left out, and sequence numbers do not wrap around.
- EventOracle.EventOracle.DiscardTopEvent: freeing the event data is left out.
- EventOracle.EventOracle.WaitForEventsAndDispatch: matching the event to a case, copying its data and the errors for bad
  indices are left out; whether the structure has been woken is a parameter.
- AggregateCompare.Comparison.ClusterAggBinaryOp: clusters have at least one field, operands have the same type, and leaves
  are totally ordered, which leaves out NaN.
- BoxCopy.ArrayToArrayCopyHelper: source and destination have the same rank and lie in different storage; an error while
  copying an element is left out; when the destination is not preinitialised and rows are packed, no element may lie in
  the rest of a row, as in every array.
- RowShift.CopySubArray: flat elements only.
- NDArray.ArrayInsertSubsetND: rank 2 or more, and a subarray of the same rank; without an index the dimension must exist,
  since the code reads its length before it looks.
- NDArray.ArrayDeleteND: rank 2 or more, a deleted array of the same rank that is another array; what a negative dimension
  leads to is left open, since the code goes on to an assert or an allocation of negative size.
- NDArray.NDArray.ResizeDimensions: variable-size dimensions only; bounded and fixed dimensions, spare capacity and
  allocation failures are left out.
- Interleave.ArrayInterleave: the output is a new array.
- Interleave.ArrayDecimate: the outputs are new arrays.
- Calendar.DateUTCToTimestamp: whole seconds; a month above 12 reads beyond the table in the code and is left out.
- Calendar.GetDate: the calendar part; time zones, fractions and null outputs are left out.

Parts of the repository that are not modelled:

- Integer width: positions, lengths, counts and seconds are mathematical integers; bytes of patterns are 0 to 255.
- `Stop`, instruction unrolling, `FPSync`, needs-update flags and the call-chain query of the execution context.
- JavaScript event registration, static registration lists and clean-up procedures of the event oracle.
- The builders of aggregate instructions, conversion snippets, non-accumulating cluster operations and array iterators.
- One-dimensional branches of the array operations, sorting, searching, thresholds and interpolation.
- The type manager, variants, data-type compatibility, numeric primitives, timestamps, refnum tables, string formatting,
  input and output, and the JavaScript host.
