# Rings, bucket brigades, hooks and alignment of the Apache Portable Runtime headers

This project models the parts of the vendored `Code-Server/include` headers that hold real code,
and proves what that code is for:

- `apr_ring.h`: the intrusive circular doubly linked list, its splices, its two iterations and
  the debug walk that checks it;
- `apr_buckets.h`: bucket brigades, which are rings of buckets, with the operations that a debug
  build checks after every step;
- `apr_hooks.h` and `apr_optional_hooks.h`: the three rules by which registered callbacks are run;
- `apr_general.h`: the alignment mask.

## How it is built

A ring link is a heap object with `next` and `prev`. The head of a ring is such a link too: the
sentinel is by construction the address at which the head's two fields look like those of an
element, so every macro treats it as one more element.

| file | contents |
|---|---|
| `Basics.dfy`, `LinkGraph.dfy` | sequences; links on the heap and `Graph`, a value that pictures what a set of links holds |
| `Rings.dfy` | chains, cycles and rings in a graph: composition, rotation, framing, determinacy |
| `RingOps.dfy` | each macro as one simultaneous update of a graph, and what it does to a ring |
| `RingMacros.dfy` | the macros on the heap, field by field, and when re-reading their arguments is harmless |
| `RingLaws.dfy`, `RingUndo.dfy` | joining rings, the loop that CONCAT replaces, removals taken back |
| `RingLoops.dfy` | loops over rings on the heap |
| `RingCheck.dfy` | the consistency walk on arbitrary, possibly corrupt graphs |
| `Brigades.dfy`, `BrigadeRuns.dfy` | brigades as a state machine over one memory; whole runs |
| `Readings.dfy` | what each operation leaves for a walk to read; exactly when it touches memory it must not, and when a debug build aborts |
| `Sweep.dfy` | bodies of FOREACH_SAFE made of brigade operations |
| `Loops.dfy` | FOREACH and FOREACH_SAFE with any body: how they end, and exactly when all is visited |
| `Arena.dfy` | the brigades on the heap, in step with the state machine |
| `Misuse.dfy` | the exact conditions under which calls outside the contract are harmless, and which of them a debug build notices |
| `Hooks.dfy`, `HookLaws.dfy` | hook registration, the runners, their laws |
| `Align.dfy` | the alignment mask |

The state of a brigade run is the graph of the *allocated* links: freeing a bucket takes it out
of the graph, an operation or a debug check that would follow a link out of the graph is a `Fault`,
and a failed assertion of a debug check is an `Abort`. The theorem about runs is that neither ever happens and that the
links always hold exactly the brigades the operations describe. The abstract state that says so
(`World`) is invisible to the macros.

## Where the code and its comments differ

- `apr_ring.h:221-222`, `238-239`, `255-256` and `267-268` warn that splicing before or after an
  element does not work at the ends of a ring or on an empty one. Given the sentinel as `lep`, the
  code does work there, and the model follows the code (`RingOps.SpliceBeforeRing`,
  `RingOps.SpliceAfterRing`).
- `apr_buckets.h:1006` says that delete removes the bucket from its brigade "(if any)". For a
  bucket that was already removed this holds exactly under `Misuse.StaleSafe`: the two links it
  still points at are allocated, and each of them that belongs to a brigade or is a singleton
  already points at the other (`Misuse.StaleRemoveIff`, `Misuse.StaleDeleteIff`). Otherwise the
  second removal touches freed memory (`Misuse.StaleRemoveCanFault`) or damages a brigade, for
  instance by dropping another bucket (`Misuse.StaleRemoveDropsNewcomer`). It may also write and
  do no harm (`Misuse.StaleRemoveCanBeIdle`). `Brigades.Enabled` therefore allows delete for a
  bucket in a brigade or a singleton, and destroy for any bucket in no brigade.
- `apr_ring.h:332` and `347` promise that joining leaves the second ring empty and the first with
  the elements of both. With both heads the same and elements to move, this fails
  (`RingLaws.SelfJoinLosesElements`); it holds exactly otherwise (`RingLaws.ConcatMovesAllIff`).
- `apr_general.h:135` asks for a power of two. That is exactly what the mask needs: for any other
  boundary it is wrong already for the size 1 (`Align.OnlyPowersOfTwo`). It is not all the text
  needs: with a boundary of an unsigned type that is narrower than the size's but not narrower
  than `int`, size and boundary must together fit the boundary's type (`Align.AlignMixedIff`);
  2^32 aligned to an `unsigned int` 8 gives 0 (`Align.UnsignedIntBoundary`).
- `apr_hooks.h:204-206` remarks that RUN_ALL returns `ok`, not `decline`, when nothing is run. The
  model follows the code.

## Model

| member | source | states |
|---|---|---|
| RingMacros.RingInit | Code-Server/include/apr_ring.h:192-215 | INIT of a head and ELEM_INIT of an element leave the link pointing at itself both ways and write nothing else |
| RingMacros.SpliceBeforeElem | Code-Server/include/apr_ring.h:228-233 | the four writes, with `PREV(lep)` read again in between, equal one simultaneous update on every heap, however its links alias; only the dereferenced links need be allocated |
| RingMacros.SpliceAfterElem | Code-Server/include/apr_ring.h:245-250 | the same for splicing after an element |
| RingMacros.SpliceHead | Code-Server/include/apr_ring.h:286-291 | HEAD is AFTER the sentinel, on every heap |
| RingMacros.SpliceTail | Code-Server/include/apr_ring.h:302-307 | TAIL is BEFORE the sentinel, on every heap |
| RingMacros.RingUnsplice | Code-Server/include/apr_ring.h:368-373 | the two writes, which re-read both ends, equal one simultaneous update on every heap, even when the piece taken out is the whole cycle |
| RingMacros.RingConcat | Code-Server/include/apr_ring.h:338-344 | on every heap, whatever its links alias, the six writes have the effect of the text with `FIRST(h2)` and `LAST(h2)` read afresh in each |
| RingMacros.ConcatTextIff | Code-Server/include/apr_ring.h:302-344 | that text is as good as reading the arguments once exactly when `h2` is empty, or `LAST(h2)` is not its sentinel, or one of two named aliases holds; equal heads are no exception |
| RingMacros.RingPrepend | Code-Server/include/apr_ring.h:353-359 | likewise for PREPEND |
| RingMacros.PrependTextIff | Code-Server/include/apr_ring.h:286-359 | for PREPEND exactly when `h2` is empty, or `LAST(h2)` is not its sentinel, or both heads have the same first link |
| RingOps.SpliceAfterRing | Code-Server/include/apr_ring.h:235-250 | splicing a chain after the link at any index of a ring, the sentinel included, puts it there in one piece and keeps the order of everything else |
| RingOps.SpliceBeforeRing | Code-Server/include/apr_ring.h:218-233 | the same before any link, first element and empty ring included |
| RingOps.BeforeIsAfterPredecessor | Code-Server/include/apr_ring.h:228-250 | BEFORE an element is AFTER the predecessor it had |
| RingOps.SpliceBesideItself | Code-Server/include/apr_ring.h:228-250 | splicing a piece of a cycle in next to itself, by any of the four forms, closes it into a loop of its own while its old neighbours still point at it |
| RingOps.InsertAfterRing | Code-Server/include/apr_ring.h:273-274 | INSERT_AFTER puts one element at the right index and leaves every link outside the ring and the element as it was |
| RingOps.InsertBeforeRing | Code-Server/include/apr_ring.h:261-262 | likewise INSERT_BEFORE |
| RingOps.UnspliceCycle | Code-Server/include/apr_ring.h:361-373 | no head is needed: a piece of any cycle comes out, the remainder closes up, and the piece keeps every link it had, ends included |
| RingOps.UnspliceRing | Code-Server/include/apr_ring.h:361-373 | taking out elements `i` to `j` of a ring leaves the others in order |
| RingOps.RemoveRing | Code-Server/include/apr_ring.h:381-382 | REMOVE of the element at an index, with every link off the ring untouched |
| RingOps.UnspliceWholeCycle | Code-Server/include/apr_ring.h:212-215 | removing a whole cycle, in particular an element set up by ELEM_INIT, changes nothing |
| RingOps.UnspliceTwice | Code-Server/include/apr_ring.h:368-382 | repeating an unsplice at once changes nothing, on any graph |
| RingOps.UnspliceUndoesSplice | Code-Server/include/apr_ring.h:245-250 | splicing in and unsplicing restores every field but the two outward ends of the piece, exactly when the place spliced into was consistent |
| RingOps.SpliceUndoesUnsplice | Code-Server/include/apr_ring.h:368-373 | unsplicing and splicing back after the old predecessor restores the whole graph, exactly when the two neighbours pointed at the piece |
| RingUndo.PutBackRestores | Code-Server/include/apr_ring.h:375-382 | any number of elements may be removed and put back in reverse order by their own remembered links: a ring in between, the whole graph restored after |
| Rings.Rotate | Code-Server/include/apr_ring.h:43-44 | a cycle is the same cycle read from any of its links |
| Rings.LinksDetermineCycle | Code-Server/include/apr_ring.h:106-143 | the links and a starting point determine the sequence of a ring |
| Rings.CycleDeterminesLinks | Code-Server/include/apr_ring.h:106-143 | the sequence determines every link of a ring |
| RingLaws.ConcatRings | Code-Server/include/apr_ring.h:331-344 | CONCAT of distinct rings gives the first followed by the second and leaves the second in its INIT state |
| RingLaws.ConcatWrites | Code-Server/include/apr_ring.h:338-344 | CONCAT writes only the fields where the two sequences meet and the second head |
| RingLaws.PrependRings | Code-Server/include/apr_ring.h:346-359 | PREPEND gives the second followed by the first and leaves the second in its INIT state |
| RingLaws.PrependWrites | Code-Server/include/apr_ring.h:353-359 | PREPEND writes only the fields where the two sequences meet and the second head |
| RingLaws.ConcatRefinesDrain | Code-Server/include/apr_ring.h:338-344 | the O(1) CONCAT leaves every link of the graph as "remove the first of h2, insert it at the tail of h1, until h2 is empty" does; the loop needs exactly as many turns as h2 has elements |
| RingLoops.DrainInto | Code-Server/include/apr_ring.h:338-344 | the same loop on the heap, in terms of REMOVE and INSERT_TAIL, ends in the heap that one CONCAT gives |
| RingLaws.SelfJoinLosesElements | Code-Server/include/apr_ring.h:338-359 | joining a non-empty ring to itself empties the head and leaves the elements as a loop that no head leads to |
| RingLaws.ConcatMovesAllIff | Code-Server/include/apr_ring.h:331-344 | CONCAT does what it is documented to do exactly when the heads differ or there is nothing to move |
| RingLaws.PrependMovesAllIff | Code-Server/include/apr_ring.h:346-359 | likewise PREPEND |
| RingLoops.Foreach | Code-Server/include/apr_ring.h:391-394 | FOREACH visits exactly the elements of the ring, in order, and ends |
| RingCheck.WalkEnds | Code-Server/include/apr_ring.h:452-460 | the check ends on every graph, corrupt or not: it cannot fall into a loop that misses its start |
| RingCheck.CheckExact | Code-Server/include/apr_ring.h:452-460 | it passes having visited `c` exactly when `c` is a cycle of distinct links on which `next` and `prev` are mutually inverse |
| RingCheck.CheckPassesIff | Code-Server/include/apr_ring.h:482-489 | it passes exactly when its start lies on such a cycle |
| RingCheck.CheckFromAnywhere | Code-Server/include/apr_ring.h:448-460 | from every link visited it passes too, visiting the rotation |
| RingCheck.NextPrevFailsIff | Code-Server/include/apr_ring.h:456 | the first assertion fails at the last link of `v` exactly when the links up to there form a chain, the start passed, and the link after the last does not point back |
| RingCheck.PrevNextFailsIff | Code-Server/include/apr_ring.h:457 | the second assertion fails only at the start, and there exactly when the first one passes and the link before the start does not point at it |
| RingCheck.UnallocatedIff | Code-Server/include/apr_ring.h:452-460 | which freed link the check reads first, and exactly when |
| RingCheck.SecondAssertionIsRedundant | Code-Server/include/apr_ring.h:456-457 | dropping the second assertion changes neither whether the check passes nor what a passing check visits |
| RingCheck.ClosedStaysAllocated | Code-Server/include/apr_ring.h:452-460 | among links that lead only to one another, however corrupt, the check never leaves allocated memory |
| RingCheck.CheckElemConsistency | Code-Server/include/apr_ring.h:452-460 | the loop on the heap terminates with exactly the verdict of the walk |
| Brigades.StepKeeps | Code-Server/include/apr_buckets.h:358-440 | every brigade and bucket operation, called as it asks to be, touches only allocated links and leaves every brigade a well-formed ring of just the buckets described, singletons self-linked, everything apart |
| Brigades.ConcatKeeps | Code-Server/include/apr_buckets.h:375-383 | brigade CONCAT appends one brigade's buckets to another's, order kept, and empties it; all other brigades as they were |
| Brigades.PrependKeeps | Code-Server/include/apr_buckets.h:385-393 | likewise brigade PREPEND |
| Brigades.RemoveKeeps | Code-Server/include/apr_buckets.h:430-434 | REMOVE takes a bucket out of whichever brigade it is in without being told which, and does nothing to a singleton |
| Brigades.DebugStepSame | Code-Server/include/apr_buckets.h:289-312 | the check a debug build makes after the step passes and changes nothing |
| BrigadeRuns.RunKeeps | Code-Server/include/apr_buckets.h:358-440 | over whole runs on any number of brigades: no freed link is touched, no debug check fires, debug and release builds hold the same links, and those links are the brigades described |
| BrigadeRuns.RunConcat | Code-Server/include/apr_buckets.h:358-440 | on any graph a run goes on where its earlier part ended, and stops at the first thing that goes wrong |
| BrigadeRuns.RunDebugConcat | Code-Server/include/apr_buckets.h:289-440 | likewise a run of a debug build |
| BrigadeRuns.EveryRun | Code-Server/include/apr_buckets.h:289-440 | so for every legal run from empty memory |
| BrigadeRuns.ReadBack | Code-Server/include/apr_buckets.h:331-351 | walking a brigade from its head reads back exactly its buckets, in order |
| BrigadeRuns.AccessorsExact | Code-Server/include/apr_buckets.h:338-351 | EMPTY, FIRST and LAST tell the truth, and a brigade is empty exactly when its head is in the INIT state |
| BrigadeRuns.OnePosition | Code-Server/include/apr_buckets.h:67-70 | no bucket is in two brigades or twice in one |
| BrigadeRuns.StepConserves | Code-Server/include/apr_buckets.h:358-440 | buckets enter brigades only by insert, leave them only by remove and delete, and come and go only by allocation, delete and destroy |
| BrigadeRuns.RunConserves | Code-Server/include/apr_buckets.h:358-440 | over a whole run, the living and the enlisted buckets are what the operations alone say |
| BrigadeRuns.AllocatedIff | Code-Server/include/apr_buckets.h:358-440 | after a run a bucket is in memory exactly when it was or was allocated by the run, and not deleted or destroyed since |
| BrigadeRuns.EnlistedIff | Code-Server/include/apr_buckets.h:358-440 | after a run a bucket is in some brigade exactly when it was or was inserted by the run, and not removed or deleted since |
| Readings.InsertReads | Code-Server/include/apr_buckets.h:358-415 | inserting after a link, before the next one, or at the head or tail there, is one and the same step; a walk then reads the bucket at that index, everything else in order, and every other brigade as before |
| Readings.RemoveReads | Code-Server/include/apr_buckets.h:430-434 | after REMOVE or delete a walk reads the brigade without that bucket and every other brigade as before; only after delete is its memory gone |
| Readings.JoinReads | Code-Server/include/apr_buckets.h:380-393 | after CONCAT a walk reads first then second from the first head, after PREPEND second then first, nothing from the second head, every other brigade as before |
| Readings.SelfJoinReads | Code-Server/include/apr_buckets.h:380-393 | joining an empty brigade to itself does nothing |
| Readings.FreshReads | Code-Server/include/apr_buckets.h:437-440 | a new brigade reads empty, a new bucket points at itself, no brigade changes |
| Readings.LooseReads | Code-Server/include/apr_buckets.h:440 | initialising or destroying a bucket in no brigade changes no brigade |
| Readings.SingletonReads | Code-Server/include/apr_ring.h:212-215 | REMOVE of a singleton does nothing, and deleting it is destroying it |
| Readings.StepPlaces | Code-Server/include/apr_buckets.h:358-440 | an operation changes the place of its own bucket only, a join only of those it moves; new and initialised buckets are singletons, buckets taken out of a brigade are not |
| Readings.FaultsIff | Code-Server/include/apr_ring.h:228-382 | exactly which links each operation must find allocated; joining an empty brigade never looks at the other head |
| Readings.DebugAbortsIff | Code-Server/include/apr_buckets.h:289-312 | on any links whatever: after an insert or a join a debug build goes on exactly when the links it has written close into a cycle through the brigade or bucket it checks, and then as a release build does |
| Arena.Memory.NewBucket | Code-Server/include/apr_buckets.h:437-440 | a new bucket is a self-linked singleton; nothing else changes |
| Arena.Memory.InsertHead | Code-Server/include/apr_buckets.h:358-362 | the heap makes exactly the step of the state machine, and the debug check does not fire |
| Arena.Memory.InsertTail | Code-Server/include/apr_buckets.h:369-373 | likewise |
| Arena.Memory.InsertBefore | Code-Server/include/apr_buckets.h:400-404 | likewise |
| Arena.Memory.InsertAfter | Code-Server/include/apr_buckets.h:411-415 | likewise |
| Arena.Memory.Remove | Code-Server/include/apr_buckets.h:434 | likewise; no check is made here |
| Arena.Memory.InitBucket | Code-Server/include/apr_buckets.h:440 | likewise, for a bucket in no brigade |
| Arena.Memory.Concat | Code-Server/include/apr_buckets.h:380-383 | likewise, the check starting from the first brigade |
| Arena.Memory.Prepend | Code-Server/include/apr_buckets.h:390-393 | likewise |
| Arena.Memory.Destroy | Code-Server/include/apr_buckets.h:999-1003 | the type's destroy and then the free function are called once each, and the bucket leaves memory |
| Arena.Memory.Delete | Code-Server/include/apr_buckets.h:1016-1020 | the bucket leaves its brigade first, then the same two calls; its memory is not read after |
| Arena.Memory.ForeachSafe | Code-Server/include/apr_ring.h:396-407 | visits exactly the buckets held at the start, once each and in order, and ends, for every body that is a legal run leaving the buckets still to come last in the brigade; reads only allocated links, ends in the heap the operations give, and makes exactly their destroy and free calls |
| Sweep.SweptIsRun | Code-Server/include/apr_ring.h:396-407 | such a loop is one long legal run |
| Sweep.RemoveAllSweeps | Code-Server/include/apr_ring.h:404-407 | a body that always removes is such a body; it empties the brigade, its buckets stay in memory on their own, and nothing else changes place |
| Sweep.RemovalsLeave | Code-Server/include/apr_ring.h:404-407 | what every link is after that: the head in its INIT state, each bucket pointing forward at what followed it and back at the head, no other field written |
| Arena.Memory.RemoveEach | Code-Server/include/apr_ring.h:404-407 | the loop on the heap with a removing body visits every bucket, frees none and calls nothing, and leaves exactly those links |
| Sweep.DeleteAllSweeps | Code-Server/include/apr_ring.h:404-407 | a body that always deletes is such a body; it empties the brigade and takes just its buckets out of memory |
| Sweep.DeletesLeave | Code-Server/include/apr_ring.h:404-407 | the head is then in its INIT state and no other remaining field is written |
| Arena.Memory.DeleteEach | Code-Server/include/apr_ring.h:404-407 | the loop on the heap with a deleting body destroys and frees every bucket once, in order, and nothing else |
| Sweep.MoveAllSweeps | Code-Server/include/apr_ring.h:404-407 | a body that relinks every bucket into another brigade is such a body too, and ends with the brigades and places of one CONCAT |
| Sweep.MovesAreConcat | Code-Server/include/apr_ring.h:338-344 | all those moves together leave every link of the graph as one CONCAT does |
| Arena.Memory.MoveEach | Code-Server/include/apr_ring.h:404-407 | the loop on the heap with the moving body visits every bucket, frees none and calls nothing, and ends in the heap that one CONCAT gives |
| Loops.CourseDecides | Code-Server/include/apr_ring.h:391-394 | for any body: FOREACH, with NEXT read after the body, ends at its own head with what it visited and the memory it has then, goes on while its cursor is elsewhere, and fails exactly at a turn that frees the current element or fails itself |
| Loops.ForeachCourse | Code-Server/include/apr_ring.h:391-394 | every FOREACH goes such a course |
| Loops.SafeCourseDecides | Code-Server/include/apr_ring.h:404-407 | the same for FOREACH_SAFE, with NEXT read before the body, and read of the sentinel too; it fails exactly at a turn that frees the next element |
| Loops.ForeachSafeCourse | Code-Server/include/apr_ring.h:404-407 | every FOREACH_SAFE goes such a course |
| Loops.ForeachSafeExact | Code-Server/include/apr_ring.h:404-407 | for any body, also one that reads links, allocates or frees: all elements are visited, once each and in order, exactly when no turn changes or frees NEXT of the element that comes next; the memory is then what the body leaves run on each in turn |
| Loops.ForeachExact | Code-Server/include/apr_ring.h:391-394 | for the plain FOREACH exactly when no turn changes NEXT of the element it is given; the memory likewise |
| Loops.TameIsUndisturbed | Code-Server/include/apr_ring.h:396-407 | the bodies allowed in the heap loop meet the condition |
| Loops.TameForeachSafe | Code-Server/include/apr_ring.h:396-407 | so with such a body FOREACH_SAFE visits what the brigade held and leaves the memory of all its operations in one long run |
| Loops.DeletingNextFails | Code-Server/include/apr_ring.h:396-407 | a body that deletes the next bucket makes FOREACH_SAFE read freed memory |
| Loops.RemovedNextIsVisited | Code-Server/include/apr_ring.h:396-407 | a body that removes the next bucket does not stop that bucket being visited |
| Loops.MovingForeachNeverEnds | Code-Server/include/apr_ring.h:391-394 | the plain FOREACH with the moving body goes to the other brigade's head after one turn and never ends |
| Misuse.StaleRemoveIff | Code-Server/include/apr_ring.h:375-382 | a second REMOVE touches only allocated links and leaves all brigades and singletons as they were exactly when the two links the bucket points at are allocated and, where they are not themselves strays, point at each other |
| Misuse.StaleDeleteIff | Code-Server/include/apr_buckets.h:1005-1020 | deleting a bucket that was removed before is harmless under exactly the same condition |
| Misuse.StaleRemoveCanFault | Code-Server/include/apr_buckets.h:1005-1020 | after removing a bucket and deleting its old predecessor, removing it again touches freed memory |
| Misuse.StaleRemoveCanBeIdle | Code-Server/include/apr_ring.h:375-382 | after its old neighbours have been removed too, removing it again changes links and harms nothing |
| Misuse.StaleRemoveDropsNewcomer | Code-Server/include/apr_ring.h:375-382 | removing it again after another element took its place drops that element from the ring |
| Misuse.InsertKeepsAllIff | Code-Server/include/apr_buckets.h:354-415 | after any of the four inserts, of a bucket next to itself included, every brigade passes the check exactly when the bucket was in no brigade |
| Misuse.InsertBesideItself | Code-Server/include/apr_buckets.h:354-415 | inserting a placed bucket next to itself, by any of the four inserts, points it at itself both ways and writes nothing else |
| Misuse.DebugInsertAbortsIff | Code-Server/include/apr_buckets.h:354-415 | the check a debug build makes after an insert fails exactly when the bucket was in the target's own brigade and is not the target itself; taken from another brigade, it breaks that brigade unnoticed |
| Hooks.HookPoint.Register | Code-Server/include/apr_hooks.h:143-161 | registration creates the array on first use and appends the hook with its ordering data and the current name |
| Hooks.HookPoint.RunVoid | Code-Server/include/apr_hooks.h:179-202 | every hook is called, in order, whatever is returned, each in the state the one before left; probes ENTRY, one INVOKE and COMPLETE per hook, RETURN, all values 0 |
| HookLaws.VoidProbesAt | Code-Server/include/apr_hooks.h:192-197 | those probes, position by position |
| Hooks.HookPoint.RunAll | Code-Server/include/apr_hooks.h:222-250 | calls hooks in order, each in the state the one before left, up to the first that returns neither `ok` nor `decline`; returns that value, or `ok`; the RETURN probe carries the value returned |
| Hooks.HookPoint.RunFirst | Code-Server/include/apr_hooks.h:267-295 | likewise up to the first that does not decline; returns its value, or `decline` |
| Hooks.HookPoint.RunAllOptional | Code-Server/include/apr_optional_hooks.h:90-110 | early returns and no reset of `rv`: the same calls, final state and value as RUN_ALL, unregistered case included |
| Hooks.Stop | Code-Server/include/apr_hooks.h:236-244 | the stopping hook is the first whose result does not pass |
| Hooks.RunExact | Code-Server/include/apr_hooks.h:236-244 | threading the state through the calls and stopping in time determine the calls, the final state and the value: there is exactly one run for every list of hooks and stopping rule |
| HookLaws.RunsNest | Code-Server/include/apr_hooks.h:179-295 | the call trace of RUN_FIRST is a prefix of RUN_ALL's, which is a prefix of VOID's |
| HookLaws.SameCallsIff | Code-Server/include/apr_hooks.h:222-295 | RUN_FIRST and RUN_ALL make the same calls exactly when RUN_FIRST is not stopped by `ok` with hooks still to come |
| HookLaws.OkIsDecline | Code-Server/include/apr_hooks.h:222-295 | with `ok` and `decline` equal, calls and value coincide |
| HookLaws.CallsExact | Code-Server/include/apr_hooks.h:236-244 | a run makes `n` calls exactly when all before the last pass and the last, if not of all hooks, does not |
| HookLaws.AllReturnsOkIff | Code-Server/include/apr_hooks.h:204-206 | RUN_ALL returns `ok` exactly when every hook returned `ok` or `decline`, and never a distinct `decline` |
| HookLaws.FirstReturnsDeclineIff | Code-Server/include/apr_hooks.h:252-295 | RUN_FIRST returns `decline` exactly when every hook declined |
| HookLaws.CallProbesAt | Code-Server/include/apr_hooks.h:238-240 | the probes are one INVOKE and COMPLETE per call made, in order, with the hook's own name and the value it returned |
| HookLaws.CallProbesBalanced | Code-Server/include/apr_hooks.h:231-249 | every INVOKE is closed by the COMPLETE of the same hook before anything else happens |
| HookLaws.RegisteredLast | Code-Server/include/apr_hooks.h:153-154 | a hook registered last leaves a run that some earlier hook stops as it is; otherwise it is called last, in the state the others left |
| Align.AndIsBitwise | Code-Server/include/apr_general.h:136-137 | the model's `&` is the bitwise one |
| Align.NotIsBitwise | Code-Server/include/apr_general.h:136-137 | the model's `~` is the bitwise one |
| Align.AlignLeastMultipleIff | Code-Server/include/apr_general.h:135-137 | in unsigned arithmetic of any width (a type not narrower than `int`), for every size and power of two: the least multiple not below the size exactly when size + boundary - 1 does not overflow, and 0 when it does |
| Align.AlignIdempotent | Code-Server/include/apr_general.h:136-137 | aligning twice is aligning once, overflow or not |
| Align.AlignMonotoneIff | Code-Server/include/apr_general.h:136-137 | a larger size is aligned no lower, exactly unless it overflows while the smaller one is non-zero and does not |
| Align.AlignAbsorbs | Code-Server/include/apr_general.h:136-137 | aligning to a boundary and then to a larger one is aligning to the larger one, overflow or not |
| Align.AlignDefaultExact | Code-Server/include/apr_general.h:139-140 | the default rounds up by less than 8 to a multiple of 8 exactly when size + 7 does not overflow, and gives 0 when it does |
| Align.AlignMixedIff | Code-Server/include/apr_general.h:136-137 | for unsigned operands of any widths, promoted and converted as C does: the least multiple not below the size exactly when size + boundary fits the boundary's type or, if that is promoted, the wider of `int` and the size's type |
| Align.AlignPromoted | Code-Server/include/apr_general.h:136-137 | with both types narrower than `int` that is always so, as long as the sum is defined |
| Align.NarrowBoundaryLosesSize | Code-Server/include/apr_general.h:136-137 | a boundary type narrower than the size's but not than `int` turns a size equal to its range into 0 |
| Align.UnsignedIntBoundary | Code-Server/include/apr_general.h:136-137 | the instance 2^32 aligned to 8 |
| Align.UnsignedCharBoundary | Code-Server/include/apr_general.h:136-137 | a boundary that promotes to `int` does no harm: 300 aligned to 8 is 304, in 64 bits and in 16 |
| Align.AlignMixedIsAlignTo | Code-Server/include/apr_general.h:136-137 | with a size type not narrower than `int`, and a boundary of the same type or one that promotes, the text is the arithmetic of one width used above |
| Align.OnlyPowersOfTwo | Code-Server/include/apr_general.h:135-137 | the mask is right for every size that does not overflow exactly when the boundary is a power of two; otherwise it fails on size 1 |

## Left out

- Sentinel address arithmetic (`APR_OFFSETOF`), `volatile` and struct layout: the sentinel is the head link itself.
- Null links: every link leads to some link, allocated or not; reading a null field is not distinguished from leaving allocated memory.
- One element on several rings through several link fields: each field is a separate graph, so nothing new would be said.
- The printing forms `APR_RING_CHECK` and `APR_RING_CHECK_ELEM`: the same walk with output and a `break` in place of the assertions.
- Arena.Memory.ForeachSafe: on the heap the body is a list of operations per bucket, fixed before the loop starts, so it neither allocates nor reads links; bodies that do are covered on graphs only, by `Loops.ForeachSafeExact`.
- Bucket contents, types, read, split, setaside, copy and reference counts: only prototypes and function pointers; destroy and free are recorded as events.
- Brigade create, destroy, cleanup, split, partition, flatten and the rest of the brigade functions: prototypes without bodies; a new brigade is a head after INIT, a new bucket one after ELEM_INIT.
- Sorting of hooks by predecessors, successors and order, `apr_hook_sort_register`, deregistration and debug output: not defined in these headers; hooks run in the order of the array.
- Hooks that register hooks while a run is in progress: the array is fixed during a run.
- The user data and argument list handed to probes: constant through a run. The VOID runner's callbacks have no result; the model's result is dropped and its probes carry 0.
- Signed operands of APR_ALIGN, and a signed sum that overflows because both operands are narrower than `int`: sizes and boundaries are unsigned, and that overflow is undefined in C.
- The package loader, bundler and packages in Lua, the remaining headers and the server's configuration: outside this model.
