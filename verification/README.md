# Verified models of the lock-tracing tools

This project models, in Dafny, the parts of the repository whose correctness is hardest to see, and proves
what they are for. `dafny verify dfyconfig.toml` checks all of it. Five groups of modules share little
but `Wrappers` and `Unsigned`.

**The transaction engine of the trace converter** (`TxnEngine` to `Converter`). A stream of P, V, allocation,
free and access events drives stacks of TXNs, one per execution context, and locks with two sides, two
counters and a stack of positions. `TxnEngine` is the engine on values; `TxnReference` is what it should do,
a list of held sub-locks per context; `TxnAccounting`, `TxnAttribution` and `TxnReference` prove what one
operation keeps, `TraceTheorems` what whole runs keep, up to the claim the converter exists for: each memory
access is linked to exactly the locks its context held at that moment. `TraceSteps` is about every run at all,
`TraceLoss` about what a conflict between the two sides of a lock costs: in one context the claim holds exactly
when no flush erases an entry under a TXN with accesses. `Grants`, `TraceStarts` and `TraceSamples` are about the
start a row gives for a lock: the last outstanding P on it, when every V ends that one. `TraceContexts` says what
context tracing changes, `TraceTimes` that accesses happen while their TXNs run, `TraceEvents` what single events
come to. `LockManager` and `Converter` are the objects with their fields updated in place; every method is proved
to compute what the engine says. A lock is named by its number in an arena, so that it stays the same lock when
its address is forgotten.
"Side conflict" means that a P on one side of a lock finds the other side held.

**The red-black tree and its clients** (`RbTree`, `RbErase`, `RbOrder`, `RbClients`). Nodes are heap objects with
parent pointers. A `Tree` value describes what is below a place, a `Path` what is around it; rotations,
recolouring and both fix-up loops are proved at any place of any tree. The function table of a compilation
unit and string lists are proved on top.

**Hypothesis mining and winner selection** (`LockLists`, `Support`, `Mining`, `Selection`, `Hypothesizer`). Which
lock sets are enumerated, how often each order of each set was seen, the graph built on the way, and what the
four strategies make of it although they prune. Support is an exact fraction.

**Space-filling curves** (`Curves`, `SfcTool`). The Hilbert curve and the spiral as bijections, the loops and the
state machine that compute them in 32 bits, and the image drawn along them.

**Two in-place buffer algorithms** (`Gcov`, `OptionParser`). The coverage-file reader with refill, growth and
jumps is a plain cursor over the file; the option parser permutes the argument vector into a stable
partition.

Where code and documentation differ the model follows the code:

- The drawing tool fills the image with green and blue of the default colour exchanged
  (coverage/sfctool/sfctool.cc:318); so does `SfcTool.Fill`, which has the default colour exactly when the two
  are equal. `SfcTool.BlueComesOutGreen` is the plainest case.
- "finishTXN has cleaned up all all TXNs" (convert/main/rwlock.cc:32) when a writer flushes readers; but a TXN
  with accesses beneath the match that is a further reader entry of that lock goes without a row, and one
  above such an entry is no longer linked to it. `TxnConflict.FlushFaithfulIff` has the exact condition for one
  flush, `TraceLoss.OneContextIsLinkedIff` for a whole run in one context, `TraceLoss.LostTxn` an input.
- "the order does not matter because we record the start timestamp" (convert/main/lockmanager.cc:118-119): a lock
  taken again has the later start, so that starts can contradict the order the locks were taken in.
  `TraceStarts.StartsFollowFirstPs` has the exact condition, `TraceSamples.FirstTakenStartsLast` an input.
- The start itself is that of a P which is over when a V in one context takes the position another context put
  on top (convert/main/rwlock.cc:93-121 and 211-245). `TraceStarts.TellsIffInOrder` has the exact condition,
  `TraceSamples.StartOfAnEndedP` an input.
- `gcov_sync` (coverage/bb2lines/gcov-io.cpp:172) back to the place where a read has failed leaves the file where
  it is. `Gcov.Reader.Sync` has the exact condition, `Gcov.ReadBack` the cases: the next read gets zero although
  the cursor is inside the file.
- `gcov_read_words` (coverage/bb2lines/gcov-io.cpp:136-139) counts the room in its buffer in bytes, as an
  unsigned. A first request for 2^29 words fails although the file has them (`Gcov.NoRoom`); requests of up to
  2^27 words never fail for that reason (`Gcov.RoomForAll`), and `Gcov.Reader.ReadWords` has the exact condition.

## Model

| member | source | states |
|---|---|---|
| `TraceTheorems.AccessesAreLinkedToHeldLocks` | convert/main/convert.cc:735-873 | the point of the tool: in every run in which no P finds the other side of its lock held (any contexts, any recursion flags), each written access is linked, through one TXN row, to exactly the sub-locks its context held when the access happened, and to no TXN iff it held none |
| `TraceContexts.LinkedByContext` | convert/main/convert.cc:307-325 | what "its context" is: with context tracing the access is linked to the sub-locks with an outstanding P of its event's own context, without it to those of any context |
| `TraceContexts.RunOneStack` | convert/main/convert.cc:687-691 | without context tracing no context but the dummy ever has a TXN, in any run |
| `TraceContexts.ContextsMakeNoDifference` | convert/main/convert.cc:307-313 | without context tracing, runs whose events differ in nothing but their contexts write the same TXN rows, the same locks_held rows and the same links |
| `TraceTimes.AccessesHappenInTheirTxns` | convert/main/lockmanager.cc:103-113 | in every run at all whose timestamps do not decrease: an access that is linked to a TXN has its timestamp between the start and the end in that TXN's row |
| `TraceTimes.StepInTime` | convert/main/convert.cc:735-868 | one event keeps that for the rows written, and for the accesses that wait and the TXNs still open |
| `TraceLoss.OneContextIsLinkedIff` | convert/main/rwlock.cc:11-121 | in one context without the recursive flag, malformed orders and side conflicts included, the claim holds for a run if and only if no writer's flush finds a TXN with accesses over a reader entry it erases |
| `TraceTheorems.OneContextIsLinked` | convert/main/rwlock.cc:24-91 | one half of that: as long as every flush is faithful all rows are right |
| `TraceLoss.RunLoses` | convert/main/lockmanager.cc:154-173 | the other half: after the first flush that is not, some access is linked to a TXN that never names a sub-lock held when it happened, whatever comes later |
| `TraceLoss.LostTxn` | convert/main/rwlock.cc:24-36 | an input on which that happens: P_READ, an access, P_READ, P_WRITE; in the output an access row names a TXN that has no row |
| `TraceLoss.FlushErases` | convert/main/lockmanager.cc:156-172 | a reader entry that a flush finds below the match has no row and no place on a stack afterwards |
| `TraceSteps.NoIdIsWrittenTwice` | convert/main/lockmanager.cc:56-68 | in every run at all, side conflicts, recursion and any contexts included: no TXN id is written twice, no lock twice for a TXN, and no lock for a TXN without a row |
| `TraceSteps.EveryAccessIsWritten` | convert/main/convert.cc:263-334 | in every run at all, too: every TXN row has at least one access, and the written accesses are all recorded ones, each once and in order, but those a discard took: of address 0 at the end, or of the preset address 0x1337 at an event with action p or v |
| `TraceEvents.RowsCarryEvents` | convert/main/convert.cc:832-857 | and in every run those accesses are, one each and in that order, the access events whose base is a known allocation: same timestamp, kind, address, size and context, and the id of that allocation |
| `TraceEvents.WritesAllBut` | convert/main/convert.cc:263-334 | what is discarded before a P or V action: the last two waiting accesses, if they are a read and then a write of the lock's address, of one size and at one time; everything else is written in order |
| `TraceEvents.StepAllocations` | convert/main/convert.cc:739-820 | an allocation is known from its first allocation event of a known type on until it is freed, and no two known ones share an id |
| `TraceEvents.TargetIs` | convert/main/convert.cc:217-260 | a lock that is not known is created by a P in an allocation or a data section, or if all locks are wanted; everything else about an unknown lock is ignored, and an unknown type ends the program |
| `TraceEvents.EmbeddedIff` | convert/main/convert.cc:225-231 | the closest allocation at or below the address decides; when none reaches into the next one, that is any allocation |
| `TraceEvents.FreedIsForgotten` | convert/main/lockmanager.cc:37-54 | a free event leaves no known lock address in the freed area and all others with their locks |
| `TraceEvents.InBoundsIff` | convert/main/convert.cc:838-843 | the check of an access is that it lies in its allocation, where no sum wraps around |
| `TraceSteps.StepStays` | convert/main/convert.cc:735-868 | what renewing stacks, changing locks and counting accesses keep, every event keeps |
| `TraceStarts.StartsTellLastPs` | convert/main/lockmanager.cc:117-141 | in a run without side conflicts, of any contexts, in which every P that ends is the last outstanding one on its lock: the start of each locks_held row is the timestamp of the last P on that lock, over all contexts, that was outstanding when the row was written |
| `TraceStarts.OneContextStarts` | convert/main/rwlock.cc:24-121 | the same for one context without the recursive flag, side conflicts and malformed orders included, as long as flushes are faithful: no condition on the order of Vs is left |
| `TraceStarts.TellsIffInOrder` | convert/main/rwlock.cc:93-121 | that condition is exact: without side conflicts and with increasing timestamps, the position stacks give the outstanding Ps in every state of a run if and only if every P that ends is the last on its lock |
| `TraceSamples.StartOfAnEndedP` | convert/main/rwlock.cc:211-245 | an input that does not meet it: P_READ A at 1, P_READ A at 2 in another context, V_READ A in the first, an access in the second; its row says start 1, although only the P at 2 is outstanding |
| `TraceStarts.StartsFollowFirstPs` | convert/main/lockmanager.cc:117-119 | over every run with increasing timestamps: the rows of one TXN are written at one moment, and two of them that tell the last Ps have their starts in the order of the first Ps if and only if, among the Ps outstanding then, neither lock was taken both before and after all Ps on the other |
| `TraceSamples.FirstTakenStartsLast` | convert/main/lockmanager.cc:117-141 | an input where the order is lost: P_READ A at 1, P_READ B at 2, P_READ A at 3, an access; lock A, taken first, has start 3, behind lock B with start 2 |
| `TraceStarts.StepRowsTop` | convert/main/lockmanager.cc:121-141 | every row an event writes, in any run, has the start of the last position its lock had before the event, and rows written earlier stay |
| `TraceStarts.AcquireStamps` | convert/main/rwlock.cc:24-91 | a P, with the flush or the closing it begins with, changes the positions of its lock as it changes the list of outstanding Ps |
| `TraceStarts.ReleaseStamps` | convert/main/rwlock.cc:93-121 | a V, in whatever context it takes the TXN from, keeps positions and outstanding Ps alike if the P it ends is the last on its lock, and parts them if it is not |
| `Grants.FirstOrderIsLastOrder` | convert/main/lockmanager.cc:117-119 | last Ps on two locks come in the order of first Ps exactly if neither lock encloses the other |
| `TraceTheorems.StepKeeps` | convert/main/convert.cc:735-868 | one event without side conflict keeps the whole-run invariant; it throws exactly when an operation does not fit the kind of its lock, ends the program exactly on an access outside its allocation or an unknown lock type, and never pops an empty stack |
| `TraceTheorems.RunKeeps` | convert/main/convert.cc:735-868 | the invariant over any sequence of events without side conflicts |
| `TraceTheorems.FinalKeeps` | convert/main/convert.cc:871-873 | the final flush and closeAllTXNs leave no open TXN and no waiting access, and every row right |
| `TraceTheorems.FlushKeeps` | convert/main/convert.cc:298-333 | attributing a waiting access when the next lock event comes equals attributing it at once |
| `TraceTheorems.SingleContextInStep` | convert/main/rwlock.cc:24-121 | in one context without the recursive flag, on any order of P, V, allocation and access events, malformed or not: counters, positions and stacks stay in step and the run never pops an empty stack |
| `TraceTheorems.InitialInStep` | convert/main/rwlock.h:79-85 | a run starts in step |
| `TraceTheorems.AllocFollows` | convert/main/lockmanager.cc:214-272 | a new lock changes nothing about what is held or written |
| `TraceTheorems.DeleteFollows` | convert/main/lockmanager.cc:37-54 | forgetting the addresses of freed locks leaves the TXNs of those locks, and all attribution, as they were |
| `TxnReference.TransitionFollows` | convert/main/rwlock.cc:11-249 | every lock operation without side conflict does what the reference does: a list of held sub-locks per context, where P appends, after forgetting what the context holds on the other side, and V removes the last match, in the context itself or else in the lowest one that has it |
| `TxnReference.TransitionFollowsSingle` | convert/main/rwlock.cc:24-121 | in one context without recursive locks so does every operation that succeeds, side conflicts included, unless a writer's flush is not faithful |
| `TxnReference.SameHolder` | convert/main/lockmanager.cc:7-19 | the context findTXN steals from is the lowest one whose list has the sub-lock |
| `TxnReference.HolderIs` | convert/main/lockmanager.cc:7-19 | in the reference a V ends a P of its own context if it has one, else of the lowest context that has one |
| `TxnReference.AcquireFollows` | convert/main/rwlock.cc:24-91 | a P in step with the reference, with attribution kept |
| `TxnReference.ReleaseFollows` | convert/main/rwlock.cc:93-121 | a V in step with the reference, with attribution kept |
| `TxnAccounting.TransitionNoConflict` | convert/main/rwlock.cc:24-121 | without side conflicts, in any number of contexts: per lock as many positions as TXNs on all stacks, reader_count equal to the reader TXNs, writer_count at least the writer TXNs, never both sides |
| `TxnAccounting.TransitionSingleCtx` | convert/main/rwlock.cc:159-244 | in one context, side conflicts included: the same, with at most one writer TXN and never readers and a writer together; it throws exactly on a missing side, or on a P that finds both counters positive |
| `TxnAccounting.EntriesAreHeld` | convert/main/lockmanager.cc:120-145 | in such states the "not held" and "stack underflow" branches of finishTXN are not taken |
| `TxnAccounting.FinishProj` | convert/main/lockmanager.cc:103-200 | finishTXN refines "remove the topmost match": the (lock, side) list of the context is the old one without it, a miss keeps the list, other contexts are untouched |
| `TxnAccounting.FlushedCount` | convert/main/lockmanager.cc:156-172 | with removeReader a matched reader takes all reader entries of its lock along, a matched writer only itself when there are no readers |
| `TxnAccounting.FinishTop` | convert/main/lockmanager.cc:56-68 | finishing the topmost TXN just drops it, so closing a context ends |
| `TxnAccounting.TransitionIdentity` | convert/main/rwlock.h:220-238 | a lock operation creates no lock, changes no id and no address |
| `TxnAttribution.FinishRenews` | convert/main/lockmanager.cc:103-198 | with or without removeReader: the entries above the match get fresh, distinct ids, the new timestamp and context and a zero counter; those below stay, but for the reader entries removeReader erases; each TXN torn down that has accesses gets one row, topmost first, with its id, the time and context it began with, and the time and context it is seen to end in, and no other row is written |
| `TxnAttribution.HeldRowsTell` | convert/main/lockmanager.cc:119-145 | the locks_held rows of a TXN: each is what some entry of its stack gives (the id of its side of a lock that is held, the start of that lock's last position), each id an entry gives has a row, and none has two |
| `TxnAttribution.FinishKeepsIds` | convert/main/lockmanager.cc:154-198 | with or without removeReader the ids on all stacks stay distinct, below the next one and not yet written, and nothing is written twice |
| `TxnAttribution.FinishKeepsAttributionIf` | convert/main/lockmanager.cc:103-189 | tearing down, erasing readers and rebuilding keeps every access linked to what was held at that moment, if each TXN with accesses below the match keeps all that is beneath it |
| `TxnAttribution.FinishKeepsAttribution` | convert/main/lockmanager.cc:103-189 | without removeReader it always does |
| `TxnAttribution.StartKeepsAttribution` | convert/main/lockmanager.cc:203-212 | so does a new TXN |
| `TxnAttribution.RecordKeepsAttribution` | convert/main/convert.cc:307-325 | an access written against the active TXN is linked to what its context holds |
| `TxnConflict.FlushFaithfulIff` | convert/main/lockmanager.cc:154-173 | when a writer flushes readers, every TXN with accesses gets its row or survives with the same entries below it exactly when no other reader entry of that lock lies at or below such a TXN beneath the match |
| `TxnConflict.FlushedIsWithout` | convert/main/lockmanager.cc:154-173 | a flush takes exactly the entries of the flushed side off the list of sub-locks |
| `LockManagement.RWLock.Transition` | convert/main/rwlock.h:220-238 | the objects' operation computes the engine's transition, or throws as it says |
| `LockManagement.RWLock.AcquireWrite` | convert/main/rwlock.cc:24-91 | P on the writer side, in place |
| `LockManagement.RWLock.AcquireRead` | convert/main/rwlock.cc:159-209 | P on the reader side, in place |
| `LockManagement.RWLock.Released` | convert/main/rwlock.cc:93-121 | V on either side, in place: the TXN is finished here or where it is found, the position goes only if it was, the counter goes down but not below zero |
| `LockManagement.RWLock.FlushSide` | convert/main/rwlock.cc:29-42 | the flush of the other side: its positions and its counter go only if there was a TXN to finish |
| `LockManagement.RWLock.Reacquire` | convert/main/rwlock.cc:43-59 | a repeated P on a writer side that is not recursive closes the old TXN |
| `LockManagement.RWLock.InitIds` | convert/main/rwlock.h:180-183 | each side that exists gets the next id, reader side first, and a missing one the largest unsigned number |
| `LockManagement.LockManager.FinishTxn` | convert/main/lockmanager.cc:87-201 | the loops over the deques compute the engine's finish; the TXN rows written are those of the entries with accesses that were torn down, topmost first, each with its own begin and this end; the result says whether (lock, side) was on the stack |
| `LockManagement.LockManager.TearDown` | convert/main/lockmanager.cc:106-189 | the loop that closes TXNs down to the match, writes one row for each that has accesses, and renews them |
| `LockManagement.LockManager.HeldRows` | convert/main/lockmanager.cc:119-145 | the locks_held rows of a TXN: one for each lock id on its stack whose lock is held, with the start of that lock's last position |
| `LockManagement.LockManager.EraseReaders` | convert/main/lockmanager.cc:156-172 | the erasing loop drops exactly the reader entries of the lock |
| `LockManagement.LockManager.StartTxn` | convert/main/lockmanager.cc:203-212 | a fresh TXN on top |
| `LockManagement.LockManager.FindTxn` | convert/main/lockmanager.cc:7-19 | the lowest context with the sub-lock on its stack, or the one given |
| `LockManagement.LockManager.IsOnTxnStack` | convert/main/lockmanager.cc:70-77 | membership on the stack |
| `LockManagement.LockManager.CloseAllTxns` | convert/main/lockmanager.cc:56-68 | all contexts closed, in the order of the map |
| `LockManagement.LockManager.DeleteLockByArea` | convert/main/lockmanager.cc:37-54 | exactly the addresses in the freed area are forgotten, with the wrap-around of their sum; the others keep their locks |
| `LockManagement.LockManager.AllocLock` | convert/main/lockmanager.cc:214-272 | a new lock object with fresh ids, known at its address |
| `TraceConverter.Converter.Convert` | convert/main/convert.cc:640-873 | the program on a whole event sequence computes the run; without side conflicts, or in one context with faithful flushes, all its rows are linked exactly |
| `TraceConverter.Converter.Finish` | convert/main/convert.cc:871-873 | the end of the input, on the program's state |
| `TraceConverter.Converter.HandleEvent` | convert/main/convert.cc:735-868 | one round of the event loop |
| `TraceConverter.Converter.HandlePV` | convert/main/convert.cc:217-262 | an unknown lock is created on P and ignored on V or outside all known memory; then the operation |
| `TraceConverter.Converter.FindOrCreate` | convert/main/convert.cc:217-260 | which lock an operation goes to |
| `TraceConverter.Converter.IsEmbedded` | convert/main/convert.cc:225-231 | whether the last allocation that starts at or before the address reaches over it |
| `TraceConverter.Converter.WriteMemAccesses` | convert/main/convert.cc:263-334 | the waiting accesses are written in order against the active TXNs and counted there |
| `RbRotate.RotateLeft` | convert/dwarves/rbtree.c:28-49 | the rotation in place, in any surroundings, with all parent links |
| `RbRotate.RotateRight` | convert/dwarves/rbtree.c:51-72 | its mirror image |
| `RbInsert.InsertColor` | convert/dwarves/rbtree.c:74-137 | from a red node with at most the one clash with its parent, at any place of any tree: a red-black tree of the same order and nodes; the loop ends as the clash moves up |
| `RbInsert.RotateRightCase` | convert/dwarves/rbtree.c:83-106 | with a black uncle two rotations end the clash |
| `RbEraseColor.EraseColor` | convert/dwarves/rbtree.c:139-217 | from a subtree one black node short, at any place: a red-black tree of the same order and nodes; the loop ends |
| `RbEraseColor.FixLeft` | convert/dwarves/rbtree.c:146-179 | one round on the left: done, or the shortage is one level higher |
| `RbErase.EraseAt` | convert/dwarves/rbtree.c:219-284 | erasing any node of a red-black tree leaves a red-black tree, with all links right, whose order is the old one without it |
| `RbLaws.HeightBound` | convert/dwarves/rbtree.c:74-284 | what a red-black tree is for: with n nodes its height is at most twice the logarithm of n + 1 |
| `RbErase.Successor` | convert/dwarves/rbtree.c:230-235 | the walk to the node that follows in order |
| `RbErase.Substitute` | convert/dwarves/rbtree.c:247-262 | that node takes the place, the colour and the links of the erased one |
| `RbErase.TakeOut` | convert/dwarves/rbtree.c:266-279 | taking out a node with at most one child leaves its place lawful, or one black node short |
| `RbOrder.Erase` | convert/dwarves/rbtree.c:219-284 | erasing the node at position k of the order |
| `RbOrder.First` | convert/dwarves/rbtree.c:289-299 | the first node of the order |
| `RbOrder.Next` | convert/dwarves/rbtree.c:313-339 | the next one: walking gives the order |
| `RbOrder.Climb` | convert/dwarves/rbtree.c:331-338 | up while we come from the right |
| `RbLink.Link` | convert/dwarves/rbtree.h:165-172 | a red leaf at the free link a descent ended at |
| `RbLink.LinkAndColor` | convert/dwarves/dwarves.c:427-428 | linking and recolouring: a red-black tree whose order has the node where the descent put it |
| `RbShape.ZipIff` | convert/dwarves/rbtree.h:113-126 | the heap seen from any place of a tree and from its root are the same |
| `FunctionTables.FunctionTable.Insert` | convert/dwarves/dwarves.c:412-429 | behind all functions that start at the same address or before it, in front of the others |
| `FunctionTables.FunctionTable.FindFunctionAt` | convert/dwarves/dwarves.c:762-787 | what is found contains the address; when no two ranges overlap in tree order, something is found iff some function contains it |
| `FunctionTables.ContainsIff` | convert/dwarves/dwarves.c:762-787 | a function contains the addresses that lie less than its size behind its start, and none if its range wraps around |
| `StrLists.StrList.Add` | convert/dwarves/dutil.c:57-86 | -EEXIST iff the string is there, -ENOMEM iff memory is short, else exactly it is added |
| `StrLists.StrList.HasEntry` | convert/dwarves/dutil.c:148-170 | membership |
| `StrLists.StrList.Remove` | convert/dwarves/dutil.c:142-146 | exactly the string of that node goes |
| `StrLists.StrList.Delete` | convert/dwarves/dutil.c:126-140 | the walk that removes every node ends with none left |
| `StrLists.AroundChild` | convert/dwarves/dutil.c:63-76 | each comparison of a descent leaves the string's place on the side it goes to |
| `LockLists.Combination.ContainsLocks` | hypothesizer/hypothesizer.cc:121-139 | the walk over two ascending lists decides containment, multiplicities included |
| `LockLists.Combination.LockOrder` | hypothesizer/hypothesizer.cc:141-165 | the locks asked for, each as often as asked for, in the order they are held |
| `LockLists.OrderFollowsFirst` | hypothesizer/hypothesizer.cc:150-163 | a lock held several times counts from when it was first taken |
| `LockLists.OrderProjects` | hypothesizer/hypothesizer.cc:141-165 | leaving locks out does not change the order of the others |
| `LockLists.OrderLocks` | hypothesizer/hypothesizer.cc:141-165 | what comes out is what is both held and asked for |
| `Lex.Trichotomy` | convert/dwarves/dutil.c:68-75 | the order of lists and of strings is total |
| `Lex.BelowIff` | convert/dwarves/dutil.c:68-75 | that order compares at the first place where the lists differ, and puts a list in front of those it begins |
| `Support.SupportShrinks` | hypothesizer/hypothesizer.cc:687-709 | support never grows when locks are added, for the most frequent order as for all of them |
| `Support.CountProjects` | hypothesizer/hypothesizer.cc:698-705 | every observation of an order is one of its restriction to fewer locks |
| `Support.BestBounds` | hypothesizer/hypothesizer.cc:387-392 | the support is an upper bound for every order, of all there could be |
| `Support.RepresentativePermutes` | hypothesizer/hypothesizer.cc:387-392 | the order a hypothesis is reported in is one of its own locks |
| `Mining.TallyOn` | hypothesizer/hypothesizer.cc:698-705 | one more combination keeps the tally right: total, each order's count, and the split without loss |
| `Mining.MinedIsSound` | hypothesizer/hypothesizer.cc:743-773 | what was mined has all that selection relies on: parts of hypotheses, shrinking support, a reported order that tells hypotheses apart |
| `Mining.LevelsEnd` | hypothesizer/hypothesizer.cc:763-771 | when a level brings nothing new, or the limit is reached, nothing is missing |
| `Mining.LevelsBound` | hypothesizer/hypothesizer.cc:753-772 | a level that brings something is no deeper than the longest combination, so the endless loop ends |
| `Mining.BegunNext` | hypothesizer/hypothesizer.cc:717-739 | one lock further, the recursion adds exactly the ascending completions that start with it |
| `Hypothesizer.DiffHypotheses` | hypothesizer/hypothesizer.cc:289-307 | the difference in size if one list is a contiguous part of the other, else -1 |
| `Hypothesizer.InConflictList` | hypothesizer/hypothesizer.cc:309-316 | whether that order is in the list |
| `Hypothesizer.Member.AddHypothesisToGraph` | hypothesizer/hypothesizer.cc:660-685 | the new hypothesis gets exactly the edges from itself without its last and without its first lock; the assertions hold, and the walk over repeatedly queued nodes ends |
| `Hypothesizer.Member.EvaluateHypothesis` | hypothesizer/hypothesizer.cc:687-709 | a hypothesis is tallied once, and linked |
| `Hypothesizer.Member.FindHypothesesRek` | hypothesizer/hypothesizer.cc:711-741 | exactly the ascending completions of the given length are added |
| `Hypothesizer.Member.FindHypotheses` | hypothesizer/hypothesizer.cc:743-773 | exactly the strictly ascending lists, up to the limit if there is one, that some combination contains, each with its tally, and the graph of all of them |
| `Hypothesizer.Member.MostFrequent` | hypothesizer/hypothesizer.cc:384-394 | the most frequent order, the first one in the order of the map among equals |
| `Hypothesizer.Member.EvaluateTopDown` | hypothesizer/hypothesizer.cc:583-658 | the callback keeps what makes the result optimal |
| `Hypothesizer.Member.EvaluateLockSet` | hypothesizer/hypothesizer.cc:531-581 | likewise |
| `Hypothesizer.Member.EvaluateSharpen` | hypothesizer/hypothesizer.cc:472-522 | likewise |
| `Hypothesizer.Member.EvaluateBottomUp` | hypothesizer/hypothesizer.cc:420-470 | likewise |
| `Hypothesizer.Member.Search` | hypothesizer/hypothesizer.cc:378-401 | the search ends although nodes are queued repeatedly, with the result of its strategy |
| `Hypothesizer.Member.DetermineWinningHypothesis` | hypothesizer/hypothesizer.cc:339-418 | the winner is the first of the conflict list if one was found; the list is what the strategy promises |
| `Hypothesizer.Member.Analyze` | hypothesizer/hypothesizer.cc:1342-1362 | a member from its combinations to its winner, in terms of the combinations alone. Top-down: if the accesses without locks are at least the no-lock part of all, no lock wins; else there is a winner iff some one-lock hypothesis reaches the threshold, and then the list is exactly the best supported non-empty hypotheses with the most locks. Lockset: exactly the largest held at every access in one order. Bottom-up and sharpen: equally frequent winners of one size within their bounds, and none of their extensions by a lock is |
| `Mining.TopDownWinners` | hypothesizer/hypothesizer.cc:583-658 | the result of top-down in terms of the observed combinations alone |
| `Mining.LockSetWinners` | hypothesizer/hypothesizer.cc:531-581 | the result of lockset in the same terms |
| `Mining.BottomUpWinners` | hypothesizer/hypothesizer.cc:420-470 | the result of bottom-up: accepted, or held at every access, and every extension by a lock is rarer and not accepted |
| `Mining.SharpenWinners` | hypothesizer/hypothesizer.cc:472-522 | the result of sharpen: at least (1 - f) to the number of locks of all accesses, and every extension by a lock keeps less than 1 - f of them |
| `Mining.LockedOrNot` | hypothesizer/hypothesizer.cc:586-590 | accesses with locks and those without make up all |
| `Selection.TopDownIsOptimal` | hypothesizer/hypothesizer.cc:583-658 | top-down is globally optimal despite pruning: a winner iff some one-lock hypothesis reaches the threshold, and then the conflict list is exactly the hypotheses of maximal support among the non-empty ones with the most locks, each once |
| `Selection.LockSetIsOptimal` | hypothesizer/hypothesizer.cc:531-581 | lockset ends with exactly the largest hypotheses of full support |
| `Selection.LockSetReaches` | hypothesizer/hypothesizer.cc:537-539 | every hypothesis of full support is visited despite pruning |
| `Selection.SharpenIsLocal` | hypothesizer/hypothesizer.cc:472-522 | sharpen: support at least (1 - f) to the number of locks, equal entries only, never none, and every extension of a winner by a lock loses more than f |
| `Selection.SharpenReplace` | hypothesizer/hypothesizer.cc:499-521 | each replacement keeps that bound, in whatever order nodes come |
| `Selection.BottomUpIsLocal` | hypothesizer/hypothesizer.cc:420-470 | bottom-up: the winner is above the threshold or the root, and no extension of a winner by a lock is |
| `Selection.ProgressEnds` | hypothesizer/hypothesizer.cc:378-416 | what every round keeps, with an empty queue, is the result of the strategy |
| `Selection.QueueNext` | hypothesizer/hypothesizer.cc:663-684 | the measure that ends both queue loops |
| `HilbertCurve.NumberOfPoint` | coverage/sfctool/sfctool.cc:173-186 | different positions below 4^k get different points |
| `HilbertCurve.PointOfNumber` | coverage/sfctool/sfctool.cc:173-186 | every point of the 2^k square gets a position |
| `HilbertCurve.StaysInside` | coverage/sfctool/sfctool.cc:173-186 | every point is in the square |
| `HilbertCurve.Continuous` | coverage/sfctool/sfctool.cc:173-186 | consecutive points are one step apart in one coordinate |
| `SpiralCurve.SpiralIsSquare` | coverage/sfctool/sfctool.cc:116-162 | for every dim, odd or even, the first dim * dim points are pairwise distinct and fill the square |
| `SpiralCurve.SpiralFills` | coverage/sfctool/sfctool.cc:134-161 | every point of the plane is reached, at the index its place tells |
| `SpiralCurve.SquareByIndex` | coverage/sfctool/sfctool.cc:121-128 | a point is in the square iff its index is below dim * dim |
| `SfcTool.Spiral.Next` | coverage/sfctool/sfctool.cc:134-161 | the state machine is at the next point of the spiral, in unsigned arithmetic |
| `SfcTool.Hilbert.GetCoords` | coverage/sfctool/sfctool.cc:173-186 | the loop computes the point of the curve, in 32 bits and without underflow, for any dim whose rounding fits |
| `SfcTool.Hilbert.Rot` | coverage/sfctool/sfctool.cc:195-208 | the quadrant's rotation |
| `SfcTool.BitsPlace` | coverage/sfctool/sfctool.cc:179-184 | the two bits of a position place a square as the right quadrant |
| `SfcTool.Lines.GetCoords` | coverage/sfctool/sfctool.cc:105-109 | column and row of a position |
| `SfcTool.RoundUp` | coverage/sfctool/sfctool.cc:301-305 | the least power of two that dim fits in, the side of the Hilbert square, for a dim up to 2^31; above that the doubling of an unsigned never ends |
| `SfcTool.Fill` | coverage/sfctool/sfctool.cc:315-320 | the filling has the default colour exactly when its green and blue are equal |
| `SfcTool.ShadeIs` | coverage/sfctool/sfctool.cc:350-369 | a string's pixel has the colour of its map, by whether the string is in the input, or the filling if that map does not know it |
| `SfcTool.PixelsApart` | coverage/sfctool/sfctool.cc:350-353 | with at most dim * dim strings every curve gives each string a pixel of its own inside the image |
| `SfcTool.Draw` | coverage/sfctool/sfctool.cc:315-369 | in the image each string's pixel has its colour and every other one the filling |
| `Gcov.Reader.ReadWords` | coverage/bb2lines/gcov-io.cpp:115-151 | the next words of the file, or a failure exactly when the file has not that many or the room in bytes does not fit an unsigned, through refills and growth; after a failure the file is at its end if there was room |
| `Gcov.Reader.Refill` | coverage/bb2lines/gcov-io.cpp:124-147 | after a refill the buffer has enough words exactly when the file has and there is room |
| `Gcov.RoomForAll` | coverage/bb2lines/gcov-io.cpp:134-139 | for requests of up to 2^27 words there always is, however many came before |
| `Gcov.NoRoom` | coverage/bb2lines/gcov-io.cpp:134-139 | for one of 2^29 words there is none in a fresh buffer, however long the file |
| `Gcov.Reader.Allocate` | coverage/bb2lines/gcov-io.cpp:90-101 | growth keeps what is buffered |
| `Gcov.Reader.ReadUnsigned` | coverage/bb2lines/gcov-io.cpp:156-165 | the word under the cursor, with its bytes reversed if swapping is on, or zero past the end |
| `Gcov.Reader.ReadString` | coverage/bb2lines/gcov-io.cpp:190-197 | a length word and exactly as many words as it denotes, or none exactly when the length is zero or they are missing |
| `Gcov.Reader.Position` | coverage/bb2lines/gcov-io.cpp:167-170 | the cursor, without overflow while in step |
| `Gcov.Reader.Sync` | coverage/bb2lines/gcov-io.cpp:172-183 | a jump inside or outside the buffer puts the cursor there; after a failed read the reader is in step again if and only if the jump leads elsewhere or the file is at that very place |
| `Gcov.ReadBack` | coverage/bb2lines/gcov-io.cpp:172-183 | asking for more words than there are and jumping back: the next read gets zero although the cursor is inside the file |
| `Gcov.Reader.Magic` | coverage/bb2lines/gcov-io.cpp:76-88 | a magic number is refused exactly when it is the expected one in no byte order, 1 means that it is native and -1 that it is the other order's; after -1 words are read in the file's order, after 1 they are unless swapping was on, which stays on (or the number reads the same both ways) |
| `Gcov.SwapsBytes` | coverage/bb2lines/gcov-io.cpp:103-111 | the shifts and masks reverse the four bytes |
| `Gcov.Serve` | coverage/bb2lines/gcov-io.cpp:115-197 | any mix of reads of single words, of any number of words and of strings, jumps and questions for the position gets the replies of a plain cursor, up to the first read past the end or of more than 2^27 words |
| `Gcov.NextTextIs` | coverage/bb2lines/gcov-io.cpp:190-197 | in that plain cursor a text has the number of words that the word before it denotes, which is what the cursor moves over |
| `OptionParser.Workhorse` | hypothesizer/optionparser.h:1502-1681 | a parse that is not aborted leaves the vector a stable partition, options with their detached arguments and the terminator first, and hands over exactly the others; the options stored are those a scan of the original vector sees; it is aborted only by an illegal argument or a full store |
| `OptionParser.ScanFindsRoles` | hypothesizer/optionparser.h:1511-1667 | which elements those are: each is an option, the argument of the option right before it, the terminator or none of these, by rules on its text and on what precedes it; the scan flags exactly the first three, sees the options in the options' elements in order, and is aborted exactly by a fatal one |
| `OptionParser.RolesUnique` | hypothesizer/optionparser.h:1511-1667 | those rules give every vector one reading |
| `OptionParser.FlagsMean` | hypothesizer/optionparser.h:1511-1540 | in GNU mode, in terms of the texts: what is handed over is empty, a lone minus, has no minus in front, or is behind a double minus; what is not begins with a minus, or is the argument an option right before it was offered and took |
| `OptionParser.ArgumentIff` | hypothesizer/optionparser.h:1635-1652 | an element is an argument exactly if an option reached in the element before it was offered that very text and check_arg accepted it |
| `OptionLookup.EatIs` | hypothesizer/optionparser.h:1541-1660 | the options of one element, place by place: those whose check_arg wants no argument are passed and stored without one; the first that accepts one is stored with it and ends the element, taking the next one if the argument is that; an illegal one ends the parse |
| `OptionLookup.LookOffers` | hypothesizer/optionparser.h:1559-1634 | what is put to check_arg at a place: the option designated there, with the rest of the group, the text after the equals sign or the next element |
| `OptionParser.SeenAre` | hypothesizer/optionparser.h:1635-1660 | the options stored are exactly those reached in the elements that are options, without an argument unless check_arg accepted it |
| `OptionParser.PickPlaces` | hypothesizer/optionparser.h:1670-1680 | each element handed over is handed over at the place given by how many are before it |
| `OptionParser.StoredIs` | hypothesizer/optionparser.h:1445-1461 | options are stored in their order up to the room there is |
| `OptionParser.ParseElement` | hypothesizer/optionparser.h:1541-1666 | one element with options: its options are stored, it moves in front of the non-options, and so does the next one if it was taken |
| `OptionParser.Shift` | hypothesizer/optionparser.h:1340-1348 | one element moves in front of those before it |
| `OptionParser.HandedAtEnd` | hypothesizer/optionparser.h:1670-1680 | a partition of what was seen, with the rest behind it, is one of the whole |
| `OptionParser.ArrangedMove` | hypothesizer/optionparser.h:1663-1666 | each move keeps the partition |
| `OptionParser.StoreAction.Perform` | hypothesizer/optionparser.h:1445-1461 | an option is stored while there is room; only too many options are fatal |
| `OptionLookup.LookUp` | hypothesizer/optionparser.h:1559-1628 | the loops of one round of a group compute what LookIs says |
| `OptionLookup.LookIs` | hypothesizer/optionparser.h:1559-1628 | one round of a group: a long option if it must be one, or may be and there is one of that name, else the next character; the descriptor it designates or else the one without names; its argument, attached or detached |
| `OptionLookup.LongIndexIs` | hypothesizer/optionparser.h:1566-1584 | a long name means the first descriptor of that name, or else the only one it abbreviates, and otherwise nothing |
| `OptionLookup.LongArgIs` | hypothesizer/optionparser.h:1592-1599 | its argument follows the first equals sign, or is the next element |
| `OptionLookup.FindLong` | hypothesizer/optionparser.h:1566-1584 | the loops find the descriptor LongIndexIs speaks of |
| `OptionLookup.IsStrEq` | hypothesizer/optionparser.h:1278-1284 | equality up to an attached argument |
| `OptionLookup.IsStrEqAbbr` | hypothesizer/optionparser.h:1310-1320 | abbreviation of at least the given length |
| `OptionLookup.CommonIs` | hypothesizer/optionparser.h:1310-1320 | what counts is the longest common prefix |

## Left out

- TraceTheorems.AccessesAreLinkedToHeldLocks: only runs without side conflicts. With them `TraceLoss.OneContextIsLinkedIff` is exact for one context; in several contexts a flush works on one of them, stacks and counters part ways, and only `TraceSteps.NoIdIsWrittenTwice` is left.
- TraceTheorems.SingleContextInStep: one context and no recursive flag, because after a repeated recursive P a flush of the writer side pops every position but finishes only one TXN.
- TxnAccounting.TransitionNoConflict: `writer_count` is at least the number of writer TXNs, not equal, because a repeated P that is not recursive counts up after closing the old TXN.
- Selection.BottomUpIsLocal: no global optimum; pruning makes the winner best only among the nodes visited, and locally.
- Selection.SharpenIsLocal: no global optimum, for the same reason.
- SfcTool.Draw: the side of the image is an input of at most 65536, because `sqrt` and `ceil` round; the counters of the spiral do not wrap around.
- OptionParser.Workhorse: `numargs` is not larger than the vector, which the code calls a bug in the caller; a null vector is not modelled.
- Gcov.Reader.ReadWords: files of whole words below the size at which byte positions wrap; `fread` reads all there is; memory suffices.
- CSV text, output files, error messages, and the file and line of a lock position: rows are values, and a position is a side and a timestamp.
- Parsing of event lines, the header, the sequence-lock filter, data types, subclasses and stack traces of the converter.
- The discard of a read and a write in front of a lock event: lock events carry the action 'l', so it takes place only in the final flush, at address 0, and at lines with the actions 'p' and 'v', which name no event, at the preset address 0x1337. Accesses are taken to have their addresses as given.
- The classes for reader-only and writer-only locks are one class with the kind as a field.
- Deques, maps and stacks are sequence and map fields that the methods reassign; ids are not bounded.
- Colour and parent of a tree node are two fields; a pointer to a link is the parent and the side; the entry around a node is a map; freed nodes stay allocated.
- `rb_last`, `rb_prev` and `rb_replace_node`: mirror images or easy.
- `std::sort` of a combination's locks is part of what a valid combination is; hashing, the width of lock ids and wrap-around of occurrence counters.
- Input, reports, rounding of floating point and parallel loops of the hypothesizer; combinations observed zero times.
- Chains of options of the same index, the counting action, a buffer that is not empty at the start, and messages of the option parser.
- Colour parsing, maps read from files and PNG output of the drawing tool.
- DWARF, ELF, zlib, the kernel module, statistics scripts and `fork.c`.
