# Verified model of the enki runtime core

enki is a PLAN runtime: an evaluator, collectors, a content-addressed store and
an actor scheduler. This project models the parts whose correctness is hardest
to see from the code and proves what they promise.

| part | files |
|---|---|
| Silo, the canonical byte format of PLAN values, and its paged naturals | `Bytes`, `Frontier`, `Mnat`, `MnatProof`, `MnatLoops`, `MnatReader`, `MnatRelaxed`, `Silo`, `SiloLimits`, `SiloProof`, `SiloTheorems`, `SiloLayout` |
| the native store: copy-on-write index, memoised emission, two-superblock checkpoints | `Patricia`, `Overlay`, `NativeIndex`, `Checkpoint`, `CheckpointData` |
| the actor runtime: deterministic record and replay, and the multi-threaded executor | `Replay`, `ReplayProof`, `ReplaySound`, `ReplayMail`, `ReplayLaws`, `Executor`, `ExecutorMail`, `ExecutorOrder` |
| the bytecode ingest optimiser: eager entries and readiness | `Bytecode`, `Thunks`, `EagerBlocks`, `EagerPass`, `EagerWalk`, `EagerLoops`, `EagerComplete`, `EagerEntry`, `EagerGiven`, `EagerLimits`, `EagerRuns`, `EagerCover`, `EagerRounds`, `EagerOptimise`, `Readiness`, `ReadinessRuns`, `ReadinessExact` |
| the copying collector, the buddy allocator, the slab sweeper and the world handshake | `Cheney`, `CheneyLoops`, `Buddy`, `BuddyArray`, `BuddyAllocator`, `Slabs`, `Sweep`, `SweepPages`, `SweepLaws`, `SweepSlots`, `World` |
| byte trees | `Bat`, `BatLaws`, `BatCursor`, `BatBuild` |
| thunk-update coalescing | `UpdateStack` |
| shared definitions | `Basics` |

`dafny verify dfyconfig.toml` checks all of it.

Loops and in-place updates of the source are methods, classes and arrays, each
proved against a specification function or a directly stated property; protocols
(checkpointing, the executor, sweeping, stopping the world) are state machines
whose steps are the program's critical sections, with theorems over every run.
Hash functions, actor code, primop bodies, the order in which transfers finish
and the faults a disk may inject are parameters, so the results hold for all of
them.

Where the code falls short of what it is meant to do, the model follows the code:

- The Silo builder checks the 20-bit arity field at every wire row of a wide
  application, so some legal values encode and scan but do not build.
  `SiloTheorems.LegalButNotBuildable` shows one; `SiloTheorems.RoundTrip` gives
  the exact condition and `ModestIsBuildable` a simple sufficient one.
- The eager pass keeps evaluation order only if no push or construction between
  a thunk and its consumer faults. Decoding accepts code in which one does (a
  variable out of range, a thunk without arguments). `EagerLimits.FaultReordered`
  gives such code, what the pass makes of it and every activation that tells the
  two apart; `EagerBlocks.ConvertExact` is the exact condition for each conversion,
  and `EagerRounds.RoundsPreserve` covers code without such faults.
- The strict entry is not marked as a jump target (pkg/plan/src/bytecode.c:1143-1150),
  so the eager pass walks through it with the slots it has, while activations begin
  there on an empty stack (pkg/plan/src/eval.c:242-259); pkg/plan/src/batch.c:62 does
  stop there. `EagerLimits.EntryReordered` is sane code that never faults and whose
  meaning from the entry changes. `EagerEntry.EntryPreserved` proves preservation
  where the walk carries no slots in, `EagerLimits.EntryExact` that this is exactly
  the condition, and `EagerLimits.EntryShape` that it holds wherever the readiness
  analysis kept a shape at the entry, which is a test the pass could make.

## Model

| member | source | states |
|---|---|---|
| `Frontier.SplitPower` | pkg/plan/src/silo.c:64-70 | The doubling loop returns the largest power of two strictly below n |
| `Frontier.InsertSorted` | pkg/plan/src/silo.c:856-876 | The insertion loop computes the sorted insertion, refusals included |
| `Frontier.InsertBetween` | pkg/plan/src/silo.c:856-876 | An entry lands between the smaller and the larger starts |
| `Frontier.InsertDuplicate` | pkg/plan/src/silo.c:856-876 | A start already present is refused |
| `Frontier.OpenTracks` | pkg/plan/src/silo.c:1038-1081 | Opening the least unopened interval succeeds, never reaches behind the next leaf, and leaves the two queues exactly the two halves of a tiling of the remaining leaves in which every interval is opened in time |
| `Frontier.InitialTracks` | pkg/plan/src/silo.c:958-975 | Filing the siblings of the path to leaf 0 gives such a tiling of all n leaves |
| `Frontier.ScheduleNeverStalls` | pkg/plan/src/silo.c:277-381 | For every leaf count and every number of completed leaves: the schedule has not failed, the next leaf has its hash, nothing unopened lies at or behind it, and after the last leaf both queues are empty |
| `MnatProof.OpenNextForward` | pkg/plan/src/silo.c:1038-1078 | Reading the encoder's own disclosure opens the interval, consumes exactly those bytes and keeps every queued hash authentic |
| `MnatProof.OpenNextBackward` | pkg/plan/src/silo.c:1038-1078 | If what was opened is authentic then so was the parent, and the bytes read were the encoder's disclosure |
| `MnatProof.PagesForward` | pkg/plan/src/silo.c:893-1126 | Decoding the encoder's pages, leaf after leaf, returns the leaves and leaves the rest of the stream |
| `MnatProof.PagesBackward` | pkg/plan/src/silo.c:893-1126 | Pages that decode canonically are the encoder's pages of the bytes they decode to |
| `MnatProof.MnatRoundTrip` | pkg/plan/src/silo.c:277-381 | Decoding an encoded large natural gives the natural back and stops exactly at the end of its encoding, for every hash function |
| `MnatProof.MnatCanonical` | pkg/plan/src/silo.c:893-1126 | A stream the canonical decoder accepts is the encoding of what it decodes to |
| `MnatLoops.BuildTree` | pkg/plan/src/silo.c:245-266 | The recursive builder appends authentic nodes in post-order, each parent after both of its children |
| `MnatLoops.InsertNode` | pkg/plan/src/silo.c:268-275 | The queue of node indices is the specification queue with the node inserted in order |
| `MnatLoops.WriteSpine` | pkg/plan/src/silo.c:299-312 | The descent along leaf 0 writes exactly the sibling hashes and builds exactly the first queue |
| `MnatLoops.OpenHead` | pkg/plan/src/silo.c:351-365 | One expansion writes the two child hashes of the least interval and queues them |
| `MnatLoops.WritePage` | pkg/plan/src/silo.c:325-367 | The leaf loop of one page writes exactly its leaves and what they disclose |
| `MnatLoops.WriteLeaves` | pkg/plan/src/silo.c:314-368 | The nested page and leaf loops write exactly the specified leaf stream and end with the specified queue |
| `MnatLoops.SpineQueueCloses` | pkg/plan/src/silo.c:369-373 | The queue is empty after the last leaf: the branch that reports an unclosed frontier is dead |
| `MnatLoops.EncodeStream` | pkg/plan/src/silo.c:277-381 | The whole encoder writes exactly the canonical stream of its natural, and its frontier closes |
| `MnatReader.ReadPath` | pkg/plan/src/silo.c:926-941 | The loop over the first proof reads exactly the hashes of the path to leaf 0, or fails where the specification does |
| `MnatReader.FoldPath` | pkg/plan/src/silo.c:943-949 | The bottom-up loop computes exactly the specified fold of the path |
| `MnatProof.FoldIsTreeHash` | pkg/plan/src/silo.c:943-956 | Folding the authentic path to leaf 0 gives the hash of the whole tree, which the header commits to |
| `MnatReader.FilePath` | pkg/plan/src/silo.c:958-975 | Filing the path builds exactly the first two queues |
| `MnatReader.TakeExpected` | pkg/plan/src/silo.c:878-891 | The expected hash of a leaf is found by its index and removed, whatever its position |
| `MnatReader.CompleteLeaf` | pkg/plan/src/silo.c:1024-1081 | Completing a leaf matches its hash and opens one interval exactly as specified |
| `MnatReader.ReadPage` | pkg/plan/src/silo.c:1008-1082 | One page, with leaves possibly continuing across pages in the relaxed profile, is decoded exactly as specified |
| `MnatReader.ReadPages` | pkg/plan/src/silo.c:983-1092 | The page loop accepts exactly the specified pages, with or without checksum trailers, and in the canonical profile saw the maximal page length |
| `MnatReader.DecodeStream` | pkg/plan/src/silo.c:893-1126 | The whole decoder returns exactly the specified result on every byte string and in both profiles, page checksums included |
| `MnatProof.CheckedIsPlain` | pkg/plan/src/silo.c:1083-1092 | Page checksums add nothing: pages accepted with them are pages accepted without them, of the same natural and with the same rest |
| `MnatRelaxed.RelaxedAccepts` | pkg/plan/src/silo.c:893-1126 | Every way to cut a natural into nonempty pages that fit a width of one to eight bytes, leaves cut or not, is accepted in the relaxed profile and gives the natural and the rest back |
| `MnatRelaxed.RelaxedTells` | pkg/plan/src/silo.c:893-1126 | And every relaxed stream without checksums that is accepted is the natural it decodes to, cut into such pages |
| `MnatRelaxed.RootIsAuthentic` | pkg/plan/src/silo.c:893-1126 | In either profile, with checksums or without, the root a stream declares is the root hash of the natural that comes out of it |
| `MnatRelaxed.ChecksumLaw` | pkg/plan/src/silo.c:1083-1092 | A page checksum covers the page from its length field on; with it decoding goes on behind the page, with any other four bytes it fails |
| `SiloProof.NatRoundTrip` | pkg/plan/src/silo.c:803-836 | Every natural decodes back from the form the encoder chose for it, one of the four that SiloLayout.NatLayout gives byte for byte |
| `SiloProof.NatCanonical` | pkg/plan/src/silo.c:803-836 | A natural the canonical decoder accepts was written in exactly the form that SiloLayout.NatLayout gives |
| `SiloProof.NodeRoundTrip` | pkg/plan/src/silo.c:416-479 | Any well-formed node decodes back with the pins it uses noted in order, exactly when it is buildable at every wire level |
| `SiloProof.NodeCanonical` | pkg/plan/src/silo.c:1128-1277 | Any node the canonical decoder accepts re-encodes to the bytes it was read from |
| `SiloProof.SpineRoundTrip` | pkg/plan/src/silo.c:393-414 | An application of any width, split into wire rows of at most fifteen, decodes back to one flat application |
| `SiloProof.MnatRelax` | pkg/plan/src/silo.c:1314-1336 | The builder reads a canonical paged natural exactly as the scanner did |
| `SiloTheorems.TableRoundTrip` | pkg/plan/src/silo.c:666-710 | The pin table decodes back |
| `SiloTheorems.TableCanonical` | pkg/plan/src/silo.c:666-710 | An accepted pin table is the encoding of distinct pins |
| `SiloTheorems.UsesAgree` | pkg/plan/src/silo.c:1246-1265 | The scan's first-use check passes exactly on the first-occurrence pin table |
| `SiloLimits.NodeEncodes` | pkg/plan/src/silo.c:416-479 | A value encodes at a depth, under any pin table, if and only if every wire level including the rows of wide applications is within the level limit, law arities are in range, no application is empty and the table has all of its pins |
| `SiloTheorems.EncodesExactly` | pkg/plan/src/silo.c:481-522 | A value encodes with its first-occurrence pin table if and only if it is within those limits and has no more first uses than a table holds |
| `SiloTheorems.RoundTrip` | pkg/plan/src/silo.c:481-522 | A flat normal value within the limits encodes with its first-occurrence pin table, scans canonically to that table and value, and the builder returns it exactly when it fits the runtime limits at every wire level, for every hash function |
| `SiloTheorems.Canonical` | pkg/plan/src/silo.c:1287-1312 | Every stream the canonical scan accepts is the encoding of its value with that value's first-occurrence table, and the value is within the limits |
| `SiloTheorems.EncodingIsInjective` | pkg/plan/src/silo.c:577-597 | Two values with the same stream are the same value: content addresses identify values |
| `SiloTheorems.LegalButNotBuildable` | pkg/plan/src/silo.c:1185-1203 | A legal value that encodes and scans back to itself but that the builder refuses: thirty arguments leave a representable need, the fifteen of the inner wire row do not |
| `SiloTheorems.ModestIsBuildable` | pkg/plan/src/silo.c:1314-1336 | Where every applied head has arity below 2^20 the builder refuses nothing legal |
| `SiloLayout.NatLayout` | pkg/plan/src/silo.c:420-440 | The bytes of every natural: 0x80 + n for n up to 63, 0xc0 + length and the bytes up to 31, 0xe1 or 0xe2, the length and the bytes up to 8192, and pages above |
| `SiloLayout.NatOpcodes` | pkg/plan/src/silo.c:420-440 | The first byte tells which form a natural has, each exactly on its own lengths |
| `SiloLayout.PagedHead` | pkg/plan/src/silo.c:277-312 | A paged natural begins with 0xf9, no flags, the two widths, its bit length, its root hash and the hash of its first 1024 bytes |
| `SiloLayout.LeafHashLaw` | pkg/plan/src/silo.c:245-266 | A leaf hashes its index and its 1024 bytes, or what is left for the last |
| `SiloLayout.NodeHashLaw` | pkg/plan/src/silo.c:245-266 | A node hashes its interval and its two parts, the left one of the largest power of two of leaves that leaves something |
| `SiloLayout.LeafRecordLaw` | pkg/plan/src/silo.c:314-368 | With each leaf: a page length every 64 leaves, the leaf, and the two hashes under the least interval still unopened |
| `SiloLayout.LawLayout` | pkg/plan/src/silo.c:463-470 | A law is 0xf0, its name, its arity and its body |
| `SiloLayout.PinLayout` | pkg/plan/src/silo.c:444-462 | A pin is 0xf0 plus a width, and its place in the table in so many bytes |
| `SiloLayout.AppLayout` | pkg/plan/src/silo.c:393-414 | An application of at most fifteen arguments is eight times their number, the head and the arguments in order |
| `SiloLayout.WideLayout` | pkg/plan/src/silo.c:393-414 | A wider one has its last one to fifteen arguments in the outer row, so that every row inside is full |
| `SiloLayout.StreamLayout` | pkg/plan/src/silo.c:481-522 | A stream is the magic, the number of pins, their hashes in order and the value |
| `SiloLayout.ScalarDigits` | pkg/plan/src/silo.c:40-62 | Byte i of a scalar is the lowest byte of it shifted right by i bytes |
| `SiloLayout.WidthLaw` | pkg/plan/src/silo.c:55-62 | A scalar is as wide as its digits need |
| `Patricia.InsertIsUpdate` | pkg/plan/src/store_native.c:364-428 | Insertion keeps bits strictly increasing on every path, binds the key and changes no other binding |
| `Patricia.SplitFound` | pkg/plan/src/store_native.c:394-400 | The first bit in which the key differs from the leaf its descent reaches is where it must be forked from every key that shares the shorter prefix |
| `Overlay.RebuildReplaces` | pkg/plan/src/store_native.c:401-427 | Rebuilding the recorded path writes only overlay slots of this trie or fresh ones and yields the trie with the changed subtree in place |
| `NativeIndex.CommonPrefix` | pkg/plan/src/store_native.c:394-396 | The loop finds the first differing bit of two keys |
| `NativeIndex.IndexStore.LookupFrom` | pkg/plan/src/store_native.c:213-254 | Lookup through overlay and committed records returns exactly the trie's binding, and fails only on a damaged index |
| `NativeIndex.IndexStore.Descend` | pkg/plan/src/store_native.c:379-393 | The validated descent records exactly the path to the leaf the key reaches; nothing is changed |
| `NativeIndex.IndexStore.Insert` | pkg/plan/src/store_native.c:359-428 | A failed insert changes nothing; otherwise the new root denotes the updated trie, no committed record changes and every other overlay slot is left as it was |
| `NativeIndex.IndexStore.Alloc` | pkg/plan/src/store_native.c:323-357 | The extent handed out is the first place at or behind the allocation point that is on a word and inside one granule or at the start of one; without a fault it fails exactly on lengths out of range or when that place does not fit the arena |
| `NativeIndex.IndexStore.Emit` | pkg/plan/src/store_native.c:433-469 | Emission writes children below parents, keeps the working trie as it is, and whether it succeeds or fails every remembered offset still denotes its node's current subtree |
| `NativeIndex.IndexStore.PutObject` | pkg/plan/src/store_native.c:815-830 | Binding an object hash updates the object trie and leaves the cache trie as it was |
| `NativeIndex.IndexStore.PutCache` | pkg/plan/src/store_native.c:402-428 | Binding a cache key updates the cache trie and leaves the object trie as it was |
| `NativeIndex.IndexStore.Save` | pkg/plan/src/store_native.c:433-490 | Failed or not, both tries hold the same bindings afterwards; on success they hold them without any overlay node; without a fault it fails only when the arena has no room for a record |
| `NativeIndex.UpdatedFinds` | pkg/plan/src/store_native.c:223-254 | The bindings of an updated trie, the empty one included: the new one and otherwise the old ones |
| `Checkpoint.NextInv` | pkg/plan/src/store_native.c:718-796 | Every step of stage, seal, sync, superblock write, closing sync, failure, crash and reopening keeps the durable state whole |
| `Checkpoint.ChoiceIsNewest` | pkg/plan/src/store_native.c:974-1007 | The file always opens, and the slot chosen is the newest that can be whole after a crash |
| `Checkpoint.CrashSafety` | pkg/plan/src/store_native.c:718-796 | At every point of every run a crash leaves a file that opens, to exactly one whole checkpoint no older than the last one whose closing sync completed |
| `Checkpoint.ClosedNeverRegresses` | pkg/plan/src/store_native.c:974-1007 | A completed closing sync is never undone by any later step, crashes included, and recorded checkpoints are never rewritten |
| `CheckpointData.ClosedIsDurable` | pkg/plan/src/store_native.c:718-796 | A value staged before a checkpoint whose closing sync completed is found in its place after any crash or abandonment, however many checkpoints, failures and reopenings came in between |
| `CheckpointData.StagedStays` | pkg/plan/src/store_native.c:323-357 | While its process is open a staged value stays, below the allocation point |
| `CheckpointData.Publishes` | pkg/plan/src/store_native.c:718-796 | A checkpoint in which nothing fails takes four steps and leaves everything staged durable, the next generation current in the other slot, and a store that can be written to |
| `CheckpointData.Recovers` | pkg/plan/src/store_native.c:974-1007 | Whatever state a process is left in, the file can be opened again with the newest whole checkpoint current and nothing staged beyond it |
| `ReplayProof.DeliverKeeps` | pkg/enki/src/actor.c:368-427 | Delivery keeps queued actors ready and queued once, wakes only a receiver waiting on its mailbox, and leaves parked actors parked; ReplayMail.FirstInFirstOut says what becomes of the message |
| `ReplayProof.ServeKeeps` | pkg/enki/src/actor.c:517-738 | Servicing a request that needs no host answer keeps the scheduler's invariant |
| `ReplayProof.PendingMove` | pkg/enki/src/http.c:984-1015 | Transfers may finish in any order: parked actors and pending transfers still correspond one to one |
| `ReplayProof.DepositKeeps` | pkg/enki/src/http.c:1017-1030 | Depositing the oldest completion wakes exactly the actor parked on it |
| `ReplayProof.RecordKeeps` | pkg/enki/src/actor.c:760-785 | Every step of a recorded run keeps the invariant |
| `ReplayProof.NoRefusalAhead` | pkg/enki/src/http.c:917-978 | While an actor is parked the next event of the log is never a refusal for it |
| `ReplayProof.StepMirrors` | pkg/enki/src/actor.c:1432-1458 | One replayed step passes every divergence check and does what the recorded step did |
| `ReplayProof.ArmKeeps` | pkg/enki/src/actor.c:1111-1116 | Beginning a drive queues a root at rest once and keeps the invariant |
| `ReplayProof.DeadlockKeeps` | pkg/enki/src/actor.c:1118-1131 | A drive that finds nothing queued and nothing outstanding has nobody parked, and ending it keeps the invariant |
| `ReplayProof.ReplayReproduces` | pkg/enki/src/actor.c:760-785 | Replaying the log of any recorded run, of drives through a root on the caller's stack and of plain runs, reproduces every actor, mailbox, queue, drive verdict and result after every step, whatever order transfers finished in, and consumes exactly the recorded events |
| `ReplayProof.RestAgrees` | pkg/enki/src/http.c:1094-1138 | When nothing is left to run, an actor is parked exactly when a transfer is outstanding |
| `ReplaySound.ReplayIsRecorded` | pkg/enki/src/actor.c:1419-1458 | Whatever log a replay is given, as long as it passes every divergence check it is in a state that recording could have reached with the same messages and drives, and the log up to its cursor is what that recording would have written |
| `ReplaySound.StepSound` | pkg/enki/src/actor.c:1432-1458 | Every step of a replay is matched by no, one or two steps of a recording |
| `ReplayMail.FirstInFirstOut` | pkg/enki/src/actor.c:368-427 | In every recorded run the messages an actor has received, payloads and actors behind the capabilities, followed by its mailbox, are its first mailbox followed by the messages sent or injected to it, in order |
| `ReplayMail.SpawnAnswers` | pkg/enki/src/actor.c:593-611 | A spawn answers with a fresh live handle of the child, which knows itself by handle 0 and runs before its parent |
| `ReplayMail.SendAnswers` | pkg/enki/src/actor.c:535-591 | A send through a live handle with live capabilities is answered, its receiver queued first if it was waiting; any other crashes the sender |
| `ReplayMail.OtherAnswers` | pkg/enki/src/actor.c:517-727 | Receiving blocks exactly on an empty mailbox; sleeping and closing a handle are answered, the latter forgets that handle and no other |
| `ReplayMail.QueueServed` | pkg/enki/src/actor.c:213-254 | The run queue only grows at its tail and is only served at its head |
| `ReplayLaws.SliceWrites` | pkg/enki/src/actor.c:1432-1458 | What a slice writes down: a direct effect or a read with the hash of its arguments and the answer, a fetch refused at once with its error, nothing else |
| `ReplayLaws.HostAnswers` | pkg/enki/src/actor.c:617-700 | The answer is what the actor is told; a fetch under way tells nothing and parks the actor under the hash of its request |
| `ReplayLaws.Endings` | pkg/enki/src/actor.c:740-758 | An actor that returns has finished and one that raises has crashed; for the root of a drive that is the verdict instead |
| `ReplayLaws.DriveEnds` | pkg/enki/src/actor.c:1111-1131 | A drive starts its root on the given code, and ends as deadlocked once nothing is queued and nobody is parked |
| `ReplayLaws.CompletionsInOrder` | pkg/enki/src/http.c:984-1030 | Transfers finish in any order, and their actors are woken in that order, each once and with the data its transfer finished with |
| `Executor.EnqueueShape` | pkg/enki/src/actor.c:213-243 | Enqueueing puts an actor in hand in exactly one place |
| `Executor.DeliverShape` | pkg/enki/src/actor.c:368-425 | Delivery from another thread keeps every actor in exactly one place; ExecutorMail.MailConserved says that it loses no message |
| `Executor.BindInv` | pkg/enki/src/actor.c:843-866 | Binding an actor to its worker restores the width of the shared pool before the lock is released |
| `Executor.ReleaseInv` | pkg/enki/src/actor.c:887-897 | Releasing a finished actor's worker makes it spare and keeps the invariant |
| `Executor.GrabInv` | pkg/enki/src/actor.c:946-981 | A worker that takes the queue's head holds it alone |
| `Executor.TakeBoundInv` | pkg/enki/src/actor.c:927-942 | A bound worker that takes its ready slot empties it |
| `Executor.CompleteInv` | pkg/enki/src/actor.c:740-758 | However a slice or a service ends, the whole invariant holds again at unlock |
| `Executor.StepInv` | pkg/enki/src/actor.c:908-1006 | Every critical section of every thread keeps the invariant |
| `Executor.Ownership` | pkg/enki/src/actor.c:213-286 | In every interleaving, over any number of drives and of runs without a root, a spawned actor is runnable exactly when it is queued, in its owner's slot or being run, in never more than one of these and by never more than one worker, and the shared pool has its configured width |
| `Executor.RootAtRest` | pkg/enki/src/actor.c:1158-1240 | Outside a drive the root is runnable and in no queue, slot or worker's hand, so the next drive finds it where it was left |
| `Executor.MutualBinding` | pkg/enki/src/actor.c:843-897 | A bound worker and its actor point at each other, and nobody else at either |
| `Executor.DeadlockIsReal` | pkg/enki/src/actor.c:1213-1226 | A deadlock verdict means every actor that has not ended is blocked on a receive with an empty mailbox |
| `Executor.QuietIsReal` | pkg/enki/src/actor.c:899-906 | A run without a root ends only when every spawned actor has ended or is blocked on a receive with an empty mailbox |
| `Executor.QuietIsDeadlock` | pkg/enki/src/actor.c:1213-1226 | Once the root waits, no worker is busy, no fetch is in flight and nobody is runnable, the verdict is given |
| `Executor.FlagsMean` | pkg/enki/src/actor.c:1158-1240 | In every run the flags say exactly whether a run or a drive has begun and not ended and whether the caller is running the root |
| `ExecutorMail.MailConserved` | pkg/enki/src/actor.c:368-427 | In every interleaving, what an actor had and was sent is what it has taken and what still waits in its mailbox |
| `ExecutorMail.DeadlockTookAll` | pkg/enki/src/actor.c:1213-1226 | At a deadlock whoever has not ended has taken everything that was ever sent to it |
| `ExecutorOrder.ServedInOrder` | pkg/enki/src/actor.c:213-254 | Of the actors queued at some moment the k-th is the one that the k-th worker to serve the queue takes, in every interleaving |
| `ExecutorOrder.PinnedForLife` | pkg/enki/src/actor.c:843-885 | Once an actor has been bound by an effect no other worker ever runs it again |
| `ExecutorOrder.ThreadsAtPeak` | pkg/enki/src/actor.c:831-866 | There are always exactly as many threads as the pool is wide and actors were ever bound at once |
| `ExecutorOrder.EndingsMean` | pkg/enki/src/actor.c:740-758 | An actor has halted or crashed exactly when its own code has stopped that way |
| `Thunks.ForceFrame` | pkg/plan/src/eval.c:808-818 | Evaluating a thunk cannot see cells it has no path to, and leaves them alone |
| `Thunks.CallFrame` | pkg/plan/src/eval.c:1498-1534 | The same for a direct call: strict arguments in order, then the body |
| `EagerBlocks.StepForced` | pkg/plan/src/eval.c:2078-2097 | A consumer may be run after some of its leading demands have been forced, with the same outcome |
| `EagerBlocks.ForceMade` | pkg/plan/src/bytecode.c:388-410 | Forcing a thunk of the block later is calling its code earlier, whatever was constructed in between |
| `EagerBlocks.ConvertAt` | pkg/plan/src/bytecode.c:474-501 | Entering a thunk at its construction does the same evaluations in the same order with the same result, exception or exhaustion |
| `EagerBlocks.ConvertDiffers` | pkg/plan/src/bytecode.c:388-410 | With a faulting push or construction in between it does not |
| `EagerBlocks.ConvertExact` | pkg/plan/src/bytecode.c:474-539 | One conversion behaves the same, on every run that reaches it and at every later point of the block, exactly when nothing between producer and consumer faults |
| `EagerPass.LiveStep` | pkg/plan/src/bytecode.c:579-700 | Each instruction's effect on the tracked slots is true of every execution |
| `EagerWalk.ConsumeKeeps` | pkg/plan/src/bytecode.c:503-539 | Entering the producers of one consumer keeps every block's meaning and everything the walk knows |
| `EagerWalk.WalkKeeps` | pkg/plan/src/bytecode.c:541-705 | At every instruction: the code so far means the same from every leader, and what a live walk knows is true of every run from the leader it began at |
| `EagerWalk.RewritePreserves` | pkg/plan/src/bytecode.c:541-705 | One pass preserves every block from every start its facts describe, whatever the program's bodies do, for code whose variables are in range and whose thunks have arguments |
| `EagerLoops.EagerConsume` | pkg/plan/src/bytecode.c:503-539 | The loops over one consumer's operands compute that specification in place and report a change exactly when there is one |
| `EagerLoops.EagerRewrite` | pkg/plan/src/bytecode.c:541-705 | On every input the pass over the opcode array computes the specified code and changes nothing but thunk constructions; on sane code it preserves every block, and activations from a safe strict entry |
| `EagerComplete.OperandsEntered` | pkg/plan/src/bytecode.c:503-705 | Whenever every strict operand of a consumer was built in its own block, in the order in which it forces them and with nothing evaluated since, the pass turns each of those thunk constructions into its direct call |
| `EagerComplete.WalkTells` | pkg/plan/src/bytecode.c:541-705 | At every instruction of a block the walk knows where each operand built in the block came from, and whether it is a value by now |
| `EagerComplete.MaskIsDemand` | pkg/plan/src/bytecode.c:503-539 | The operands a consumer is masked for are exactly those its execution forces first, in that order |
| `EagerEntry.EntryPreserved` | pkg/plan/src/bytecode.c:541-705 | Activations that begin at the strict entry keep their meaning when the walk carries no slots into it |
| `EagerLimits.EntryExact` | pkg/plan/src/bytecode.c:541-705 | Given what precedes an unmarked strict entry, the pass preserves activations from it, whatever decodable code with facts that solve its equations follows, if and only if the walk carries no slots into it; where literals fit beside them some activation tells without any fault |
| `EagerLimits.EntryReordered` | pkg/plan/src/bytecode.c:1143-1150 | Decodable, sane code that never faults and that the pass changes for activations from its strict entry: a thunk runs that should not |
| `EagerLimits.EntryShape` | pkg/plan/src/bytecode.c:202-260 | With the readiness analysis feeding the pass, the entry is safe wherever the analysis kept a shape; where it is not, the analysis has given the state up |
| `EagerLimits.StartShape` | pkg/plan/src/bytecode.c:202-260 | Where nothing jumps to the first instruction the analysis ends with the empty stack there, which is all the failing inputs ask of the facts |
| `EagerLimits.FaultReordered` | pkg/plan/src/bytecode.c:1102-1110 | Decodable code that the pass converts: in any activation with too few variables a thunk runs before the out-of-range variable is reported instead of never |
| `EagerGiven.StaysDecodable` | pkg/plan/src/bytecode.c:1066-1280 | Conversions leave decodable, sane code decodable and sane |
| `EagerRuns.ProceedTwin` | pkg/plan/src/eval.c:1335-1420 | Blocks that do the same lead to the same next block with the same stack and cells, along branches, jumps, tail blocks and falls, or to the same end |
| `EagerCover.StepCovered` | pkg/plan/src/bytecode.c:264-345 | One executed instruction keeps what any solution of the analysis says of stack and variables |
| `EagerRounds.DescribedFits` | pkg/plan/src/bytecode.c:119-191 | Wherever a block begins in an activation, the start is one the eager pass preserves |
| `EagerRounds.ProceedDescribed` | pkg/plan/src/bytecode.c:119-191 | Every block reached in an activation begins at a leader and is described by any solution of the analysis |
| `EagerRounds.RoundPreserves` | pkg/plan/src/bytecode.c:759-782 | One round preserves whole activations, from outside, of law blocks, from a safe strict entry and of local blocks |
| `EagerRounds.RoundsPreserve` | pkg/plan/src/bytecode.c:759-782 | After any number of rounds of analysis and eager pass an activation does the same evaluations in the same order for any number of blocks, with the same end |
| `EagerOptimise.Optimise` | pkg/plan/src/bytecode.c:759-782 | The loop goes on until a round changes nothing, at most 64 times and not at all for code over 16384 instructions; it only converts thunk constructions, preserves whole activations from outside and of law blocks, and fails only where the analysis proves an underflow |
| `Readiness.Merge` | pkg/plan/src/bytecode.c:152-180 | The meet accounts for both states, loses nothing else, and a change strictly lowers the rank |
| `Readiness.FlowsMonotone` | pkg/plan/src/bytecode.c:264-345 | The transfer functions are monotone |
| `Readiness.FlowTo` | pkg/plan/src/bytecode.c:219-235 | One flow accounts for its state, queues a pc at most once in the circular buffer and pays for it with a descent |
| `Readiness.FlowAll` | pkg/plan/src/bytecode.c:264-345 | All flows out of one place are accounted for, and everything accounted for before still is |
| `Readiness.Analyse` | pkg/plan/src/bytecode.c:202-355 | The worklist always completes or proves an underflow, never gives up, and ends with the strongest solution of the flow equations, whose flows ReadinessExact proves to forget nothing |
| `ReadinessRuns.StrictEntry` | pkg/plan/src/eval.c:242-259 | The entry check enters fast exactly when every strict argument is a value, looking through indirections in place |
| `ReadinessRuns.EveryFrameCovered` | pkg/plan/src/bytecode.c:119-191 | Every frame of every run, from every entry, local block or law block, is described by any solution of the analysis |
| `ReadinessRuns.UncheckedIsSafe` | pkg/plan/src/bytecode.c:358-386 | Where a depth is stated it is the depth, and an unchecked opcode never meets a deferred value |
| `ReadinessRuns.ReadyRewrite` | pkg/plan/src/bytecode.c:358-386 | From a solution of the analysis: on every run, wherever a flagged instruction is about to execute, the operands it takes for values are values; and every instruction the facts justify is flagged |
| `ReadinessExact.FlowExact` | pkg/plan/src/bytecode.c:264-345 | For the flow to the next instruction a slot or variable is marked exactly when every frame the state covers holds a value there after the step and its delivery |
| `ReadinessExact.JumpExact` | pkg/plan/src/bytecode.c:264-345 | A jump carries the whole state, an arm of a branch all but the scrutinee |
| `ReadinessExact.BlockExact` | pkg/plan/src/bytecode.c:264-345 | A called or tail-called block begins with exactly its arguments, of which nothing is known; a return or a tail call flows nowhere |
| `ReadinessExact.UnderflowExact` | pkg/plan/src/bytecode.c:264-345 | An underflow is reported exactly where a depth is stated and is less than what the instruction takes |
| `ReadinessExact.EntriesExact` | pkg/plan/src/bytecode.c:230-246 | The first states are exactly what the entries promise: nothing, the strict arguments, or the unknown arguments of a law block |
| `ReadinessExact.UncheckedExact` | pkg/plan/src/bytecode.c:358-386 | An instruction may go unchecked exactly when every frame its state covers holds values in its operands |
| `Cheney.Evacuate` | pkg/plan/src/heap.c:349-401 | Evacuating one more object extends the layout and keeps everything already copied |
| `Cheney.CopiesFit` | pkg/plan/src/heap.c:480-503 | Copies of distinct objects never need more cells than from-space uses, so to-space cannot overflow |
| `CheneyLoops.Forward` | pkg/plan/src/heap.c:349-401 | Forwarding short-circuits every indirection and evacuates its object, with all of its cells, at most once |
| `CheneyLoops.ScanObject` | pkg/plan/src/heap.c:411-478 | Scanning one object redirects each traced word in order; a resolved proxy sheds its body |
| `CheneyLoops.Scan` | pkg/plan/src/heap.c:411-478 | The scan ends with every copy finished, while evacuation adds more |
| `CheneyLoops.Collect` | pkg/plan/src/heap.c:480-503 | Exactly the objects reachable from the roots are copied, each once, end to end, with every edge and root redirected, and the result is a well-formed heap for the next collection |
| `CheneyLoops.NextOk` | pkg/plan/src/heap.c:480-503 | The copies are a well-formed heap without indirections, and the redirected roots are values of it |
| `CheneyLoops.WalkAgrees` | pkg/plan/src/heap.c:349-401 | Every path of field reads from every live value finds the same thing as before |
| `CheneyLoops.SharingKept` | pkg/plan/src/heap.c:380-401 | Two objects have one copy exactly when they are one object |
| `CheneyLoops.SameGraph` | pkg/plan/src/heap.c:480-503 | The graph seen from the root slots is the same, sharing included |
| `CheneyLoops.CollectionsKeep` | pkg/plan/src/heap.c:480-503 | After any number of collections every path of reads from every root still finds the same, and the same paths still meet |
| `Cheney.TracedWords` | pkg/plan/src/heap.c:411-441 | How many words each kind of object has traced |
| `Buddy.LiveDisjoint` | pkg/axsys/src/buddy.c:30-83 | Live blocks that share a unit are one block |
| `Buddy.LiveSlot` | pkg/axsys/src/buddy.c:30-83 | Live blocks are aligned to their size and in bounds |
| `Buddy.UsedIsLive` | pkg/axsys/src/buddy.c:30-83 | A unit is in use exactly when a live block covers it |
| `Buddy.LiveDetermines` | pkg/axsys/src/buddy.c:75-82 | The live blocks determine the tree, so coalescing is always maximal |
| `Buddy.VacantBest` | pkg/axsys/src/buddy.c:39-40 | A request can be met whenever some aligned block of its order is vacant |
| `Buddy.TakesLowest` | pkg/axsys/src/buddy.c:41-54 | No vacant block of that order lies below the one taken |
| `Buddy.TakeAdds` | pkg/axsys/src/buddy.c:55-62 | Allocation adds exactly one live block |
| `Buddy.GiveRemoves` | pkg/axsys/src/buddy.c:65-83 | Release removes exactly that live block |
| `Buddy.GiveUndoesTake` | pkg/axsys/src/buddy.c:65-83 | Releasing what was just allocated restores the tree |
| `BuddyArray.AllocRep` | pkg/axsys/src/buddy.c:41-60 | The descent and ascent over the array represent allocation in the block tree |
| `BuddyArray.ReleaseRep` | pkg/axsys/src/buddy.c:75-82 | The ascent over the array represents release in the block tree |
| `BuddyArray.UpRelease` | pkg/axsys/src/buddy.c:75-82 | Climbing from the released node is release from the root down |
| `BuddyAllocator.Allocator.Init` | pkg/axsys/src/buddy.c:6-23 | Accepts exactly powers of two with the capacity no smaller than the minimum, and starts with no live block |
| `BuddyAllocator.Allocator.Round` | pkg/axsys/src/buddy.c:33-38 | Rounds a request up to the least block size that holds it |
| `BuddyAllocator.Allocator.Alloc` | pkg/axsys/src/buddy.c:30-63 | Fails exactly when no aligned block of the rounded size is vacant and then changes nothing; otherwise hands out the lowest one and makes only that one live |
| `BuddyAllocator.Allocator.Release` | pkg/axsys/src/buddy.c:65-83 | Makes exactly the given live block free again |
| `BuddyAllocator.AlignedSlot` | pkg/axsys/src/buddy.c:66-69 | Every multiple of a block's size in bounds is one of its positions |
| `BuddyAllocator.SlotAligned` | pkg/axsys/src/buddy.c:66-69 | And every position is such a multiple |
| `Slabs.FreeWhereExact` | pkg/plan/src/gc2.c:192-207 | The freeing loops free exactly the selected slots; free list and use count agree with the slots |
| `Sweep.PopSweepInv` | pkg/plan/src/gc2.c:201-213 | Sweeping one queued span keeps lists, page map, byte counts and the epoch's facts |
| `Sweep.ServeInv` | pkg/plan/src/gc2.c:342-357 | Handing out a slot keeps them |
| `Sweep.GrowInv` | pkg/plan/src/gc2.c:314-341 | So does a new span |
| `Sweep.MarkInv` | pkg/plan/src/gc2.c:657-673 | So does marking, withdrawing and queueing every span |
| `Sweep.RollbackInv` | pkg/plan/src/gc2.c:367-391 | Rollback keeps them and frees exactly the slots newer than its checkpoint |
| `Sweep.RollOne` | pkg/plan/src/gc2.c:372-388 | A span rollback touches is never waiting to be swept |
| `Sweep.StepFrees` | pkg/plan/src/gc2.c:149-213 | Whatever a step frees is gone, and was an unmarked object of a queued span, no younger than the mark, or by rollback one younger than the checkpoint; everything else keeps its place and its mark |
| `Sweep.StepDead` | pkg/plan/src/gc2.c:201-213 | What has been freed and is no younger than the mark never comes back |
| `Sweep.MarkedSurvives` | pkg/plan/src/gc2.c:215-238 | Until the next mark, in every interleaving, a marked object stays |
| `Sweep.YoungSurvives` | pkg/plan/src/gc2.c:299-358 | An object allocated since the mark is never swept; only a rollback to before it takes it away |
| `Sweep.UnmarkedFreedOnce` | pkg/plan/src/gc2.c:201-238 | An object alive and unmarked after a mark is freed by exactly one step before the queue is empty, and from then on it is gone |
| `Sweep.DeadStays` | pkg/plan/src/gc2.c:201-238 | In every run, what is dead and no younger than the mark stays dead |
| `Sweep.SweptClean` | pkg/plan/src/gc2.c:201-238 | Once the queue is empty nothing unmarked of that age is left, and byte counts, free lists and page map agree with the spans |
| `SweepPages.GrantIsNew` | pkg/plan/src/gc2.c:314-341 | The block the buddy allocator takes for a new span holds no page of any span |
| `SweepPages.AlwaysBacked` | pkg/plan/src/gc2.c:173-190 | In every run of slab heap and buddy tree together the live blocks are exactly the spans' extents, so every extent given back was live |
| `SweepPages.AsRun` | pkg/plan/src/gc2.c:299-358 | Every such run is a run of the slab heap, so its theorems hold with nothing assumed of the allocator |
| `SweepPages.EmptyIsWhole` | pkg/plan/src/gc2.c:173-190 | When no span is left the buddy tree is one free block again |
| `SweepLaws.AllocLaw` | pkg/plan/src/gc2.c:299-358 | An allocation makes exactly one object, in a span of its class that is not waiting to be swept; it fails, or takes a new span, only when every span of the class is full and nothing is left to sweep |
| `SweepLaws.RollbackLaw` | pkg/plan/src/gc2.c:367-391 | A rollback leaves exactly the objects from before its checkpoint, and the serial with which the transaction began |
| `SweepLaws.FreedLastOut` | pkg/plan/src/gc2.c:192-213 | The slot freed last is handed out first |
| `SweepLaws.QueueShrinks` | pkg/plan/src/gc2.c:215-238 | Spans are swept from the end of the queue, which only a mark fills |
| `SweepLaws.MarkLaw` | pkg/plan/src/gc2.c:652-673 | A mark sets exactly the marks that tracing found and closes every span to allocation |
| `SweepSlots.Classify` | pkg/plan/src/gc2.c:299-305 | The loop finds the least size class that holds a request, or none |
| `SweepSlots.NoOverlap` | pkg/plan/src/gc2.c:314-341 | In every run no two slots, of one span or of two, share a byte |
| `SweepSlots.FindsExactly` | pkg/plan/src/gc2.c:393-408 | An address finds an object exactly when that object begins there |
| `SweepSlots.LargeEnough` | pkg/plan/src/gc2.c:299-358 | Whoever asks for so many bytes and is served gets a slot at least that long |
| `World.StepInv` | pkg/plan/src/gc2.c:69-126 | Every critical section keeps the active and blocking counts and the gate's single owner |
| `World.MarksAlone` | pkg/plan/src/gc2.c:621-682 | In every interleaving marking happens with no scope active and by one collector at a time, and blocking never exceeds active |
| `World.BlockedGateOpens` | pkg/plan/src/gc2.c:632-650 | A gate closed over a blocking scope can always be opened by its owner's next step |
| `World.OnlyOwnerOpens` | pkg/plan/src/gc2.c:621-682 | Only the collector that closed the gate opens it |
| `World.Decisions` | pkg/plan/src/gc2.c:621-682 | A forced collector closes the gate, any other only for a pending request over no blocking scope; behind the gate it marks, unless a scope blocks, when it opens the gate again, to retry if it was forced |
| `World.DepthCounts` | pkg/plan/src/gc2.c:69-126 | In every run a thread's depth is the number of its scopes entered and not left |
| `World.RequestPends` | pkg/plan/src/gc2.c:621-682 | A collection is requested exactly from a request to the next collection done |
| `World.BlocksDeclared` | pkg/plan/src/gc2.c:69-126 | A thread blocks exactly from its declaration until its outermost scope is left |
| `BatCursor.Cursor.Append` | pkg/plan/src/bat.c:36-47 | Appends a span's bytes, and refuses exactly when the running length would pass 64 bits |
| `BatCursor.Cursor.Crop` | pkg/plan/src/bat.c:74-96 | Cropping in place keeps exactly the requested bytes of the part and everything before it |
| `BatCursor.Cursor.Leaf` | pkg/plan/src/bat.c:121-140 | A slice is the bytes that are there, then zeros |
| `BatCursor.Cursor.Expand` | pkg/plan/src/bat.c:99-143 | Replacing a node by its parts preserves the meaning of the pending work and shrinks it |
| `BatCursor.Cursor.Conclude` | pkg/plan/src/bat.c:65-98 | A length check or range step succeeds exactly when the meaning says so |
| `BatCursor.Cursor.Open` | pkg/plan/src/bat.c:56-151 | Succeeds exactly on trees that denote a byte string and never pass 64 bits on the way, and then holds exactly that string; the BatLaws give what each node denotes |
| `BatLaws.RangeLaw` | pkg/plan/src/bat.c:108-117 | A range node denotes the bytes from its offset on, as many as its length, or nothing if they do not fit |
| `BatLaws.RepeatLaw` | pkg/plan/src/bat.c:99-143 | A repeat node denotes the lowest byte of its natural, so many times over |
| `BatLaws.CatLaw` | pkg/plan/src/bat.c:99-143 | A cat node denotes the concatenation of its parts |
| `BatLaws.BatLaw` | pkg/plan/src/bat.c:99-143 | A bat node denotes what is under it, exactly when it has the stated length |
| `BatLaws.SliceLaw` | pkg/plan/src/bat.c:118-143 | A slice node denotes the bytes of its natural, pinned or not, from its offset on, with zeros where the natural ends |
| `BatLaws.TextLaw` | pkg/plan/src/bat.c:99-143 | A text node denotes the bytes of its natural |
| `BatLaws.TagsAreNames` | pkg/plan/src/bat.c:99-143 | The tags are the ASCII bytes of their names |
| `BatCursor.Cursor.Seek` | pkg/plan/src/bat.c:158-167 | Succeeds exactly within bounds and then stands at the offset; otherwise nothing moves |
| `BatCursor.Cursor.Read` | pkg/plan/src/bat.c:169-196 | Returns exactly the bytes at the position, as many as asked for or left, touches no other byte of the buffer and advances past them |
| `BatBuild.ChunkMeans` | pkg/plan/src/bat.c:204-220 | A chunk means its bytes, trailing zeros included |
| `BatBuild.JoinMeans` | pkg/plan/src/bat.c:222-243 | A join means the concatenation, with the length its wrapper states |
| `BatBuild.JoinPairs` | pkg/plan/src/bat.c:254-263 | One in-place pass of joins turns balanced trees of w chunks each into balanced trees of 2w, an odd one kept |
| `BatBuild.FromBytes` | pkg/plan/src/bat.c:245-267 | The pairwise passes build exactly the balanced tree over chunks of 1 MiB, the left part of which holds the largest power of two of them; it means the bytes and opens without excess |
| `BatBuild.BalancedMeans` | pkg/plan/src/bat.c:222-243 | The balanced tree over any chunks means their concatenation |
| `BatBuild.RoundTrip` | pkg/plan/src/bat.c:158-267 | Build, open, seek and read gives back any part of any byte string |
| `UpdateStack.Updates.PushOther` | pkg/plan/src/eval.c:357-363 | Any other frame is one plain frame and starts a slice of its own |
| `UpdateStack.Updates.PushTarget` | pkg/plan/src/eval.c:633-659 | A target is one plain frame; it shares the top frame exactly when that is an update frame of the same run, so two update frames only ever meet where a run begins |
| `UpdateStack.Updates.Enter` | pkg/plan/src/eval.c:808-818 | Entering a thunk blackholes it and pushes it; finding the blackhole again is the loop error and changes nothing |
| `UpdateStack.Updates.EnterLegacy` | pkg/plan/src/eval.c:795-806 | Entering an interpreted thunk keeps what is needed to restore it |
| `UpdateStack.Updates.Return` | pkg/plan/src/eval.c:1680-1697 | A return writes the frame's targets last entered first, exactly as that many plain returns |
| `UpdateStack.Updates.UnwindFrame` | pkg/plan/src/eval.c:77-104 | Rolling back one frame is rolling back its plain frames and releases exactly its slice |
| `UpdateStack.Updates.UnwindTo` | pkg/plan/src/eval.c:77-104 | Unwinding to any frame of the current run, such as the one that catches an exception, leaves exactly its plain frames and restores exactly what was discarded |
| `UpdateStack.Updates.Unwind` | pkg/plan/src/eval.c:72-104 | Unwinding to where any enclosing run began leaves exactly the plain frames of that time |
| `UpdateStack.UnwoundExactly` | pkg/plan/src/eval.c:63-104 | An unwind restores exactly the thunks of the discarded frames and touches nothing else |
| `UpdateStack.ReturnedExactly` | pkg/plan/src/eval.c:1685-1697 | A return gives the value to exactly the popped frames' thunks |
| `UpdateStack.SlotOwner` | pkg/plan/src/eval.c:72-104 | The slices partition the side stack: every slot belongs to exactly one frame |

## Left out

- Copying in 4096-byte pieces, reader rewinding and error texts of the Silo codec: they do not change what is accepted or produced.
- SHA-256 with its domain-separated preimages, and CRC-32C: a scheme is three arbitrary hash functions and an arbitrary page checksum.
- The bounds and consistency checks of a superblock beyond its checksum, and the early return of a checkpoint with nothing to do, for which no durability is claimed.
- Object records of the native store (staging, verification, scrubbing): only the index over them is modelled.
- Folder listings as row values, and log files of a recorded run: logged answers are opaque data.
- Executor: actor code, mail payloads and capabilities are abstracted, so `ExecutorMail.MailConserved` counts messages, and `ReplayMail.FirstInFirstOut` has their contents and order; condition-variable wake-ups are steps that may happen at any time.
- Strictness masks published by other code objects, so `CALL_FAST` is a plain call and not a consumer of the eager pass.
- Operand words of an instruction share its index, and numeric specialisation, speculation codes, fuel and profiling are not modelled.
- EagerLoops.EagerRewrite: preservation is stated for code whose variables are in range and whose thunks have arguments, and from the strict entry where the walk carries no slots in, because otherwise it is false (see above).
- EagerLimits.EntryExact: the failing direction needs room for its continuation, so it is stated for at most 254 slots carried in (127 for the one that does not fault) and no jump from before the entry into it; the preserving direction has no such bound.
- EagerOptimise.Optimise: stops before numeric specialisation and the unchecked forms, which follow the loop; `ReadinessRuns.ReadyRewrite` has the latter.
- A branch or a return looks through indirections here: a slot and the cell it leads to are one.
- Readiness: allocation failure, which only switches the optimiser off.
- Cheney: words an object does not trace are one opaque value, and an object's size is taken from its header.
- BuddyAllocator.Allocator.Release: takes as given that the block is live with this size; the code's own assertion cannot recognise every wrong size.
- Sweep: marking itself (tracing roots and objects) and the byte threshold that requests a collection; the property is about interleavings, so spans are values and steps are functions rather than updates in place.
- World: how a thread finds its scope, and the collector's wait for the previous sweep.
- Bat: memory exhaustion while growing the stack of pending nodes or the span array, and garbage-collector rooting in the constructors.
- UpdateStack: growth of the three stacks and what is evaluated between pushes.
- `jit.c`, `canon.c`, `debug.c`, `wisp.c`, `scry.c`, `rplan.c`, `op.c`, `batch.c`, `fd.c`, `base58.c`, `arena.c`, `vector.c` and `nat.c`: tied to machine layout or to I/O, or they would only add easy members.
