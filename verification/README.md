# Transaction systems, verified

This project models three parts of a collection of in-memory transaction systems and proves what they are for.

**Silo optimistic concurrency control** (`silo/`). `SiloMachine` is a small-step machine: any number of workers,
each with a program counter, share a table of records and a global epoch, and every load, compare-and-swap, store,
and single byte copied is one step of one worker. A transaction enters a log at its lock point, where it loads the
global epoch with its write set locked. Over every run and every interleaving, `SiloTheorems` proves
serializability in lock-point order, absence of torn reads, the order of TIDs and epochs, the epoch gap, the lock
discipline, what an abort restores, and freedom from deadlock. `SiloProgram` ties what is read, written and committed
to the programs that the workers were given, `SiloProgress` says which reads must pass and when the epoch must be
stepped, and `SiloAlone` proves obstruction freedom: a worker left alone commits, and its transaction has exactly the
effect of its program. `SiloExecutor` is the worker's code in its own form, with
the source's loops, vectors and fields. It is given turns, each with steps of the other workers; it takes every one of
them until it is told to quit, and makes one access to shared memory in each, which is shown to be its step of the
machine. What comes of it is the machine's run under exactly that schedule, so that the theorems hold of the code.

**The B+ tree with deletion** (`bptree/main.c`) for every order from 3 on, on node objects with key and pointer
arrays, parent pointers and a leaf chain. A ghost store says what each node holds and which interval of keys it is
responsible for; all conditions are local to a node and its neighbours (`BpStore`). `BpGrow` and `BpShrink` prove what
the steps of insertion and deletion do to the store, `BpArrays` what the array loops do to one node, and `BpInsert`
and `BpDelete` put them together into the cascades. `insert` gives a tree for `m[key := value]`, `delete` one for
`m - {key}`, on every path through splits, merges, borrowings and a new or collapsing root, with occupancy kept,
with every removed node and record freed, and with nothing freed that is still reachable. `PrimaryTree` is the
instance of order 4 that `kvsilo` uses.

**The Masstree layer chain** (`masstree/`). A key of any number of 8-byte slices is laid out in a chain of layers, and
`get` and `write` walk it. Which keys a chain answers to is given in closed form, exactly.

Assumptions about the surroundings of the Silo protocol: atomic accesses are sequentially consistent; memory starts
zeroed, since `posix_memalign` leaves the local epochs and the tid bits unset, while records start in epoch 1 and the
global epoch at 0 (silo/main.cpp:55); the epoch timer, the quit flag and the programs are arbitrary choices; the value
a transaction writes is arbitrary for each transaction. Serializability and what follows from it are proved of the runs
in which every chosen TID had room in its 29-bit field (`SiloTheorems.NoWrap`). That is every run with fewer than 2^29
commits in each epoch, however many there are in all (`SiloMachine.InRange`, `SiloTheorems.TidBound`), and
`SiloChoice.TidChoice` shows for every run that a TID without room fails to rise. The order of epochs asks for epochs
below 2^32. The epoch gap, the lock discipline and freedom from deadlock ask for nothing.
silo/README.md:3-6 calls that directory abandoned; its commit path is the one modelled, because it compares epoch and tid.

Where code and documentation differ, the code is modelled:
bptree/main.c:377-381 promises all keys of a range, but the early return of line 389 loses them when the leaf that
the start leads to has no key from there on (`BpRange.FindRange` gives the exact condition, `BpTheorems.RangeGap` an
example, and `BpTheorems.MissingRange` the insertions that lead to one); masstree/masstree.h:152-167 describes a
search for a key, but the code answers to some other keys too (`MassKey.MistakenKeys`).

## Model

| member | source | states |
|---|---|---|
| SiloTid.BodyIsLexicographic | silo/tuple.h:24-48 | the 64-bit body is a faithful packing, and comparing bodies compares epoch, then tid, then the flag bits |
| SiloTid.BodyUnpacks | silo/tuple.h:24-48 | each field of a word can be read off its bits: lock, latest, absent, 29 bits of tid, 32 bits of epoch |
| SiloTid.BodyOnto | silo/tuple.h:24-48 | every 64-bit value is the body of a word, so the fields fill the 64 bits without gap or overlap |
| SiloTid.ChooseTidTaken | silo/txn_executor.cpp:203-223 | whatever the words are: the TID is unlocked, its epoch is the latest of theirs and the worker's, and its tid is the next one of a word of that epoch, or 0 |
| SiloTid.ChooseTidGrows | silo/txn_executor.cpp:203-223 | if every tid is at most the number of TIDs chosen so far in its word's epoch, and the new one can still be counted, then the chosen TID exceeds everything read, overwritten and chosen before, despite lock and latest bits in the maxima, and keeps the bound |
| SiloTid.ChooseTidGrowsIff | silo/txn_executor.cpp:203-223 | exactly when it does so: the highest of those words has room in its tid, or the epoch has moved past it |
| SiloTid.ChooseTidWraps | silo/tuple.h:32-33 | a concrete word at the end of the 29-bit field after which the next TID goes back to 0 |
| SiloLocks.SortSorts | silo/txn_executor.cpp:155 | sorting a write set of distinct keys gives the same keys in strictly increasing order |
| SiloLocks.LocksStep | silo/txn_executor.cpp:52-74 | every step of every worker keeps: records are locked exactly by their unique owners |
| SiloEpoch.GapStep | silo/epoch.h:23-59 | every step keeps all epochs within one of the global epoch, through the leader's one-by-one scan |
| SiloLog.BoundedStep | silo/txn_executor.cpp:203-223 | every step keeps all tids at or below the number of commits in their word's epoch, and finds room for a TID, while each epoch has fewer than 2^29 commits |
| SiloLog.CommitsStep | silo/txn_executor.cpp:203-223 | a step adds one to the commits of an epoch exactly if it chooses a TID in that epoch |
| SiloLog.FewCommits | silo/tuple.h:32-33 | with fewer than 2^29 commits in all, each epoch has fewer than 2^29 |
| SiloLog.AgesStep | silo/txn_executor.cpp:158-160 | every step keeps, while epochs are below 2^32: epochs never decrease along the serial order, and a commit's epoch is that of its lock point |
| SiloSerial.SerialStep | silo/txn_executor.cpp:52-235 | every step, unless it chooses a TID without room, keeps the serialization invariant: validated reads, held locks, partly written records and the log agree |
| SiloTheorems.RunInv | silo/main.cpp:74-129 | all invariants hold in every state of every run in which no TID field has wrapped |
| SiloTheorems.Serializability | silo/txn_executor.cpp:52-235 | in lock-point order, every committed read saw the version (TID and bytes) of the last earlier committed writer or the initial one, and every unlocked record holds its last writer's version |
| SiloTheorems.RealTime | silo/txn_executor.cpp:153-182 | the serial order respects real time: a transaction whose worker has not come to its lock point when another one is decided comes after it, and a decision is never changed |
| SiloProgram.RunFollows | silo/main.cpp:103-115 | in every state of every run, the write set has exactly the keys that the operations executed so far write, and the read set, once each, those that they read before writing them |
| SiloProgram.EntryAsked | silo/txn_executor.cpp:155-160 | every transaction in the log was entered by its worker at its lock point, with the reads, the sorted writes and the value that its program asks for |
| SiloProgram.ProgramGiven | silo/main.cpp:90-128 | a worker's program and value are those chosen when it left the top of its loop last; a retry keeps them |
| SiloProgram.LeftCommitted | silo/main.cpp:117-127 | a worker is back at the top of its loop only when a transaction with what its program asks for has committed |
| SiloProgram.StopsOnQuit | silo/main.cpp:90-101 | a worker stops exactly when it finds quit set at the top of its loop or before an attempt |
| SiloProgress.ReadPasses | silo/txn_executor.cpp:163-175 | in every run, a read passes validation if and only if its version is still the record's and no other worker holds the record; the worker's own lock lets it pass |
| SiloProgress.RunShown | silo/tuple.h:24-48 | in every run, all records keep the latest bit, and none gets the absent bit |
| SiloProgress.ScanBegins | silo/epoch.h:48-59 | the leader begins to look at the epochs exactly if the timer has elapsed at RETRY; other workers never do |
| SiloProgress.ScanPasses | silo/epoch.h:37-46 | the scan goes on past a worker if and only if that worker has published the present epoch |
| SiloProgress.EpochAdvances | silo/epoch.h:23-59 | if all other workers have published the present epoch when the scan begins, it ends with the next epoch, whatever steps they make meanwhile |
| SiloAlone.RankFalls | silo/txn_executor.cpp:52-235 | every step of a worker, while no other one holds a lock, brings it nearer to its commit or to the end of a lost attempt |
| SiloAlone.AloneCommits | silo/main.cpp:94-128 | a worker that makes steps alone from RETRY on, with no lock in its way, commits at its first attempt within a stated number of steps; it saw the table as it was, and the table has the value and one TID in exactly the records its program writes |
| SiloAlone.ObstructionFree | silo/main.cpp:94-128 | from every state of every run, a worker that makes steps alone, with no other one holding a lock, commits what its program asks for within a bound |
| SiloTheorems.QuiescentTable | silo/txn_executor.cpp:203-235 | with no transaction under way, nothing is locked and the whole table is what the serial execution leaves |
| SiloTheorems.NoTornRead | silo/txn_executor.cpp:79-121 | the bytes read() accepts are those of the latest committed version, under the TID it records, although both sides copy byte by byte |
| SiloTheorems.TidOrder | silo/txn_executor.cpp:203-223 | the TIDs committed to a record strictly increase in serial order |
| SiloTheorems.EpochsInOrder | silo/txn_executor.cpp:158-160 | while epochs are below 2^32, they never decrease in serial order, and a commit's epoch is max(1, epoch at its lock point), wrapped tids or not |
| SiloChoice.TidChoice | silo/txn_executor.cpp:203-223 | in every run without exception, a commit's TID is above every version it read or overwrites and above the worker's previous TID if and only if the highest of those versions has room in its tid or the epoch has moved past it; it is never locked |
| SiloChoice.RunGathered | silo/txn_executor.cpp:64-66 | in every run, the worker's maxima are exactly the highest versions it has locked and validated so far |
| SiloTheorems.EpochGap | silo/epoch.h:37-59 | in every reachable state, for every worker including the leader, 0 <= E - e_w <= 1 |
| SiloTheorems.TidBound | silo/tuple.h:32-33 | in a run with fewer than 2^29 commits in each epoch, no tid in any record or worker exceeds the number of commits in its word's epoch, and no choice of a TID wraps |
| SiloTheorems.LockDiscipline | silo/txn_executor.cpp:52-74 | a record is locked exactly if some worker holds it, holders are unique, and workers outside transactions, executing or reading hold nothing |
| SiloLocks.OnlyOwnerWrites | silo/txn_executor.cpp:225-231 | a record changes in a step only at the hands of its lock's owner or of the worker that takes the lock |
| SiloTheorems.HeldThroughout | silo/txn_executor.cpp:153-182 | while a worker holds a record without having committed, word and bytes stay as they are |
| SiloTheorems.AbortRestores | silo/txn_executor.cpp:139-148 | a lock taken and given up without a commit leaves the record, word and bytes, as it was |
| SiloTheorems.DeadlockFree | silo/txn_executor.cpp:52-74 | while some worker has not stopped, some worker can take a step that is not a spin, whatever the environment chooses |
| SiloShared.Shared.Turn | silo/main.cpp:74-129 | a turn is refused exactly when none is left; otherwise the others make the steps given for it, which leave this worker's state alone and extend the run |
| SiloShared.Shared.Done | silo/txn_executor.cpp:52-235 | an access of the code whose effect is the machine's is this worker's step of the machine in the turn taken, and readies it for the next |
| SiloShared.Shared.StoreEpoch | silo/epoch.h:15-21 | publishing an epoch is this worker's step of the machine in the turn taken |
| SiloShared.Shared.AllLocked | silo/txn_executor.cpp:155-175 | every record the worker holds is locked, and from the last lock taken to the first one released that is the whole write set |
| SiloShared.Shared.CaughtUp | silo/epoch.h:37-46 | when the leader is about to add to the epoch, every other worker has published the present one |
| SiloShared.OtherStep | silo/main.cpp:74-129 | another worker takes no notice of this one but for its published epoch and the table |
| SiloExecutor.TxnExecutor.SearchReadSet | silo/txn_executor.cpp:123-129 | finds a key exactly if the read set has it |
| SiloExecutor.TxnExecutor.SearchWriteSet | silo/txn_executor.cpp:131-137 | finds a key exactly if the write set has it |
| SiloExecutor.TxnExecutor.Read | silo/txn_executor.cpp:79-121 | unless turns run out: if the key is in one of the sets nothing is read, else one read of it is added, whole and not found locked; every access on the way is the machine's |
| SiloExecutor.TxnExecutor.SpinUnlocked | silo/txn_executor.cpp:90-92 | ends with a word that is not locked, or with no turn left |
| SiloExecutor.TxnExecutor.CopyValue | silo/txn_executor.cpp:99 | a whole value is copied, a byte in each of exactly VALUE_SIZE turns if there are so many |
| SiloExecutor.TxnExecutor.Recheck | silo/txn_executor.cpp:105-121 | the copy is kept exactly if the word is the one found before, in exactly one turn; either way the machine goes the same way |
| SiloExecutor.TxnExecutor.Write | silo/txn_executor.cpp:184-198 | the key enters the write set if it is not there, and nothing else changes, in exactly one turn if there is one |
| SiloExecutor.TxnExecutor.RunSteps | silo/main.cpp:103-115 | at the end the sets are exactly what the program asks for |
| SiloExecutor.TxnExecutor.SortWriteSet | silo/txn_executor.cpp:155 | sorting keeps the keys of the write set, as one step of the machine |
| SiloExecutor.TxnExecutor.LockWriteSet | silo/txn_executor.cpp:52-74 | at the end every record of the write set is locked, whatever the other workers do meanwhile, unless turns run out while locking |
| SiloExecutor.TxnExecutor.TryLock | silo/txn_executor.cpp:59-72 | one compare-and-swap in exactly one turn, as the machine makes it, and what a failed one leaves behind |
| SiloExecutor.TxnExecutor.LoadEpoch | silo/txn_executor.cpp:158-160 | the epoch is loaded and published in two accesses, and so in exactly two turns if there are two |
| SiloExecutor.TxnExecutor.ValidateRead | silo/txn_executor.cpp:165-175 | a read passes if and only if its version is still the record's and no other worker has the record locked, in exactly one turn, as the machine decides |
| SiloExecutor.TxnExecutor.ValidationPhase | silo/txn_executor.cpp:153-182 | unless turns run out within it, true: a TID may be chosen, with the whole write set still locked and the sets exactly what the program asks for; false: the locks have been given back |
| SiloExecutor.TxnExecutor.UnlockWriteSet | silo/txn_executor.cpp:139-148 | every lock of the write set is released in turn, by a load and a store each, in exactly two turns for each lock, unless turns run out on the way |
| SiloExecutor.TxnExecutor.ChooseNext | silo/txn_executor.cpp:204-223 | the candidates computed from the fields give the machine's TID |
| SiloExecutor.TxnExecutor.WriteRecord | silo/txn_executor.cpp:225-231 | the bytes first, then the word that releases the lock, in exactly one turn each |
| SiloExecutor.TxnExecutor.WritePhase | silo/txn_executor.cpp:203-235 | TID choice, byte copies and releasing stores follow the machine back to the top of the loop, in exactly as many turns as there are accesses, unless turns run out on the way |
| SiloExecutor.TxnExecutor.CheckEpochLoaded | silo/epoch.h:37-46 | true if and only if every other worker has published the present epoch; the scan follows the machine until turns run out |
| SiloExecutor.TxnExecutor.CheckWorker | silo/epoch.h:40-42 | true if and only if the worker looked at has published the present epoch, in exactly one turn |
| SiloExecutor.TxnExecutor.AddGlobalEpoch | silo/epoch.h:23-34 | the compare-and-swap loop follows the machine until it succeeds or turns run out in it |
| SiloExecutor.TxnExecutor.TryTransaction | silo/main.cpp:94-127 | one attempt ends at the top of the loop if it commits, at RETRY if it aborts, and stopped if told to quit, unless turns run out |
| SiloExecutor.TxnExecutor.NextSteps | silo/main.cpp:90-92 | the worker takes the program and value chosen in this turn, or stops if and only if quit is set in it |
| SiloExecutor.TxnExecutor.BeginTransaction | silo/main.cpp:101-103 | stops if and only if quit is set in this turn |
| SiloExecutor.TxnExecutor.LeaveRetry | silo/main.cpp:94-99 | turns to the epochs exactly if the worker is the leader and its timer has elapsed |
| SiloExecutor.TxnExecutor.Work | silo/main.cpp:90-128 | the worker takes turns until it is told to quit or none is left, and what it and the others do is the machine's run under exactly the schedule of those turns |
| BpArrays.Cut | bptree/main.c:478-483 | half of a length, rounded up |
| BpArrays.FindPlace | bptree/main.c:562-564 | where a new key belongs: smaller keys before it, larger ones from there on |
| BpArrays.InsertIntoLeaf | bptree/main.c:558-574 | the leaf shows its entries with the new one in its place |
| BpArrays.InsertSlot | bptree/main.c:566-571 | the shifting loop and the store put the new entry between the others and touch nothing behind them |
| BpArrays.CopyAround | bptree/main.c:607-611 | the copy leaves exactly the chosen position free |
| BpArrays.Gather | bptree/main.c:703-714 | the temporary arrays hold everything in order, including the new entry |
| BpArrays.Fill | bptree/main.c:620-630 | an emptied node takes a stretch of the temporary arrays and counts its keys |
| BpArrays.ClearPointers | bptree/main.c:639-642 | exactly the unused pointers become null |
| BpArrays.SplitLeaf | bptree/main.c:582-646 | the two leaves show the halves of the entries with the new one, chained one after the other |
| BpArrays.GetLeftIndex | bptree/main.c:545-552 | the search finds the child's first place, in range |
| BpArrays.InsertIntoNode | bptree/main.c:656-668 | the node shows its keys and children with the new ones in place |
| BpArrays.SplitNode | bptree/main.c:675-738 | the two nodes show the parts of the overfull node and the key between goes up |
| BpArrays.GetNeighborIndex | bptree/main.c:901-919 | the index of the left sibling or -1; the error exit is never reached |
| BpArrays.RemoveFirst | bptree/main.c:926-940 | the search stops in range and what follows the entry closes up |
| BpArrays.RemoveEntryFromNode | bptree/main.c:922-956 | the node shows its entries without the given one, and a leaf keeps its link |
| BpArrays.CoalesceLeaves | bptree/main.c:1070-1078 | the left leaf shows both leaves' entries and the right one's link |
| BpArrays.CoalesceInner | bptree/main.c:1031-1053 | the left node shows both nodes' keys around the separator, and both nodes' children |
| BpArrays.Append | bptree/main.c:1071-1075 | the copying loop appends, and touches nothing behind what it copies |
| BpArrays.BorrowLeftLeaf | bptree/main.c:1119-1124 | the last entry of the left leaf is the first of the right one |
| BpArrays.BorrowLeftInner | bptree/main.c:1105-1118 | the last child of the left node is the first of the right one, with the separator before its keys |
| BpArrays.BorrowRightLeaf | bptree/main.c:1134-1149 | the first entry of the right leaf is the last of the left one |
| BpArrays.BorrowRightInner | bptree/main.c:1139-1151 | the first child of the right node is the last of the left one, behind the separator |
| BpHeap.Rehang | bptree/main.c:739-742 | all children of a node point up to it, and nothing else changes |
| BpLend.TakeFromLeft | bptree/main.c:1104-1125 | the left sibling's last entry arrives in front, the parent's key between the two is the right one, and a moved child points to its new parent |
| BpLend.TakeFromRight | bptree/main.c:1133-1152 | the right sibling's first entry arrives at the end, the parent's key between the two is the right one, and a moved child points to its new parent |
| BpLend.LendRight | bptree/main.c:1104-1125 | in the whole store, exactly the boundary between the siblings has moved by one to the left |
| BpLend.LendLeft | bptree/main.c:1133-1152 | in the whole store, exactly the boundary between the siblings has moved by one to the right |
| BpMerge.Absorb | bptree/main.c:1003-1078 | in the whole store, the right sibling's entries and children are with the left one, and only the parent still has an entry to give up |
| BpGrow.EntryAdded | bptree/main.c:558-574 | a tree with an entry put into the only leaf responsible for it is a tree for the larger map |
| BpGrow.LeafSplit | bptree/main.c:614-648 | splitting a leaf anywhere leaves a tree with a pending right half, chain included |
| BpGrow.ChildAdded | bptree/main.c:656-668 | telling the parent of the right half completes the tree |
| BpGrow.InnerSplit | bptree/main.c:718-749 | splitting an inner node and rehanging the upper children leaves a pending right part |
| BpGrow.RootAdded | bptree/main.c:798-809 | a new root above a split root completes the tree |
| BpShrink.EntryRemoved | bptree/main.c:922-956 | a tree without one leaf entry is a tree for the smaller map; separators may be keys no longer stored |
| BpShrink.Merged | bptree/main.c:1003-1084 | two neighbouring children merged, and the separator taken out of their parent, leave a tree |
| BpShrink.Resplits | bptree/main.c:1093-1162 | moving the boundary between neighbouring children anywhere leaves a tree for the same map |
| BpShrink.Collapsed | bptree/main.c:974-992 | a root with a single child gives way to it |
| BpStore.OneNode | bptree/main.c:408-439 | at each height, one node only is responsible for a key |
| BpStore.WhichChild | bptree/main.c:901-919 | a node below the root is a child of its parent, at an index whose separators bound it |
| BpStore.DistinctChildren | bptree/main.c:926-940 | no child occurs twice in a node, so that a search by pointer finds the right one |
| BpInsert.SplitSizes | bptree/main.c:720-735 | both parts of a split node have lawful sizes |
| BpInsert.HalvesHeaded | bptree/main.c:614-648 | splitting a leaf keeps: every leaf but the leftmost starts with the separator before it |
| BpInsert.InsertIntoNewRoot | bptree/main.c:798-809 | the new root and both children's parents are in memory |
| BpInsert.InsertIntoParent | bptree/main.c:757-791 | the cascade ends, at most at a new root, with a tree of lawful sizes for the same map |
| BpInsert.InsertIntoNodeAfterSplitting | bptree/main.c:675-750 | a split moves the pending pair one level up, and so comes to an end |
| BpInsert.HalveLeaf | bptree/main.c:582-646 | the leaf and the new one are in memory as a pending split of a tree for the larger map |
| BpInsert.InsertIntoLeafAfterSplitting | bptree/main.c:582-649 | a full leaf takes the entry: a tree for the map with it |
| BpInsert.StartNewTree | bptree/main.c:816-825 | a single leaf with the single entry |
| BpInsert.Overwrite | bptree/main.c:849-855 | the record of a key that is there takes the new value |
| BpInsert.InsertNew | bptree/main.c:857-888 | a key that is not there gets a record of its own |
| BpInsert.Insert | bptree/main.c:835-888 | from a tree for m to a tree for m[key := value], every order, every path; new nodes are fresh, records stay, and a new one is that of a new key |
| BpDelete.RedistributeNodes | bptree/main.c:1093-1162 | all four cases of borrowing end in a tree of lawful sizes with the same nodes |
| BpDelete.CoalesceNodes | bptree/main.c:1003-1084 | the merge and the cascade above it end in a tree, and the emptied node is freed |
| BpDelete.FindNeighbor | bptree/main.c:1212-1222 | the sibling turned to is the left one, or the right one for a leftmost child, with the key between the two |
| BpDelete.Underflow | bptree/main.c:1206-1234 | a node with too few keys is merged or borrows, and either leads to a tree of lawful sizes |
| BpDelete.AdjustRoot | bptree/main.c:959-994 | a root with keys stays, one with a single child gives way, an empty leaf leaves no tree; what goes is freed |
| BpDelete.DeleteEntry | bptree/main.c:1170-1235 | from a tree that owes one entry of a node to a tree of lawful sizes, whatever cascade follows |
| BpDelete.Delete | bptree/main.c:1241-1255 | from a tree for m to a tree for m - {key}; exactly the key's record leaves, the other records keep their values, and all that leaves is freed |
| BpFind.FindLeaf | bptree/main.c:408-439 | reaches the only leaf that can have the key |
| BpFind.Find | bptree/main.c:445-473 | finds a record exactly if the map has the key, with its value and its place in the leaf |
| BpScan.Height | bptree/main.c:261-269 | the way down the first pointers is as long as the tree is high |
| BpScan.Leaves | bptree/main.c:229-254 | following the chain from the leftmost leaf lists exactly the map's keys, strictly ascending, with their records |
| BpRange.FindRange | bptree/main.c:382-400 | exactly the entries from start to end, ascending, if and only if the leaf reached has a key from start on or the range is empty; otherwise nothing |
| BpRange.KeyStarts | bptree/main.c:386-389 | a range can be started at every key of the map |
| BpRange.CopyRange | bptree/main.c:391-395 | the output has room for every key of the range |
| BpTheorems.RangeGap | bptree/main.c:388-389 | a tree of order 4 in which a range with an entry is reported empty |
| BpTheorems.GapEverywhere | bptree/main.c:388-389 | every tree of order 4 with the keys 10, 20, 30, 40 whose separators head their leaves has that gap |
| BpTheorems.MissingRange | bptree/main.c:835-888 | four insertions lead the code to such a tree, and its query from 25 to 35 misses 30 |
| BpHeight.NodeCount | bptree/main.c:1197-1204 | below every node under the root there are at least cut(order)^h * cut(order - 1) keys |
| BpHeight.HeightBound | bptree/main.c:261-269 | a tree of height h >= 1 holds at least 2 * cut(order)^(h - 1) * cut(order - 1) keys, and one of height 0 at least 1 |
| BpTheorems.ReachedIsLive | bptree/main.c:1080-1083 | no node that child, parent and next pointers lead to from the root has been freed |
| BpTheorems.EqualDepth | bptree/main.c:261-269 | every way down from the root reaches a leaf exactly at the height of the tree |
| BpTree.RunMap | bptree/main.c:835-888 | after a run, a key is there exactly if the last operation on it was an insertion, with that value |
| BpTree.BPlusTree.Insert | bptree/main.c:835-888 | the tree object holds the map with the key set, and the records handed out before are still its records; if the separators head their leaves, as they do until something is deleted, they still do |
| BpTree.BPlusTree.Delete | bptree/main.c:1241-1255 | the tree object holds the map without the key; exactly the key's record has left it, and what has left it is freed |
| BpTree.BPlusTree.Run | bptree/main.c:1280-1350 | any sequence of insertions and deletions leaves a tree whose map has a key exactly if the last operation on it was an insertion, with that value, or as before if there was none |
| BpTree.BPlusTree.Height | bptree/main.c:261-269 | the height of the tree, which bounds its number of keys from below |
| BpTree.BPlusTree.Find | bptree/main.c:445-473 | a record exactly if the map has the key, with its value |
| BpTree.BPlusTree.RecordsShow | bptree/main.c:445-473 | whoever has been given a record of the tree sees the map through it, and there is one for each key |
| BpTree.BPlusTree.Leaves | bptree/main.c:229-254 | the map's entries in ascending order |
| BpTree.BPlusTree.FindRange | bptree/main.c:382-400 | exactly the entries of the range if and only if it can be started or is empty, in particular from any key of the map; otherwise nothing |
| PrimaryTree.Index.constructor | kvsilo/primary_tree.h:40-50 | the index of order 4 starts out with the keys 1 to 8 |
| PrimaryTree.Index.Insert | kvsilo/primary_tree.cpp:405-427 | insertion at order 4; the records handed out stay the index's own |
| PrimaryTree.Index.Read | kvsilo/primary_tree.cpp:429-433 | the index's own record of a key that is there, not a copy |
| PrimaryTree.Index.Write | kvsilo/primary_tree.cpp:435-439 | a key that is there takes another value in its record; the index keeps the same records, and nothing else changes |
| MassKey.Key.Next | masstree/key.h:70-74 | moving the cursor drops the first of the remaining slices |
| MassKey.HitsIsAnswers | masstree/masstree.h:151-202 | the layer-by-layer search answers exactly to the keys of the closed form |
| MassKey.FindsItself | masstree/masstree.h:320-345 | a key is answered by its own chain |
| MassKey.SameLength | masstree/masstree.h:151-202 | among keys with as many slices: exactly those that agree in every slice value, and in the size if there is one slice |
| MassKey.NoMistake | masstree/masstree.h:151-202 | with the same number of slices and the same last size, only the key itself |
| MassKey.MistakenKeys | masstree/masstree.h:183-187 | keys of each kind that are answered though they are not the key |
| MassTree.BorderNode.ExtractFor | masstree/masstree.h:151-202 | the first of the 15 slots that matches decides, and empty slots never match |
| MassTree.LayerSays | masstree/masstree.h:151-202 | what a filled layer says to any key |
| MassTree.SearchLayer | masstree/masstree.h:320-345 | layer by layer: found in the last layer only, on to the next one if the slice agrees, never unstable |
| MassTree.FillSlot | masstree/bptree.h:82-108 | one layer holds one slice, or the last two, or one and a link to a blank layer |
| MassTree.KeyInsertAfterNewLayer | masstree/bptree.h:16-75 | the layers below a filled layer hold the rest of the key |
| MassTree.StartNewTree | masstree/bptree.h:77-111 | a chain of layers for a key of any number of slices |
| MassTree.Get | masstree/masstree.h:320-345 | the value exactly if the closed form says that the chain answers to the key, otherwise null |
| MassTree.Write | masstree/masstree.h:354-383 | true exactly if the closed form says that the chain answers to the key, and then it holds the new value; otherwise nothing changes |
| MassTree.RoundTrip | masstree/bptree.h:77-111 | a chain is laid out for the key and the value, and is found in it under its own key, and under another key exactly if the closed form says so |

## Left out

- SiloTheorems.Serializability: is stated for runs in which every choice of a TID has had room, because the code reuses TIDs after that; SiloChoice.TidChoice says exactly when a choice has none.
- SiloExecutor.TxnExecutor.Work: the turns are a finite list given beforehand, so a run of the code is cut off where they end; unbounded runs are covered by the machine.
- Weak memory, fences, the time stamp counter and real time: accesses are sequentially consistent steps, and the epoch timer may elapse at any time.
- BpArrays.InsertIntoLeaf: keys and pointers are shifted in two loops where the source shifts both in one; the same in BpArrays.InsertIntoNode and in deletion.
- BpRange.FindRange: asks for output arrays of end - start + 1 entries, as find_and_print_range provides them (bptree/main.c:359-361); overflow of that difference is not modelled.
- C `int` keys and `size_t` keys of kvsilo are integers without bounds; the tree only compares them.
- The C struct field `next` and the print queue, `path_to_root`, printing, the command loop and `destroy_tree` of the B+ tree.
- Failure of `malloc`.
- MassTree.Get: the version words of Masstree nodes are not modelled; in a chain of border nodes that no one is changing, every version comparison of the source succeeds at once.
- MassKey.Key.Next: a key is a value with a cursor, because the source passes keys by value; the vector inside it is never changed.
- Masstree interior nodes, insertion and splitting: the separator passed up is the inserted key's slice (masstree/bptree.h:362-376) and suffixes are not moved with their slots (masstree/bptree.h:130-134), so the map is not kept beyond the layer chain.
- kvsilo/transaction.cpp and kvsilo/database.cpp as a protocol: validation ignores the epoch (kvsilo/transaction.cpp:63) and the leader's `continue` does not gate the epoch (kvsilo/database.cpp:63-69).
- cicada, whose validation and write phase are stubs, and bptree/bptree.cpp, an unfinished sketch.
- Result counters, random and Zipf generation, ss2pl, note and test.
