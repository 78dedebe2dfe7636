# Verified model of the course repository's four algorithms

This project models, in Dafny, the four components of the repository that carry an
algorithm, and proves what they promise.

**Skip list (hw02).** A list of data nodes under `MAXHEIGHT` index lists; a key's tower is as
high as the coin flips make it. `SkipNodes.dfy`, `SkipIterator.dfy` and `SkipList.dfy` hold the
classes, with the fields and the loops of the C++ classes; the coin
flips of an insertion are a parameter. `SkipShape.dfy` says what a well-formed skip list is and that one step of a search,
an insertion or a removal keeps it so. `OrderedMap.dfy` is the finite map the list stands for, and
`SkipListClient.dfy` drives the list the way its users do. The order `less` is any strict total
order and `MAXHEIGHT` is any number from 1 on.

**Coroutines and blocking channels (hw-coroutines, hw-net-engine).** `Fifo.dfy` is a bounded
queue of bytes, and `Channel.dfy` the ring buffer that implements it. `Scheduler.dfy` is the
decision of `sched`, with and without locks; `EngineRuns.dfy` follows it over whole runs.
`NetMachine.dfy` is the network engine as a step machine: one step is what the running routine
does up to the next point where control may pass to another routine. `NetHistory.dfy` follows the
lock table and the totals of all calls over whole runs, and `NetExamples.dfy` holds runs that break
a promise. `Transfer.dfy` follows one sender and one receiver to the end. `Engine.dfy` and `NetEngine.dfy`
are the classes themselves: contexts on a doubly linked list, the channel and lock tables, ring buffers,
with every method proved to do what the scheduler and the step machine say. `NetEngineClient.dfy` says
what that means for channels with the default buffer. No context ever gets a callee, because
the source assigns only null to it; so the walks along callees stay where they are.

**External merge sort (hw03).** `Ways.dfy` holds the buffered input and output ways, which are
slices of one shared array; `ExternalSort.dfy` the selection loop, the merge, the passes and the
whole program; `Runs.dfy` the facts on descending runs. Files are sequences of 32-bit values.
Runs are descending, because a merge picks the greatest value first.

**Compaction (hw01, `defrag` only).** `Defrag.dfy` is an array of words and the MetaInfo records.
A word that heads a block holds the number of the block's record, where the source holds its
address. Blocks are moved left in place; the moves may overlap.

`Options.dfy` and `Seqs.dfy` hold what several modules share. `dafny verify dfyconfig.toml` checks
the whole project.

## Where the code and its promises part

Each of these has an example and a condition that says exactly when the promise is kept.

- `cfind` is documented to find the first key that is not less than the given one; the code looks
  the key up exactly. `SkipListClient.FindFromMissesGreaterKey`, `SkipLists.SkipList.FindFrom`.
- `create_channel()` is to choose an unused descriptor; with a negative descriptor open it chooses
  0 in any case (`NetMachine.OpenChannelIsReplaced`, `NetMachine.NewDescriptorIsUnusedIff`). A channel
  that is replaced in this way can leave a writer locked on an empty channel
  (`NetExamples.ReplacementStrandsWriter`): exactly if a live routine is locked for writing on it
  (`NetMachine.OpenKeepsIff`).
- `unlock_all` is documented to erase entries of the lock table, and `close_channel` to refuse only
  while there are locks; the code leaves the entries. Wakeups are still not lost
  (`NetMachine.NoLostWakeup`), but a channel on which nobody waits may refuse to close
  (`NetExamples.QuietChannelStaysOpen`): it closes exactly if no routine has ever had to wait on it
  (`NetHistory.ClosesIff`).
- A transfer over a buffer of fewer than two bytes can go on for ever.
  `Transfer.TwoBytesThroughOne`, `Transfer.TransferFinishesIff`.
- A routine that resumes itself becomes its own caller. Until another routine resumes it, a yield of
  it changes nothing (`EngineRuns.OwnCallerKeepsControl`), and if it ends, control passes to it after
  its end (`EngineRuns.LoneYield`, `EngineRuns.CompletionIff`).
- A merge drops values equal to `DATA_MIN_VALUE`. `ExternalSort.ZerosVanish`,
  `ExternalSort.SortResultIff`.
- The pass loop never ends on an empty input. `ExternalSort.PassesEndIff`.
- `defrag` writes the header of block 0 into a record when no word is left for it:
  `Defrag.FullHeapHasNoRoom`, `Defrag.RoomIfFree`.

The theorems on runs of the engines hold for every run in which explicit targets of `sched` are live,
no routine ends as its own caller, and `create_channel()` strands no writer.

## Model

| member | source | states |
|---|---|---|
| SkipNodes.DataNode.SetValue | hw02/include/skiplist/node.h:67-71 | replaces the value and answers the one before |
| SkipNodes.IndexNode.Down | hw02/include/skiplist/node.h:141-143 | the cast of `pDown`: an index node, or null under the bottom level |
| SkipShape.SearchStep | hw02/include/skiplist/skiplist.h:201-210 | what the two comparisons of a search tell: going down means the level lacks the key and the node is its predecessor; going right stays before the key; neither means the key is met |
| SkipShape.SearchDown | hw02/include/skiplist/skiplist.h:203-205 | descending from a node before the key leads to the node of the same tower on the level below, again before the key |
| SkipShape.RootIsOnBottom | hw02/include/skiplist/skiplist.h:245-254 | whatever data node any level indexes, the bottom level indexes it too |
| SkipShape.LevelNodesDistinct | hw02/include/skiplist/skiplist.h:220-229 | strict ascent: no node and no data node occurs twice on a level |
| SkipShape.EmptyStructure | hw02/include/skiplist/skiplist.h:25-37 | heads standing on each other and followed by the shared tail are a well-formed skip list |
| SkipShape.SpliceKeepsStructure | hw02/include/skiplist/skiplist.h:249-253 | an index node put in the gap of its key, standing on its tower or data node, keeps every level ascending and every level a sub-list of the one below |
| SkipShape.DropKeepsStructure | hw02/include/skiplist/skiplist.h:132-145 | taking a key's node off one level keeps the structure if the level above lacks the key already |
| SkipShape.TowerDown | hw02/include/skiplist/skiplist.h:142-143 | going down inside a tower stays on the same data node |
| SkipShape.BeforeIsLeft | hw02/include/skiplist/skiplist.h:137-138 | a node before the key stands left of the key's node, so the walk to its predecessor arrives |
| SkipShape.PredecessorIsBefore | hw02/include/skiplist/skiplist.h:137-142 | the predecessor of a removed node is before the key, also when the node is gone |
| SkipShape.TowerIsGrown | hw02/include/skiplist/skiplist.h:245-254 | nodes spliced at the trace of levels 0 to h-1 are one tower over one data node, of the height the coin flips say; higher levels are untouched |
| SkipLists.SkipList.BuildHeads | hw02/include/skiplist/skiplist.h:30-36 | the loop makes one head per level, each standing on the one below and followed by the tail |
| SkipLists.SkipList.constructor | hw02/include/skiplist/skiplist.h:25-37 | a new list is well formed and stands for the empty map |
| SkipLists.SkipList.Find | hw02/include/skiplist/skiplist.h:196-213 | the data node of the key if it is in the data list, null if it is not; the search ends |
| SkipLists.SkipList.Get | hw02/include/skiplist/skiplist.h:103-106 | what the finite map binds the key to, or nothing |
| SkipLists.SkipList.Seek | hw02/include/skiplist/skiplist.h:215-237 | an index node of the key, or on every level the last node before it; the loop never leaves through its guard |
| SkipLists.SkipList.LinkAfter | hw02/include/skiplist/skiplist.h:251-252 | the two assignments splice the node behind its predecessor on that level and leave every other level alone |
| SkipLists.SkipList.LinkData | hw02/include/skiplist/skiplist.h:239-244 | a new data node stands behind the predecessor; the pairs get the new pair at that place |
| SkipLists.SkipList.AddIndex | hw02/include/skiplist/skiplist.h:249-253 | one new index node on one level; the skip list stays well formed |
| SkipLists.SkipList.GrowTower | hw02/include/skiplist/skiplist.h:245-254 | for any coin flips, a tower over the data node at the traced places; it has a node on the bottom level and one on each level above up to the first tails |
| SkipLists.SkipList.InsertTower | hw02/include/skiplist/skiplist.h:239-254 | the list is well formed with the new pair in its place and a tower of that height over its data node |
| SkipLists.SkipList.Found | hw02/include/skiplist/skiplist.h:230-237 | a met key answers its value, and is rebound only when substitution is asked for |
| SkipLists.SkipList.InsertPair | hw02/include/skiplist/skiplist.h:215-258 | answers the old value; rebinds, binds or leaves the map as asked; nodes move only for a new key, which gets one tower, as high as its coin flips say |
| SkipLists.SkipList.Put | hw02/include/skiplist/skiplist.h:77-79 | binds the key and answers what it was bound to |
| SkipLists.SkipList.PutIfAbsent | hw02/include/skiplist/skiplist.h:92-94 | binds the key only if it was unbound and answers what it was bound to |
| SkipLists.SkipList.SeekTower | hw02/include/skiplist/skiplist.h:117-126 | the highest index node of the key and a node before it on that level; all higher levels lack the key |
| SkipLists.SkipList.UnlinkLevel | hw02/include/skiplist/skiplist.h:133-139 | the walk reaches the predecessor; the level loses exactly that node |
| SkipLists.SkipList.UnlinkStorey | hw02/include/skiplist/skiplist.h:132-145 | one turn of the loop: the node goes, and the two pointers go down to the same tower and to a node left of it |
| SkipLists.SkipList.UnlinkTower | hw02/include/skiplist/skiplist.h:132-145 | every level loses its node of the key and nothing else; the loop ends in front of the data node |
| SkipLists.SkipList.UnlinkData | hw02/include/skiplist/skiplist.h:147 | the data list and the pairs lose exactly that node |
| SkipLists.SkipList.RemoveTower | hw02/include/skiplist/skiplist.h:127-152 | the list is well formed without the key, and the key's value is answered |
| SkipLists.SkipList.Delete | hw02/include/skiplist/skiplist.h:116-157 | answers the key's value; the map loses the key; every level loses the key's node, if it had one, and nothing else |
| SkipLists.SkipList.PairsAscend | hw02/include/skiplist/skiplist.h:220-229 | the stored keys are strictly ascending |
| SkipLists.SkipList.Begin | hw02/include/skiplist/skiplist.h:169-171 | the iterator stands on the first stored pair, or on the tail |
| SkipLists.SkipList.FindFrom | hw02/include/skiplist/skiplist.h:177-180 | the iterator stands on exactly the key, or on the tail if the key is not stored; that is the first key not less than it, as the header promises, exactly if the key is stored or all keys are less |
| SkipIterators.Iterator.Step | hw02/include/skiplist/iterator.h:52-60 | the iterator goes on to the next data node |
| OrderedMap.ToMapFinds | hw02/include/skiplist/skiplist.h:103-106 | a pair is in a list with unique keys exactly if the map binds its key to its value |
| OrderedMap.InsertBinds | hw02/include/skiplist/skiplist.h:239-244 | inserting a pair so that keys stay unique binds a key that was unbound, and nothing else |
| OrderedMap.WriteRebinds | hw02/include/skiplist/skiplist.h:230-234 | overwriting a value in place rebinds that key only |
| OrderedMap.DropUnbinds | hw02/include/skiplist/skiplist.h:147 | dropping a pair removes that key only |
| OrderedMap.ExactIsFirstAtLeastIff | hw02/include/skiplist/skiplist.h:173-180 | in an ascending list, the exact place of a key or the end is the first key not less exactly if the key is there or all keys are less |
| SkipListClient.Walk | hw02/include/skiplist/iterator.h:39-60 | stepping to the end iterator sees every pair from the start on, once, in order |
| SkipListClient.Traverse | hw02/include/skiplist/skiplist.h:169-187 | from `cbegin` to `cend` every stored key is seen once, in ascending order |
| SkipListClient.TraverseFrom | hw02/include/skiplist/skiplist.h:173-187 | from `cfind` of a stored key exactly the keys not less than it are seen; from any other key none |
| SkipListClient.FindFromMissesGreaterKey | hw02/include/skiplist/skiplist.h:173-180 | a list into which only 2 was put, asked for 1, answers the end iterator |
| SkipListClient.Perform | hw02/include/skiplist/skiplist.h:77-157 | each call acts on the list as on the finite map |
| SkipListClient.PerformAll | hw02/include/skiplist/skiplist.h:77-157 | any sequence of calls on a new list is answered as by a finite map, whatever the coin flips of each call and the height |
| Fifos.BytesAreConserved | hw-net-engine/src/channel.cpp:47-111 | over any interleaving of reads and writes, stored and accepted bytes are the delivered bytes followed by the stored ones; the place is lost exactly when a byte has been delivered |
| Fifos.RoomIff | hw-net-engine/src/channel.cpp:79-111 | after any reads and writes on a new buffer, a write is accepted whole exactly if it fits beside the bytes not yet read; after the first byte read, into one place less |
| Channels.RingQueue | hw-net-engine/src/channel.cpp:53-70 | the two positions always stand for a queue within its capacity, with the free room the write computes |
| Channels.ReadStraight | hw-net-engine/src/channel.cpp:53-58 | a read of an unwrapped ring takes the front of the queue |
| Channels.ReadWrapped | hw-net-engine/src/channel.cpp:60-75 | a read past the end of the buffer and on from its beginning takes the front of the queue |
| Channels.WriteStraight | hw-net-engine/src/channel.cpp:85-90 | a write below the start appends what there is room for |
| Channels.WriteWrapped | hw-net-engine/src/channel.cpp:92-110 | a write to the end of the buffer and on from its beginning appends what there is room for, in order |
| Channels.Channel.constructor | hw-net-engine/src/channel.cpp:7-11 | a new channel is an empty queue of full capacity |
| Channels.Channel.Read | hw-net-engine/src/channel.cpp:47-76 | removes the first min(n, stored) bytes of the queue and copies them, in order, to the destination |
| Channels.Channel.ReadAround | hw-net-engine/src/channel.cpp:60-75 | the same for a wrapped ring |
| Channels.Channel.Write | hw-net-engine/src/channel.cpp:79-111 | appends the first min(n, free) bytes to the queue |
| Channels.Channel.WriteAround | hw-net-engine/src/channel.cpp:92-110 | the same when the bytes in use do not wrap |
| Scheduling.FirstUnlocked | hw-net-engine/src/engine.cpp:93-99 | the search of the alive list finds an unlocked routine other than the skipped one, unless all are locked |
| Scheduling.FirstUnlockedIs | hw-net-engine/src/engine.cpp:93-99 | of all candidates the search finds the one that stands first in the list |
| Scheduling.FirstOtherIs | hw-coroutines/src/engine.cpp:76-81 | so does the search of the engine without locks |
| Scheduling.ResumesUnlocked | hw-net-engine/src/engine.cpp:55-124 | a routine that gets control is live and not locked |
| Scheduling.DeadLockIff | hw-net-engine/src/engine.cpp:92-108 | dead lock is reported exactly when there is a current routine and every live routine is locked |
| Scheduling.StopsIff | hw-net-engine/src/engine.cpp:70-83 | `sched` returns exactly when nobody is current or live; it has no routine to go on with exactly when nobody is current and all are locked |
| Scheduling.ResumesItselfIff | hw-net-engine/src/engine.cpp:92-103 | the current routine gets control back exactly if it is not locked and is the target, or its own caller without a usable target, or alone unlocked |
| Scheduling.ResumedKeeps | hw-net-engine/src/engine.cpp:121-123 | passing control keeps the records fitting and the caller live; the routine is its own caller exactly if it resumed itself |
| Scheduling.NoLocksIsPlain | hw-coroutines/src/engine.cpp:45-103 | with no routine locked, both engines decide alike |
| EngineRuns.WithoutRemoves | hw-coroutines/include/coroutine/engine.h:181-195 | taking a routine off the alive list removes it and nobody else |
| EngineRuns.CompletedIsSound | hw-coroutines/include/coroutine/engine.h:176-200 | the end of a routine that is not its own caller keeps the records sound, and the caller that gets control next is live |
| EngineRuns.StepIsSound | hw-coroutines/src/engine.cpp:45-103 | every move but the end of a routine that is its own caller keeps the running routine live, with a caller that is null or live |
| EngineRuns.RunsAreSound | hw-coroutines/src/engine.cpp:45-103 | the same over whole runs, with the reasons for which a run can stop |
| EngineRuns.EngineRunsAreSound | hw-coroutines/include/coroutine/engine.h:123-146 | from `start` on, self-resumptions included: control never goes to a finished routine, `start` returns only with an empty alive list, a stop means all are locked |
| EngineRuns.CompletionIff | hw-coroutines/include/coroutine/engine.h:180-209 | completion hands control to a finished routine exactly if the completing routine is its own caller |
| EngineRuns.LoneYield | hw-coroutines/src/engine.cpp:81-101 | a lone routine that yields and ends gets control after its end |
| EngineRuns.OwnCallerKeepsControl | hw-coroutines/src/engine.cpp:68-101 | a yield of a routine that is its own caller changes nothing, whoever else waits |
| EngineRuns.TargetRuns | hw-net-engine/src/engine.cpp:55-64 | `sched` with an unlocked target gives control to that target, with the current routine as its caller; a locked target counts as none; without locks every target gets control |
| EngineRuns.ControlComesBack | hw-net-engine/src/engine.cpp:85-89 | a routine that gives control to another one gets it back when that one yields or ends, whoever else is live and whatever the other one did on its own meanwhile, unless it is locked by then |
| EngineRuns.YieldGivesControlBack | hw-net-engine/src/engine.cpp:55-124 | the two steps alone: `sched(b)`, and a yield of `b`, lead back to the first routine |
| EngineRuns.FirstInLineRuns | hw-net-engine/src/engine.cpp:69-99 | without an unlocked caller, or with no routine current, the first unlocked other routine of the alive list runs |
| EngineRuns.YoungestRunsFirst | hw-net-engine/src/engine.cpp:90-99 | a routine without an unlocked caller that registers another one and yields gives control to the new one |
| EngineRuns.PlainControlComesBack | hw-coroutines/src/engine.cpp:68-72 | without locks control always comes back on a yield or an end |
| EngineRuns.PlainFirstInLineRuns | hw-coroutines/src/engine.cpp:59-81 | without locks and without a caller, the first other routine of the alive list runs |
| EngineRuns.PlainStep | hw-coroutines/src/engine.cpp:45-103 | with nobody locked, a move decides as in the engine without locks and leaves nobody locked |
| EngineRuns.PlainRuns | hw-coroutines/src/engine.cpp:45-103 | the runs of the engine without locks are the lock-free runs of the other; none ends in a dead lock or without a routine to go on with |
| EngineRuns.PlainEngineRuns | hw-coroutines/include/coroutine/engine.h:123-146 | the engine without locks goes on until no routine is left |
| NetMachine.LeastUnused | hw-net-engine/src/net-engine.cpp:35-41 | the least number from a start on that is not a key |
| NetMachine.NewDescriptorIsUnusedIff | hw-net-engine/src/net-engine.cpp:25-46 | the new descriptor is unused exactly if 0 is unused or no descriptor is negative; without negative ones it is the least unused |
| NetMachine.OpenChannelIsReplaced | hw-net-engine/src/net-engine.cpp:35-43 | with descriptors -1 and 0 open, the new descriptor is 0 |
| NetMachine.OpenKeepsIff | hw-net-engine/src/net-engine.cpp:43 | a new channel, under an unused descriptor or over an open channel, keeps the invariant exactly if no live routine is locked for writing on the one it replaces |
| NetMachine.UnusedIsReplaceable | hw-net-engine/src/net-engine.cpp:57-59 | under an unused descriptor a channel can always be opened |
| NetMachine.WroteKeepsCore | hw-net-engine/src/net-engine.cpp:101-104 | a write and the release of the readers keeps every wait justified and the bytes conserved |
| NetMachine.ReadOutKeepsCore | hw-net-engine/src/net-engine.cpp:134-137 | a read and the release of the writers does so too |
| NetMachine.WriteWakesReaders | hw-net-engine/src/net-engine.cpp:167-178 | a write unlocks every routine that waits to read from the channel, no routine that waits to write, and nobody who never waited on the channel |
| NetMachine.ReadWakesWriters | hw-net-engine/src/net-engine.cpp:167-178 | a read unlocks every routine that waits to write to the channel, no routine that waits to read, and nobody who never waited on it |
| NetMachine.SleepKeepsCore | hw-net-engine/src/net-engine.cpp:106-107 | locking the running routine on a full or empty channel keeps every wait justified |
| NetMachine.SwitchKeeps | hw-net-engine/src/engine.cpp:55-124 | passing control, to oneself too, keeps the invariant and goes to an unlocked routine |
| NetMachine.SendTurnKeeps | hw-net-engine/src/net-engine.cpp:100-110 | a turn of the send loop answers the call, or leaves the channel full and the sender locked, listed and not running |
| NetMachine.RecvTurnKeeps | hw-net-engine/src/net-engine.cpp:133-143 | a turn of the receive loop answers the call, or leaves the channel empty and the receiver locked, listed and not running |
| NetMachine.StepKeeps | hw-net-engine/src/net-engine.cpp:25-178 | every step of every routine keeps the invariant, and never uses a channel that is gone; a `create_channel()` that replaces an open channel does too, unless it strands a writer |
| NetMachine.RunsKeep | hw-net-engine/src/net-engine.cpp:25-178 | so does every run |
| NetMachine.NoLostWakeup | hw-net-engine/src/net-engine.cpp:86-178 | in every run, a routine locked for reading waits on an open empty channel, one locked for writing on an open full one, and each is in that channel's lock list |
| NetMachine.StopsForAReason | hw-net-engine/src/engine.cpp:92-108 | a dead lock means that every live routine is in the middle of a call on an empty or full channel; the running routine is never locked |
| NetMachine.ReadersAndWritersApart | hw-net-engine/src/net-engine.cpp:86-146 | with a buffer of two bytes or more, no channel has both a routine that waits to read and one that waits to write |
| NetMachine.BytesStayInOrder | hw-net-engine/src/net-engine.cpp:99-145 | over any interleaving of senders and receivers, the bytes written since a channel was opened are the bytes read followed by the buffered ones |
| NetMachine.BusyChannelStaysOpen | hw-net-engine/src/net-engine.cpp:68-80 | no step closes a channel in which a live routine is in the middle of a call; only calls on it and a `create_channel()` that replaces it change it |
| NetHistory.OnceWaitedOnNeverCloses | hw-net-engine/src/net-engine.cpp:74-76 | a channel on which some routine has had to wait in the run stays open for ever |
| NetHistory.StepLists | hw-net-engine/src/net-engine.cpp:153-178 | a step fills the lock list of a channel exactly if it leaves its routine waiting there; no step empties one |
| NetHistory.ClosesIff | hw-net-engine/src/net-engine.cpp:68-80 | an open channel closes exactly if no routine has had to wait on it in the whole run |
| NetHistory.SharesChange | hw-net-engine/src/net-engine.cpp:99-143 | what all calls have left changes by the part of the routine that moves |
| NetHistory.StepBalances | hw-net-engine/src/net-engine.cpp:99-143 | what calls asked for is what has been written or read and what calls in progress have left, over every step |
| NetHistory.StuckMeansMismatch | hw-net-engine/src/engine.cpp:92-108 | when nobody can go on, a channel with a waiting reader was asked for more bytes than it was offered, and one with a waiting writer was offered more than it was asked for |
| NetHistory.MatchedCallsNeverStop | hw-net-engine/src/net-engine.cpp:86-146 | any number of senders and receivers on any number of channels: with as much sent as received on every channel, no run gets stuck |
| NetExamples.QuietChannelStaysOpen | hw-net-engine/src/net-engine.cpp:74-76 | a run after which every routine is in its own code and the channel still refuses to close |
| NetExamples.ReplacementStrandsWriter | hw-net-engine/src/net-engine.cpp:35-43 | a run after which the next `create_channel()` leaves a writer locked on an empty channel |
| Transfer.SenderTurn | hw-net-engine/src/net-engine.cpp:100-110 | a turn of the sender writes what there is room for; control is with the receiver afterwards, unless the send is done |
| Transfer.ReceiverTurn | hw-net-engine/src/net-engine.cpp:133-143 | a turn of the receiver empties the channel; control is with the sender afterwards, unless the receive is done |
| Transfer.PairStepGoesOn | hw-net-engine/src/net-engine.cpp:86-146 | every step of the two lowers the bytes, calls and routines left, or ends the transfer |
| Transfer.TransferFinishes | hw-net-engine/src/net-engine.cpp:86-146 | sender and receiver both end, whoever starts, and the received bytes are the sent ones, under exactly the condition of the next row |
| Transfer.TransferFinishesIff | hw-net-engine/src/channel.cpp:85-110 | a transfer ends exactly if the buffer has two bytes or more or takes all bytes at once, and a routine that starts as its own caller has to wait |
| Transfer.HopelessNeverEnds | hw-net-engine/src/channel.cpp:92-110 | with more bytes left than the buffer will take again, no number of steps ends the transfer, and every step hands control to the other routine |
| Transfer.OwnCallerFails | hw-coroutines/include/coroutine/engine.h:180-209 | a routine that starts as its own caller and need not wait never brings the transfer to its end |
| Transfer.ReadyIsReached | hw-net-engine/src/net-engine.cpp:25-46 | the start of a transfer occurs in a run, with either routine as the sender |
| Transfer.TwoBytesThroughOne | hw-net-engine/src/channel.cpp:92-110 | two bytes never get through a buffer of one |
| Engines.Engine.constructor | hw-coroutines/include/coroutine/engine.h:86-89 | a new engine has no routine |
| Engines.Engine.LinkFront | hw-coroutines/include/coroutine/engine.h:220-224 | the context is the new head of the doubly linked alive list |
| Engines.Engine.Run | hw-coroutines/include/coroutine/engine.h:160-227 | a new context with the current routine as its caller is registered at the head of the alive list |
| Engines.Engine.Unlink | hw-coroutines/include/coroutine/engine.h:181-200 | the alive list is linked both ways without the context |
| Engines.Engine.Complete | hw-coroutines/include/coroutine/engine.h:180-200 | the current routine is off the list and nobody is current; its caller is next |
| Engines.Engine.Exit | hw-net-engine/include/coroutine/engine.h:189-219 | completion followed by the choice of the next routine; an unlocked caller gets control |
| Engines.Engine.Start | hw-coroutines/include/coroutine/engine.h:123-141 | the main routine is registered, alone, and gets control |
| Engines.Engine.FindUnlocked | hw-net-engine/src/engine.cpp:93-99 | the walk along the list finds the first unlocked routine other than the skipped one |
| Engines.Engine.FindOther | hw-coroutines/src/engine.cpp:76-81 | the walk finds the first routine other than the current one |
| Engines.Engine.PickRoutine | hw-net-engine/src/engine.cpp:55-117 | the pointer walk decides as the scheduler function: an unlocked target is answered, else an unlocked caller of the current routine |
| Engines.Engine.Schedule | hw-net-engine/src/engine.cpp:45-124 | an unlocked target is current afterwards; without one, the current routine's caller, if that is unlocked; whoever was current is its caller; otherwise nothing changes |
| Engines.Engine.PickPlain | hw-coroutines/src/engine.cpp:55-95 | the same for the engine without locks: any target is answered, else any caller |
| Engines.Engine.SchedulePlain | hw-coroutines/src/engine.cpp:45-103 | any target is current afterwards; without one, the current routine's caller, if it has one; whoever was current is its caller |
| Engines.Engine.CallerRecorded | hw-coroutines/include/coroutine/engine.h:189-191 | the caller of every context is null or a context, as recorded; no context ever has a callee |
| NetEngines.SearchDescriptor | hw-net-engine/src/net-engine.cpp:35-41 | the walk over the keys in ascending order finds the least unused descriptor, or 0 if a key is negative, as the step machine does |
| NetEngines.NetEngine.constructor | hw-net-engine/src/net-engine.cpp:14-16 | a new engine has no channel and no lock |
| NetEngines.NetEngine.Start | hw-net-engine/include/coroutine/engine.h:131-150 | the engine is in the initial state of the step machine, with the main routine running |
| NetEngines.NetEngine.Launch | hw-net-engine/include/coroutine/engine.h:161-236 | registering a routine is the step `Launch`, with a context that is new |
| NetEngines.NetEngine.PassOn | hw-net-engine/src/engine.cpp:45-124 | `sched` is the step `PassOn`; an unlocked target has control afterwards, and without one an unlocked caller |
| NetEngines.NetEngine.Complete | hw-net-engine/include/coroutine/engine.h:189-219 | the end of a routine is the step `Complete`; an unlocked caller has control afterwards |
| NetEngines.NetEngine.CreateChannel | hw-net-engine/src/net-engine.cpp:25-46 | an empty channel under the chosen descriptor, which takes a write of n bytes whole exactly if n is at most 4096 |
| NetEngines.NetEngine.CreateChannelAt | hw-net-engine/src/net-engine.cpp:53-62 | an empty channel under the given descriptor, unless it is open already; a new one takes a write of n bytes whole exactly if n is at most 4096 |
| NetEngines.NetEngine.CloseChannel | hw-net-engine/src/net-engine.cpp:68-80 | refuses with -1 exactly if the lock list is not empty; else the channel is gone |
| NetEngines.NetEngine.Lock | hw-net-engine/src/net-engine.cpp:153-161 | the context is locked for the reason and stands at the end of the channel's lock list |
| NetEngines.NetEngine.UnlockAll | hw-net-engine/src/net-engine.cpp:167-178 | every listed context locked for the reason is unlocked, no other; the list stays |
| NetEngines.WriteTo | hw-net-engine/src/net-engine.cpp:101-102 | a write changes one channel's queue; the other ring buffers are not disturbed |
| NetEngines.ReadFrom | hw-net-engine/src/net-engine.cpp:134-135 | a read changes one channel's queue and the destination; the other ring buffers are not disturbed |
| NetEngines.NetEngine.PutBytes | hw-net-engine/src/net-engine.cpp:101-104 | ring buffer, locks and tables change as by the write of the step machine |
| NetEngines.NetEngine.TakeBytes | hw-net-engine/src/net-engine.cpp:134-137 | ring buffer, destination, locks and tables change as by the read of the step machine |
| NetEngines.NetEngine.Yield | hw-net-engine/src/engine.cpp:41-43 | a yield is the step `PassOn` without a target; an unlocked caller of the running routine has control afterwards |
| NetEngines.NetEngine.Sleep | hw-net-engine/src/net-engine.cpp:106-109 | lock and yield, as in the step machine; an unlocked caller other than the sleeper has control afterwards |
| NetEngines.NetEngine.SendTurn | hw-net-engine/src/net-engine.cpp:100-110 | one turn of the send loop, on the real tables, has the outcome of the turn of the step machine, handover and dead lock told apart |
| NetEngines.NetEngine.RecvTurn | hw-net-engine/src/net-engine.cpp:133-143 | one turn of the receive loop has the outcome of the turn of the step machine; the bytes are in the destination behind the ones before |
| NetEngines.NetEngine.SendChannel | hw-net-engine/src/net-engine.cpp:86-110 | the call up to its first yield or return is the step `Send`; it answers -1 without a channel and the byte count when it is done |
| NetEngines.NetEngine.RecvChannel | hw-net-engine/src/net-engine.cpp:119-143 | the call up to its first yield or return is the step `Recv`; the bytes are in the destination, and it answers -1 without a channel and the byte count when it is done |
| NetEngines.NetEngine.ContinueSend | hw-net-engine/src/net-engine.cpp:100-112 | when its routine runs again, the next turn of a send is the step `Continue`, with the answer when it is done |
| NetEngines.NetEngine.ContinueRecv | hw-net-engine/src/net-engine.cpp:133-145 | the next turn of a receive is the step `Continue`; the bytes stand behind the ones before |
| NetEngineClient.SendOnNew | hw-net-engine/src/net-engine.cpp:25-112 | in any engine, a send of n bytes on a channel that was just opened is answered n at its first turn exactly if n is at most 4096; else the sender has to wait |
| NetEngineClient.Prepare | hw-net-engine/include/coroutine/engine.h:131-236 | a new engine whose main routine registers a second one and opens a channel is where the next row starts |
| NetEngineClient.AnyTransferFinishes | hw-net-engine/include/coroutine/channel.h:7 | with the default buffer every transfer ends, of any bytes and with either routine as the sender, and the bytes arrive |
| Runs.SortDescending | hw03/main.cpp:138 | the sorted chunk: descending, and a permutation |
| Runs.DescendingIsUnique | hw03/main.cpp:163-202 | a descending run is determined by its values |
| Runs.KeptOfPop | hw03/main.cpp:187-199 | moving a value other than the minimum to the output keeps the values to be put out |
| Runs.NothingLeft | hw03/main.cpp:194-196 | without a value above the minimum in front, nothing but the minimum is left |
| Ways.InputWay.constructor | hw03/InputWay.cpp:17-39 | a new way has its whole file yet to deliver |
| Ways.InputWay.Empty | hw03/InputWay.cpp:57-59 | true exactly if every value has been delivered |
| Ways.InputWay.LoadChunk | hw03/InputWay.cpp:83-93 | the next chunk is in the slice; what is left to deliver is the same; nothing outside the slice changes |
| Ways.InputWay.Top | hw03/InputWay.cpp:62-70 | the next value, or 0 when there is none; nothing is delivered |
| Ways.InputWay.Get | hw03/InputWay.cpp:73-77 | delivers the values of the file once and in order; with none left it answers 0 and counts past the end |
| Ways.OutputWay.Put | hw03/OutputWay.cpp:34-43 | the value is behind all values put before; nothing outside the slice changes |
| Ways.OutputWay.Flush | hw03/OutputWay.cpp:27-32 | the file holds all values put, in order |
| ExternalSort.FindMax | hw03/main.cpp:183-193 | the greatest value in front of the ways above the minimum, or none |
| ExternalSort.OpenWays | hw03/main.cpp:171-176 | one way per run, each on its own slice; the slices do not overlap |
| ExternalSort.MergeTurn | hw03/main.cpp:183-199 | moving the greatest front value keeps the output descending, above all that is left, and loses no value |
| ExternalSort.MergeWays | hw03/main.cpp:181-200 | the loop ends, and puts out in descending order exactly the values above the minimum |
| ExternalSort.MergeOf | hw03/main.cpp:163-202 | the result of a merge: descending, the values above the minimum |
| ExternalSort.GroupsOfTwenty | hw03/main.cpp:165 | a pass over n runs makes n/20 of them, rounded up: fewer, if n is above 1 |
| ExternalSort.PassKeeps | hw03/main.cpp:75-77 | a pass leaves one descending run per group; no run is lost or merged twice |
| ExternalSort.SplitKeeps | hw03/main.cpp:129-149 | the first runs are descending and hold the values of the input |
| ExternalSort.SortResultIs | hw03/main.cpp:61-92 | the answer is descending and every value occurs in it as often as in the input, except that an input longer than the buffer loses its zeros |
| ExternalSort.SortResultIff | hw03/main.cpp:61-86 | the answer is descending, and a permutation of the input exactly if the input fits into the buffer or has no value equal to the minimum |
| ExternalSort.ZerosVanish | hw03/main.cpp:183-196 | zeros that do not fit into the buffer come out as nothing |
| ExternalSort.PassesEndIff | hw03/main.cpp:73-86 | some number of passes leaves one run exactly if the input is not empty |
| ExternalSort.Sorter.Split | hw03/main.cpp:107-155 | cuts the input into sorted runs of at most the buffer's size |
| ExternalSort.Sorter.Merge | hw03/main.cpp:163-209 | takes up to 20 runs from the front of one queue and puts their merge behind the other |
| ExternalSort.Sorter.MergePass | hw03/main.cpp:75-85 | merges until the queue is empty and swaps the queues |
| ExternalSort.Sorter.Sort | hw03/main.cpp:61-92 | the passes end, and the one run left is descending and has the values of the input, without its zeros if the input is longer than the buffer |
| Defrag.MetaInfo.SetOccupied | hw01/allocator.cpp:208-214 | sets the top bit and keeps the size |
| Defrag.MetaInfo.SetSize | hw01/allocator.cpp:216-220 | sets the size and keeps the top bit |
| Defrag.PackedIsLeft | hw01/allocator.cpp:89-101 | a block never moves right, and moves left exactly if a free block stands before it |
| Defrag.PackedGrows | hw01/allocator.cpp:91-96 | packed blocks keep their order and do not overlap |
| Defrag.WordsHold | hw01/allocator.cpp:91-96 | the packed words hold every occupied block unchanged at its packed place |
| Defrag.MoveAdds | hw01/allocator.cpp:92-101 | an overlapping move left adds the block to the packed words and disturbs nothing to its right |
| Defrag.KeptFrom | hw01/allocator.cpp:89-101 | each kept block is an occupied block of the same size, at its packed place |
| Defrag.KeptAreTheOccupied | hw01/allocator.cpp:89-101 | the kept blocks are exactly the occupied ones |
| Defrag.CompactedTwice | hw01/allocator.cpp:84-110 | compacting a compacted heap changes nothing |
| Defrag.Allocator.UnlinkFree | hw01/allocator.cpp:147-157 | the record has no links; its predecessor points past it; its successor has no predecessor |
| Defrag.Allocator.ZeroIsLast | hw01/allocator.cpp:85-89 | block 0, if it has a word, is the last block the loop meets |
| Defrag.RoomIfFree | hw01/allocator.cpp:103-106 | packing leaves no word for the header of block 0 exactly if every block is occupied and they reach the records |
| Defrag.FullHeapHasNoRoom | hw01/allocator.cpp:103-106 | one occupied block over the whole memory leaves no word |
| Defrag.Allocator.MemMove | hw01/allocator.cpp:93 | the words are copied as if through a second buffer |
| Defrag.Allocator.MoveBlock | hw01/allocator.cpp:89-101 | an occupied block is copied left, its record follows and no link changes; a free block stays, loses its links, and its neighbours in the free list change as by `unlinkFree` |
| Defrag.Allocator.PackBlocks | hw01/allocator.cpp:89-101 | the loop ends with every occupied block packed, every record in its new place, nothing behind block 0 in the free list if block 0 has a word, and, if links are mutual on entry, no links at the records of free blocks |
| Defrag.Allocator.MergeRest | hw01/allocator.cpp:103-109 | everything behind is block 0, free, and the head of the free list; its header is written behind the packed words, or into the link of the last record when no word is left |
| Defrag.Allocator.CompactIsTiled | hw01/allocator.cpp:84-110 | the compacted heap is a well-formed tiling again, up to the records |
| Defrag.Allocator.GetTiled | hw01/allocator.cpp:159-163 | in a well-formed heap the user's part of a block begins one word, 8 bytes, behind the place of the block |
| Defrag.Allocator.Defrag | hw01/allocator.cpp:84-110 | every occupied block keeps its size, order and content, is packed from 0 on, and is seen through its record, one word behind its packed place, with the same words as before; block 0 covers the rest and, if it had a word, is the only block of the free list; with mutual links on entry, the records of the other free blocks become unused |

## Left out

- Stored addresses: keys and values of the skip list are values; that `Get` and `Put` answer pointers into the list, and who deletes them, is not modelled.
- Destructors, move constructors, copy control and functions that lack a `return` in the source (`merge`, `operator=`, the end of `insert_pair`, which is never reached).
- Stack copying, `setjmp` and `longjmp`: only which context runs next is modelled. A call of `run` before `start`, which answers null, is left out with the stack address it checks.
- Freed contexts: a finished context stays in the model as an inert record; nothing is said about the lifetime of its memory, nor of the entries of the lock table that still name it.
- Whole calls of `send_channel` and `recv_channel` as one method: a Dafny method cannot be suspended, so the calls are modelled turn by turn, and the step machine puts the turns together.
- NetMachine.StepKeeps: requires that explicit targets are live, that no routine ends as its own caller and that `create_channel()` strands no writer; `EngineRuns.CompletionIff` and `NetMachine.OpenKeepsIff` say exactly when the last two fail.
- EngineRuns.RunsAreSound: requires the same of targets and of ends.
- Scheduling.StopsIff: names the state in which `sched` has no current routine and all live ones are locked; what the source does then (it uses a null pointer) is not followed further.
- Integer widths of counters: `int` and `size_t` counters are unbounded; sizes of blocks and sorted values have their 64 and 32 bits.
- Runs.SortDescending: stands for `qsort` with `data_less`, which is not a three-way comparison; that the library then sorts in descending order is taken for granted.
- ExternalSort.Sorter.Sort: requires a buffer of more than 20 values, so that every way has room for one; the program's buffers have `mb` times 262144 values, so `mb` is at least 1 here; with `mb` equal to 0 the loop that splits the input never advances. Splitting and merging share one buffer in the model and use two of the same size in the source.
- Files, temporary names, `stat`, printing, argument parsing and error returns of hw03; `hw03/genfile.c`.
- Defrag.Allocator.Defrag: requires a well-formed tiling in which block 0 is free and, when no word is left, records that begin at a word boundary, so that the header falls on one link; where the link of a block 0 without a word leads is not followed; `alloc`, `free`, `realloc` and the free list they build are not modelled, so that they keep such a tiling is not claimed.
- Defrag.Allocator.Get: the place in the buffer, without the address of the buffer itself.
- The chat server hw04 and the proxy hw05, which are plumbing around sockets, and `thirdparty`.
