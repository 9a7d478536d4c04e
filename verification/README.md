# libsvr2, modelled and proved

A Dafny model of the algorithmic core of libsvr2: its ordered trees, its allocator and lock-free
structures, the connection protocol of its TCP server, and its codecs. `dafny verify dfyconfig.toml`
checks everything.

## What is modelled

**Ordered trees** (`TreeHeap`, `ThreadedTree`, `TreeSteps`, `Splicing`, `Rb*`, `Avl*`, `TreeLaws`,
`TreeRuns`). `rb_tree` and `avl_tree` have the same node and tree records, so one class `TreeNode` (with
`mark` for the colour or the stored height) and one class `ThreadedTree` serve both. The methods rewire
`left`, `right`, `parent`, `prev`, `next`, `root`, `head` and `tail` in place, loop by loop, as the C code
does. What the pointers spell is said with a ghost tree, and a position in it with the path down to it (a
tree with a hole). Every public operation keeps `Valid`: the pointers spell a search tree, the list from
head to tail is its in-order traversal, and the balance rules of the tree hold. Nodes are relinked and
never copied, so the contracts speak of the same node objects before and after; keys are never written.
`TreeRuns` drives whole runs of operations and compares them with a finite map.

**The allocator** (`MemoryUnit`, `MemoryUnitSafety`, `MemoryUnitCalls`, `MemoryPools`, `MemoryManager`,
`MemoryBlocks`). A memory unit is a state machine whose steps are single accesses to what threads share:
loads, compare-and-swaps of tagged heads, and writes of a cell's first word. Any number of threads
allocate and free in any order. The safety theorems speak of every state of every run; `MemoryUnitCalls`
says what comes of each call: from which list a cell is taken or to which it goes, when a block is made,
and in how many steps a call ends that runs alone. The size classes of pools and the manager's "nearby,
then next" search are on top; the search runs on the threaded tree of the first part. `MemoryBlocks` is
the manager with the blocks it has handed out and their contents.

**Concurrent queues** (`LockFreeQueue`, `LockFreeQueueCalls`, `RoundUp`, `LoopCache`, `LoopCacheThreads`,
`LoopCacheCalls`, `RecordRing`). The bounded queue for many producers and consumers is a state machine over its
atomics, with theorems about its invariant and about what each call does and returns; the capacity rounding
is the loop of the source over 64-bit words. The byte ring is a class with the source's branches, and a
state machine with one producer and one consumer that work with out-of-date offsets, copying or in place;
the rings of requests and events are queues of whole records, in every run.

**The connection protocol** (`TcpSocket`, `TcpSocketSafety`, `TcpSocketTale`, `TcpSocketOutcomes`). One
plain TCP socket from allocation to being given back, as steps of the main thread and the io thread: the
two request and event queues, the `state` changed by compare-and-swap, the `send_req`/`send_ack`
handshake, the two timers and the calls the user can make from callbacks and between them. A request or
event leaves the model's queue when its handling starts; the record that is still on the ring until the
handler returns is not looked at again. Within one batch of epoll events nothing else runs on the io
thread, so a socket in the batch cannot be closed meanwhile. `TcpSocketTale` records, from the steps of a
run alone, what the two threads have been told; `TcpSocketOutcomes` says what became of it, in the events
queued and the callbacks made.

**Codecs** (`Json*`, `Decimal`, `Ws*`, `Sha1*`, `Utf8*`, `Base64*`, `SegmentTree`, `IntSegTree`, `Bytes`).
The JSON serializer and parser with their explicit stacks, the parser against a recursive grammar for every
text; websocket frames, the overlapped in-place unmasking and the handling of fragments, joined into whole
conversations; SHA-1 as the source computes it, with four loops and a 16-word circular schedule, against the
standard's definition, which is pinned by laws about single bits and by the standard's example; the UTF-8
validator against the encoding of code points; base64, decoding any text; the compressed interval index.

Assumptions throughout: memory is sequentially consistent; tags and tickets do not wrap; the system does not
run out of memory, except where a refusal is modelled; reading a text at or past its end gives NUL.

## What turned out

- `_roundup_power_of_2` gives the least power of two exactly for sizes from 1 to 2^63; for 0 and for larger
  sizes the sum wraps and the capacity is 0 (`RoundUp.RoundUpPowerOf2`).
- A fragmented websocket message may begin with an empty fragment: the buffer for nothing is still not null,
  because `default_realloc` puts a word of its own in front of every block (`src/smemory.cpp:37-60`). So the
  buffer tells reliably whether a message is open, and every fragmentation is put together again
  (`WsReassembly.Explained`).
- A payload of 65535 bytes is sent with the 64-bit length, although 16 bits would do, because the bound of
  the middle form is exclusive (`src/websocket.c:333`); the receiver takes it all the same.
- `base64_decode` needs room for two bytes more than its result, and goes by the letters alone but for the end of
  the text: behind the padding, a line break makes it add a byte, and padding that is not needed makes it return
  one less (`Base64Decode.Spelled` says exactly when the length is right).
- `string_to_json` takes a comma in front of the closing bracket of an array, and a key without a value in front of
  the closing bracket of an object, which RFC 8259 does not allow; a comma there it refuses
  (`JsonRoundTrip.CommaInArray`, `KeyAlone`, `CommaInObject`).
- The key of a number with a fraction keeps its escapes, which no other key does (`JsonRoundTrip.FractionKey`;
  `src/json.c:1019-1061`).

## Model

| member | source | states |
|---|---|---|
| ThreadedTrees.Descend | src/rb_tree.c:666-685 | the search stops at the node with the key or at the empty place where it belongs, with smaller keys before and larger ones after |
| ThreadedTrees.LinkNode | src/rb_tree.c:21-79 | hanging a node in the tree and the list puts its entry between the two neighbours and changes no other |
| ThreadedTrees.Unthread | src/rb_tree.c:81-102 | taking a node off the list joins its neighbours, whatever end it is at |
| RbTrees.RotateLeft | src/rb_tree.c:104-129 | a left rotation at any depth turns the spelled tree, and only that |
| RbTrees.RotateRight | src/rb_tree.c:131-155 | a right rotation at any depth turns the spelled tree, and only that |
| RbTrees.InsertBalance | src/rb_tree.c:162-231 | from a red node under a red parent the loop ends, restores a red-black tree and keeps the in-order traversal |
| RbErase.EraseBalance | src/rb_tree.c:237-316 | from a subtree one black node short the loop ends, restores a red-black tree and keeps the in-order traversal |
| RbTreeErase.Erase | src/rb_tree.c:318-404 | erasing a node leaves a valid tree and list with every other node and key in place |
| RbTrees.InsertInteger | src/rb_tree.c:577-620 | a present key gets the new value; an absent one gets a fresh node at its place in the order |
| RbTrees.TryInsertInteger | src/rb_tree.c:622-664 | a present key is left alone and reported; an absent one is inserted |
| RbTrees.FindInteger | src/rb_tree.c:666-685 | find agrees with the list of entries |
| RbShape.RedBlackPlug | src/rb_tree.c:162-404 | when a subtree with a red root or of less black height makes a whole red-black tree again |
| AvlTrees.RoateLeftChild | src/avl_tree.c:81-132 | a single rotation spells the turned tree and stores its exact heights |
| AvlTrees.RoateRightChild | src/avl_tree.c:81-132 | the mirrored rotation does the same |
| AvlTrees.ClimbStep | src/avl_tree.c:134-186 | one round of the upward walk: the computed balance is within -2..2, and the subtree leaves it balanced with exact heights |
| AvlTrees.Balance | src/avl_tree.c:134-186 | the walk ends at the root with every node balanced and every stored height exact |
| AvlErase.NextIsSuccessor | src/avl_tree.c:378-450 | the node after an inner node in the list is the leftmost of its right subtree |
| AvlErase.SpliceOut | src/avl_tree.c:188-205 | a node with at most one child is replaced by that child, and only that |
| AvlErase.Erase | src/avl_tree.c:378-450 | erasing a node leaves a valid tree and list with every other node and key in place |
| AvlTrees.InsertInteger | src/avl_tree.c:452-493 | insert or overwrite, in a tree that stays AVL |
| AvlTrees.TryInsertInteger | src/avl_tree.c:495-537 | insert unless present, in a tree that stays AVL |
| AvlTrees.FindInteger | src/avl_tree.c:539-558 | find agrees with the list of entries |
| TreeLaws.LookupInserted | src/rb_tree.c:577-685 | what find gives after an insertion |
| TreeLaws.LookupWithout | src/rb_tree.c:318-404 | what find gives after an erasure |
| TreeLaws.EraseUndoesInsert | src/rb_tree.c:318-404 | erasing the inserted node restores the list |
| TreeLaws.RedBlackHeight | src/rb_tree.c:162-404 | the height of a red-black tree of n nodes is at most 2 log2(n + 1) |
| TreeLaws.AvlHeight | src/avl_tree.c:134-186 | an AVL tree of height h has at least Fib(h + 2) - 1 nodes |
| TreeRuns.RunRedBlack | src/rb_tree.c:318-685 | after any run of operations on an empty tree it is valid, holds exactly the map the run describes, and keeps the height bound |
| TreeRuns.RunAvl | src/avl_tree.c:378-558 | the same for the AVL tree |
| MemoryUnitSafety.Step | src/memory_pool.c:192-617 | every step of every thread keeps the invariant that ties lists, tags, words and loaded operands together |
| MemoryUnitSafety.CellsInOnePlace | src/memory_pool.c:377-617 | in every state of every run each cell is held by one caller, carried by one thread, or once on one of four lists, which are what the heads lead to |
| MemoryUnitSafety.NeverCrushed | src/memory_pool.c:619-652 | no call ever meets an unknown sign, an unexpected null or a cell that is not there |
| MemoryUnitSafety.TakenNextIsCurrent | src/memory_pool.c:448-512 | when the compare-and-swap that takes a cell succeeds, the next pointer it read before is what the cell's word still says |
| MemoryUnitSafety.AllocCountIsHeld | src/memory_pool.c:32-39 | counter plus tag differences is the cells held, those in a call under way and those being drained; with none of these, the cells held |
| MemoryUnitSafety.Take | src/memory_pool.c:448-512 | a successful take moves the head's cell from the list to the thread |
| MemoryUnitSafety.FreeMt | src/memory_pool.c:534-575 | a successful free puts the carried cell at the head of the shared list |
| MemoryUnitSafety.FreeCache | src/memory_pool.c:577-617 | a successful foreign free puts the cell at the head of the cache list |
| MemoryUnitSafety.Drain | src/memory_pool.c:377-419 | the drain takes the whole cache list, and its tags give its length |
| MemoryUnitSafety.Join | src/memory_pool.c:192-295 | a new block is put in front of the shared list as a whole |
| MemoryUnitCalls.MainTakesOwn | src/memory_pool.c:421-435 | the creator takes the first cell of its own list if there is one; otherwise the call goes on to the cache list |
| MemoryUnitCalls.MainTakesDrained | src/memory_pool.c:377-435 | otherwise the same call has taken over the whole cache list, leaving it empty, and hands out its first cell; a block is made only if that drain took nothing, and then its first cell is handed out |
| MemoryUnitCalls.OthersTakeShared | src/memory_pool.c:448-512 | any other thread hands out the cell that was first on the shared list when its swap succeeded |
| MemoryUnitCalls.BlockOnlyIfEmpty | src/memory_pool.c:448-512 | it asks for a block only after it has loaded an empty shared list, in its step before |
| MemoryUnitCalls.AllocEnds | src/memory_pool.c:421-512 | an allocation ends by handing out one cell that nobody held, and in no other way |
| MemoryUnitCalls.HandedOutBy | src/memory_pool.c:421-512 | since the step that handed a cell out it has been held, and its sign still says who allocated it |
| MemoryUnitCalls.FreedWhereItBelongs | src/memory_pool.c:534-652 | a free ends with the cell at the head of the list its sign names: the shared list for cells of other threads, the creator's own or the cache list for the creator's |
| MemoryUnitCalls.AloneTakesFirst | src/memory_pool.c:448-512 | running alone, an allocation on a shared list that is not empty takes its first cell, in five steps |
| MemoryUnitCalls.AloneMakesBlock | src/memory_pool.c:448-512 | running alone on an empty one, it makes one block and takes its first cell, in ten steps |
| MemoryUnitCalls.AloneMain | src/memory_pool.c:377-435 | running alone, the creator gets the first cell of its list in one step, or else the first of the cache list, or else that of a new block, in five |
| MemoryUnitCalls.AloneFree | src/memory_pool.c:534-652 | running alone, a free ends in two steps if the creator gives back a cell of its own, and in five otherwise |
| MemoryPools.CreatePool | src/memory_pool.c:669-739 | sizes and alignment of a pool fit together |
| MemoryPools.ShiftOf | src/memory_pool.c:714-715 | the shift is the binary logarithm of the alignment |
| MemoryPools.SmallestUnit | src/memory_pool.c:791-801 | a pool picks its smallest unit that is large enough, within the array of units, wasting less than the alignment |
| MemoryPools.IndexOfUnit | src/memory_pool.c:831-895 | the index computed back from a unit's size is the one it was made with |
| MemoryManager.CreatePools | src/memory_pool.c:1007-1034 | the pools cover rising ranges without gaps, up to the largest size; alignment and largest size of each are those of the first times a power of the factor |
| MemoryManager.FindNearby | src/memory_pool.c:1048-1070 | the search ends at the last smaller key or the first that is not smaller |
| MemoryManager.PoolNode | src/memory_pool.c:1072-1085 | nearby, then next, gives the least key that is at least the request, or the largest key |
| MemoryManager.BestIsPool | src/memory_pool.c:1072-1085 | that node is the first pool that is large enough |
| MemoryManager.SmallestClass | src/memory_pool.c:758-829 | of all units of all pools a request gets the smallest that is large enough, and wastes less than that pool's alignment |
| MemoryManager.RoutesBack | src/memory_pool.c:1142-1184 | the size of a unit leads back to its pool and its index |
| MemoryBlocks.Manager.constructor | src/memory_pool.c:1007-1034 | the pools stand in an AVL tree under their largest sizes, and nothing is handed out |
| MemoryBlocks.Manager.Route | src/memory_pool.c:1074-1084 | the search in that tree gives the first pool that is large enough, or the last |
| MemoryBlocks.Manager.Alloc | src/memory_pool.c:1072-1085 | a request gets a new block that serves it, from the smallest unit that fits or of its exact size from the system; other blocks stay as they are |
| MemoryBlocks.Manager.Free | src/memory_pool.c:1142-1184 | the block, and only it, is given back to where it came from; the checks on the way never fail |
| MemoryBlocks.Manager.PoolFree | src/memory_pool.c:897-929 | the same within a pool; bytes from the system are accounted for exactly |
| MemoryBlocks.Manager.Realloc | src/memory_pool.c:1087-1140 | the bytes that fit are kept, the block is large enough, other blocks stay as they are, and a refusal changes nothing |
| MemoryBlocks.Manager.PoolRealloc | src/memory_pool.c:831-895 | the same within a pool |
| LockFreeQueue.Step | include/lock_free_queue.hpp:57-102 | every atomic step of every thread keeps the invariant of slots and tickets |
| LockFreeQueue.PopReturnsItsPush | include/lock_free_queue.hpp:57-102 | tickets are consecutive, and a pop with a ticket returns the value pushed with it |
| LockFreeQueue.HistoryGrows | include/lock_free_queue.hpp:57-102 | what was pushed with a ticket never changes |
| LockFreeQueue.NothingOverwritten | include/lock_free_queue.hpp:57-102 | objects are made in empty slots, taken from the slot of their ticket, and no two calls work on one slot |
| LockFreeQueue.InFlight | include/lock_free_queue.hpp:49-55 | between the two ends there are never more items than slots |
| LockFreeQueue.PushRefusedWhenFull | include/lock_free_queue.hpp:57-78 | with no other call under way a push is refused exactly when capacity items are queued |
| LockFreeQueue.PopRefusedWhenEmpty | include/lock_free_queue.hpp:80-102 | with no other call under way a pop is refused exactly when nothing is queued |
| LockFreeQueue.SameTicket | include/lock_free_queue.hpp:63 | tickets of one slot less than a lap apart are the same |
| LockFreeQueueCalls.PushGivesUp | include/lock_free_queue.hpp:57-78 | in every run a push gives up only where it finds that the slot does not wait for its ticket: another push has taken the ticket, or the queue is full, or the pop of the object a lap before is still under way |
| LockFreeQueueCalls.PopGivesUp | include/lock_free_queue.hpp:80-102 | the same for a pop: the ticket has been taken, or the queue is empty, or the push of that object is still under way |
| LockFreeQueueCalls.PushCall | include/lock_free_queue.hpp:57-78 | from its start to its end a push that returns true has put its value into the history once and into its slot; one that returns false has done nothing, and only for that reason |
| LockFreeQueueCalls.PopCall | include/lock_free_queue.hpp:80-102 | a pop that returns true has taken one ticket and gives back the value pushed with it, and its slot waits for the push a lap later; one that returns false has done nothing |
| LockFreeQueueCalls.AlonePushSucceeds | include/lock_free_queue.hpp:57-78 | running alone, from its start or from a swap on any ticket, a push ends within five steps and two for each spurious failure, with its value queued exactly if there is room |
| LockFreeQueueCalls.AlonePopSucceeds | include/lock_free_queue.hpp:80-102 | so does a pop, with the first object taken exactly if there is one |
| RoundUp.RoundUpPowerOf2 | include/lock_free_queue.hpp:19-27 | the capacity is the least power of two that is at least the size, and 0 exactly for sizes 0 and above 2^63 |
| RoundUp.MaskIsRemainder | include/lock_free_queue.hpp:29-59 | masking with a power of two less one is the remainder |
| LoopCaches.LoopCache.PushData | src/loop_cache.c:42-66 | all of the data is appended if it fits in one byte less than the size, otherwise nothing changes |
| LoopCaches.LoopCache.PopData | src/loop_cache.c:68-92 | takes that many bytes off the front if they are there, otherwise nothing |
| LoopCaches.LoopCache.CopyData | src/loop_cache.c:94-116 | gives that many bytes of the front and leaves them |
| LoopCaches.LoopCache.Push | src/loop_cache.c:118-140 | what was written in place from the tail on becomes part of the contents |
| LoopCaches.LoopCache.Pop | src/loop_cache.c:142-162 | drops that many bytes off the front if they are there |
| LoopCaches.LoopCache.GetFree | src/loop_cache.c:164-187 | the writable stretch: what was asked for, what is free, and the end of the ring, whichever is least |
| LoopCaches.LoopCache.GetData | src/loop_cache.c:189-212 | the readable stretch, and that it is the front of the contents |
| LoopCaches.LoopCache.DataSize | src/loop_cache.c:222-228 | the length of the contents |
| LoopCaches.LoopCache.FreeSize | src/loop_cache.c:214-220 | the size less the contents less one |
| LoopCacheThreads.IsFifo | src/loop_cache.c:42-212 | in every interleaving, copying or in place, what was received is a prefix of what was sent and the rest is in the ring, in order, never more than size - 1 |
| LoopCacheThreads.NothingOverwritten | src/loop_cache.c:42-212 | no byte sent and not received is written over, and none is read before it is sent |
| LoopCacheThreads.NeverRefused | src/loop_cache.c:118-212 | after get_free gave room the push does not fail, nor the pop after get_data, whatever the other thread did in between |
| LoopCacheCalls.StepTold | src/loop_cache.c:42-212 | in every interleaving a call is refused exactly if there is no room for its bytes, or not as many as it asks for, and then changes nothing; every other step moves one byte to or from its place, and the last makes all of them sent or received |
| LoopCacheCalls.PushEnds | src/loop_cache.c:42-140 | a push under way ends after its own steps, whatever the consumer does between them, with exactly its bytes sent, and none before |
| LoopCacheCalls.PopEnds | src/loop_cache.c:68-212 | a pop under way ends after its own steps, whatever the producer does, with exactly the next bytes that were sent, and none before |
| RecordRings.RunRecords | src/epoll_tcp.c:2479-2480 | any run of writing and reading records of S bytes in place, on a new ring of k times S bytes, is that of a queue of k - 1 records |
| RecordRings.PutRecord | src/epoll_tcp.c:634-649 | a record gets room and is appended whole exactly while at most k - 2 records are queued |
| RecordRings.TakeRecord | src/epoll_tcp.c:2152-2159 | the first record is read whole and removed, or there is none |
| RecordRings.WholeRecords | src/epoll_tcp.c:2479-2480 | in every state of every interleaving of a thread writing and one reading records: whole records sent and received, the next one read is the next one sent, and the same exact bounds |
| TcpSocketSafety.StepKeeps | src/epoll_tcp.c:1006-2389 | every step of either thread keeps the invariant of state, queues, handshake, timers and callbacks |
| TcpSocketSafety.EventsInOrder | src/epoll_tcp.c:1438-1496 | at most one last event is queued for a socket and nothing after it; establishment comes first, data and activations between |
| TcpSocketSafety.CallbacksInOrder | src/epoll_tcp.c:2148-2389 | establish, any number of recv, at most one error, at most one terminate; or a lone connect error |
| TcpSocketSafety.NeverCrushed | src/epoll_tcp.c:1023-1093 | the close timer never finds the socket in another state than terminated or deleted |
| TcpSocketSafety.FreedMeansUnreferenced | src/epoll_tcp.c:1050-1086 | when the socket is given back no request, event, timer, epoll registration or user refers to it, and the io thread can only return to its loop |
| TcpSocketSafety.AcksOutstanding | src/epoll_tcp.c:905-992 | requests not acknowledged are those still queued, and the close request is the last |
| TcpSocketSafety.WorkShutFirst | src/epoll_tcp.c:1483-1496 | the one compare-and-swap that succeeds takes the right to queue the last event |
| TcpSocketSafety.ProceedCheckAck | src/epoll_tcp.c:1050-1086 | the socket is only given back when every request has been acknowledged |
| TcpSocketTale.StepTells | src/epoll_tcp.c:1006-2389 | every step keeps the socket in accord with what its threads have been told so far: causes, data, requests due, callbacks owed |
| TcpSocketOutcomes.CallbacksOwed | src/epoll_tcp.c:2148-2389 | at any time of any run every event taken up has had its callbacks, in order, one recv for every packet completed, and nothing else has been called; after an error the terminate callback is the next |
| TcpSocketOutcomes.FirstAndLast | src/epoll_tcp.c:1438-1496 | the first event tells how the connection came about and the last why it was closed; every receive that brought data is announced once |
| TcpSocketOutcomes.HeardInTheEnd | src/epoll_tcp.c:1006-2389 | when a socket is given back its user has heard: that it was established, every packet, the error unless it was closed in order, and the end; or the one connect error; or nothing for a failed accept |
| TcpSocketOutcomes.HandlersServe | src/epoll_tcp.c:1561-1619 | a send, receive, failure or end of connection told to the io thread is dealt with when the handler returns |
| TcpSocketOutcomes.CallsServe | src/epoll_tcp.c:1006-1093 | what the main thread wanted closed is closed when its call returns, unsent data has been asked to be sent, once while no request is outstanding, and the close timer has seen whether all is acknowledged |
| TcpSocketOutcomes.OpenIsAlive | src/epoll_tcp.c:1006-2389 | an open connection stays with epoll, a full receive ring is on its way to be read again, its timers run, and closing waits for unsent data at most four times |
| JsonPrint.JsonToString | src/json.c:664-846 | the loop with its stack writes the text of the tree |
| JsonPrint.Unwind | src/json.c:785-826 | the inner loop closes the structs that end here and stops at the next node |
| JsonPrint.AppendEscaped | src/json.c:20-76 | each character is escaped as its table says |
| JsonText.EscapeRead | src/json.c:147-218 | an escaped text ends where it was ended and unescapes to what it was |
| JsonText.EscapeTable | src/json.c:20-76 | eight characters are escaped, each by its letter, and no other |
| JsonText.OneLine | src/json.c:20-76 | an escaped text has no line breaks, tabs or form feeds in it |
| JsonText.SampleObject | src/json.c:664-846 | the text of an object with an escaped key and value |
| JsonScan.StepString | src/json.c:285-306 | the scan stops at the first quote that is not escaped |
| JsonScan.StepNumber | src/json.c:258-283 | on any text the scan ends where the grammar says a number ends, and tells whether there was a point |
| JsonScan.UnescapeText | src/json.c:147-218 | the loop unescapes the whole stretch |
| JsonScan.StepScalar | src/json.c:1388-1562 | on any text, the value that is not a struct that stands there and where it ends, or that there is none |
| JsonParse.StepValue | src/json.c:1566-1753 | on any text, values of an array are added in order up to a struct or the end, where what is still to be read of the array is what the grammar reads from there |
| JsonParse.StepKeyValue | src/json.c:1349-1564 | the same for the members of an object, with their keys |
| JsonParse.StringToJson | src/json.c:1755-2055 | for every text the parser with its stack gives the tree that the recursive grammar reads, or none exactly if that has none |
| JsonRoundTrip.AnyLayout | src/json.c:1349-2055 | a plain tree is read from each of its texts, whatever white space stands at each place between tokens, in front and behind |
| JsonRoundTrip.Tight | src/json.c:664-846 | without white space that text is the one the serializer writes |
| JsonRoundTrip.FractionReads | src/json.c:258-283 | digits with a point in them are read as a number with a fraction |
| JsonRoundTrip.FractionKey | src/json.c:1019-1061 | the key of a number with a fraction keeps its escapes |
| JsonRoundTrip.Spaces | src/json.c:9 | what counts as white space |
| JsonRoundTrip.Framed | src/json.c:1755-2055 | whatever text is read as a tree, it is one struct from its opening to a closing bracket of its own kind, with nothing but white space in front and behind |
| JsonRoundTrip.CommaInArray | src/json.c:1566-1753 | a comma in front of the closing bracket of an array is passed over |
| JsonRoundTrip.CommaInObject | src/json.c:1349-1564 | a comma in front of the closing bracket of an object is refused |
| JsonRoundTrip.KeyAlone | src/json.c:1349-1564 | a key without a value in front of the closing bracket of an object is passed over |
| JsonRoundTrip.RoundTrip | src/json.c:664-2055 | for every plain tree, parsing what the serializer wrote gives the tree back |
| Decimal.UllToStr | src/utility.cpp:273-319 | the numeral of a number in any radix with a NUL behind it if both fit, otherwise an empty text |
| Decimal.Reverse | src/utility.cpp:309-316 | the in-place loop turns the digits round |
| Decimal.LlToStr | src/utility.cpp:321-337 | a minus sign and the numeral of the magnitude |
| Decimal.Digits | src/utility.cpp:292-295 | the digits of a radix up to 36, as a literal |
| Decimal.ReadsBack | src/json.c:1432-1447 | strtoll on the text of a number gives the number, whatever follows but a digit |
| Decimal.IntTextLength | src/json.c:666-731 | every number written fits the 64-byte buffer |
| WsFrame.FrameLength | src/websocket.c:510-566 | the parser gives 0 on every proper prefix of a frame and its length on the frame with anything behind it |
| WsFrame.LengthStable | src/websocket.c:510-566 | for any bytes, a complete packet stays what it is when more arrives |
| WsFrame.OnData | src/epoll_tcp.c:2200-2231 | the loop hands over the packets that are complete and keeps the rest, which holds none |
| WsReceive.OnRecv | src/epoll_tcp.c:1561-1619 | whatever sizes come, they are appended to the ring in order |
| WsReceive.Look | src/epoll_tcp.c:2171-2198 | in place or copied, the parser sees the front of the ring, wherever it wraps |
| WsReceive.OnDataEvent | src/epoll_tcp.c:2165-2241 | the packets of all that is taken notice of are handed over, and exactly the unparsed bytes stay in the ring |
| WsReceive.Receive | src/epoll_tcp.c:1561-2241 | in every run the packets handed over are those of the stream in one piece, however it was split, wherever the ring began and whenever events were handled |
| Bytes.BigEndianRead | src/websocket.c:328-344 | lengths are read back as they were written |
| Bytes.BigEndianAt | src/websocket.c:328-344 | each byte is a digit of the number in base 256 |
| WsFrame.HeaderBytes | src/websocket.c:312-345 | the bytes of a header in numbers: the mark of the mask, and the length in its one of three forms |
| WsMask.UnmaskDown | src/websocket.c:191-211 | the overlapped loop leaves payload XOR mask four bytes further down and changes nothing behind the packet |
| WsMask.MaskInto | src/websocket.c:396-403 | the client's copy is payload XOR mask |
| WsMask.XorTwice | src/websocket.c:191-200 | masking twice gives the payload back |
| WsMask.FirstBits | src/websocket.c:818-876 | the first byte is the sum of its parts and falls into them again |
| WsMask.HeaderTells | src/websocket.c:818-876 | from any header the flags, the reserved bits, the code, the mark of the mask and the length of the header are recovered as they were put in |
| WsMask.ServerTakes | src/websocket.c:818-876 | a masked packet without reserved bits yields its flags, code and unmasked payload in place; others are refused |
| WsMask.ClientToServer | src/websocket.c:354-411 | every uncompressed message a client sends is taken by the server as one final frame with that code and payload |
| WsSession.Session.OnData | src/websocket.c:878-1072 | a frame changes fragments and produces callbacks as the transition function says |
| WsSession.MessageRun | src/websocket.c:878-1072 | the fragments of a message have the one outcome of the whole message |
| WsSession.HalfWay | src/websocket.c:1013-1068 | inside a message the buffer is there and is the concatenation so far, be it empty |
| WsSession.ControlsChangeNothing | src/websocket.c:961-1010 | pings, pongs and reserved codes in between change nothing about the messages |
| WsSession.PingsAnswered | src/websocket.c:961-1010 | every ping is answered and every ping and pong handed on with its payload, in order, whatever message it comes in the middle of, and nothing else is |
| WsSession.TakeAll | src/websocket.c:878-1072 | a session that takes frames one by one is in the state, and has made the calls, of the run |
| WsSession.Reassembled | src/websocket.c:878-1072 | any messages in any fragments with any other frames in between are delivered whole, in order |
| WsReassembly.ClosesExactlyIfBroken | src/websocket.c:878-1072 | a frame ends the session exactly if it breaks the rules, given the message that is open |
| WsReassembly.ClosesWith | src/websocket.c:878-1072 | and with which status: that of the close frame, 1005, 1007 or 1002 |
| WsReassembly.Explained | src/websocket.c:878-1072 | for any frames that do not end the session: the deliveries are exactly the messages the frames make up, and the buffer holds the open message, or is null exactly if there is none |
| WsReassembly.UpToTheEnd | src/websocket.c:878-1072 | for any frames at all, the same up to the first that ends the session, which is the first that breaks the rules, and the status it ends with |
| WsConversation.SendAll | src/websocket.c:354-411 | what a client writes for its messages is their packets one after another |
| WsConversation.CutWire | src/websocket.c:510-566 | however much of that stream there is, it is cut into the packets that are complete |
| WsConversation.Unwrap | src/websocket.c:818-876 | a packet becomes a frame with its payload unmasked, or is refused |
| WsConversation.PacketTells | src/websocket.c:354-411 | a packet with any flags, reserved bits, code and data, masked or not, is taken apart into what was put in it |
| WsConversation.Conversation | src/websocket.c:354-1072 | whatever a client puts on the wire, fragments and frames that are refused included, however the bytes are split, wherever the ring wraps and whenever events are handled: the session is where the frames complete so far have brought it, and has made exactly their callbacks, in order |
| WsConversation.EffectsOfFrames | src/websocket.c:818-1072 | packets that are accepted have the effect of the run of their frames |
| WsConversation.FragmentsDelivered | src/websocket.c:818-1072 | messages sent in any fragments with any control frames in between are delivered whole, in order and nothing else, and every ping is answered |
| WsConversation.OneText | src/websocket.c:818-1072 | a text cut and masked in any way makes the one message, or ends the session with 1007 if it is not UTF-8 |
| WsConversation.Messages | src/websocket.c:354-1072 | whatever messages a client sends, the callbacks are those of the messages complete so far, each with its code and data, and in the end of all |
| Sha1.Context.Step | src/sha_1.c:120-205 | the four loops over the 16-word circular schedule are the compression with the 80-word one |
| Sha1.Mixed | src/sha_1.c:168-170 | the word of the schedule is made in place of the one of 16 steps ago |
| Sha1.Loop0 | src/sha_1.c:166-174 | the first twenty steps, with the code's own function, constant and shifts, are those of the standard |
| Sha1.Loop1 | src/sha_1.c:175-181 | so are the second twenty |
| Sha1.Loop2 | src/sha_1.c:182-188 | so are the third |
| Sha1.Loop3 | src/sha_1.c:189-195 | so are the last |
| Sha1.Context.Loop | src/sha_1.c:257-280 | any input in any stretches reaches the blocks in order, and the length counts its bits |
| Sha1.Context.Pad | src/sha_1.c:221-255 | the mark, the zeros and the length fill the last block exactly |
| Sha1.Context.PutLength | src/sha_1.c:244-254 | the length is stored in eight bytes, most significant first |
| Sha1.Format | src/sha_1.c:309-319 | the digest is SHA-1 of the message |
| Sha1Spec.AbsorbNext | src/sha_1.c:120-205 | the hash of a message and one more block is the compression of its hash with the block |
| Sha1Spec.FunctionByBit | src/sha_1.c:86-95 | the functions of the standard, bit by bit: choice, parity, majority, parity |
| Sha1Spec.ShiftsByBit | src/sha_1.c:86-95 | where each bit goes in the circular shifts |
| Sha1Spec.ScheduleByBit | src/sha_1.c:168-170 | a bit of the schedule is the parity of the four bits one place below |
| Sha1Spec.WordRead | src/sha_1.c:127-162 | a word is read from the bytes it is stored in, and the other way round |
| Sha1Spec.PaddingTells | src/sha_1.c:221-255 | the message, a one bit, the fewest zeros that fill the block, and the length in 64 bits |
| Sha1Example.Abc | src/sha_1.c:309-319 | the digest of "abc" is the one the standard gives |
| Utf8.IsValidUtf8 | src/utility.cpp:232-271 | true exactly for concatenations of well-formed sequences, without reading past the end |
| Utf8.Utf8Reads | src/utility.cpp:232-271 | reading from the front by length decides whether a byte string is such a concatenation |
| Utf8Chars.Utf8IsText | src/utility.cpp:232-271 | those are exactly the encodings of code points up to 10FFFF without the surrogates, each in its shortest form |
| Base64.Encode | src/base64.c:51-92 | the text of the bytes with a NUL, or -1 exactly if the buffer has no byte to spare |
| Base64.Alphabet | src/base64.c:44-49 | the alphabet in ASCII codes |
| Base64.Foobar | src/base64.c:51-92 | two texts of the standard's examples |
| Base64Decode.ReadChar | src/base64.c:115-126 | the innermost loop passes over what is not of the alphabet, up to the next letter or the end |
| Base64Decode.ReadGroup | src/base64.c:111-133 | on any text, the next four letters, or those that are left and what the text ends in |
| Base64Decode.Decode | src/base64.c:102-164 | on any text: the length from the number of letters and what the text ends in, -1 exactly if there is no room for two bytes more, and the bytes that the letters spell, whatever stands between them |
| Base64Decode.EncodedSpells | src/base64.c:44-92 | the text of some bytes spells them, and ends in padding exactly if their number is no multiple of three |
| Base64Decode.UrlLetters | src/base64.c:118-122 | minus and underscore stand for plus and slash |
| Base64Decode.Spelled | src/base64.c:102-164 | a text with the letters of x's is decoded to x with the right length exactly if it ends in a letter, in padding when x needs some, or in something else when it needs none |
| Base64Decode.RoundTrip | src/base64.c:44-164 | decoding what was encoded gives it back with its exact length, exactly if the buffer has room for two bytes more |
| SegmentTree.CreateSegments | src/tree_help.c:107-194 | the segments rise, lie further apart than the interval, miss no key, and hold what the tree held, with null in the gaps |
| SegmentTree.CompareOrders | src/lib_svr_common_def.c:93-105 | on segments that do not meet the overlap comparator is the order they lie in |
| IntSegTree.ReadList | src/tree_help.c:117-179 | the walk along the list reads the keys and values of the tree in order |
| IntSegTree.DescendSegments | src/rb_tree.c:687-716 | the descent by the overlap comparator ends at an overlapping segment, or at a place with all segments on either side |
| IntSegTree.InsertSegment | src/rb_tree.c:687-756 | a segment behind all others goes to the end of the red-black tree of segments |
| IntSegTree.Find | src/tree_help.c:206-224 | in the tree of segments the value of a covered key is found, and null for any other |
| IntSegTree.IndexAgrees | src/tree_help.c:107-224 | from tree to tree: the index built from a red-black tree gives for every key what that tree gives, and null for absent keys |

## Left out

- The tree variants with a user comparator (`src/rb_tree.c:687-868`, `src/avl_tree.c:560-758`) but for the
  overlap comparator, clear and destroy: the same loops with another comparison, or plain walks.
- Allocation of tree nodes from memory units: a fresh object stands for it.
- The list of blocks of a memory unit and its sizes in bytes, `grow_count == 0`, and `memory_unit_tidy`, which
  takes cells in the cache list for free.
- Wrap-around of tags and tickets, and weaker memory orderings than sequential consistency.
- The single-producer and single-consumer variants of the queue.
- SSL, DNS, listeners and several sockets sharing a queue: what is proved of one socket's requests and events
  does not depend on those of others between them. The bytes themselves and the free space of the rings are
  choices in that model.
- RecordRings.PutRecord: that the rings of requests and events never fill up is not proved; the source treats
  that as a crash.
- WsConversation.Conversation: each packet is unmasked in a buffer of its own, filled when it is handed over; the
  source unmasks it where it lies, and drops it from the ring afterwards.
- WsReceive.Receive: receiving and handling an event are one step each; what happens between their accesses to
  the ring is `LoopCacheThreads.IsFifo`. The branch for a packet longer than the data, which closes the
  connection, is not reached with this parser.
- Nodes of a JSON tree as linked objects: the trees are values, so updating them in place, destroying them
  and sharing are not captured; a struct is added to the one around it when it ends, not when it begins.
- JsonParse.StringToJson: a position past the end of a text reads as NUL, where the source would read on: a text
  that ends in a backslash, or in the middle of a string.
- JsonRoundTrip.RoundTrip: not for numbers with a fraction, because `"%f"` loses digits; they are kept as spelled.
- The bounded `json_to_string`, and error messages.
- Decimal.LlToStr: the least long long is excluded, because its negation overflows.
- WsMask.UnmaskDown: the bytes up to four behind the payload are required to be readable, as the loop reads
  them.
- Compression, the HTTP upgrade, and the frames a session sends to close itself.
- WsSession.Session.OnData: a closed session goes on taking frames; that the TCP session ends is not modelled
  there.
- MemoryBlocks.Manager.Alloc: where a new block lies is given from outside; that a unit never hands out a cell
  that is held is `MemoryUnitSafety.CellsInOnePlace`. Threads that use one manager at the same time are not
  modelled above the units.
- MySQL, logging, the Windows core, tracing and the C++ wrappers.
