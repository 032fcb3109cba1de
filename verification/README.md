# Verification of hivedb

A Dafny model of hivedb's storage core and of its statement front end, with proofs.

- **Paged B+ tree** (`BPlusTree`, `LeafNode`, `InnerNode`, `Slots`, `Search`): nodes are fixed-capacity
  arrays in pages; searches, shifting inserts, splits, the descent with its stack of frames, root growth and the final
  flush are methods over a buffer pool. The capacity `M >= 5` is a parameter and `H` is `M / 2`. `TreeSpec` is
  insertion on trees as values; `TreeInvariant`, `TreeContents`, `TreeRuns`, `TreeAscending` and `TreeShortest` prove
  what insertion does to order, contents, pages and size; `TreePages` and `TreeSteps` say how pages hold a tree and how pins add up; `TreeCalls`
  runs any list of insertions and lookups on a tree.
- **Buffer pool, LRU-K replacer, page file** (`BufferPool`, `LruK`, `DiskManagerMock`, `PoolState`, `PoolRuns`): a
  write-back cache with an accounting invariant that asks nothing of its clients, and, over every list of calls made on a
  pool, a refinement of a flat page array for clients that mark a frame dirty before writing and never unpin more than they pinned.
- **Channel and disk scheduler** (`DiskScheduler`, `SchedulerRuns`): a transition system with separate steps for taking
  the lock, changing the queue, releasing the lock and notifying, any number of producers and spurious wake-ups.
- **Statement front end** (`Lexer`, `Parser`, `StatementRoundTrip`, `StatementGrammar`): scanner and recursive-descent
  parser as classes, each proved against functions on the text (tokens) that is left; the round trip from statements to
  text and back; and the other direction, that what is accepted is in the grammar.
- **Row store** (`DataTypes`, `StorageEngine`, `RowRoundTrip`): tables as bytes and strings, and the round trip from
  inserted to fetched values.

The files can be read in this order: `Pages`, `PoolState`, `BufferPool`, `TreeSpec`, `TreeRuns`, `BPlusTree`, then
the others as needed. `BPlusTree.Tree.Insert` and `Find`, and `TreeCalls.Drive` over runs of them, are the top of the
first two layers.

Where the code and its own words differ, the model follows the code:

- `request_page` is documented to increase the pin count; it does so only when asked (`include/buffer_pool/buffer_pool.hpp:112-123`).
- The page header is documented as type, current size, maximal size; the code stores the maximal size second
  (`include/b_plus_tree/b_plus_tree_node.hpp:45-49`). The model has named header fields.
- A destroyed frame header is meant to make its frame evictable; it is also destroyed right after every load, so each
  loaded frame is evictable although it may be pinned (`src/buffer_pool/buffer_pool.cpp:23-27`). `NoFrameFor` in `BufferPool`
  is the resulting exact condition for a throw.
- `NOT NULL` sets the flag named `canBeNull` (`src/parser/parser.cpp:228-233`).

Two properties that a reader would expect are false. Insertion does not always succeed: a split-off inner node cannot enter an
inner node. `AbortsExactlyWhen` gives the exact condition for one insertion, `SomeRunAborts` the exact lengths at which
some run aborts (from `SHORTEST_ABORT` on; `LongerAborts` names the runs), and `AscendingRunAborts` the exact length for every
run in ascending key order. The other way an insertion or a lookup can fail is that the pool has no frame for a page:
`NoFrameFor` is the exact condition for one request, `NoFrameOnWay` the exact condition for a lookup while no frame is
pinned. A pool with three frames free never refuses a lookup, one with five frames free never refuses an insertion, and
neither does one with a frame for each page of the tree (of the tree to be, for an insertion).

The other is that a selection shows each row once. A column that is named twice (`select (a + a) from t`) is gathered twice
in every row, and row `i` of the result reads place `i`: `NamedTwice` is an example, and `RightWhenNamedOnce` says that
naming the column once is exactly what it takes.

## Model

| member | source | states |
|---|---|---|
| BPlusTree.Tree.Insert | include/b_plus_tree/b_plus_tree.hpp:165-270 | inserting a fresh key: when it returns, the result is true, the pages hold exactly the tree the longer run leads to, the file alone does too, no resident frame is dirty, every pin count is what it was before, and only pages resident before and inner pages are resident; with five frames free beforehand it does not throw, and the assertion fails if and only if the longer run has no next tree; the same with a frame for each page of the longer run; it throws only if the pages resident before and the at most five pages it asks for outnumber the frames; after a throw the pool accounting still holds |
| TreeSteps.FewAsked | include/b_plus_tree/b_plus_tree.hpp:125-258 | an insertion asks for at most five pages, those on the way and those it is handed |
| TreeSteps.InnerIdsStay | include/b_plus_tree/b_plus_tree.hpp:212-267 | a page that is an inner node stays one |
| BPlusTree.Tree.Find | include/b_plus_tree/b_plus_tree.hpp:89-123 | lookup returns the inserted value of an inserted key and the caller's own value for any other; it changes no page, and the tree stays valid even when it throws; every pin count stays as it was, except that a lookup of an absent key leaves one more pin on exactly the leaf it ended in; with no frame pinned it throws, in a pool of any size, if and only if the tree is empty or the first page on the way without a frame finds the pool full with no frame evictable but those of the pages before it; with a frame for each page, or with three frames free, it throws if and only if the tree is empty |
| BPlusTree.Tree.FindBelowRoot | include/b_plus_tree/b_plus_tree.hpp:96-122 | the way down in a tree that has a root, for any shape in the pages: the same value, pins and exact condition for running out of frames |
| BPlusTree.PassingStep | include/b_plus_tree/b_plus_tree.hpp:96-111 | along the way down, either only resident pages were asked for and exactly their frames ceased to be evictable, or some page was loaded and its frame stays evictable to the end |
| BPlusTree.Tree.FileHoldsTree | include/b_plus_tree/b_plus_tree.hpp:209-269 | between operations the page file alone, with no frame resident, decodes to the whole tree |
| TreeCalls.Drive | include/b_plus_tree/b_plus_tree.hpp:89-270 | any list of insertions of fresh keys and lookups: every lookup that returns gives the value put in for its key before, or the caller's own; after all calls the tree holds exactly the pairs, the file alone holds the tree, and no frame is pinned if only present keys were looked up; with as many frames as the insertions take pages, the calls are all answered if and only if their run does not abort, and a lookup throws if and only if nothing was put in before; insertions alone, with eight frames free at first, are refused only by the abort, however many pages they take, and leave only earlier residents and inner pages in the pool |
| TreeCalls.DriveNew | tests/b_plus_tree/b_plus_tree.cpp:60-92 | the same from a new, empty tree on; eight frames are enough for any run of insertions that does not abort |
| TreeCalls.PagesGrow | include/b_plus_tree/b_plus_tree.hpp:152-258 | a longer run takes at least the pages of a shorter one, whether it aborts or not |
| BPlusTree.Tree.constructor | include/b_plus_tree/b_plus_tree.hpp:55-57 | over a new pool the given root id is taken as it is, and without a root the tree is valid, empty and has no pinned frame |
| BPlusTree.Tree.InsertFirst | include/b_plus_tree/b_plus_tree.hpp:169-180 | the first key makes a root leaf whose page is written back and dropped; pins are as before |
| BPlusTree.Tree.InsertBelowRoot | include/b_plus_tree/b_plus_tree.hpp:182-270 | descent, insertion, splits and flush turn a stored tree into the stored tree after the insertion, or hit the assertion exactly where there is none |
| BPlusTree.Tree.FindPlaceForNewKeyAndInsert | include/b_plus_tree/b_plus_tree.hpp:125-163 | the stack holds the pinned frames of the inner pages on the way, in order; the key is in its leaf; a full leaf has been split onto the next page id, both halves dirty |
| BPlusTree.Tree.SplitLeaf | include/b_plus_tree/b_plus_tree.hpp:152-161 | the page handed out next takes the upper half of the full leaf, is pinned and dirty, and no other page changes |
| BPlusTree.Tree.SplitRootLeaf | include/b_plus_tree/b_plus_tree.hpp:184-210 | a split root leaf gets a new root above both halves; everything is flushed and pins settle |
| BPlusTree.Tree.Propagate | include/b_plus_tree/b_plus_tree.hpp:212-269 | the whole way up the stack keeps what is on its way, ends with the stored tree after the insertion, or stops at the assertion only if insertion aborts |
| BPlusTree.Tree.HandUp | include/b_plus_tree/b_plus_tree.hpp:219-263 | one round of the loop: a new leaf is taken in (and a full inner node split), a new inner node meets the assertion; the stack loses its top frame, unpinned |
| BPlusTree.Tree.TakeInLeaf | include/b_plus_tree/b_plus_tree.hpp:222-241 | the inner page above the split leaf holds the new leaf and its least key right of the old leaf |
| BPlusTree.Tree.SplitInnerNode | include/b_plus_tree/b_plus_tree.hpp:252-258 | a full inner page is split onto the next page id; the separator between the halves stays in the left page's last slot |
| BPlusTree.Tree.CreateRootWithInnerNodes | include/b_plus_tree/b_plus_tree.hpp:19-52 | the new root holds the separator taken from the left half's last slot and both halves as children |
| BPlusTree.Tree.Finish | include/b_plus_tree/b_plus_tree.hpp:269 | when all pages held are dirty, the flush brings every pin count back, leaves nothing dirty and returns true |
| BPlusTree.Tree.Ask | include/buffer_pool/buffer_pool.hpp:112-241 | a request for a page that was handed out throws exactly when no frame can be had for it, then moves no page, and only when more pages were handed out than there are frames; content is kept either way |
| BPlusTree.NewLeafGoesRight | include/b_plus_tree/b_plus_tree_node.hpp:360-396 | the least key of a split-off leaf is no separator yet, and its place is immediately right of the leaf it came from |
| TreeRuns.RunContents | include/b_plus_tree/b_plus_tree.hpp:165-270 | after any run of inserts of distinct keys that does not abort, the leaves from left to right hold exactly the inserted pairs, in key order |
| TreeRuns.RunFinds | include/b_plus_tree/b_plus_tree.hpp:89-123 | in every such tree lookup gives the inserted value for each key and nothing for any other |
| TreeRuns.ShortRunsSucceed | include/b_plus_tree/b_plus_tree.hpp:212-267 | no run of distinct inserts shorter than SHORTEST_ABORT reaches the unimplemented step, and that length is above M * floor(M/2) |
| TreeRuns.AbortNeeds | include/b_plus_tree/b_plus_tree_node.hpp:421-425 | a run that aborts has a first insertion that does, at SHORTEST_ABORT or later; the tree before it has a full inner node for the key (M - 1 children, each at least half full) whose leaf for the key has one slot to spare, and beside it a node with at least the children a split leaves, ending in an upper half when it is the right one |
| TreeShortest.SomeRunAborts | include/b_plus_tree/b_plus_tree_node.hpp:421-425 | for every length: some run of that length aborts if and only if the length reaches SHORTEST_ABORT |
| TreeShortest.LongerAborts | include/b_plus_tree/b_plus_tree.hpp:212-267 | a run that ascends until the root splits and then goes in below the separator aborts at exactly SHORTEST_ABORT insertions, for both parities of M |
| TreeShortest.AscendingRow | include/b_plus_tree/b_plus_tree.hpp:165-270 | after a run in ascending key order the leaves hold the keys in the order they came |
| TreeRuns.RunSpreads | include/b_plus_tree/b_plus_tree_node.hpp:398-419 | in every reachable tree the last leaf below the root is at least an upper half, and the left of two inner nodes has the floor(M/2) + 1 children of its split |
| TreeAscending.AscendingRunAborts | include/b_plus_tree/b_plus_tree_node.hpp:421-425 | a run in ascending key order aborts exactly when its length reaches (H + M - 1) * H + M, where H = floor(M/2) |
| TreeAscending.LoadGrows | include/b_plus_tree/b_plus_tree.hpp:212-267 | a key above all others adds one to the load of the right spine, and aborts exactly at the limit |
| TreeInvariant.AbortsExactlyWhen | include/b_plus_tree/b_plus_tree_node.hpp:421-425 | one insertion aborts if and only if the tree has three levels and both the leaf for the key and the inner node above it have one entry to spare |
| TreeInvariant.InsertOk | include/b_plus_tree/b_plus_tree.hpp:165-270 | all leaves at one depth, at most three levels, keys under child i in [sep(i-1), sep(i)), each separator the least key to its right, leaf and inner node sizes in bounds: kept by every insertion of a fresh key |
| TreeInvariant.InnerInsertOk | include/b_plus_tree/b_plus_tree.hpp:219-258 | the same below one inner node, for room to spare and for a split, including the least child counts for both parities of M |
| TreeInvariant.AbsorbOk | include/b_plus_tree/b_plus_tree_node.hpp:360-396 | replacing a child by its halves keeps order, bounds and sizes of an inner node |
| TreeInvariant.SplitInnerOk | include/b_plus_tree/b_plus_tree_node.hpp:398-419 | both halves of a split inner node are ordered within their bounds around the promoted separator |
| TreeInvariant.HalvesOk | include/b_plus_tree/b_plus_tree_node.hpp:222-244 | the halves of a full leaf have floor(M/2) and ceil(M/2) entries and lie on either side of the upper half's least key |
| TreeContents.InsertContents | include/b_plus_tree/b_plus_tree.hpp:125-270 | the row of all keys (values) after an insertion is the row before with the new key (value) at its rank |
| TreeContents.FindMeaning | include/b_plus_tree/b_plus_tree.hpp:89-123 | lookup finds a key if and only if it is in some leaf, and returns the value at the same place of the row |
| TreeContents.ShapeAscends | include/b_plus_tree/b_plus_tree.hpp:165-270 | the keys of an ordered tree, read across all leaves, ascend strictly |
| TreeContents.LocateInRow | include/b_plus_tree/b_plus_tree_node.hpp:475-498 | the leaf the descent ends in is the one place the key can be, with only smaller keys left and larger keys right of it |
| TreeRuns.Run | include/b_plus_tree/b_plus_tree.hpp:165-270 | every prefix of a run keeps the tree in order and holds the pairs inserted so far |
| TreeRuns.RunPages | include/b_plus_tree/b_plus_tree.hpp:152-157 | in every reachable tree each page id handed out occurs exactly once, as the root or in one child slot, and no other id occurs |
| TreeRuns.InsertUses | include/b_plus_tree/b_plus_tree.hpp:169-258 | an insertion takes page ids in order, at most three, and neither loses nor shares one |
| TreeRuns.RunPlaced | include/b_plus_tree/b_plus_tree.hpp:152-258 | no two places of a reachable tree share a page |
| TreePages.PathStep | include/b_plus_tree/b_plus_tree.hpp:96-111 | each page on the way down sends the search to the next one, and the last is the key's leaf |
| TreePages.FlushSettlesPins | include/buffer_pool/buffer_pool.hpp:243-262 | flushing when every held page is dirty returns all pin counts to what they were before the operation |
| TreePages.RequestPins | include/buffer_pool/buffer_pool.hpp:117-160 | a pinning request adds the page to the pages held and changes no other pin that counts |
| TreePages.HeldStay | include/buffer_pool/buffer_pool.hpp:144-240 | a request moves no held page to another frame and makes none clean |
| TreeSteps.TakenInDone | include/b_plus_tree/b_plus_tree.hpp:243-250 | a leaf taken in by an inner node with room completes the insertion |
| TreeSteps.NewRootDone | include/b_plus_tree/b_plus_tree.hpp:19-52 | the new root over two inner halves completes the insertion |
| TreeSteps.RootLeafSplitDone | include/b_plus_tree/b_plus_tree.hpp:185-210 | the new root over two leaf halves completes the insertion |
| LeafNode.FindIndexForInsert | include/b_plus_tree/b_plus_tree_node.hpp:135-166 | the linear search (under five entries) gives the number of keys not larger, the binary search the number of smaller keys; for a fresh key they agree |
| LeafNode.FindIndex | include/b_plus_tree/b_plus_tree_node.hpp:168-191 | succeeds exactly when the key is present, and gives its slot, with the division that truncates toward zero |
| LeafNode.TrivialInsert | include/b_plus_tree/b_plus_tree_node.hpp:193-220 | the shifted arrays are the old ones with the key and the value at the place the search gives, which for a fresh key is its rank |
| LeafNode.SplitNode | include/b_plus_tree/b_plus_tree_node.hpp:222-244 | the halves put together are the old entries, of floor(M/2) and ceil(M/2), for both parities of M |
| LeafNode.InitFirstNode | include/b_plus_tree/b_plus_tree_node.hpp:125-133 | a leaf of one entry without a right sibling |
| InnerNode.FindIndex | include/b_plus_tree/b_plus_tree_node.hpp:475-498 | the child to enter is the number of separators not larger than the key |
| InnerNode.FindIndexForInsert | include/b_plus_tree/b_plus_tree_node.hpp:326-357 | for a key that is no separator both searches give the same child as the descent |
| InnerNode.TrivialInsertLeafNode | include/b_plus_tree/b_plus_tree_node.hpp:359-396 | key and child go in immediately right of the child at the place the search gives, in both branches of the code, also for a key that is a separator already |
| InnerNode.SplitNode | include/b_plus_tree/b_plus_tree_node.hpp:398-419 | children and keys are conserved: left keys, the promoted key in the left node's last slot, right keys |
| Slots.ShiftRight | include/b_plus_tree/b_plus_tree_node.hpp:382-385 | the shifting loop moves the slots from a position on by one |
| Search.FreshKeyOneSlot | include/b_plus_tree/b_plus_tree_node.hpp:326-396 | for a key that is no separator, smaller keys and keys not larger are the same number |
| Search.RankCounts | include/b_plus_tree/b_plus_tree_node.hpp:135-147 | the rank in an ascending array is the number of smaller keys |
| Search.InsertedKeepsOrder | include/b_plus_tree/b_plus_tree_node.hpp:193-220 | inserting a fresh key at its rank keeps an array ascending |
| BufferPool.Pool.RequestPage | include/buffer_pool/buffer_pool.hpp:112-241 | a request that returns yields the latest bytes of the page, changes no page's content, moves no pinned page, and drops no page on a hit or while a frame is free; with every frame taken it drops exactly the displaced page: the unpinned dirty page in the least frame if there is one, else the unpinned page in the frame the replacer picks; it throws exactly when all frames are taken, none is dirty and unpinned, and the frame the replacer picks, if any, is pinned, and then costs that frame its record; free list, records and clock of the replacer are stated in every case; the accounting holds either way, so no internal assertion can fail |
| BufferPool.DisplacedIsUnique | include/buffer_pool/buffer_pool.hpp:162-228 | only one page can be the displaced one |
| BufferPool.Pool.RefusedView | include/buffer_pool/buffer_pool.hpp:162-240 | the condition for a throw in terms of resident pages and records is the one in terms of frames |
| BufferPool.Pool.RefusedWhenIdle | include/buffer_pool/buffer_pool.hpp:162-240 | when no page is pinned or dirty, a page is refused exactly when it is not resident, the table is full and no frame is evictable |
| BufferPool.Pool.FrameToSpare | include/buffer_pool/buffer_pool.hpp:144-240 | a pool with a frame for each id below n refuses no page below n while it holds no others |
| BufferPool.Pool.RequestResident | include/buffer_pool/buffer_pool.hpp:117-126 | a hit changes nothing but that page's pin count; its frame has one more recorded access and is no longer evictable |
| BufferPool.Pool.UseFreeFrame | include/buffer_pool/buffer_pool.hpp:144-160 | a miss with a free frame loads the page into the first free one without disturbing another |
| BufferPool.Pool.ReplaceUnsaved | include/buffer_pool/buffer_pool.hpp:162-196 | a dirty unpinned page is written back before its frame is reused |
| BufferPool.Pool.ReplaceVictim | include/buffer_pool/buffer_pool.hpp:198-240 | a victim dropped without a write was clean, so no content is lost |
| BufferPool.Pool.ReplaceSomePage | include/buffer_pool/buffer_pool.hpp:162-240 | a miss with all frames taken: which page leaves, and exactly when it throws |
| BufferPool.Pool.FlushPages | include/buffer_pool/buffer_pool.hpp:243-262 | every dirty page is in the file and in no frame, all others are untouched; the frames of the dirty pages join the free list and lose their records where those are evictable, no other record changes; the result says whether there was a dirty page |
| BufferPool.Pool.FlushPage | include/buffer_pool/buffer_pool.hpp:264-293 | one dirty page is written back and gives up a pin; evicted or, inside a flush of all, left in place |
| BufferPool.Pool.EvictPage | include/buffer_pool/buffer_pool.hpp:295-311 | the page leaves the table, its frame joins the free list and loses its record if that is evictable, no other frame or record changes |
| BufferPool.Pool.AllocateNewPage | include/buffer_pool/buffer_pool.hpp:107-110 | page ids are handed out in order |
| BufferPool.Pool.constructor | include/buffer_pool/buffer_pool.hpp:93-105 | a new pool has no resident page and a full free list |
| BufferPool.NewPool | include/buffer_pool/buffer_pool.hpp:93-105 | a negative number of frames is refused, any other gives a new pool |
| BufferPool.Pool.PlacePage | include/buffer_pool/buffer_pool.hpp:183-195 | the page gets the first free frame, clean, pinned on request, with the accesses recorded for it |
| BufferPool.Pool.AdmitFrame | src/buffer_pool/buffer_pool.cpp:23-27 | what the destructor of the moved-from header does: the loaded frame is evictable again, with one more recorded access, or two when it is reused after a write; no other record changes |
| BufferPool.Pool.FrameTouched | include/buffer_pool/buffer_pool.hpp:23-53 | a client changing pin, dirty bit or bytes of its frame keeps the accounting and touches no other page |
| BufferPool.AccountedAfterLoad | include/buffer_pool/buffer_pool.hpp:149-151 | loading keeps the table injective and frames split between table and free list |
| BufferPool.AccountedAfterRemoval | include/buffer_pool/buffer_pool.hpp:302-308 | so does dropping a page |
| BufferPool.WriteAllThenDrop | include/buffer_pool/buffer_pool.hpp:243-262 | writing the dirty pages one by one and then dropping them is the flush of the whole pool, in whatever order the table is visited |
| PoolState.LoadKeepsContent | include/buffer_pool/buffer_pool.hpp:144-240 | a load keeps every page's content if each page that loses its frame is unpinned and was saved or never changed |
| PoolState.FlushingKeepsContent | include/buffer_pool/buffer_pool.hpp:243-262 | a flush keeps every page's content, leaves nothing dirty, and the file then holds the content |
| PoolRuns.RunRefinesFlatArray | include/buffer_pool/buffer_pool.hpp:112-311 | in every run of requests, flushes of one page or of all, client writes and unpins from a disciplined state, each page reads as it was last written, whatever was loaded, flushed, dropped or refused |
| PoolRuns.PinnedPageStays | include/buffer_pool/buffer_pool.hpp:144-240 | across any steps that neither flush the page or all pages nor unpin it, a pinned page keeps its frame, and its bytes unless a client writes them; the clients need not be disciplined |
| PoolRuns.Drive | include/buffer_pool/buffer_pool.hpp:112-311 | any list of calls made on any pool is a run of those steps from the pool before to the pool after; from a disciplined state every request that returned showed the page as last written before it, and so does every page at the end |
| PoolRuns.MakeCall | include/buffer_pool/buffer_pool.hpp:112-311 | one call on the pool takes one of those steps, which says which page leaves and what the replacer remembers; a request within reach of the file returns exactly when a frame can be had |
| PoolRuns.RunSeesLastWrites | include/buffer_pool/buffer_pool.hpp:112-241 | each request of a run that returned showed the bytes last written to the page |
| PoolRuns.NothingLeaves | include/buffer_pool/buffer_pool.hpp:144-160 | as long as the frames suffice for all pages resident or asked for, and nothing is flushed, no request is refused and no page leaves |
| PoolState.RequestKeepsContent | include/buffer_pool/buffer_pool.hpp:144-240 | what a request may do to the pool, dropping only pages that were saved or not both dirty and unpinned, keeps all content for disciplined clients |
| DiskManagerMock.DiskManager.ReadPage | src/disk/disk_manager_mock.cpp:8-19 | reads the page, zero bytes if it was never written, and grows the file by six pages when it is too short |
| DiskManagerMock.DiskManager.WritePage | src/disk/disk_manager_mock.cpp:21-32 | the written page changes and no other |
| DiskManagerMock.Writing | src/disk/disk_manager_mock.cpp:21-32 | every other page reads as before |
| DiskManagerMock.Reaching | src/disk/disk_manager_mock.cpp:13-15 | growing changes the content of no page |
| LruK.Replacer.Evict | src/buffer_pool/lru_k.cpp:47-92 | fails exactly when nothing is evictable (or the choice is the id that stands for none); otherwise removes the victim: the least id among evictable frames with fewer than k accesses, said outright of the frames before the call, or else the frame whose k-th most recent access, counted as the code counts it, is oldest |
| LruK.Replacer.RecordAccess | src/buffer_pool/lru_k.cpp:19-33 | appends one time stamp, all stamps stay distinct and below the clock; a new frame starts evictable |
| LruK.Replacer.SetEvictable | src/buffer_pool/lru_k.cpp:35-45 | changes one flag of a known frame |
| LruK.Replacer.Remove | src/buffer_pool/lru_k.cpp:93-104 | forgets an evictable frame and leaves any other alone |
| LruK.Replacer.Size | src/buffer_pool/lru_k.cpp:106-111 | counts the evictable frames |
| LruK.VictimExists | src/buffer_pool/lru_k.cpp:47-92 | where a frame is evictable there is a victim, by either rule |
| LruK.VictimIsUnique | src/buffer_pool/lru_k.cpp:66-81 | the victim is unique |
| LruK.RecordingKeepsStamps | src/buffer_pool/lru_k.cpp:19-33 | no two accesses share a time stamp |
| LruK.EvictableAfterRemoval | src/buffer_pool/lru_k.cpp:88-111 | removing a victim lowers the number of evictable frames by one |
| SchedulerRuns.Always | include/misc/channel.hpp:26-40 | the invariant of lock, order, promises, buffers, file, answers and shutdown holds in every reachable interleaving of any number of producers |
| SchedulerRuns.NoLostWakeUp | include/misc/channel.hpp:26-40 | if the worker sleeps, a request waits and the lock is free, some producer has released the lock and not yet notified |
| SchedulerRuns.JoinedMeansDone | include/disk/disk_scheduler.hpp:59-94 | after the join every request put before the shutdown was executed once, in put order, answered once, and each read got the bytes of the last write put before it |
| SchedulerRuns.ContentsIsLastWrite | include/disk/disk_scheduler.hpp:66-73 | what a read returns is the last write of its page before it, or what the file held at first |
| SchedulerRuns.AnsweredOnce | include/disk/disk_scheduler.hpp:66-73 | no promise is set twice |
| SchedulerRuns.NoDeadlock | include/misc/channel.hpp:26-40 | in every reachable state some thread can go on, or no put is under way, the queue is empty or the worker has exited, and a requested shutdown is complete |
| SchedulerRuns.QuietRunsEnd | include/disk/disk_scheduler.hpp:59-94 | when nothing new begins, only a bounded number of steps is left |
| SchedulerRuns.EveryStepSpends | include/misc/channel.hpp:26-40 | each step that is due brings the system closer to rest |
| SchedulerRuns.OrderKept | include/misc/channel.hpp:26-40 | what entered the queue is what was executed, what the worker holds and what waits, in this order, after every step |
| SchedulerRuns.WakeKept | include/misc/channel.hpp:26-40 | no step loses a wake-up |
| SchedulerRuns.WaitingIsCalling | include/buffer_pool/buffer_pool.hpp:132-142 | a client that puts a request when all others have been answered, and waits for the answer while nobody puts another, sees what a direct call of the page file does: after a read its buffer holds the page and the file has at most grown, a write writes the buffer; every other buffer that no client writes to is as before, and all is answered again |
| SchedulerRuns.BufferAfterAnswer | include/disk/disk_scheduler.hpp:66-73 | with any number of clients: from the answer on, and until the buffer is reused, it holds for a read the page as the requests put before left it, and for a write what was written |
| SchedulerRuns.AloneThroughout | include/buffer_pool/buffer_pool.hpp:132-142 | as long as nobody else puts a request, the file is what it was or what the one request makes of it, and of the buffers no client writes to only that of a read changes |
| SchedulerRuns.BuffersKept | include/disk/disk_scheduler.hpp:79-82 | buffers of unanswered requests stay apart and hold what is to be written |
| RowRoundTrip.SelectionReadsBack | src/storage_engine/storage_engine.cpp:48-68 | for every schema and every run of well-typed inserts, naming the columns in any order and leaving out none but integers, the places gathered for a column decode row by row to the values given for it, zero where it was left out, each as often as the selection names the column, strings cut to their length modulo 65536 |
| RowRoundTrip.ValueGiven | src/storage_engine/storage_engine.cpp:203-217 | a column's value is the first one given for its name; a column that is left out stores four zero bytes, whatever its type |
| RowRoundTrip.RightWhenNamedOnce | src/storage_engine/storage_engine.cpp:129-154 | a selection shows every row of a column once, in order, if and only if it names the column once |
| RowRoundTrip.NamedTwice | src/storage_engine/storage_engine.cpp:129-154 | a column named twice: the second value read is that of the first row again |
| RowRoundTrip.SelectColumns | src/storage_engine/storage_engine.cpp:108-152 | selecting any columns, repeated or not, of a table whose insertions so far were all well-typed gives, for each, the values of every insertion in order, each as often as the column is requested; it fails exactly when the table or a column is missing |
| RowRoundTrip.RunReadsBack | src/storage_engine/storage_engine.cpp:181-217 | the data is as many rows long as there were inserts, and every value can be read at its row and offset |
| RowRoundTrip.RowAppended | src/storage_engine/storage_engine.cpp:203-217 | the values of one row lie at the offsets of their columns |
| DataTypes.ReadsBack | src/data_types/varchar.cpp:12-44 | an encoded value decodes to what was stored |
| DataTypes.Encoded | src/data_types/data_types.cpp:36-47 | the width of a type is the number of bytes its values take |
| DataTypes.StillReads | src/data_types/varchar.cpp:32-44 | later rows and strings do not disturb earlier ones |
| DataTypes.StoredWhole | src/data_types/varchar.cpp:12-20 | exactly the strings shorter than 65536 characters are stored whole |
| DataTypes.NumberReadBack | src/data_types/integer.cpp:6-20 | little-endian bytes read back as the number |
| StorageEngine.Table.InsertData | src/storage_engine/storage_engine.cpp:31-46 | appends the bytes of one value, by its own type |
| StorageEngine.Table.InsertRow | src/storage_engine/storage_engine.cpp:203-217 | appends one value per column in the table's order, the first one given for the column's name or a zero, and keeps the data equal to the fold over all insertions so far |
| StorageEngine.Table.KnowsAll | src/storage_engine/storage_engine.cpp:188-201 | whether every named column exists |
| StorageEngine.Table.FindColumns | src/storage_engine/storage_engine.cpp:129-150 | the offset of a column is the sum of the widths before it; fails exactly when a column is missing |
| StorageEngine.Table.Fetch | src/storage_engine/storage_engine.cpp:48-68 | for each name the places of its values, row by row and as often as it is wanted, also when the last row is cut short |
| StorageEngine.Engine.CreateTable | src/storage_engine/storage_engine.cpp:70-86 | fails exactly when a type name is none of integer, varchar and real; a new table has the given columns, each of the type named, and no rows; an existing table of that name is kept as it is |
| StorageEngine.Engine.InsertIntoTable | src/storage_engine/storage_engine.cpp:181-217 | fails, storing nothing, exactly when the table or a named column is missing; otherwise the insertion is the last of the table |
| StorageEngine.Engine.QueryDataFromTable | src/storage_engine/storage_engine.cpp:88-152 | fails exactly when the table or a column is missing; otherwise gathers each requested column, as often as it is requested |
| StorageEngine.RequestedGathered | src/storage_engine/storage_engine.cpp:112-133 | a requested column is gathered row by row at its own offset, in each row as often as it is requested |
| StorageEngine.OffsetsGrow | src/storage_engine/storage_engine.cpp:140-144 | columns do not overlap |
| StatementRoundTrip.StatementReadsBack | src/parser/parser.cpp:274-278 | writing any well-formed select, create or insert statement, with or without the parentheses that can be left out, as text with any blanks between tokens, none where no two words or numbers meet, then lexing and parsing it gives the same statement with nothing left over |
| StatementRoundTrip.WriteAndRead | src/parser/parser.cpp:274-278 | lexer and parser run on any such text of a statement return that statement and use up every token |
| StatementRoundTrip.ReadStatement | src/parser/parser.cpp:274-278 | lexing and parsing a text returns exactly when the text is not empty, has only known characters and starts with a statement |
| StatementRoundTrip.TextLexes | src/parser/lexer.cpp:56-181 | lexing the text of a list of tokens gives the list, if and only if a blank stands wherever two words or two numbers meet |
| StatementRoundTrip.FrontReads | src/parser/lexer.cpp:56-173 | a token at the front of a text is read as that token, if and only if no letter follows a word and no digit a number |
| StatementGrammar.LexesExactly | src/parser/lexer.cpp:56-181 | a text without NUL lexes to the given tokens if and only if it is one of their texts |
| StatementGrammar.KnownCharacters | src/parser/lexer.cpp:56-117 | the characters that begin a token or a blank |
| StatementGrammar.ParsedDerives | src/parser/parser.cpp:50-274 | whatever the parser accepts, the tokens it used up stand for the statement it gave, by a grammar that does not say how they are found |
| StatementGrammar.DefinitionsExactly | src/parser/parser.cpp:147-247 | for creations and insertions the parser accepts exactly that grammar, lists that break off at the end included |
| StatementRoundTrip.StatementParses | src/parser/parser.cpp:50-274 | parsing the tokens of a statement gives the statement |
| StatementRoundTrip.BinaryReads | src/parser/parser.cpp:50-63 | a right-nested chain of binary operators reads back |
| StatementRoundTrip.SelectReads | src/parser/parser.cpp:249-274 | a selection reads back, with a list in parentheses or one bare expression, with or without a table |
| StatementRoundTrip.NestedReads | src/parser/parser.cpp:123-129 | a selection within an expression reads back without parentheses, unless what follows would become part of it |
| StatementRoundTrip.NumberReads | src/parser/parser.cpp:95-101 | a number is read if and only if it is at most 2147483647 |
| Lexer.Scanner.GetTokens | src/parser/lexer.cpp:175-181 | the scanner produces the tokens of the text or refuses it exactly when an unknown character occurs before its end |
| Lexer.Scanner.NextToken | src/parser/lexer.cpp:56-117 | one step of the scanner reads exactly the lexeme at the front of the text and never moves back |
| Lexer.Scanner.ParseString | src/parser/lexer.cpp:139-155 | a string runs to the next quote; an unclosed one runs through the end of the text |
| Lexer.Scanner.AddIdentifier | src/parser/lexer.cpp:157-173 | the run of letters, up to the first character that is none, is a keyword or an identifier |
| Lexer.Scanner.AddNumber | src/parser/lexer.cpp:119-137 | the run of digits, up to the first character that is none, is an integer; a real is never produced |
| Lexer.Tokenize | src/parser/lexer.cpp:22-28 | an empty text is refused |
| Parser.Cursor.ParseStatement | src/parser/parser.cpp:135-145 | follows the statement grammar; the cursor never moves back |
| Parser.Cursor.ParseBinary | src/parser/parser.cpp:50-63 | follows the grammar of binary expressions, all of one precedence and right associative; terminates |
| Parser.Cursor.ParseUnary | src/parser/parser.cpp:65-74 | follows the grammar of unary expressions |
| Parser.Cursor.ParsePrimary | src/parser/parser.cpp:76-133 | follows the grammar of literals, groupings and nested selections; numbers beyond an int are refused |
| Parser.Cursor.ParseSelect | src/parser/parser.cpp:249-274 | follows the grammar of selections |
| Parser.Cursor.ParseList | src/parser/parser.cpp:251-260 | the loop over a select list follows the recursive grammar |
| Parser.Cursor.ParseCreate | src/parser/parser.cpp:205-247 | follows the grammar of table creation |
| Parser.Cursor.ParseColumnDefs | src/parser/parser.cpp:218-246 | the loop over column definitions, which accepts a list that breaks off |
| Parser.Cursor.ParseInsert | src/parser/parser.cpp:147-203 | follows the grammar of insertions |
| Parser.Cursor.ParseColumnNames | src/parser/parser.cpp:157-171 | the loop over column names |
| Parser.Cursor.ParseValues | src/parser/parser.cpp:178-202 | the loop over values |
| Parser.Cursor.Match | src/parser/parser.cpp:40-43 | advances past one token exactly when it is of one of the kinds |

## Left out

- BPlusTree.Tree.Insert: with fewer than five frames free, and fewer frames than the pages resident and asked for, whether it throws depends on which of the frames it has pinned the replacer picks, and is characterised only request by request. Nothing but the pool's accounting is promised after a throw, because the exception leaves pins, the stack of frames and half-finished splits behind. Keys are mathematical integers and each inserted key is fresh; duplicate keys are not modelled.
- BPlusTree.Tree.constructor: a tree opened on a root id is built but nothing is claimed about its operations, because the store of a new pool holds no such page.
- BufferPool.Pool.constructor: the exception for a negative number of frames is a precondition here; `NewPool` models the exception.
- BPlusTree.Tree.Find: with frames still pinned by earlier failed lookups, fewer frames than pages and fewer than three of them free, whether it throws is characterised only request by request.
- TreeCalls.Drive: calls after an insertion that did not return are not made.
- BufferPool.Pool.RequestPage: the assertion that the id is not negative is a precondition, and so is that the page lies at most one growth step past the end of the file, beyond which the mock store reads out of bounds.
- BufferPool.Pool.FlushPage: that the frame is dirty, which the code asserts, is a precondition; calls that do not evict are modelled only inside a flush of all pages.
- LruK.Replacer.RecordAccess: time stamps are unbounded.
- SchedulerRuns.JoinedMeansDone: clients do not touch a buffer before its request is answered; other use is a data race in the original.
- Parser.Cursor.ParsePrimary: errors raised at the end of the token list are plain failures; the original reads past the list to word its message.
- StatementRoundTrip.SelectReads: in a whole statement a nested selection without a table is written in parentheses; `NestedReads` says how it parses without them.
- StorageEngine.Engine.QueryDataFromTable: a table without rows is excluded, where the original dereferences an end iterator, and so is a last row so short that a requested value starts past the data, where it indexes out of bounds.
- RowRoundTrip.SelectColumns: how many rows of the result are printed when columns are requested unequally often; the original takes the number of places of whichever column its hash map lists first, and indexes past the end of the others.
- StorageEngine.Table.InsertRow: fewer values than column names are excluded; the original reads past the value list.
- RowRoundTrip.RunReadsBack: inserts that omit a column that is no integer, which then gets four zero bytes whatever its type, are modelled by `InsertRow` and `ValueGiven` but not part of the round trip.
- DataTypes.ReadsBack: pointers in row bytes are indices into the table's strings, and reals are four opaque bytes.
- Node views cache the page header and write it back; the model reads and writes the page's own fields, so a stale cached header is not expressible. No step modelled here uses one.
- Slots beyond the current size keep whatever the code leaves there; nothing is claimed about them.
- The sibling link of a split-off leaf is never set by the code; nothing is claimed about range scans.
- The body of `trivial_insert_inner_node` after its assertion, `b_plus_tree::remove`, `dump_contents`.
- The file-backed disk manager; the pool is a template and the mock is modelled.
- The pool calls the page file directly, because it waits for each request it schedules; `SchedulerRuns.WaitingIsCalling` is the link. That a disk request reports failure is not modelled, since the mock never does.
- Evaluation of expressions, printing, logging and `main`.
- The C++ memory model below the mutex and the condition variable.
