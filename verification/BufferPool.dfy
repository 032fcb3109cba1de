/**
 The buffer pool: a write-back cache of pages with pins, dirty bits, a free list, a page table
 and an LRU-K replacer, over the in-memory page file.

 `request_page` waits for each disk request it schedules, so the pool calls the page file
 directly here; `WaitingIsCalling` in module SchedulerRuns shows that a client that waits sees just that.
 */
module BufferPool {
  import opened Pages
  import opened DiskManagerMock
  import opened PoolState
  import opened LruK

  /** A frame_header.  The frames of a pool never move, so a reference stands for a frame pointer. */
  class Frame {
    var frameId: int
    var isDirty: bool
    var pinCount: int
    var data: Page

    constructor ()
      ensures IsReset()
    {
      frameId, isDirty, pinCount, data := -1, false, -99, BLANK;
    }

    ghost predicate IsReset()
      reads this
    {
      frameId == -1 && !isDirty && pinCount == -99
    }

    ghost function ToSlot(): Slot
      reads this
    {
      Slot(frameId, isDirty, pinCount, data)
    }

    /** Move assignment from a default-constructed header. */
    method Reset()
      modifies this
      ensures IsReset()
    {
      frameId, isDirty, pinCount, data := -1, false, -99, BLANK;
    }

    /** Move assignment from a header built around a buffer just read. */
    method Load(id: int, buffer: Page)
      modifies this
      ensures ToSlot() == Slot(id, false, 0, buffer) && frameId == id
    {
      frameId, isDirty, pinCount, data := id, false, 0, buffer;
    }

    method IncreasePinCount()
      modifies this`pinCount
      ensures pinCount == old(pinCount) + 1
    {
      pinCount := pinCount + 1;
    }

    method DecreasePinCount()
      modifies this`pinCount
      ensures pinCount == old(pinCount) - 1
    {
      pinCount := pinCount - 1;
    }
  }

  const INVALID_FRAME_ID := -1

  /** Resident frames and the free list split the frames between them, without repeats. */
  ghost predicate Accounted(pageTable: map<int, int>, emptyFrames: seq<int>, maxFrames: int) {
    && (forall p :: p in pageTable ==> 0 <= pageTable[p] < maxFrames && pageTable[p] !in emptyFrames)
    && (forall i :: i in emptyFrames ==> 0 <= i < maxFrames)
    && (forall p, q :: p in pageTable && q in pageTable && p != q ==> pageTable[p] != pageTable[q])
    && (forall i, j :: 0 <= i < j < |emptyFrames| ==> emptyFrames[i] != emptyFrames[j])
    && (forall i :: 0 <= i < maxFrames && i !in emptyFrames ==> exists p :: p in pageTable && pageTable[p] == i)
    && |pageTable| + |emptyFrames| == maxFrames
  }

  lemma AddedFrame(frames: seq<int>, frame: int)
    ensures forall i :: i in frames + [frame] <==> i in frames || i == frame
  {
  }

  lemma AccountedAfterRemoval(pageTable: map<int, int>, emptyFrames: seq<int>, maxFrames: int, p: int)
    requires Accounted(pageTable, emptyFrames, maxFrames) && p in pageTable
    ensures Accounted(pageTable - {p}, emptyFrames + [pageTable[p]], maxFrames)
  {
    var table, free := pageTable - {p}, emptyFrames + [pageTable[p]];
    assert |table| == |pageTable| - 1 by { assert pageTable == table[p := pageTable[p]]; }
    AddedFrame(emptyFrames, pageTable[p]);
    forall i | 0 <= i < maxFrames && i !in free
      ensures exists q :: q in table && table[q] == i
    {
      var q :| q in pageTable && pageTable[q] == i;
      assert q in table && table[q] == i;
    }
  }

  lemma AccountedAfterLoad(pageTable: map<int, int>, emptyFrames: seq<int>, maxFrames: int, p: int)
    requires Accounted(pageTable, emptyFrames, maxFrames) && p !in pageTable && emptyFrames != []
    ensures Accounted(pageTable[p := emptyFrames[0]], emptyFrames[1..], maxFrames)
    ensures forall i :: i in emptyFrames[1..] ==> i in emptyFrames && i != emptyFrames[0]
  {
    var table, free := pageTable[p := emptyFrames[0]], emptyFrames[1..];
    FirstApart(emptyFrames);
    forall i | 0 <= i < maxFrames && i !in free
      ensures exists q :: q in table && table[q] == i
    {
      if i == emptyFrames[0] {
        assert table[p] == i;
      } else {
        assert i !in emptyFrames;
        var q :| q in pageTable && pageTable[q] == i;
        assert q in table && table[q] == i;
      }
    }
  }

  /** The first frame of the free list and the others. */
  lemma FirstApart(frames: seq<int>)
    requires frames != [] && forall i, j :: 0 <= i < j < |frames| ==> frames[i] != frames[j]
    ensures frames[0] in frames
    ensures forall i :: i in frames <==> i == frames[0] || i in frames[1..]
    ensures forall i :: i in frames[1..] ==> i != frames[0]
    ensures forall i, j :: 0 <= i < j < |frames[1..]| ==> frames[1..][i] != frames[1..][j]
  {
    assert frames == [frames[0]] + frames[1..];
    assert forall j :: 0 <= j < |frames[1..]| ==> frames[1..][j] == frames[j + 1];
  }

  lemma FramesOfOthers(pageTable: map<int, int>, emptyFrames: seq<int>, maxFrames: int, free: int)
    requires Accounted(pageTable, emptyFrames, maxFrames) && free in emptyFrames
    ensures forall p :: p in pageTable ==> 0 <= pageTable[p] < maxFrames && pageTable[p] != free
  {
  }

  lemma OwnFrame(pageTable: map<int, int>, emptyFrames: seq<int>, maxFrames: int, p: int)
    requires Accounted(pageTable, emptyFrames, maxFrames) && p in pageTable
    ensures 0 <= pageTable[p] < maxFrames && pageTable[p] !in emptyFrames
    ensures forall q :: q in pageTable && q != p ==> pageTable[q] != pageTable[p]
  {
  }

  /** Page p written back; either dropped from its frame or left there, dirty as before, with one pin fewer. */
  ghost function Flushed(before: State, p: int, evicted: bool): State
    requires p in before.resident && 0 <= p < |before.file|
  {
    State(
      if evicted then before.resident - {p}
      else before.resident[p := before.resident[p].(pins := before.resident[p].pins - 1)],
      before.file[p := before.resident[p].data])
  }

  /** The list holds each dirty page of the set once. */
  ghost predicate DirtyAmong(before: State, pages: set<int>, list: seq<int>) {
    && (forall i :: 0 <= i < |list| ==> list[i] in pages && list[i] in before.resident && before.resident[list[i]].dirty)
    && (forall q :: q in pages && q in before.resident && before.resident[q].dirty ==> q in list)
    && (forall i, j :: 0 <= i < j < |list| ==> list[i] != list[j])
  }

  lemma ListedDiffer(before: State, pages: set<int>, list: seq<int>)
    requires DirtyAmong(before, pages, list)
    ensures forall i :: 0 <= i < |list| ==> list[i] in pages
    ensures forall i, j :: 0 <= i < j < |list| ==> list[i] != list[j]
  {
  }

  lemma DirtyListed(before: State, table: map<int, int>, list: seq<int>)
    requires DirtyAmong(before, before.resident.Keys, list) && table.Keys == before.resident.Keys
    requires forall p :: p in table ==> before.resident[p].frame == table[p]
    ensures FramesOf(table, list) == DirtyFrames(before)
  {
    forall f | f in DirtyFrames(before)
      ensures f in FramesOf(table, list)
    {
      var p :| p in before.resident && before.resident[p].dirty && before.resident[p].frame == f;
      assert p in list && p in table;
    }
    forall f | f in FramesOf(table, list)
      ensures f in DirtyFrames(before)
    {
      var p :| p in list && p in table && table[p] == f;
      var i :| 0 <= i < |list| && list[i] == p;
    }
  }

  lemma DirtyAmongExtends(before: State, pages: set<int>, list: seq<int>, p: int)
    requires DirtyAmong(before, pages, list) && p !in pages && p in before.resident
    ensures DirtyAmong(before, pages + {p}, if before.resident[p].dirty then list + [p] else list)
  {
  }

  /** Writing an unpinned page back, dropping it and loading another in its frame. */
  lemma FlushedThenLoaded(before: State, p: int, id: int, slot: Slot, shouldPin: bool)
    requires p in before.resident && 0 <= p < |before.file| && before.resident[p].pins == 0
    requires id !in before.resident && 0 <= id < |before.file|
    requires slot == Slot(slot.frame, false, if shouldPin then 1 else 0, PageAt(before.file, id))
    ensures var flushed := Flushed(before, p, true);
            var after := State(flushed.resident[id := slot], flushed.file);
            && Requested(before, after, id, shouldPin)
            && (before.Disciplined() ==> after.Disciplined() && SameLogical(before, after))
  {
    var flushed := Flushed(before, p, true);
    LoadKeepsContent(before, {p}, flushed.file, id, slot, shouldPin);
  }

  lemma {:induction false} CountBelow(s: set<int>, n: nat)
    requires forall x :: x in s ==> 0 <= x < n
    ensures |s| <= n
  {
    if n > 0 {
      CountBelow(s - {n - 1}, n - 1);
      assert s == s - {n - 1} || s == s - {n - 1} + {n - 1};
    } else if s != {} {
      var x := SomeMember(s);
    }
  }

  /** The replacer's records after a hit on a frame: one more access, and no longer evictable. */
  ghost function Hit(nodes: Nodes, clock: nat, frame: int): Nodes {
    var recorded := Recorded(nodes, clock, frame);
    recorded[frame := recorded[frame].(isEvictable := false)]
  }

  lemma SameAsItself(v: State)
    ensures SameLogical(v, v)
  {
  }

  /** A request for a resident page adds a pin if asked to. */
  lemma PinnedOnRequest(before: State, id: int, shouldPin: bool)
    requires id in before.resident && id < |before.file|
    ensures var slot := before.resident[id];
            var pinned := slot.(pins := slot.pins + if shouldPin then 1 else 0);
            Requested(before, before.(resident := before.resident[id := pinned]), id, shouldPin)
  {
  }

  lemma HitIsUnevictable(nodes: Nodes, clock: nat, frame: int)
    ensures Evictable(Hit(nodes, clock, frame)) == Evictable(nodes) - {frame}
  {
  }

  // ----- which frame a request takes -----

  /** All of a pool that its requests depend on and change. */
  datatype PoolView = PoolView(maxFrames: int, state: State, free: seq<int>, nodes: Nodes, clock: nat)

  function HistoryOf(nodes: Nodes, frame: int): seq<nat> {
    if frame in nodes then nodes[frame].history else []
  }

  /** A frame with one more access, or with two, and evictable. */
  function Admitted(nodes: Nodes, clock: nat, frame: int, twice: bool): Nodes {
    nodes[frame := AccessRecord(HistoryOf(nodes, frame) + if twice then [clock, clock + 1] else [clock], true)]
  }

  /** The records without those of the named frames; a frame that is not evictable keeps its record. */
  function Removed(nodes: Nodes, gone: set<int>): Nodes {
    map f | f in nodes && !(f in gone && nodes[f].isEvictable) :: nodes[f]
  }

  lemma RemovedTwice(nodes: Nodes, a: set<int>, b: set<int>)
    ensures Removed(Removed(nodes, a), b) == Removed(nodes, a + b)
  {
  }

  ghost predicate Unsaved(v: State, p: int) {
    p in v.resident && v.resident[p].dirty && v.resident[p].pins == 0
  }

  /**
     The page that gives up its frame in a full pool: the unpinned dirty page in the least frame, or, when
     there is none, the page in the frame the replacer picks.
   */
  ghost predicate Displaced(view: PoolView, p: int) {
    p in view.state.resident &&
    var frame := view.state.resident[p].frame;
    if exists q :: Unsaved(view.state, q) then
      Unsaved(view.state, p) && forall q :: Unsaved(view.state, q) ==> frame <= view.state.resident[q].frame
    else
      IsVictim(view.nodes, 10, frame) && view.state.resident[p].pins <= 0
  }

  /** In a pool whose pages have frames of their own, only one page can be the one. */
  lemma DisplacedIsUnique(view: PoolView, p: int, q: int)
    requires Displaced(view, p) && Displaced(view, q)
    requires forall a, b :: a in view.state.resident && b in view.state.resident && a != b ==>
                              view.state.resident[a].frame != view.state.resident[b].frame
    ensures p == q
  {
    if p != q && !exists u :: Unsaved(view.state, u) {
      VictimIsUnique(view.nodes, 10, view.state.resident[p].frame, view.state.resident[q].frame);
    }
  }

  /** No frame can be had, as NoFrameFor says of the pool itself. */
  ghost predicate Refuses(view: PoolView, id: int) {
    && id !in view.state.resident && |view.state.resident| == view.maxFrames
    && (forall q :: !Unsaved(view.state, q))
    && forall q :: q in view.state.resident && IsVictim(view.nodes, 10, view.state.resident[q].frame) ==>
                     view.state.resident[q].pins > 0
  }

  /** Asking for a victim costs a pinned one its record. */
  ghost function AfterRefusal(nodes: Nodes): Nodes {
    map f | f in nodes && !IsVictim(nodes, 10, f) :: nodes[f]
  }

  ghost predicate TookFree(before: PoolView, after: PoolView, id: int)
    requires id in after.state.resident
  {
    && before.free != []
    && after.state.resident.Keys == before.state.resident.Keys + {id}
    && after.state.resident[id].frame == before.free[0] && after.free == before.free[1..]
    && after.nodes == Admitted(before.nodes, before.clock, before.free[0], false) && after.clock == before.clock + 1
  }

  ghost predicate TookFrameOf(before: PoolView, after: PoolView, id: int, p: int)
    requires id in after.state.resident && p in before.state.resident
  {
    var frame := before.state.resident[p].frame;
    && after.state.resident.Keys == before.state.resident.Keys - {p} + {id}
    && after.state.resident[id].frame == frame && after.free == before.free == []
    && if Unsaved(before.state, p) then
         && after.nodes == Admitted(Removed(before.nodes, {frame}), before.clock, frame, true)
         && after.clock == before.clock + 2
       else
         && after.nodes == Admitted(before.nodes - {frame}, before.clock, frame, false)
         && after.clock == before.clock + 1
  }

  /**
     What a request that returned did to the pool: a hit drops no page, nor does a miss while a frame is
     free, and with every frame taken exactly the displaced page leaves.
   */
  ghost predicate Served(before: PoolView, after: PoolView, id: int, shouldPin: bool) {
    && after.maxFrames == before.maxFrames && Requested(before.state, after.state, id, shouldPin)
    && if id in before.state.resident then
         && after.free == before.free && after.clock == before.clock + 1
         && after.nodes == Hit(before.nodes, before.clock, before.state.resident[id].frame)
       else if |before.state.resident| < before.maxFrames then
         TookFree(before, after, id)
       else
         exists p :: p in before.state.resident && Displaced(before, p) && TookFrameOf(before, after, id, p)
  }

  lemma ServedInFull(before: PoolView, after: PoolView, id: int, shouldPin: bool, p: int)
    requires Requested(before.state, after.state, id, shouldPin) && after.maxFrames == before.maxFrames
    requires id !in before.state.resident && |before.state.resident| >= before.maxFrames
    requires p in before.state.resident && Displaced(before, p) && TookFrameOf(before, after, id, p)
    ensures Served(before, after, id, shouldPin)
  {
    hide Displaced, TookFrameOf, Requested;
  }

  lemma TookVictim(before: PoolView, picked: PoolView, after: PoolView, id: int, p: int, victim: int)
    requires p in before.state.resident && id in after.state.resident && before.state.resident[p].frame == victim
    requires picked == before.(nodes := before.nodes - {victim}) && !Unsaved(before.state, p)
    requires TookFrameOf(picked, after, id, p)
    ensures TookFrameOf(before, after, id, p)
  {
    assert before.nodes - {victim} - {victim} == before.nodes - {victim};
  }

  lemma FreeServed(before: PoolView, after: PoolView, id: int, shouldPin: bool)
    requires Requested(before.state, after.state, id, shouldPin) && after.maxFrames == before.maxFrames
    requires id !in before.state.resident && |before.state.resident| < before.maxFrames
    requires TookFree(before, after, id)
    ensures Served(before, after, id, shouldPin)
  {
  }

  /** Growing the file first makes no difference. */
  lemma GrowthServed(before: PoolView, grown: PoolView, after: PoolView, id: int, shouldPin: bool)
    requires grown == before.(state := grown.state) && grown.state.resident == before.state.resident
    requires id !in before.state.resident && Requested(before.state, after.state, id, shouldPin)
    ensures Served(grown, after, id, shouldPin) ==> Served(before, after, id, shouldPin)
  {
    hide Requested;
    if Served(grown, after, id, shouldPin) && |before.state.resident| >= before.maxFrames {
      var p :| p in grown.state.resident && Displaced(grown, p) && TookFrameOf(grown, after, id, p);
      SameDisplaced(before, grown, p);
      assert TookFrameOf(before, after, id, p);
    }
  }

  lemma SameDisplaced(before: PoolView, grown: PoolView, p: int)
    requires grown == before.(state := grown.state) && grown.state.resident == before.state.resident
    requires Displaced(grown, p)
    ensures Displaced(before, p)
  {
    assert forall q :: Unsaved(before.state, q) <==> Unsaved(grown.state, q);
  }

  ghost function DirtyFrames(v: State): set<int> {
    set p | p in v.resident && v.resident[p].dirty :: v.resident[p].frame
  }

  /** The free list has grown by these frames. */
  ghost predicate Freed(free: seq<int>, free1: seq<int>, frames: set<int>) {
    free <= free1 && forall f :: f in free1 <==> f in free || f in frames
  }

  lemma NoneFreed(nodes: Nodes, table: map<int, int>, free: seq<int>, pages: seq<int>)
    ensures Removed(nodes, FramesOf(table, pages[..0])) == nodes && Freed(free, free, FramesOf(table, pages[..0]))
  {
  }

  lemma MoreFrames(table: map<int, int>, pages: seq<int>, p: int)
    requires p in table
    ensures FramesOf(table, pages + [p]) == FramesOf(table, pages) + {table[p]}
  {
    assert forall q :: q in pages + [p] <==> q in pages || q == p;
  }

  lemma OneMoreFreed(nodes: Nodes, table: map<int, int>, free: seq<int>, free1: seq<int>, pages: seq<int>, i: nat)
    requires i < |pages| && pages[i] in table
    requires Freed(free, free1, FramesOf(table, pages[..i]))
    ensures Freed(free, free1 + [table[pages[i]]], FramesOf(table, pages[..i + 1]))
    ensures Removed(Removed(nodes, FramesOf(table, pages[..i])), {table[pages[i]]}) ==
            Removed(nodes, FramesOf(table, pages[..i + 1]))
  {
    var frame := table[pages[i]];
    assert pages[..i + 1] == pages[..i] + [pages[i]];
    MoreFrames(table, pages[..i], pages[i]);
    RemovedTwice(nodes, FramesOf(table, pages[..i]), {frame});
    AddedFrame(free1, frame);
  }

  ghost function FramesOf(table: map<int, int>, pages: seq<int>): set<int> {
    set p | p in pages && p in table :: table[p]
  }

  /**
     The frame a request returned.  A page that was resident keeps its frame, which is no longer evictable;
     the frame of a page just loaded is evictable, pinned or not.
   */
  ghost predicate Granted(
    table: map<int, int>, evictable: set<int>, table1: map<int, int>, evictable1: set<int>, id: int)
  {
    && id in table1
    && (id in table ==> table1 == table && evictable1 == evictable - {table[id]})
    && (id !in table ==> table1[id] in evictable1)
  }

  ghost predicate Listed(before: State, list: seq<int>) {
    forall i :: 0 <= i < |list| ==> list[i] in before.resident && 0 <= list[i] < |before.file|
  }

  /** The pages of the list written back one after the other, none of them dropped. */
  ghost function WriteAll(before: State, list: seq<int>): (s: State)
    requires Listed(before, list)
    ensures s.resident.Keys == before.resident.Keys && |s.file| == |before.file|
  {
    if list == [] then before
    else Flushed(WriteAll(before, list[..|list| - 1]), list[|list| - 1], false)
  }

  lemma WriteAllExtends(before: State, list: seq<int>, p: int)
    requires Listed(before, list) && p in before.resident && 0 <= p < |before.file|
    ensures Listed(before, list + [p])
    ensures WriteAll(before, list + [p]) == Flushed(WriteAll(before, list), p, false)
  {
    assert (list + [p])[..|list|] == list;
  }

  ghost function Without<T>(m: map<int, T>, list: seq<int>): (r: map<int, T>)
    ensures forall q :: q in r <==> q in m && q !in list
    ensures forall q :: q in r ==> r[q] == m[q]
  {
    if list == [] then m else Without(m, list[..|list| - 1]) - {list[|list| - 1]}
  }

  lemma WithoutOneMore<T>(m: map<int, T>, list: seq<int>, i: nat)
    requires i < |list|
    ensures Without(m, list[..i + 1]) == Without(m, list[..i]) - {list[i]}
  {
    assert list[..i + 1][..i] == list[..i];
  }

  lemma OneFewerLeft(all: set<int>, rest: set<int>, p: int)
    requires p in rest && rest <= all
    ensures all - (rest - {p}) == all - rest + {p} && p !in all - rest
  {
  }

  lemma {:induction false} WriteAllPerPage(before: State, list: seq<int>, q: int)
    requires Listed(before, list)
    ensures q in before.resident && q !in list ==> WriteAll(before, list).resident[q] == before.resident[q]
    ensures q in before.resident ==> WriteAll(before, list).resident[q].data == before.resident[q].data
    ensures PageAt(WriteAll(before, list).file, q) == if q in list then before.resident[q].data else PageAt(before.file, q)
  {
    if list != [] {
      var init, last := list[..|list| - 1], list[|list| - 1];
      assert list == init + [last];
      WriteAllPerPage(before, init, q);
      WriteAllPerPage(before, init, last);
    }
  }

  /** Writing every dirty page and then dropping those pages amounts to a flush of the pool. */
  lemma WriteAllThenDrop(before: State, list: seq<int>)
    requires Listed(before, list) && DirtyAmong(before, before.resident.Keys, list)
    ensures var written := WriteAll(before, list);
            FlushedAll(before, written.(resident := Without(written.resident, list)))
    ensures list == [] <==> before.NothingDirty()
  {
    forall q
      ensures var written := WriteAll(before, list);
              q in before.resident && q !in list ==> written.resident[q] == before.resident[q]
      ensures PageAt(WriteAll(before, list).file, q) ==
              if q in before.resident && before.resident[q].dirty then before.resident[q].data else PageAt(before.file, q)
    {
      WriteAllPerPage(before, list, q);
    }
    if list != [] { assert before.resident[list[0]].dirty; }
  }

  class Pool {
    const maxFrames: int
    const disk: DiskManager
    const replacer: Replacer
    const frames: seq<Frame>
    var nextPage: int
    var pageTable: map<int, int>
    var emptyFrames: seq<int>

    /**
     The accounting invariant.  It asks nothing of the clients' use of pins and dirty bits,
     so it also holds after a request that threw.
     */
    ghost predicate Valid()
      reads this`pageTable, this`emptyFrames, disk, replacer, frames
      ensures Valid() ==> ValidFrames()
    {
      && ValidFrames()
      && ValidTable()
      && ValidReplacer()
    }

    ghost predicate ValidFrames()
      reads this`pageTable, this`emptyFrames, frames
    {
      && |frames| == maxFrames
      && (forall i, j :: 0 <= i < j < |frames| ==> frames[i] != frames[j])
      && (forall p :: p in pageTable ==> 0 <= pageTable[p] < maxFrames)
      && (forall p :: p in pageTable ==> frames[pageTable[p]].frameId == pageTable[p])
      && (forall i :: i in emptyFrames ==> 0 <= i < maxFrames && frames[i].IsReset())
    }

    ghost predicate ValidTable()
      reads this`pageTable, this`emptyFrames, disk
    {
      Accounted(pageTable, emptyFrames, maxFrames) && forall p :: p in pageTable ==> 0 <= p < |disk.file|
    }

    ghost predicate ValidReplacer()
      reads this`emptyFrames, replacer
    {
      && replacer.Valid() && replacer.size == maxFrames && replacer.k == 10
      && (forall i :: i in replacer.nodes ==> 0 <= i < maxFrames)
      && (forall i :: i in Evictable(replacer.nodes) ==> i !in emptyFrames)
    }

    ghost function Residents(): map<int, Slot>
      requires ValidFrames()
      reads this`pageTable, this`emptyFrames, frames
    {
      map p | p in pageTable :: frames[pageTable[p]].ToSlot()
    }

    ghost function Snapshot(): (s: State)
      requires ValidFrames()
      reads this`pageTable, this`emptyFrames, disk, frames
      ensures s.file == disk.file
    {
      State(Residents(), disk.file)
    }

    ghost function View(): (view: PoolView)
      requires ValidFrames()
      reads this`pageTable, this`emptyFrames, disk, replacer, frames
      ensures view.state == Snapshot()
    {
      PoolView(maxFrames, Snapshot(), emptyFrames, replacer.nodes, replacer.clock)
    }

    constructor (maxFrames: int)
      requires maxFrames >= 0
      ensures Valid() && fresh(disk) && fresh(replacer)
      ensures |frames| == maxFrames && forall i :: 0 <= i < maxFrames ==> fresh(frames[i])
      ensures this.maxFrames == maxFrames && nextPage == 0
      ensures Snapshot().resident == map[] && disk.file == [] && pageTable == map[]
    {
      this.maxFrames := maxFrames;
      nextPage := 0;
      pageTable := map[];
      var fs: seq<Frame> := [];
      var free: seq<int> := [];
      for i := 0 to maxFrames
        invariant |fs| == i && |free| == i
        invariant forall j :: 0 <= j < i ==> fresh(fs[j]) && fs[j].IsReset() && free[j] == j
        invariant forall j, l :: 0 <= j < l < i ==> fs[j] != fs[l]
      {
        var f := new Frame();
        fs := fs + [f];
        free := free + [i];
      }
      frames := fs;
      emptyFrames := free;
      disk := new DiskManager();
      replacer := new Replacer(10, maxFrames);
      new;
      forall i | 0 <= i < maxFrames
        ensures i in emptyFrames
      {
        assert emptyFrames[i] == i;
      }
      assert Snapshot().resident == map[];
    }

    /** A resident page has a frame of its own. */
    lemma ResidentFrame(p: int)
      requires Valid() && p in Snapshot().resident
      ensures p in pageTable && 0 <= pageTable[p] < |frames| && 0 <= p < |disk.file|
      ensures Snapshot().resident[p] == frames[pageTable[p]].ToSlot() && Snapshot().resident[p].frame == pageTable[p]
      ensures forall i :: 0 <= i < |frames| && i != pageTable[p] ==> frames[i] != frames[pageTable[p]]
    {
    }

    lemma ResidentFramesDiffer(p: int, q: int)
      requires Valid() && p in Snapshot().resident && q in Snapshot().resident && p != q
      ensures p in pageTable && q in pageTable && pageTable[p] != pageTable[q]
      ensures 0 <= pageTable[p] < |frames| && 0 <= pageTable[q] < |frames|
      ensures frames[pageTable[p]] != frames[pageTable[q]]
    {
    }

    lemma ResidentPage(p: int)
      requires Valid() && p in pageTable
      ensures 0 <= pageTable[p] < |frames| && 0 <= p < |disk.file|
      ensures p in Snapshot().resident && Snapshot().resident[p] == frames[pageTable[p]].ToSlot()
    {
    }

    /**
     Changing dirty bit, pin count or bytes of one resident frame, as clients do through the reference
     they were given, keeps the accounting and changes that page's slot only.
     */
    twostate lemma FrameTouched(p: int)
      requires old(Valid()) && p in old(pageTable)
      requires unchanged(this) && unchanged(disk) && unchanged(replacer)
      requires forall i :: 0 <= i < |frames| && i != pageTable[p] ==> unchanged(frames[i])
      requires frames[pageTable[p]].frameId == old(frames[pageTable[p]].frameId)
      ensures Valid()
      ensures Snapshot() == old(Snapshot()).(resident := old(Snapshot()).resident[p := frames[pageTable[p]].ToSlot()])
    {
      hide Accounted, Evictable;
      OwnFrame(pageTable, emptyFrames, maxFrames, p);
      assert ValidFrames();
      var before, after := old(Snapshot()).resident, Snapshot().resident;
      forall q | q in pageTable && q != p
        ensures after[q] == before[q]
      {
        assert unchanged(frames[pageTable[q]]);
      }
      assert after == before[p := frames[pageTable[p]].ToSlot()];
    }

    /** The same for two resident frames written at once. */
    twostate lemma TwoFramesTouched(ps: (int, int))
      requires old(Valid()) && ps.0 in old(pageTable) && ps.1 in old(pageTable) && ps.0 != ps.1
      requires unchanged(this) && unchanged(disk) && unchanged(replacer)
      requires forall i :: 0 <= i < |frames| && i != pageTable[ps.0] && i != pageTable[ps.1] ==> unchanged(frames[i])
      requires frames[pageTable[ps.0]].frameId == old(frames[pageTable[ps.0]].frameId)
      requires frames[pageTable[ps.1]].frameId == old(frames[pageTable[ps.1]].frameId)
      ensures Valid()
      ensures Snapshot() == old(Snapshot()).(
                resident := old(Snapshot()).resident
                            [ps.0 := frames[pageTable[ps.0]].ToSlot()][ps.1 := frames[pageTable[ps.1]].ToSlot()])
    {
      hide Accounted;
      OwnFrame(pageTable, emptyFrames, maxFrames, ps.0);
      OwnFrame(pageTable, emptyFrames, maxFrames, ps.1);
      assert ValidFrames();
      var before, after := old(Snapshot()).resident, Snapshot().resident;
      forall q | q in pageTable && q != ps.0 && q != ps.1
        ensures after[q] == before[q]
      {
        assert unchanged(frames[pageTable[q]]);
      }
      assert after == before[ps.0 := frames[pageTable[ps.0]].ToSlot()][ps.1 := frames[pageTable[ps.1]].ToSlot()];
    }

    /** Taking page p out of the table, and writing to no other resident frame, takes p out of the snapshot. */
    twostate lemma PageDropped(p: int)
      requires old(Valid()) && p in old(pageTable)
      requires pageTable == old(pageTable) - {p} && emptyFrames == old(emptyFrames) + [old(pageTable)[p]]
      requires 0 <= old(pageTable)[p] < |frames| && frames[old(pageTable)[p]].IsReset()
      requires forall i :: 0 <= i < |frames| && i != old(pageTable)[p] ==> unchanged(frames[i])
      ensures ValidFrames()
      ensures Residents() == old(Residents()) - {p}
    {
      hide Accounted;
      OwnFrame(old(pageTable), old(emptyFrames), maxFrames, p);
      var before, after := old(Residents()), Residents();
      forall q | q in pageTable
        ensures after[q] == before[q]
      {
        assert unchanged(frames[pageTable[q]]);
      }
      assert after == before - {p};
    }

    twostate lemma DropAccounted(p: int)
      requires old(Valid()) && p in old(pageTable)
      requires pageTable == old(pageTable) - {p} && emptyFrames == old(emptyFrames) + [old(pageTable)[p]]
      requires unchanged(disk) && replacer.Valid()
      requires var node := old(pageTable)[p];
               replacer.nodes ==
                 if node in old(replacer.nodes) && old(replacer.nodes)[node].isEvictable then old(replacer.nodes) - {node}
                 else old(replacer.nodes)
      ensures ValidTable() && ValidReplacer()
    {
      hide Accounted;
      AccountedAfterRemoval(old(pageTable), old(emptyFrames), maxFrames, p);
    }

    method AllocateNewPage() returns (id: int)
      requires Valid()
      modifies this`nextPage
      ensures Valid() && Snapshot() == old(Snapshot())
      ensures id == old(nextPage) && nextPage == old(nextPage) + 1
    {
      id := nextPage;
      nextPage := nextPage + 1;
    }

    /** Which resident page sits in a frame: the searches over the page table for a frame id. */
    method PageOf(frame: int) returns (p: int)
      requires Valid() && 0 <= frame < maxFrames && frame !in emptyFrames
      ensures p in pageTable && pageTable[p] == frame && 0 <= p < |disk.file|
    {
      p :| p in pageTable && pageTable[p] == frame;
    }

    /** Drops a resident page without writing it. */
    method EvictPage(p: int) returns (frame: int)
      requires Valid() && p in pageTable
      modifies this`pageTable, this`emptyFrames, replacer`nodes, frames
      ensures Valid()
      ensures frame == old(pageTable)[p]
      ensures pageTable == old(pageTable) - {p} && emptyFrames == old(emptyFrames) + [frame]
      ensures Residents() == old(Residents()) - {p}
      ensures replacer.nodes == Removed(old(replacer.nodes), {frame})
    {
      hide Accounted, Residents, Evictable;
      frame := pageTable[p];
      OwnFrame(pageTable, emptyFrames, maxFrames, p);
      var ok := replacer.Remove(frame);
      pageTable := pageTable - {p};
      frames[frame].Reset();
      emptyFrames := emptyFrames + [frame];
      PageDropped(p);
      DropAccounted(p);
    }

    /**
     Writes a dirty resident page to the file and gives up one pin; false when the page is not resident.
     With shouldEvict the frame is freed, without it the page stays with its dirty bit set.
     */
    method FlushPage(p: int, shouldEvict: bool) returns (flushed: bool)
      requires Valid()
      requires p in pageTable ==> frames[pageTable[p]].isDirty
      modifies this`pageTable, this`emptyFrames, disk, replacer`nodes, frames
      ensures Valid()
      ensures flushed == (p in old(pageTable))
      ensures !flushed ==> Snapshot() == old(Snapshot())
      ensures flushed ==> Snapshot() == Flushed(old(Snapshot()), p, shouldEvict)
      ensures flushed && shouldEvict ==>
                pageTable == old(pageTable) - {p} && emptyFrames == old(emptyFrames) + [old(pageTable)[p]]
      ensures flushed && shouldEvict ==> replacer.nodes == Removed(old(replacer.nodes), {old(pageTable)[p]})
      ensures !shouldEvict ==> pageTable == old(pageTable) && emptyFrames == old(emptyFrames)
      ensures !shouldEvict ==> replacer.nodes == old(replacer.nodes)
    {
      if p !in pageTable { return false; }
      assert frames[pageTable[p]].isDirty;
      ghost var before := Snapshot();
      WriteBack(p);
      if shouldEvict {
        var frameToFree := frames[pageTable[p]].frameId;
        var freedFrame := EvictPage(p);
        assert frameToFree == freedFrame;
        assert Snapshot().resident == before.resident - {p};
      }
      return true;
    }

    /** The disk request of a flush and the unpinning after it. */
    method WriteBack(p: int)
      requires Valid() && p in pageTable
      modifies disk, frames[pageTable[p]]
      ensures Valid() && Snapshot() == Flushed(old(Snapshot()), p, false)
    {
      hide Accounted, ValidReplacer;
      disk.WritePage(p, frames[pageTable[p]].data);
      label Written:
      frames[pageTable[p]].DecreasePinCount();
      FrameTouched@Written(p);
    }

    lemma FramesOfDirty()
      requires ValidFrames()
      ensures Snapshot().resident.Keys == pageTable.Keys
      ensures forall p :: p in pageTable ==> Snapshot().resident[p].frame == pageTable[p]
    {
    }

    /** Writes every dirty page and frees its frame; true when there was one. */
    method FlushPages() returns (wasAnyPageDirty: bool)
      requires Valid()
      modifies this`pageTable, this`emptyFrames, disk, replacer`nodes, frames
      ensures Valid()
      ensures FlushedAll(old(Snapshot()), Snapshot())
      ensures replacer.nodes == Removed(old(replacer.nodes), DirtyFrames(old(Snapshot())))
      ensures Freed(old(emptyFrames), emptyFrames, DirtyFrames(old(Snapshot())))
      ensures wasAnyPageDirty <==> !old(Snapshot()).NothingDirty()
    {
      hide Valid, Accounted, Removed, Freed, FramesOf, DirtyFrames, FlushedAll, Snapshot, Residents, DirtyAmong;
      ghost var before, table := Snapshot(), pageTable;
      FramesOfDirty();
      var pagesToEvict := WriteDirtyPages();
      WriteAllThenDrop(before, pagesToEvict);
      DirtyListed(before, table, pagesToEvict);
      ListedDiffer(before, before.resident.Keys, pagesToEvict);
      SnapshotParts();
      TableOfResidents();
      EvictPages(pagesToEvict);
      SnapshotParts();
      return pagesToEvict != [];
    }

    /** The first loop of a flush, over the page table in whatever order it is kept. */
    method WriteDirtyPages() returns (pagesToEvict: seq<int>)
      requires Valid()
      modifies this`pageTable, this`emptyFrames, disk, replacer`nodes, frames
      ensures pageTable == old(pageTable) && emptyFrames == old(emptyFrames) && replacer.nodes == old(replacer.nodes)
      ensures Valid()
      ensures Listed(old(Snapshot()), pagesToEvict)
      ensures DirtyAmong(old(Snapshot()), old(Snapshot()).resident.Keys, pagesToEvict)
      ensures Snapshot() == WriteAll(old(Snapshot()), pagesToEvict)
    {
      ghost var before := Snapshot();
      pagesToEvict := [];
      var rest := pageTable.Keys;
      while rest != {}
        invariant pageTable == old(pageTable) && emptyFrames == old(emptyFrames) && replacer.nodes == old(replacer.nodes)
        invariant Valid() && rest <= pageTable.Keys
        invariant Listed(before, pagesToEvict) && DirtyAmong(before, pageTable.Keys - rest, pagesToEvict)
        invariant Snapshot() == WriteAll(before, pagesToEvict)
      {
        ghost var member := SomeMember(rest);
        var p :| p in rest;
        DirtyAmongExtends(before, pageTable.Keys - rest, pagesToEvict, p);
        WriteAllPerPage(before, pagesToEvict, p);
        OneFewerLeft(pageTable.Keys, rest, p);
        rest := rest - {p};
        assert Snapshot().resident[p] == before.resident[p];
        if frames[pageTable[p]].isDirty {
          var flushed := FlushPage(p, false);
          WriteAllExtends(before, pagesToEvict, p);
          pagesToEvict := pagesToEvict + [p];
        }
      }
      assert pageTable.Keys - rest == before.resident.Keys;
    }

    lemma TableOfResidents()
      requires ValidFrames()
      ensures Residents().Keys == pageTable.Keys
    {
    }

    method EvictPages(pages: seq<int>)
      requires Valid() && (forall i :: 0 <= i < |pages| ==> pages[i] in pageTable)
      requires forall i, j :: 0 <= i < j < |pages| ==> pages[i] != pages[j]
      modifies this`pageTable, this`emptyFrames, replacer`nodes, frames
      ensures Valid()
      ensures Residents() == Without(old(Residents()), pages)
      ensures replacer.nodes == Removed(old(replacer.nodes), FramesOf(old(pageTable), pages))
      ensures Freed(old(emptyFrames), emptyFrames, FramesOf(old(pageTable), pages))
    {
      hide Valid, ValidFrames, Residents, Removed, FramesOf, Freed;
      ghost var before, table, nodes, free := Residents(), pageTable, replacer.nodes, emptyFrames;
      TableOfResidents();
      NoneFreed(nodes, table, free, pages);
      var i := 0;
      while i < |pages|
        invariant 0 <= i <= |pages|
        invariant Valid()
        invariant Residents() == Without(before, pages[..i]) && pageTable == Without(table, pages[..i])
        invariant replacer.nodes == Removed(nodes, FramesOf(table, pages[..i]))
        invariant Freed(free, emptyFrames, FramesOf(table, pages[..i]))
      {
        assert pages[i] !in pages[..i];
        var freed := EvictPage(pages[i]);
        WithoutOneMore(before, pages, i);
        WithoutOneMore(table, pages, i);
        OneMoreFreed(nodes, table, free, emptyFrames[..|emptyFrames| - 1], pages, i);
        i := i + 1;
      }
      assert pages[..i] == pages;
    }

    /** The first frame holding unsaved bytes nobody has pinned. */
    method FindDirtyUnpinned() returns (frame: Option<int>)
      requires Valid()
      ensures frame.Some? ==> 0 <= frame.value < maxFrames && frame.value !in emptyFrames
                              && frames[frame.value].isDirty && frames[frame.value].pinCount == 0
                              && forall i :: 0 <= i < frame.value ==> !(frames[i].isDirty && frames[i].pinCount == 0)
      ensures frame.None? ==> forall i :: 0 <= i < maxFrames ==> !(frames[i].isDirty && frames[i].pinCount == 0)
    {
      for i := 0 to |frames|
        invariant forall j :: 0 <= j < i ==> !(frames[j].isDirty && frames[j].pinCount == 0)
      {
        if frames[i].isDirty && frames[i].pinCount == 0 {
          return Some(i);
        }
      }
      return None;
    }

    /**
     Puts a page just read into the first free frame.  The header the frame is assigned from is
     destroyed afterwards, and its destructor marks the frame evictable.
     */
    method PlacePage(id: int, buffer: Page, shouldPin: bool, accessedBefore: bool) returns (frame: Frame)
      requires Valid() && id !in pageTable && emptyFrames != [] && 0 <= id < |disk.file|
      modifies this`pageTable, this`emptyFrames, replacer, frames
      ensures Valid()
      ensures pageTable == old(pageTable)[id := old(emptyFrames)[0]] && frame == frames[pageTable[id]]
      ensures Residents() == old(Residents())[id := Slot(pageTable[id], false, if shouldPin then 1 else 0, buffer)]
      ensures pageTable[id] in Evictable(replacer.nodes)
      ensures emptyFrames == old(emptyFrames)[1..]
      ensures replacer.nodes == Admitted(old(replacer.nodes), old(replacer.clock), pageTable[id], accessedBefore)
      ensures replacer.clock == old(replacer.clock) + if accessedBefore then 2 else 1
    {
      hide Accounted, Residents;
      var frameId := emptyFrames[0];
      assert frameId in emptyFrames;
      pageTable := pageTable[id := frameId];
      emptyFrames := emptyFrames[1..];
      frame := frames[frameId];
      frame.Load(frameId, buffer);
      if shouldPin { frame.IncreasePinCount(); }
      AdmitFrame(frameId, accessedBefore);
      PagePlaced(id);
      PageAccounted(id);
    }

    /** What the replacer is told: perhaps an access, the destructor's mark, and an access. */
    method AdmitFrame(frameId: int, accessedBefore: bool)
      requires replacer.Valid() && 0 <= frameId < replacer.size
      modifies replacer
      ensures replacer.Valid()
      ensures replacer.nodes == Admitted(old(replacer.nodes), old(replacer.clock), frameId, accessedBefore)
      ensures replacer.clock == old(replacer.clock) + if accessedBefore then 2 else 1
      ensures replacer.nodes.Keys == old(replacer.nodes).Keys + {frameId}
      ensures Evictable(replacer.nodes) == Evictable(old(replacer.nodes)) + {frameId}
    {
      var ok := true;
      if accessedBefore { ok := replacer.RecordAccess(frameId); }
      ok := replacer.SetEvictable(frameId, true);
      ok := replacer.RecordAccess(frameId);
      ghost var history, now := HistoryOf(old(replacer.nodes), frameId), old(replacer.clock);
      assert history + [now] + [now + 1] == history + [now, now + 1];
      assert [] + [now] == [now] && [now] + [now + 1] == [now, now + 1];
      assert replacer.nodes == Admitted(old(replacer.nodes), now, frameId, accessedBefore);
    }

    twostate lemma FramesStillValid(id: int)
      requires old(Valid()) && id !in old(pageTable) && old(emptyFrames) != []
      requires pageTable == old(pageTable)[id := old(emptyFrames)[0]] && emptyFrames == old(emptyFrames)[1..]
      requires 0 <= pageTable[id] < |frames| && frames[pageTable[id]].frameId == pageTable[id]
      requires forall i :: 0 <= i < |frames| && i != pageTable[id] ==> unchanged(frames[i])
      ensures ValidFrames() && pageTable[id] in old(emptyFrames)
      ensures Accounted(old(pageTable), old(emptyFrames), maxFrames)
    {
      hide Accounted, ValidReplacer;
      assert pageTable[id] in old(emptyFrames);
      AccountedAfterLoad(old(pageTable), old(emptyFrames), maxFrames, id);
      FramesOfOthers(old(pageTable), old(emptyFrames), maxFrames, pageTable[id]);
    }

    twostate lemma PagePlaced(id: int)
      requires old(Valid()) && id !in old(pageTable) && old(emptyFrames) != []
      requires pageTable == old(pageTable)[id := old(emptyFrames)[0]] && emptyFrames == old(emptyFrames)[1..]
      requires 0 <= pageTable[id] < |frames| && frames[pageTable[id]].frameId == pageTable[id]
      requires forall i :: 0 <= i < |frames| && i != pageTable[id] ==> unchanged(frames[i])
      ensures ValidFrames()
      ensures Residents() == old(Residents())[id := frames[pageTable[id]].ToSlot()]
    {
      hide Accounted, ValidReplacer, ValidTable, Residents;
      FramesStillValid(id);
      FramesOfOthers(old(pageTable), old(emptyFrames), maxFrames, pageTable[id]);
      SlotsOfOthers(id);
    }

    twostate lemma SlotsOfOthers(id: int)
      requires old(ValidFrames()) && ValidFrames() && id in pageTable
      requires pageTable == old(pageTable)[id := pageTable[id]]
      requires forall q :: q in old(pageTable) ==> q != id && unchanged(frames[pageTable[q]])
      ensures Residents() == old(Residents())[id := frames[pageTable[id]].ToSlot()]
    {
      var before, after := old(Residents()), Residents();
      assert after.Keys == before.Keys + {id};
      forall q | q in old(pageTable)
        ensures after[q] == before[q]
      {
        assert unchanged(frames[pageTable[q]]);
      }
    }

    twostate lemma PageAccounted(id: int)
      requires old(Valid()) && id !in old(pageTable) && old(emptyFrames) != []
      requires pageTable == old(pageTable)[id := old(emptyFrames)[0]] && emptyFrames == old(emptyFrames)[1..]
      requires 0 <= id < |disk.file| && disk.file == old(disk.file)
      requires replacer.Valid() && replacer.nodes.Keys == old(replacer.nodes).Keys + {pageTable[id]}
      requires Evictable(replacer.nodes) == Evictable(old(replacer.nodes)) + {pageTable[id]}
      ensures ValidTable() && ValidReplacer()
    {
      AccountedAfterLoad(old(pageTable), old(emptyFrames), maxFrames, id);
    }

    /** A page that is already resident: its frame is recorded as accessed and no longer evictable. */
    method RequestResident(id: int, shouldPin: bool) returns (frame: Frame)
      requires Valid() && id in pageTable
      modifies replacer, frames
      ensures Valid() && frame == frames[pageTable[id]]
      ensures replacer.clock == old(replacer.clock) + 1
      ensures replacer.nodes == Hit(old(replacer.nodes), old(replacer.clock), pageTable[id])
      ensures Requested(old(Snapshot()), Snapshot(), id, shouldPin)
      ensures old(Snapshot()).Disciplined() ==> Snapshot().Disciplined() && SameLogical(old(Snapshot()), Snapshot())
    {
      hide Valid, Residents, Snapshot, Requested, SameLogical, Hit;
      ghost var before := Snapshot();
      RecordHit(id);
      ResidentPage(id);
      frame := frames[pageTable[id]];
      label Recorded:
      if shouldPin {
        frame.IncreasePinCount();
      }
      FrameTouched@Recorded(id);
      PinnedOnRequest(before, id, shouldPin);
      if before.Disciplined() { RequestKeepsContent(before, Snapshot(), id, shouldPin); }
    }

    method RecordHit(id: int)
      requires Valid() && id in pageTable
      modifies replacer
      ensures Valid() && 0 <= id < |disk.file|
      ensures replacer.clock == old(replacer.clock) + 1
      ensures replacer.nodes == Hit(old(replacer.nodes), old(replacer.clock), pageTable[id])
    {
      hide Residents;
      OwnFrame(pageTable, emptyFrames, maxFrames, id);
      var ok := replacer.RecordAccess(pageTable[id]);
      ok := replacer.SetEvictable(pageTable[id], false);
    }

    /**
     No frame can be had for page id: it is not resident, every frame is taken, none of them can be
     flushed, and whichever frame the replacer picks is pinned.
     */
    ghost predicate NoFrameFor(id: int)
      requires ValidFrames()
      reads this`pageTable, this`emptyFrames, replacer, frames
    {
      && id !in pageTable
      && |pageTable| == maxFrames
      && (forall i :: 0 <= i < maxFrames ==> !(frames[i].isDirty && frames[i].pinCount == 0))
      && (forall v :: IsVictim(replacer.nodes, 10, v) ==> 0 <= v < maxFrames && frames[v].pinCount > 0)
    }

    /** A pool with a frame for each page id below n never refuses one of these pages, when it holds no others. */
    lemma FrameToSpare(id: int, n: int)
      requires Valid() && 0 <= id < n <= maxFrames && forall p :: p in pageTable ==> p < n
      ensures !NoFrameFor(id)
    {
      if id !in pageTable {
        CountBelow(pageTable.Keys + {id}, n);
        assert |pageTable.Keys + {id}| == |pageTable| + 1;
      }
    }

    /** Only a full pool refuses a page, and only one it does not hold. */
    lemma RefusalIsFull(id: int)
      requires ValidFrames()
      ensures NoFrameFor(id) ==> id !in pageTable && |pageTable| == maxFrames
    {
    }

    /** In a full pool each frame holds a page. */
    lemma PageIn(frame: int) returns (p: int)
      requires Valid() && |pageTable| == maxFrames && 0 <= frame < maxFrames
      ensures p in pageTable && pageTable[p] == frame
      ensures p in Snapshot().resident && Snapshot().resident[p] == frames[frame].ToSlot()
      ensures Snapshot().resident[p].frame == frame
    {
      assert frame !in emptyFrames;
      p :| p in pageTable && pageTable[p] == frame;
      ResidentPage(p);
    }

    /** The condition for a refusal, in terms of the view. */
    lemma RefusedView(id: int)
      requires Valid()
      ensures NoFrameFor(id) <==> Refuses(View(), id)
    {
      hide Accounted, IsVictim, Evictable;
      SizeOfTable();
      if NoFrameFor(id) {
        forall q | q in Snapshot().resident
          ensures !Unsaved(Snapshot(), q)
          ensures IsVictim(replacer.nodes, 10, Snapshot().resident[q].frame) ==> Snapshot().resident[q].pins > 0
        {
          ResidentFrame(q);
        }
        NotResident(id);
      }
      if Refuses(View(), id) {
        forall i | 0 <= i < maxFrames
          ensures !(frames[i].isDirty && frames[i].pinCount == 0)
        {
          var p := PageIn(i);
          assert !Unsaved(Snapshot(), p);
        }
        forall v | IsVictim(replacer.nodes, 10, v)
          ensures 0 <= v < maxFrames && frames[v].pinCount > 0
        {
          VictimInRange(v);
          var p := PageIn(v);
        }
      }
    }

    lemma VictimInRange(v: int)
      requires Valid() && IsVictim(replacer.nodes, 10, v)
      ensures 0 <= v < maxFrames
    {
      assert v in Evictable(replacer.nodes);
    }

    /** When no page is pinned or dirty, only a full pool without evictable frames refuses a page. */
    lemma RefusedWhenIdle(id: int)
      requires Valid() && Snapshot().NothingDirty()
      requires forall p :: p in Snapshot().resident ==> Snapshot().resident[p].pins == 0
      ensures NoFrameFor(id) <==> id !in pageTable && |pageTable| == maxFrames && Evictable(replacer.nodes) == {}
    {
      forall i | 0 <= i < maxFrames
        ensures !frames[i].isDirty
        ensures i !in emptyFrames ==> frames[i].pinCount == 0
      {
        if i !in emptyFrames {
          var p :| p in pageTable && pageTable[p] == i;
          assert Snapshot().resident[p] == frames[i].ToSlot();
        }
      }
      if Evictable(replacer.nodes) != {} {
        var v := VictimExists(replacer.nodes, replacer.clock, 10);
        assert v in Evictable(replacer.nodes);
      }
    }

    method ReplaceUnsaved(id: int, buffer: Page, shouldPin: bool, unsaved: int, ghost q: int) returns (frame: Frame)
      requires Valid() && id !in pageTable && emptyFrames == []
      requires 0 <= id < |disk.file| && buffer == PageAt(disk.file, id)
      requires 0 <= unsaved < maxFrames && q in pageTable && pageTable[q] == unsaved
      requires frames[unsaved].isDirty && frames[unsaved].pinCount == 0
      modifies this`pageTable, this`emptyFrames, disk, replacer, frames
      ensures Valid() && id in pageTable && frame == frames[pageTable[id]]
      ensures pageTable[id] in Evictable(replacer.nodes)
      ensures Requested(old(Snapshot()), Snapshot(), id, shouldPin)
      ensures id in View().state.resident
      ensures q in old(View()).state.resident && TookFrameOf(old(View()), View(), id, q)
      ensures old(Snapshot()).Disciplined() ==> Snapshot().Disciplined() && SameLogical(old(Snapshot()), Snapshot())
    {
      hide Valid, Requested, SameLogical, Evictable, Snapshot, Residents, Removed, Admitted;
      ghost var before, view := Snapshot(), View();
      OwnFrameOf(q);
      var p := PageOf(unsaved);
      ResidentPage(p);
      NotResident(id);
      SnapshotParts();
      var status := FlushPage(p, true);
      assert status;
      SnapshotParts();
      frame := PlacePage(id, buffer, shouldPin, true);
      SnapshotParts();
      FlushedThenLoaded(before, p, id, Residents()[id], shouldPin);
    }

    lemma OwnFrameOf(q: int)
      requires Valid() && q in pageTable
      ensures pageTable[q] !in emptyFrames && forall p :: p in pageTable && pageTable[p] == pageTable[q] ==> p == q
    {
    }

    lemma SnapshotParts()
      requires ValidFrames()
      ensures Snapshot() == State(Residents(), disk.file)
    {
    }

    lemma NotResident(p: int)
      requires ValidFrames() && p !in pageTable
      ensures p !in Snapshot().resident
    {
    }

    method ReplaceVictim(id: int, buffer: Page, shouldPin: bool, victim: int, ghost q: int) returns (frame: Frame)
      requires Valid() && id !in pageTable && emptyFrames == [] && victim !in replacer.nodes
      requires 0 <= id < |disk.file| && buffer == PageAt(disk.file, id)
      requires 0 <= victim < maxFrames && q in pageTable && pageTable[q] == victim
      requires frames[victim].pinCount <= 0 && !(frames[victim].isDirty && frames[victim].pinCount == 0)
      modifies this`pageTable, this`emptyFrames, replacer, frames
      ensures Valid() && id in pageTable && frame == frames[pageTable[id]]
      ensures pageTable[id] in Evictable(replacer.nodes)
      ensures Requested(old(Snapshot()), Snapshot(), id, shouldPin)
      ensures id in View().state.resident
      ensures q in old(View()).state.resident && TookFrameOf(old(View()), View(), id, q)
      ensures old(Snapshot()).Disciplined() ==> Snapshot().Disciplined() && SameLogical(old(Snapshot()), Snapshot())
    {
      hide Valid, Requested, SameLogical, Evictable, Snapshot, Residents, Admitted;
      ghost var before := Snapshot();
      SnapshotParts();
      NotResident(id);
      OwnFrameOf(q);
      var p := PageOf(victim);
      ResidentPage(p);
      assert Removed(replacer.nodes, {victim}) == replacer.nodes - {victim} == replacer.nodes;
      var freedFrame := EvictPage(p);
      assert freedFrame == victim;
      frame := PlacePage(id, buffer, shouldPin, false);
      SnapshotParts();
      assert Snapshot() == Loaded(before, {p}, disk.file, id, Residents()[id]);
      LoadKeepsContent(before, {p}, disk.file, id, Residents()[id], shouldPin);
    }

    /** A miss with every frame taken: flush an unpinned dirty page, or else evict the replacer's victim. */
    method ReplaceSomePage(id: int, buffer: Page, shouldPin: bool) returns (r: Outcome<Frame>)
      requires Valid() && id !in pageTable && |pageTable| >= maxFrames
      requires 0 <= id < |disk.file| && buffer == PageAt(disk.file, id)
      modifies this`pageTable, this`emptyFrames, disk, replacer, frames
      ensures Valid()
      ensures r.Thrown? <==> old(NoFrameFor(id))
      ensures r.Returned? ==>
                && Requested(old(Snapshot()), Snapshot(), id, shouldPin)
                && Granted(old(pageTable), Evictable(old(replacer.nodes)), pageTable, Evictable(replacer.nodes), id)
                && Served(old(View()), View(), id, shouldPin)
                && r.value == frames[pageTable[id]]
      ensures r.Thrown? ==>
                replacer.nodes == AfterRefusal(old(replacer.nodes)) && replacer.clock == old(replacer.clock)
      ensures r.Thrown? ==>
                Snapshot() == old(Snapshot()) && pageTable == old(pageTable) && emptyFrames == old(emptyFrames)
      ensures old(Snapshot()).Disciplined() ==> Snapshot().Disciplined() && SameLogical(old(Snapshot()), Snapshot())
    {
      hide Valid, ValidTable, Requested, SameLogical, Snapshot, Residents, Evictable, IsVictim, Displaced, TookFrameOf;
      ghost var before, view := Snapshot(), View();
      EveryFrameTaken();
      SameAsItself(before);
      NotResident(id);
      var unsaved := FindDirtyUnpinned();
      if unsaved.Some? {
        ghost var q := LeastUnsaved(view, unsaved.value);
        var frame := ReplaceUnsaved(id, buffer, shouldPin, unsaved.value, q);
        ServedInFull(view, View(), id, shouldPin, q);
        return Returned(frame);
      }
      NoneUnsaved();
      assert view.state == Snapshot();
      var victim := PickVictim();
      assert view.state == Snapshot();
      if victim.None? || victim.value == INVALID_FRAME_ID {
        return Thrown;
      }
      if frames[victim.value].pinCount > 0 {
        return Thrown;
      }
      ghost var q := VictimPage(view, victim.value);
      ghost var picked := View();
      var frame := ReplaceVictim(id, buffer, shouldPin, victim.value, q);
      TookVictim(view, picked, View(), id, q, victim.value);
      ServedInFull(view, View(), id, shouldPin, q);
      return Returned(frame);
    }

    /** The frame the replacer gives up, if any. */
    method PickVictim() returns (victim: Option<int>)
      requires Valid()
      modifies replacer`nodes
      ensures Valid()
      ensures replacer.nodes == AfterRefusal(old(replacer.nodes))
      ensures victim.Some? ==> replacer.nodes == old(replacer.nodes) - {victim.value}
      ensures victim.None? ==> forall v :: !IsVictim(old(replacer.nodes), 10, v)
      ensures victim.Some? ==>
                && 0 <= victim.value < maxFrames && victim.value !in emptyFrames
                && forall v :: IsVictim(old(replacer.nodes), 10, v) <==> v == victim.value
    {
      hide Accounted, Stamped;
      victim := replacer.Evict();
      assert forall i :: i in Evictable(replacer.nodes) ==> i in Evictable(old(replacer.nodes));
      if victim.Some? {
        forall v | IsVictim(old(replacer.nodes), 10, v)
          ensures v == victim.value
        {
          VictimIsUnique(old(replacer.nodes), 10, v, victim.value);
        }
      }
    }

    /** The page in the first frame with unsaved bytes is the one to leave. */
    lemma LeastUnsaved(view: PoolView, frame: int) returns (p: int)
      requires Valid() && view.state == Snapshot() && 0 <= frame < maxFrames && frame !in emptyFrames
      requires frames[frame].isDirty && frames[frame].pinCount == 0
      requires forall i :: 0 <= i < frame ==> !(frames[i].isDirty && frames[i].pinCount == 0)
      ensures p in pageTable && pageTable[p] == frame && Displaced(view, p)
    {
      p :| p in pageTable && pageTable[p] == frame;
      ResidentPage(p);
      assert Unsaved(view.state, p);
      forall q | Unsaved(view.state, q)
        ensures frame <= view.state.resident[q].frame
      {
        assert q in pageTable;
        ResidentPage(q);
      }
    }

    lemma NoneUnsaved()
      requires Valid() && forall i :: 0 <= i < maxFrames ==> !(frames[i].isDirty && frames[i].pinCount == 0)
      ensures forall q :: !Unsaved(Snapshot(), q)
    {
      forall q
        ensures !Unsaved(Snapshot(), q)
      {
        if q in Snapshot().resident { ResidentFrame(q); }
      }
    }

    /** So is the page in the frame the replacer has just given up, when nobody has pinned it. */
    lemma VictimPage(view: PoolView, frame: int) returns (p: int)
      requires Valid() && 0 <= frame < maxFrames && frame !in emptyFrames && frames[frame].pinCount <= 0
      requires view.state == Snapshot() && IsVictim(view.nodes, 10, frame) && forall q :: !Unsaved(view.state, q)
      ensures p in pageTable && pageTable[p] == frame && Displaced(view, p)
      ensures p in view.state.resident && view.state.resident[p].frame == frame
    {
      p :| p in pageTable && pageTable[p] == frame;
      ResidentPage(p);
    }

    lemma SizeOfTable()
      requires ValidFrames()
      ensures |Snapshot().resident| == |pageTable|
    {
      assert Snapshot().resident.Keys == pageTable.Keys;
    }

    /** A full table leaves no free frame. */
    lemma EveryFrameTaken()
      requires Valid() && |pageTable| >= maxFrames
      ensures |pageTable| == maxFrames && emptyFrames == [] && |Snapshot().resident| == maxFrames
    {
      assert Snapshot().resident.Keys == pageTable.Keys;
    }

    lemma SomeFrameFree()
      requires Valid() && |pageTable| < maxFrames
      ensures emptyFrames != []
    {
    }

    method UseFreeFrame(id: int, buffer: Page, shouldPin: bool) returns (frame: Frame)
      requires Valid() && id !in pageTable && |pageTable| < maxFrames
      requires 0 <= id < |disk.file| && buffer == PageAt(disk.file, id)
      modifies this`pageTable, this`emptyFrames, replacer, frames
      ensures Valid() && id in pageTable && frame == frames[pageTable[id]]
      ensures pageTable[id] in Evictable(replacer.nodes)
      ensures TookFree(old(View()), View(), id)
      ensures Requested(old(Snapshot()), Snapshot(), id, shouldPin)
      ensures old(Snapshot()).Disciplined() ==> Snapshot().Disciplined() && SameLogical(old(Snapshot()), Snapshot())
    {
      hide Accounted, Residents, ValidReplacer, Admitted, Evictable, SameLogical, Requested;
      SomeFrameFree();
      NotResident(id);
      ghost var before := Snapshot();
      frame := PlacePage(id, buffer, shouldPin, false);
      assert Snapshot() == Loaded(before, {}, disk.file, id, Residents()[id]);
      LoadKeepsContent(before, {}, disk.file, id, Residents()[id], shouldPin);
    }

    /** Reads a page, for which the file may grow. */
    method ReadIn(id: int) returns (buffer: Page)
      requires Valid() && 0 <= id < |disk.file| + GROWTH && id !in pageTable
      modifies disk
      ensures Valid() && 0 <= id < |disk.file| && |disk.file| >= |old(disk.file)|
      ensures buffer == PageAt(disk.file, id) && forall q :: PageAt(disk.file, q) == PageAt(old(disk.file), q)
      ensures Residents() == old(Residents()) && NoFrameFor(id) == old(NoFrameFor(id))
    {
      hide Accounted, Residents, ValidReplacer;
      buffer := disk.ReadPage(id, BLANK);
    }

    /** The miss: read the page, then use a free frame if there is one. */
    method RequestAbsent(id: int, shouldPin: bool) returns (r: Outcome<Frame>)
      requires Valid() && 0 <= id < |disk.file| + GROWTH && id !in pageTable
      modifies this`pageTable, this`emptyFrames, disk, replacer, frames
      ensures Valid()
      ensures r.Thrown? <==> old(NoFrameFor(id))
      ensures r.Returned? ==>
                && Requested(old(Snapshot()), Snapshot(), id, shouldPin)
                && Granted(old(pageTable), Evictable(old(replacer.nodes)), pageTable, Evictable(replacer.nodes), id)
                && Served(old(View()), View(), id, shouldPin)
                && r.value == frames[pageTable[id]]
      ensures r.Thrown? ==>
                replacer.nodes == AfterRefusal(old(replacer.nodes)) && replacer.clock == old(replacer.clock)
      ensures r.Thrown? ==>
                && Residents() == old(Residents()) && pageTable == old(pageTable) && emptyFrames == old(emptyFrames)
                && |disk.file| >= |old(disk.file)| && forall q :: PageAt(disk.file, q) == PageAt(old(disk.file), q)
      ensures old(Snapshot()).Disciplined() ==> Snapshot().Disciplined() && SameLogical(old(Snapshot()), Snapshot())
    {
      hide Valid, Requested, SameLogical, Evictable, Displaced, TookFrameOf, TookFree, NoFrameFor, Served, IsVictim,
           Snapshot, Residents, AfterRefusal;
      ghost var before, view := Snapshot(), View();
      RefusalIsFull(id);
      SizeOfTable();
      NotResident(id);
      SnapshotParts();
      var buffer := ReadIn(id);
      SnapshotParts();
      ghost var grown, grownView := Snapshot(), View();
      if |pageTable| < maxFrames {
        var frame := UseFreeFrame(id, buffer, shouldPin);
        FreeServed(grownView, View(), id, shouldPin);
        r := Returned(frame);
      } else {
        r := ReplaceSomePage(id, buffer, shouldPin);
      }
      SnapshotParts();
      GrowthIsInvisible(before, grown, Snapshot(), id, shouldPin);
      if r.Returned? { GrowthServed(view, grownView, View(), id, shouldPin); }
    }

    /** Returns the frame of a page, loading the page first if need be; the frame is pinned on request. */
    method RequestPage(id: int, shouldPin: bool) returns (r: Outcome<Frame>)
      requires Valid() && 0 <= id < |disk.file| + GROWTH
      modifies this`pageTable, this`emptyFrames, disk, replacer, frames
      ensures Valid()
      ensures r.Thrown? <==> old(NoFrameFor(id))
      ensures r.Returned? ==>
                && Requested(old(Snapshot()), Snapshot(), id, shouldPin)
                && Granted(old(pageTable), Evictable(old(replacer.nodes)), pageTable, Evictable(replacer.nodes), id)
                && Served(old(View()), View(), id, shouldPin)
                && r.value == frames[pageTable[id]]
      ensures r.Thrown? ==>
                replacer.nodes == AfterRefusal(old(replacer.nodes)) && replacer.clock == old(replacer.clock)
      ensures r.Thrown? ==>
                && Residents() == old(Residents()) && pageTable == old(pageTable) && emptyFrames == old(emptyFrames)
                && |disk.file| >= |old(disk.file)| && forall q :: PageAt(disk.file, q) == PageAt(old(disk.file), q)
      ensures old(Snapshot()).Disciplined() ==> Snapshot().Disciplined() && SameLogical(old(Snapshot()), Snapshot())
    {
      assert id > -1;
      if id in pageTable {
        HitIsUnevictable(replacer.nodes, replacer.clock, pageTable[id]);
        var frame := RequestResident(id, shouldPin);
        return Returned(frame);
      }
      r := RequestAbsent(id, shouldPin);
    }
  }

  /** A negative number of frames is refused. */
  method NewPool(maxFrames: int) returns (r: Outcome<Pool>)
    ensures r.Thrown? <==> maxFrames < 0
    ensures r.Returned? ==>
              && fresh(r.value) && fresh(r.value.disk) && fresh(r.value.replacer)
              && |r.value.frames| == maxFrames && (forall i :: 0 <= i < maxFrames ==> fresh(r.value.frames[i]))
              && r.value.Valid() && r.value.maxFrames == maxFrames && r.value.nextPage == 0
              && r.value.Snapshot() == State(map[], [])
  {
    if maxFrames < 0 { return Thrown; }
    var pool := new Pool(maxFrames);
    return Returned(pool);
  }
}
