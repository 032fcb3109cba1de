/**
 The B+ tree over the buffer pool.

 The stack of frame pointers kept during a descent is the field `frameQueue`.  Exceptions leave it,
 and the pool's pins and dirty bits, as they were at the throw; what the tree promises after that is
 only that the pool's accounting still holds.
 */
module BPlusTree {
  import opened Pages
  import opened Search
  import opened DiskManagerMock
  import opened LruK
  import opened PoolState
  import opened BufferPool
  import opened TreeSpec
  import opened TreeContents
  import opened TreeInvariant
  import opened TreeRuns
  import opened TreePages
  import opened TreeSteps
  import LeafNode
  import InnerNode

  /** One step up the stack: what it hands on, or how it ended. */
  datatype Handed = HandedUp(newPageId: Option<int>) | HandAsserted | HandThrew

  /** AssertFailed is the assertion that stands where a split-off inner node would enter an inner node. */
  datatype InsertOutcome = Done(flushed: bool) | AssertFailed | Threw

  class Tree {
    const bp: Pool
    var rootPageId: int
    var frameQueue: seq<Frame>

    /** The pairs inserted so far, in order. */
    ghost var history: seq<Op>

    /**
     The pages an insertion may find or bring into frames, and those of them it may leave there.  They
     mean something during an insertion only.
     */
    ghost var reach: set<int>
    ghost var keepers: set<int>

    ghost function Shape(): Shape
      requires DistinctKeys(history) && Run(history).Inserted?
      reads this`history
    {
      Run(history).shape
    }

    /** Between operations the pages hold the tree that the run so far leads to, and no frame is dirty. */
    ghost predicate Valid()
      reads this, bp, bp.disk, bp.replacer, bp.frames
    {
      && bp.Valid() && InUse() && bp.nextPage <= |bp.disk.file|
      && DistinctKeys(history) && Run(history).Inserted? && Run(history).next == bp.nextPage
      && bp.Snapshot().Disciplined() && bp.Snapshot().NothingDirty()
      && ShapeIn(bp.Snapshot(), rootPageId, Shape())
      && frameQueue == []
    }

    /** Only pages that were handed out are resident. */
    ghost predicate InUse()
      reads bp`pageTable, bp`nextPage
    {
      forall p :: p in bp.pageTable ==> p < bp.nextPage
    }

    /** The resident pages lie within reach, and each clean one but page p is a keeper. */
    ghost predicate NearBut(p: int)
      reads this`reach, this`keepers, bp`pageTable, bp.frames`isDirty
    {
      forall q :: q in bp.pageTable ==>
        && q in reach
        && (q in keepers || q == p || (0 <= bp.pageTable[q] < |bp.frames| && bp.frames[bp.pageTable[q]].isDirty))
    }

    ghost predicate Near()
      reads this`reach, this`keepers, bp`pageTable, bp.frames`isDirty
    {
      forall q :: q in bp.pageTable ==>
        && q in reach
        && (q in keepers || (0 <= bp.pageTable[q] < |bp.frames| && bp.frames[bp.pageTable[q]].isDirty))
    }

    ghost predicate NearIn(v: State, p: int)
      reads this`reach, this`keepers
    {
      forall q :: q in v.resident ==> q in reach && (q in keepers || q == p || v.resident[q].dirty)
    }

    /** What an insertion may ask for lies within reach, and the inner pages on its way are keepers. */
    ghost predicate Prepared(s: Shape, key: Key, val: Val, next: int)
      requires ShapeOk(s) && !s.Empty?
      reads this`reach, this`keepers
    {
      && (forall p :: p in PathTo(s, key) ==> p in reach)
      && (forall p :: p in Stacked(s, key) ==> p in keepers)
      && (forall p :: next <= p < PagesAfter(s, key, val, next) ==> p in reach)
    }

    ghost predicate OnlyKeepers()
      reads this`keepers, bp`pageTable
    {
      forall p :: p in bp.pageTable ==> p in keepers
    }

    /** No frame is pinned. */
    ghost predicate Balanced()
      requires bp.Valid()
      reads bp`pageTable, bp`emptyFrames, bp.disk, bp.replacer, bp.frames
    {
      forall p :: p in bp.Snapshot().resident ==> bp.Snapshot().resident[p].pins == 0
    }

    /** The frames on the stack hold these pages. */
    ghost predicate QueueIs(v: State, pages: seq<int>)
      reads this`frameQueue
    {
      && |frameQueue| == |pages|
      && forall i :: 0 <= i < |pages| ==> FrameHolds(v, pages[i], frameQueue[i])
    }

    ghost predicate FrameHolds(v: State, p: int, frame: Frame) {
      p in v.resident && 0 <= v.resident[p].frame < |bp.frames| && bp.frames[v.resident[p].frame] == frame
    }

    /** A tree over a new pool.  The pool's store is empty, so only a tree without a root is a stored tree. */
    constructor (rootPageId: int, maxFrames: int)
      requires maxFrames >= 0
      ensures bp.Valid() && InUse() && bp.maxFrames == maxFrames && bp.nextPage == 0
      ensures this.rootPageId == rootPageId && frameQueue == [] && history == [] && bp.pageTable == map[]
      ensures rootPageId == INVALID_PAGE_ID ==> Valid() && Balanced()
      ensures fresh(bp) && fresh(bp.disk) && fresh(bp.replacer)
      ensures |bp.frames| == maxFrames && forall i :: 0 <= i < maxFrames ==> fresh(bp.frames[i])
    {
      bp := new Pool(maxFrames);
      this.rootPageId := rootPageId;
      frameQueue := [];
      history := [];
      reach, keepers := {}, {};
      new;
      InUseOfSnapshot();
    }

    /** Between operations the page file alone holds the tree: no frame is needed to read it back. */
    lemma FileHoldsTree()
      requires Valid()
      ensures ShapeIn(State(map[], bp.disk.file), rootPageId, Shape())
    {
      hide bp.Valid, bp.Residents, ShapeIn, Run;
      var v, stored := bp.Snapshot(), State(map[], bp.disk.file);
      forall q
        ensures stored.Logical(q) == v.Logical(q)
      {
        assert q in v.resident ==> !v.resident[q].dirty;
      }
      ShapeInSame(v, stored, rootPageId, Shape());
    }

    /** InUse, in terms of the snapshot. */
    lemma InUseOfSnapshot()
      requires bp.Valid()
      ensures InUse() <==> forall p :: p in bp.Snapshot().resident ==> p < bp.nextPage
    {
      assert forall p :: p in bp.pageTable <==> p in bp.Snapshot().resident;
    }

    /** Near and NearBut, in terms of the snapshot. */
    lemma NearOfSnapshot(p: int)
      requires bp.Valid()
      ensures NearBut(p) <==> NearIn(bp.Snapshot(), p)
    {
      hide bp.Valid;
      assert forall q :: q in bp.pageTable <==> q in bp.Snapshot().resident;
    }

    lemma NearIsNearBut(p: int)
      ensures Near() ==> NearBut(p)
      ensures NearBut(p) && (p in keepers || p !in bp.pageTable) ==> Near()
    {
    }

    /** A request leaves only the page asked for that is neither a keeper nor dirty, unless that was resident before. */
    lemma AskedNear(v: State, v1: State, id: int, shouldPin: bool)
      requires Requested(v, v1, id, shouldPin) && NearIn(v, id) && id in reach
      ensures NearIn(v1, id)
      ensures DirtyIn(v, id) ==> DirtyIn(v1, id)
    {
    }

    lemma NearStays(v: State, v1: State, id: int)
      requires NearIn(v, id) && v1.resident == v.resident
      ensures NearIn(v1, id)
    {
    }

    /** What is resident after the dirty pages were dropped. */
    lemma CleanAreKept(v: State, v1: State, p: int)
      requires bp.Valid() && v1 == bp.Snapshot() && NearIn(v, p) && DirtyIn(v, p)
      requires forall q :: q in v1.resident ==> q in v.resident && !v.resident[q].dirty
      ensures OnlyKeepers()
    {
      hide bp.Valid;
      TableOfSnapshot();
      forall q | q in bp.pageTable
        ensures q in keepers
      {
        assert q in bp.pageTable.Keys;
        assert q in v1.resident;
      }
    }

    lemma NowDirty(p: int)
      requires bp.Valid() && NearBut(p) && DirtyIn(bp.Snapshot(), p)
      ensures Near()
    {
      hide bp.Valid;
      assert p in bp.pageTable;
    }

    /** A full pool without page id has less frames than there are pages within reach. */
    lemma OutOfReach(id: int)
      requires bp.Valid() && NearBut(id) && id in reach && id !in bp.pageTable && |bp.pageTable| == bp.maxFrames
      ensures bp.maxFrames < |reach|
    {
      hide bp.Valid;
      var all := bp.pageTable.Keys + {id};
      forall q | q in all
        ensures q in reach
      {
        assert q != id ==> q in bp.pageTable;
      }
      assert |all| == |bp.pageTable| + 1;
      Subset(all, reach);
    }

    /** A request for a page that was handed out.  It can only throw when there are more such pages than frames. */
    method Ask(id: int, shouldPin: bool) returns (r: Outcome<Frame>)
      requires bp.Valid() && InUse() && 0 <= id < |bp.disk.file| + GROWTH && id < bp.nextPage
      modifies bp`pageTable, bp`emptyFrames, bp.disk, bp.replacer, bp.frames
      ensures bp.Valid() && InUse() && |bp.disk.file| >= |old(bp.disk.file)|
      ensures r.Thrown? <==> old(bp.NoFrameFor(id))
      ensures r.Thrown? ==> bp.maxFrames < bp.nextPage
      ensures r.Thrown? ==>
                && |bp.pageTable| == bp.maxFrames && id !in bp.pageTable && bp.pageTable == old(bp.pageTable)
                && bp.Snapshot().resident == old(bp.Snapshot()).resident
      ensures forall p :: p in bp.pageTable ==> p == id || p in old(bp.pageTable)
      ensures r.Returned? ==>
                && id < |bp.disk.file|
                && Granted(old(bp.pageTable), Evictable(old(bp.replacer.nodes)),
                           bp.pageTable, Evictable(bp.replacer.nodes), id)
                && Requested(old(bp.Snapshot()), bp.Snapshot(), id, shouldPin)
                && FrameHolds(bp.Snapshot(), id, r.value)
                && r.value.data == bp.Snapshot().Logical(id)
      ensures old(bp.Snapshot()).Disciplined() ==>
                bp.Snapshot().Disciplined() && SameLogical(old(bp.Snapshot()), bp.Snapshot())
    {
      hide bp.Valid, bp.NoFrameFor, bp.Residents, SameLogical, Requested, bp.Snapshot, Granted, Served, bp.View,
           AfterRefusal, Evictable, InUse, FrameHolds, IsVictim;
      ghost var v, table := bp.Snapshot(), bp.pageTable;
      SnapshotResidents();
      bp.RefusalIsFull(id);
      BeforeAsking(id);
      r := bp.RequestPage(id, shouldPin);
      SnapshotResidents();
      if r.Returned? {
        RequestedPages(v, bp.Snapshot(), id, shouldPin);
        FrameOf(id);
        AfterAsking(v, table, id);
      } else {
        assert bp.Snapshot().resident == v.resident;
        AfterAsking(v, table, id);
      }
    }

    lemma FrameOf(id: int)
      requires bp.Valid() && id in bp.Snapshot().resident
      ensures id in bp.pageTable && 0 <= bp.pageTable[id] < |bp.frames|
      ensures FrameHolds(bp.Snapshot(), id, bp.frames[bp.pageTable[id]])
      ensures bp.frames[bp.pageTable[id]].data == bp.Snapshot().Logical(id)
    {
      bp.ResidentFrame(id);
    }

    lemma BeforeAsking(id: int)
      requires bp.Valid() && InUse() && 0 <= id < bp.nextPage
      ensures bp.nextPage <= bp.maxFrames ==> !bp.NoFrameFor(id)
      ensures bp.Snapshot().resident.Keys == bp.pageTable.Keys
      ensures forall p :: p in bp.pageTable ==> p < bp.nextPage
    {
      TableOfSnapshot();
      if bp.nextPage <= bp.maxFrames { bp.FrameToSpare(id, bp.nextPage); }
    }

    lemma AfterAsking(v: State, table: map<int, int>, id: int)
      requires bp.Valid() && table.Keys == v.resident.Keys && id < bp.nextPage
      requires forall p :: p in bp.Snapshot().resident ==> p == id || p in v.resident
      requires forall p :: p in table ==> p < bp.nextPage
      ensures InUse() && forall p :: p in bp.pageTable ==> p == id || p in table
    {
      hide bp.Valid;
      TableOfSnapshot();
      forall p | p in bp.pageTable
        ensures p == id || p in table
      {
        assert p in bp.Snapshot().resident;
      }
    }

    lemma TableOfSnapshot()
      requires bp.Valid()
      ensures bp.pageTable.Keys == bp.Snapshot().resident.Keys
    {
    }

    lemma SnapshotResidents()
      requires bp.ValidFrames()
      ensures bp.Snapshot().resident == bp.Residents()
    {
    }

    /** The same during an insertion: it cannot throw either while there is a frame for each page within reach. */
    method AskNear(id: int, shouldPin: bool) returns (r: Outcome<Frame>)
      requires bp.Valid() && InUse() && 0 <= id < |bp.disk.file| + GROWTH && id < bp.nextPage
      requires Near() && id in reach
      modifies bp`pageTable, bp`emptyFrames, bp.disk, bp.replacer, bp.frames
      ensures bp.Valid() && InUse() && |bp.disk.file| >= |old(bp.disk.file)|
      ensures r.Thrown? ==> bp.maxFrames < |reach| && bp.maxFrames < bp.nextPage
      ensures r.Returned? ==>
                && id < |bp.disk.file| && NearBut(id) && (DirtyIn(old(bp.Snapshot()), id) ==> Near())
                && Requested(old(bp.Snapshot()), bp.Snapshot(), id, shouldPin)
                && FrameHolds(bp.Snapshot(), id, r.value)
                && r.value.data == bp.Snapshot().Logical(id)
      ensures old(bp.Snapshot()).Disciplined() ==>
                bp.Snapshot().Disciplined() && SameLogical(old(bp.Snapshot()), bp.Snapshot())
    {
      hide bp.Valid, bp.NoFrameFor, bp.Residents, SameLogical, Requested, bp.Snapshot, Granted, FrameHolds, Near, NearBut,
           NearIn, DirtyIn;
      ghost var v := bp.Snapshot();
      NearIsNearBut(id);
      NearOfSnapshot(id);
      r := Ask(id, shouldPin);
      NearOfSnapshot(id);
      if r.Returned? {
        AskedNear(v, bp.Snapshot(), id, shouldPin);
        if DirtyIn(v, id) { NowDirty(id); }
      } else {
        NearStays(v, bp.Snapshot(), id);
        OutOfReach(id);
      }
    }

    /** A request that pins, with what it does to the pins this operation holds. */
    method Fetch(id: int, ghost v0: State, ghost held: seq<int>) returns (r: Outcome<Frame>)
      requires bp.Valid() && InUse() && Near() && 0 <= id < |bp.disk.file| + GROWTH
      requires id < bp.nextPage && id in reach
      requires v0.Disciplined() && Pins(v0, bp.Snapshot(), held) && id !in held
      modifies bp`pageTable, bp`emptyFrames, bp.disk, bp.replacer, bp.frames
      ensures bp.Valid() && InUse() && |bp.disk.file| >= |old(bp.disk.file)|
      ensures r.Thrown? ==> bp.maxFrames < |reach| && bp.maxFrames < bp.nextPage
      ensures r.Returned? ==>
                && id < |bp.disk.file| && NearBut(id)
                && Requested(old(bp.Snapshot()), bp.Snapshot(), id, true)
                && Pins(v0, bp.Snapshot(), held + [id])
                && SameLogical(old(bp.Snapshot()), bp.Snapshot())
                && FrameHolds(bp.Snapshot(), id, r.value)
                && r.value.data == bp.Snapshot().Logical(id)
    {
      hide bp.Valid, bp.NoFrameFor, bp.Residents, SameLogical, Requested, bp.Snapshot, Granted, FrameHolds, Near, NearBut,
           NearIn;
      ghost var v := bp.Snapshot();
      PinsDisciplined(v0, v, held);
      r := AskNear(id, true);
      if r.Returned? { RequestPins(v0, v, bp.Snapshot(), held, id); }
    }

    /**
     The first page on the way to a key that is not in a frame finds every frame taken, and none of them
     evictable once those of the pages before it have been asked for.
     */
    ghost predicate NoFrameOnWay(key: Key)
      requires DistinctKeys(history) && Run(history).Inserted? && !Shape().Empty?
      reads this`history, bp`pageTable, bp.replacer
    {
      Blocked(PathTo(Shape(), key), bp.pageTable, Evictable(bp.replacer.nodes), bp.maxFrames)
    }

    /**
     Looks a key up.  The result is the value parameter after the call: unchanged when the key is not
     there.  A lookup that fails forgets to unpin the leaf it ended in, and only such a lookup does.
     One that throws leaves the tree as it was.
     */
    method Find(key: Key, value: Val) returns (r: Outcome<Val>)
      requires Valid()
      modifies bp`pageTable, bp`emptyFrames, bp.disk, bp.replacer, bp.frames
      ensures Valid() && SameLogical(old(bp.Snapshot()), bp.Snapshot())
      ensures Shape().Empty? ==> r.Thrown?
      ensures bp.nextPage <= bp.maxFrames ==> (r.Thrown? <==> Shape().Empty?)
      ensures |old(bp.pageTable)| + 3 <= bp.maxFrames ==> (r.Thrown? <==> Shape().Empty?)
      ensures old(Balanced()) ==> (r.Thrown? <==> Shape().Empty? || old(NoFrameOnWay(key)))
      ensures r.Returned? ==> forall i :: 0 <= i < |history| && history[i].0 == key ==> r.value == history[i].1
      ensures r.Returned? && !Names(history, key) ==> r.value == value
      ensures forall q :: q in bp.Snapshot().resident ==>
                            bp.Snapshot().resident[q].pins == BasePins(old(bp.Snapshot()), q)
                              + if r.Returned? && key !in AllKeys(Shape()) && q == TargetLeaf(Shape(), key).page
                                then 1 else 0
      ensures old(Balanced()) && (r.Thrown? || Names(history, key)) ==> Balanced()
    {
      hide bp.Valid, bp.ValidFrames, bp.Snapshot, bp.Residents, ShapeOk, ShapeIn, PathTo, Run, TargetLeaf, AllKeys,
           SameLogical, DistinctKeys, Names, TreeSpec.Find, Blocked, Placed;
      RunPlaced(history);
      EmptyOrRooted(bp.Snapshot(), rootPageId, Shape(), bp.nextPage);
      if rootPageId == INVALID_PAGE_ID {
        NothingRead(bp.Snapshot());
        return Thrown;
      }
      ghost var s, v0 := Shape(), bp.Snapshot();
      r := FindBelowRoot(key, value, v0, s);
      AtMostMore(old(bp.pageTable.Keys), PathTo(s, key));
      ShapeInSame(v0, bp.Snapshot(), rootPageId, s);
      FoundFromHistory(history, key);
    }

    /** The way down and the search in the leaf. */
    method FindBelowRoot(key: Key, value: Val, ghost v0: State, ghost s: Shape) returns (r: Outcome<Val>)
      requires bp.Valid() && InUse() && bp.nextPage <= |bp.disk.file| && v0 == bp.Snapshot()
      requires ShapeOk(s) && !s.Empty? && Placed(s, bp.nextPage) && ShapeIn(v0, rootPageId, s)
      requires v0.Disciplined() && v0.NothingDirty()
      modifies bp`pageTable, bp`emptyFrames, bp.disk, bp.replacer, bp.frames
      ensures bp.Valid() && InUse() && bp.nextPage <= |bp.disk.file|
      ensures SameLogical(v0, bp.Snapshot()) && bp.Snapshot().Disciplined() && bp.Snapshot().NothingDirty()
      ensures r.Thrown? ==> bp.maxFrames < bp.nextPage
      ensures r.Thrown? ==> bp.maxFrames < |old(bp.pageTable.Keys) + Members(PathTo(s, key))|
      ensures Idle(v0) ==>
                (r.Thrown? <==>
                   Blocked(PathTo(s, key), old(bp.pageTable), Evictable(old(bp.replacer.nodes)), bp.maxFrames))
      ensures r.Returned? ==> r.value == match TreeSpec.Find(s, key) case Some(v) => v case None => value
      ensures forall q :: q in bp.Snapshot().resident ==>
                            bp.Snapshot().resident[q].pins == BasePins(v0, q)
                              + if r.Returned? && key !in AllKeys(s) && q == TargetLeaf(s, key).page then 1 else 0
    {
      hide bp.Valid, bp.ValidFrames, bp.Snapshot, bp.Residents, ShapeOk, ShapeIn, PathTo, TargetLeaf, AllKeys,
           SameLogical, OnPath, Pins, FrameHolds, TreeSpec.Find, Blocked, Passing, Evictable, Idle, Placed, Distinct;
      ghost var table, evictable := bp.pageTable, Evictable(bp.replacer.nodes);
      StartReading(v0, rootPageId, s, key, bp.nextPage);
      ghost var path := PathTo(s, key);
      PassingAtFirst(path, table, evictable, bp.maxFrames);
      ghost var d := 0;
      var previousPageId := rootPageId;
      while true
        invariant bp.Valid() && InUse() && bp.nextPage <= |bp.disk.file|
        invariant 0 <= d < |path| && previousPageId == path[d]
        invariant Reading(v0, bp.Snapshot())
        invariant forall p :: p in bp.pageTable ==> p in table || p in path
        invariant Idle(v0) ==>
                    Passing(path, table, evictable, bp.maxFrames, d, bp.pageTable, Evictable(bp.replacer.nodes))
        decreases |path| - d
      {
        var visited := Visit(previousPageId, v0, s, key, d, table, evictable);
        if visited.Thrown? {
          ReadingEnds(v0, bp.Snapshot());
          FullOf(bp.pageTable, table, path, d, bp.maxFrames);
          return Thrown;
        }
        var currentPage := visited.value;
        if currentPage.data.kind.InnerKind? {
          previousPageId := ReadInner(currentPage, key, v0, s, d);
          d := d + 1;
          continue;
        }
        LeafIsLast(currentPage.data, s, key, d);
        PassedAll(path, table, evictable, bp.maxFrames, bp.pageTable, Evictable(bp.replacer.nodes));
        r := ReadLeaf(currentPage, key, value, v0, s);
        return;
      }
    }

    /** One step down: the page is pinned, and it is the page on the way to the key's leaf. */
    method Visit(
      id: int, ghost v0: State, ghost s: Shape, ghost key: Key, ghost d: nat, ghost table: map<int, int>,
      ghost evictable: set<int>)
      returns (r: Outcome<Frame>)
      requires bp.Valid() && InUse() && 0 <= id < |bp.disk.file| + GROWTH
      requires id < bp.nextPage
      requires v0.Disciplined() && Reading(v0, bp.Snapshot())
      requires ShapeOk(s) && !s.Empty? && ShapeIn(v0, rootPageId, s) && d < |PathTo(s, key)| && id == PathTo(s, key)[d]
      requires Distinct(PathTo(s, key))
      requires Idle(v0) ==>
                 Passing(PathTo(s, key), table, evictable, bp.maxFrames, d, bp.pageTable, Evictable(bp.replacer.nodes))
      modifies bp`pageTable, bp`emptyFrames, bp.disk, bp.replacer, bp.frames
      ensures bp.Valid() && InUse() && |bp.disk.file| >= |old(bp.disk.file)|
      ensures r.Thrown? ==> bp.maxFrames < bp.nextPage && Reading(v0, bp.Snapshot()) && bp.Snapshot().Disciplined()
      ensures r.Thrown? ==> |bp.pageTable| == bp.maxFrames && id !in bp.pageTable
      ensures forall p :: p in bp.pageTable ==> p == id || p in old(bp.pageTable)
      ensures r.Thrown? && Idle(v0) ==> Blocked(PathTo(s, key), table, evictable, bp.maxFrames)
      ensures r.Returned? ==>
                && Pins(v0, bp.Snapshot(), [id]) && SameLogical(v0, bp.Snapshot()) && bp.Snapshot().NothingDirty()
                && FrameHolds(bp.Snapshot(), id, r.value) && r.value in bp.frames
                && OnPath(r.value.data, s, key, d)
      ensures r.Returned? && Idle(v0) ==>
                Passing(PathTo(s, key), table, evictable, bp.maxFrames, d + 1, bp.pageTable, Evictable(bp.replacer.nodes))
    {
      hide bp.Valid, bp.ValidFrames, bp.Residents, bp.Snapshot, bp.NoFrameFor, ShapeOk, PathTo, OnPath, ShapeIn, Pins,
           Passing, Blocked, Granted, Evictable, Idle, Requested, SameLogical;
      ghost var v, path := bp.Snapshot(), PathTo(s, key);
      ghost var table1, evictable1 := bp.pageTable, Evictable(bp.replacer.nodes);
      if Idle(v0) {
        StillIdle(v0, v);
        bp.RefusedWhenIdle(id);
        FramesApart();
      }
      PinsDisciplined(v0, v, []);
      r := Ask(id, true);
      if r.Returned? {
        assert [] + [id] == [id];
        RequestPins(v0, v, bp.Snapshot(), [], id);
        PathStep(v0, rootPageId, s, key, d);
        StillReading(v0, v, bp.Snapshot(), id);
        if Idle(v0) {
          PassingStep(
            path, table, evictable, bp.maxFrames, d, table1, evictable1, bp.pageTable, Evictable(bp.replacer.nodes));
        }
      } else {
        ReadingThrew(v0, v, bp.Snapshot());
        if Idle(v0) { PassingStops(path, table, evictable, bp.maxFrames, d, table1, evictable1); }
      }
    }

    lemma FramesApart()
      requires bp.Valid()
      ensures Injective(bp.pageTable)
    {
    }

    /** The next page on the way; the inner page just read is unpinned. */
    method ReadInner(frame: Frame, key: Key, ghost v0: State, ghost s: Shape, ghost d: nat) returns (nextPageId: int)
      requires ShapeOk(s) && !s.Empty? && d < |PathTo(s, key)| && OnPath(frame.data, s, key, d)
      requires frame.data.kind.InnerKind?
      requires bp.Valid() && FrameHolds(bp.Snapshot(), PathTo(s, key)[d], frame)
      requires v0.Disciplined() && SameLogical(v0, bp.Snapshot()) && bp.Snapshot().NothingDirty()
      requires Pins(v0, bp.Snapshot(), [PathTo(s, key)[d]])
      modifies frame`pinCount
      ensures bp.Valid() && Reading(v0, bp.Snapshot())
      ensures d + 1 < |PathTo(s, key)| && nextPageId == PathTo(s, key)[d + 1]
    {
      hide bp.Valid, bp.Snapshot, ShapeOk, PathTo, TargetLeaf, Pins;
      var nextKeyIndex := InnerNode.FindIndex(frame.data, key);
      nextPageId := frame.data.vals[nextKeyIndex];
      ghost var p, v := PathTo(s, key)[d], bp.Snapshot();
      assert [] + [p] == [p];
      Release(frame, v0, [], p);
    }

    /** The end of a lookup. */
    method ReadLeaf(frame: Frame, key: Key, value: Val, ghost v0: State, ghost s: Shape) returns (r: Outcome<Val>)
      requires ShapeOk(s) && !s.Empty? && OnPath(frame.data, s, key, |PathTo(s, key)| - 1)
      requires bp.Valid() && FrameHolds(bp.Snapshot(), TargetLeaf(s, key).page, frame)
      requires v0.Disciplined() && SameLogical(v0, bp.Snapshot()) && bp.Snapshot().NothingDirty()
      requires Pins(v0, bp.Snapshot(), [TargetLeaf(s, key).page])
      modifies frame`pinCount
      ensures bp.Valid() && SameLogical(v0, bp.Snapshot()) && bp.Snapshot().Disciplined()
      ensures bp.Snapshot().NothingDirty()
      ensures r == Returned(match TreeSpec.Find(s, key) case Some(v) => v case None => value)
      ensures forall q :: q in bp.Snapshot().resident ==>
                            bp.Snapshot().resident[q].pins == BasePins(v0, q)
                              + if key !in AllKeys(s) && q == TargetLeaf(s, key).page then 1 else 0
    {
      hide bp.Valid, bp.Snapshot, ShapeOk, PathTo;
      TargetOrdered(s, key);
      FindMeaning(s, key);
      FoundInLeaf(TargetLeaf(s, key).keys, key);
      var idx := LeafNode.FindIndex(frame.data, key);
      if idx.None? {
        return Returned(value);
      }
      RankIsUnique(TargetLeaf(s, key).keys, key, idx.value);
      r := Returned(frame.data.vals[idx.value]);
      assert r.value == LeafNode.Vals(frame.data)[idx.value];
      assert [] + [TargetLeaf(s, key).page] == [TargetLeaf(s, key).page];
      Release(frame, v0, [], TargetLeaf(s, key).page);
    }

    /** decrease_pin_count on a frame this operation holds. */
    method Release(frame: Frame, ghost v0: State, ghost held: seq<int>, ghost p: int)
      requires bp.Valid() && v0.Disciplined() && Pins(v0, bp.Snapshot(), held + [p]) && p !in held
      requires p in bp.Snapshot().resident && FrameHolds(bp.Snapshot(), p, frame)
      modifies frame`pinCount
      ensures bp.Valid()
      ensures var v := old(bp.Snapshot());
              p in v.resident && bp.Snapshot() == Touched(v, p, v.resident[p].(pins := v.resident[p].pins - 1))
      ensures Pins(v0, bp.Snapshot(), held) && SameLogical(old(bp.Snapshot()), bp.Snapshot())
      ensures OnlyPins(old(bp.Snapshot()), bp.Snapshot())
    {
      hide bp.Valid, bp.Snapshot, bp.Residents, Pins;
      ghost var v := bp.Snapshot();
      bp.ResidentFrame(p);
      UnpinReleases(v0, v, held, p);
      label Held:
      frame.DecreasePinCount();
      bp.FrameTouched@Held(p);
    }

    // ----- insertion: the leaf -----

    /** The pages on the stack of the descent and the leaf itself are held, and no page has changed yet. */
    ghost predicate Descending(v0: State, v: State, s: Shape, key: Key, d: nat)
      requires ShapeOk(s) && !s.Empty? && d <= |PathTo(s, key)|
      reads this`frameQueue
    {
      var path := PathTo(s, key);
      && Pins(v0, v, path[..d]) && SameLogical(v0, v)
      && d < |path| && QueueIs(v, path[..d])
    }

    /** Pins the page at depth d on the way down. */
    method VisitForInsert(id: int, ghost v0: State, ghost s: Shape, ghost key: Key, ghost d: nat, ghost next: int)
      returns (r: Outcome<Frame>)
      requires bp.Valid() && InUse() && Near() && 0 <= id < |bp.disk.file| + GROWTH
      requires id < bp.nextPage && id in reach
      requires v0.Disciplined() && ShapeOk(s) && !s.Empty? && ShapeIn(v0, rootPageId, s) && Placed(s, next)
      requires d < |PathTo(s, key)| && id == PathTo(s, key)[d] && Descending(v0, bp.Snapshot(), s, key, d)
      modifies bp`pageTable, bp`emptyFrames, bp.disk, bp.replacer, bp.frames
      ensures bp.Valid() && InUse() && |bp.disk.file| >= |old(bp.disk.file)|
      ensures r.Thrown? ==> bp.maxFrames < |reach| && bp.maxFrames < bp.nextPage
      ensures r.Returned? ==>
                && Pins(v0, bp.Snapshot(), PathTo(s, key)[..d + 1]) && SameLogical(v0, bp.Snapshot())
                && QueueIs(bp.Snapshot(), PathTo(s, key)[..d]) && NearBut(id)
                && FrameHolds(bp.Snapshot(), id, r.value) && r.value.data == bp.Snapshot().Logical(id)
                && OnPath(r.value.data, s, key, d)
    {
      hide bp.Valid, bp.Snapshot, bp.Residents, ShapeOk, ShapeIn, PathTo, Pins, OnPath, Near, NearBut;
      ghost var v, path := bp.Snapshot(), PathTo(s, key);
      PathPlaced(s, key, next);
      r := Fetch(id, v0, path[..d]);
      if r.Returned? {
        assert path[..d] + [id] == path[..d + 1];
        PathStep(v0, rootPageId, s, key, d);
        HeldStay(v0, v, bp.Snapshot(), path[..d], id, true);
      }
    }

    /** The key goes into its leaf, whose frame is held and marked dirty first. */
    method AddToLeaf(frame: Frame, key: Key, val: Val, ghost v0: State, ghost s: Shape)
      requires bp.Valid() && ShapeOk(s) && !s.Empty? && key !in TargetLeaf(s, key).keys
      requires Pins(v0, bp.Snapshot(), PathTo(s, key)) && SameLogical(v0, bp.Snapshot())
      requires FrameHolds(bp.Snapshot(), TargetLeaf(s, key).page, frame)
      requires OnPath(frame.data, s, key, |PathTo(s, key)| - 1) && |TargetLeaf(s, key).keys| < M
      requires NearBut(TargetLeaf(s, key).page)
      modifies frame`isDirty, frame`data
      ensures bp.Valid() && Near()
      ensures var v, leaf := old(bp.Snapshot()), TargetLeaf(s, key).page;
              leaf in v.resident && bp.Snapshot() == Written(v, leaf, frame.data)
      ensures LeafIn(bp.Snapshot(), Grown(s, key, val)) && SameExcept(v0, bp.Snapshot(), {TargetLeaf(s, key).page})
    {
      hide bp.Valid, bp.ValidFrames, bp.Snapshot, bp.Residents, ShapeOk, PathTo, Pins, TargetLeaf, Near, NearBut;
      ghost var l, v := TargetLeaf(s, key), bp.Snapshot();
      bp.ResidentFrame(l.page);
      TargetOrdered(s, key);
      label Held:
      frame.isDirty := true;
      LeafNode.TrivialInsert(frame, key, val);
      StillNear@Held(l.page);
      bp.FrameTouched@Held(l.page);
      WritingKeepsPins(v0, v, PathTo(s, key), l.page, frame.data);
    }

    /** Marking a resident frame dirty brings no page within reach, and cleans none. */
    twostate lemma StillNear(p: int)
      requires old(bp.Valid()) && p in old(bp.pageTable) && unchanged(bp)
      requires old(NearBut(p)) && reach == old(reach) && keepers == old(keepers)
      requires forall i :: 0 <= i < |bp.frames| && i != bp.pageTable[p] && old(bp.frames[i].isDirty) ==>
                             bp.frames[i].isDirty
      requires 0 <= bp.pageTable[p] < |bp.frames| && bp.frames[bp.pageTable[p]].isDirty
      ensures Near()
    {
      hide bp.Valid;
    }

    /** A new page takes the upper half of the leaf. */
    method SplitLeaf(frame: Frame, ghost key: Key, ghost val: Val, ghost v0: State, ghost s: Shape, ghost next: int)
      returns (r: Outcome<int>)
      requires bp.Valid() && InUse() && Near() && next == bp.nextPage <= |bp.disk.file| && next >= 0 && next in reach
      requires v0.Disciplined() && ShapeOk(s) && !s.Empty? && Placed(s, next) && |Grown(s, key, val).keys| == M
      requires Pins(v0, bp.Snapshot(), PathTo(s, key)) && DirtyIn(bp.Snapshot(), TargetLeaf(s, key).page)
      requires LeafIn(bp.Snapshot(), Grown(s, key, val)) && SameExcept(v0, bp.Snapshot(), {TargetLeaf(s, key).page})
      requires FrameHolds(bp.Snapshot(), TargetLeaf(s, key).page, frame)
      requires QueueIs(bp.Snapshot(), PathTo(s, key)[..|PathTo(s, key)| - 1])
      modifies bp`nextPage, bp`pageTable, bp`emptyFrames, bp.disk, bp.replacer, bp.frames
      ensures bp.Valid() && InUse()
      ensures r.Thrown? ==> bp.maxFrames < |reach| && bp.maxFrames < bp.nextPage <= next + 1
      ensures r.Returned? ==>
                && Near() && r.value == next && bp.nextPage == next + 1 <= |bp.disk.file|
                && LeafSplit(v0, bp.Snapshot(), s, key, val, next)
                && Pins(v0, bp.Snapshot(), PathTo(s, key) + [next])
                && DirtyIn(bp.Snapshot(), TargetLeaf(s, key).page) && DirtyIn(bp.Snapshot(), next)
                && QueueIs(bp.Snapshot(), PathTo(s, key)[..|PathTo(s, key)| - 1])
    {
      hide bp.Valid, bp.ValidFrames, bp.Snapshot, bp.Residents, ShapeOk, PathTo, Pins, TargetLeaf, Grown,
           Requested, LeafSplit, SameExcept, SameLogical, DirtyStay, Stay, Near, NearBut;
      ghost var leaf, path, grown, v := TargetLeaf(s, key).page, PathTo(s, key), Grown(s, key, val), bp.Snapshot();
      PathPlaced(s, key, next);
      GrownPage(s, key, val);
      var newPageId := bp.AllocateNewPage();
      var newPage :- Fetch(newPageId, v0, path);
      ghost var v1 := bp.Snapshot();
      HeldStay(v0, v, v1, path, newPageId, true);
      QueueStays(v, v1, path, path[..|path| - 1]);
      SameExceptStays(v0, v, v1, {leaf});
      SamePage(v, v1, leaf);
      assert path[|path| - 1] == leaf;
      HeldFrame(v, v1, path, leaf);
      bp.ResidentFrame(leaf);
      assert frame.data == v1.Logical(leaf);
      SplitHeldLeaf(frame, newPage, newPageId, leaf);
      LeafSplitWritten(v0, v1, s, key, val, next, frame.data, newPage.data);
      QueueStays(v1, bp.Snapshot(), path + [next], path[..|path| - 1]);
      r := Returned(newPageId);
    }

    /** What the descent leaves behind when it returns the id of a new page, or none. */
    ghost predicate LeafStage(v0: State, v: State, s: Shape, key: Key, val: Val, next: int, newPageId: Option<int>)
      requires ShapeOk(s) && !s.Empty?
      reads this`frameQueue
    {
      var path, leaf := PathTo(s, key), TargetLeaf(s, key).page;
      && QueueIs(v, path[..|path| - 1])
      && DirtyIn(v, leaf)
      && match newPageId
         case None => LeafFits(v0, v, s, key, val) && Pins(v0, v, path)
         case Some(id) =>
           id == next && LeafSplit(v0, v, s, key, val, next) && Pins(v0, v, path + [next]) && DirtyIn(v, next)
    }

    /** Descends to the key's leaf, stacking the frames on the way, and inserts there. */
    method FindPlaceForNewKeyAndInsert(key: Key, val: Val, ghost s: Shape, ghost next: int)
      returns (newPageId: Outcome<Option<int>>)
      requires bp.Valid() && InUse() && Near() && next == bp.nextPage <= |bp.disk.file| && next >= 0
      requires ShapeOk(s) && !s.Empty? && Placed(s, next) && ShapeIn(bp.Snapshot(), rootPageId, s)
      requires bp.Snapshot().Disciplined() && frameQueue == [] && Prepared(s, key, val, next)
      requires key !in TargetLeaf(s, key).keys
      modifies this`frameQueue, bp`nextPage, bp`pageTable, bp`emptyFrames, bp.disk, bp.replacer, bp.frames
      ensures bp.Valid() && InUse()
      ensures newPageId.Thrown? ==> bp.maxFrames < |reach| && bp.maxFrames < bp.nextPage <= PagesAfter(s, key, val, next)
      ensures newPageId.Returned? ==> Near()
      ensures newPageId.Returned? ==>
                && bp.nextPage == (if newPageId.value.Some? then next + 1 else next) <= |bp.disk.file|
                && LeafStage(old(bp.Snapshot()), bp.Snapshot(), s, key, val, next, newPageId.value)
    {
      hide PagesAfter, bp.Valid, bp.ValidFrames, bp.Snapshot, bp.Residents, ShapeOk, ShapeIn, PathTo, Pins, TargetLeaf,
           Grown, Requested, Near, NearBut;
      ghost var v0, path := bp.Snapshot(), PathTo(s, key);
      PagesTaken(s, key, val, next);
      StartDescent(v0, rootPageId, s, key, next);
      GrownPage(s, key, val);
      var previousPageId := rootPageId;
      while true
        invariant bp.Valid() && InUse() && Near() && next == bp.nextPage <= |bp.disk.file|
        invariant |frameQueue| < |path| && previousPageId == path[|frameQueue|]
        invariant Pins(v0, bp.Snapshot(), path[..|frameQueue|]) && SameLogical(v0, bp.Snapshot())
        invariant QueueIs(bp.Snapshot(), path[..|frameQueue|])
        decreases |path| - |frameQueue|
      {
        ghost var d := |frameQueue|;
        var currentPage :- VisitForInsert(previousPageId, v0, s, key, d, next);
        if currentPage.data.kind.InnerKind? {
          previousPageId := StackInner(currentPage, key, v0, s);
          StackedIsKept(s, key, val, next, d);
          continue;
        }
        assert path[..|frameQueue| + 1] == path;
        newPageId := InsertAtLeaf(currentPage, key, val, v0, s, next);
        return;
      }
    }

    lemma StackedIsKept(s: Shape, key: Key, val: Val, next: int, d: nat)
      requires ShapeOk(s) && !s.Empty? && Prepared(s, key, val, next) && d + 1 < |PathTo(s, key)|
      ensures NearBut(PathTo(s, key)[d]) ==> Near()
    {
      hide ShapeOk, PathTo;
      assert Stacked(s, key)[d] == PathTo(s, key)[d];
    }

    method StackInner(frame: Frame, key: Key, ghost v0: State, ghost s: Shape) returns (nextPageId: int)
      requires bp.Valid() && ShapeOk(s) && !s.Empty? && |frameQueue| < |PathTo(s, key)|
      requires OnPath(frame.data, s, key, |frameQueue|) && frame.data.kind.InnerKind?
      requires QueueIs(bp.Snapshot(), PathTo(s, key)[..|frameQueue|])
      requires FrameHolds(bp.Snapshot(), PathTo(s, key)[|frameQueue|], frame)
      modifies this`frameQueue
      ensures |frameQueue| == |old(frameQueue)| + 1 < |PathTo(s, key)|
      ensures nextPageId == PathTo(s, key)[|frameQueue|]
      ensures QueueIs(bp.Snapshot(), PathTo(s, key)[..|frameQueue|])
    {
      hide bp.Valid, bp.Snapshot, ShapeOk, PathTo, TargetLeaf;
      var nextKeyIndex := InnerNode.FindIndex(frame.data, key);
      nextPageId := frame.data.vals[nextKeyIndex];
      frameQueue := frameQueue + [frame];
    }

    method InsertAtLeaf(frame: Frame, key: Key, val: Val, ghost v0: State, ghost s: Shape, ghost next: int)
      returns (newPageId: Outcome<Option<int>>)
      requires bp.Valid() && InUse() && next == bp.nextPage <= |bp.disk.file| && next >= 0
      requires ShapeOk(s) && !s.Empty? && Placed(s, next) && key !in TargetLeaf(s, key).keys && v0.Disciplined()
      requires Pins(v0, bp.Snapshot(), PathTo(s, key)) && SameLogical(v0, bp.Snapshot())
      requires QueueIs(bp.Snapshot(), PathTo(s, key)[..|PathTo(s, key)| - 1])
      requires FrameHolds(bp.Snapshot(), TargetLeaf(s, key).page, frame)
      requires OnPath(frame.data, s, key, |PathTo(s, key)| - 1)
      requires NearBut(TargetLeaf(s, key).page) && Prepared(s, key, val, next)
      modifies bp`nextPage, bp`pageTable, bp`emptyFrames, bp.disk, bp.replacer, bp.frames
      ensures bp.Valid() && InUse()
      ensures newPageId.Thrown? ==> bp.maxFrames < |reach| && bp.maxFrames < bp.nextPage <= PagesAfter(s, key, val, next)
      ensures newPageId.Returned? ==> Near()
      ensures newPageId.Returned? ==>
                && bp.nextPage == (if newPageId.value.Some? then next + 1 else next) <= |bp.disk.file|
                && LeafStage(v0, bp.Snapshot(), s, key, val, next, newPageId.value)
    {
      hide PagesAfter, bp.Valid, bp.ValidFrames, bp.Snapshot, bp.Residents, ShapeOk, PathTo, Pins, TargetLeaf, Grown,
           Requested, OnPath, Near, NearBut;
      ghost var v, path, leaf := bp.Snapshot(), PathTo(s, key), TargetLeaf(s, key).page;
      GrownPage(s, key, val);
      PagesTaken(s, key, val, next);
      PathPlaced(s, key, next);
      AddToLeaf(frame, key, val, v0, s);
      WritingKeepsPins(v0, v, path, leaf, frame.data);
      assert LeafNode.Keys(frame.data) == Grown(s, key, val).keys;
      if frame.data.currentSize != frame.data.maxSize {
        return Returned(None);
      }
      var newId :- SplitLeaf(frame, key, val, v0, s, next);
      return Returned(Some(newId));
    }

    method SplitHeldLeaf(frame: Frame, newPage: Frame, newPageId: int, ghost leaf: int)
      requires bp.Valid() && FrameHolds(bp.Snapshot(), leaf, frame) && FrameHolds(bp.Snapshot(), newPageId, newPage)
      requires leaf != newPageId && DirtyIn(bp.Snapshot(), leaf)
      requires LeafNode.IsLeaf(frame.data) && frame.data.currentSize == M
      requires NearBut(newPageId)
      modifies frame`data, newPage`data, newPage`isDirty
      ensures bp.Valid() && Near()
      ensures LeafNode.IsLeaf(frame.data) && LeafNode.IsLeaf(newPage.data)
      ensures LeafNode.Keys(frame.data) == old(LeafNode.Keys(frame.data))[..H]
      ensures LeafNode.Vals(frame.data) == old(LeafNode.Vals(frame.data))[..H]
      ensures LeafNode.Keys(newPage.data) == old(LeafNode.Keys(frame.data))[H..]
      ensures LeafNode.Vals(newPage.data) == old(LeafNode.Vals(frame.data))[H..]
      ensures var v := old(bp.Snapshot());
              && leaf in v.resident && newPageId in v.resident
              && bp.Snapshot() == Written(Written(v, leaf, frame.data), newPageId, newPage.data)
    {
      hide bp.Valid, bp.ValidFrames, bp.Snapshot, bp.Residents, LeafNode.Keys, LeafNode.Vals, Near, NearBut;
      bp.ResidentFrame(leaf);
      bp.ResidentFrame(newPageId);
      bp.ResidentFramesDiffer(leaf, newPageId);
      label Held:
      newPage.isDirty := true;
      LeafNode.SplitNode(frame, newPage, newPageId);
      StillNear@Held(newPageId);
      bp.TwoFramesTouched@Held((leaf, newPageId));
    }

    // ----- insertion: what comes after the leaf -----

    /** The first pair goes into a new root leaf, whose page is written back and dropped at once. */
    method InsertFirst(key: Key, val: Val) returns (r: InsertOutcome)
      requires Valid() && Shape().Empty?
      requires Near() && bp.nextPage in reach
      modifies this`rootPageId, bp`nextPage, bp`pageTable, bp`emptyFrames, bp.disk, bp.replacer, bp.frames
      ensures bp.Valid() && InUse() && !r.AssertFailed?
      ensures r.Threw? ==> bp.maxFrames < |reach| && bp.maxFrames < bp.nextPage <= old(bp.nextPage) + 1
      ensures r.Done? ==>
                && r.flushed && OnlyKeepers()
                && Settled(old(bp.Snapshot()), OneLeaf(Leaf(old(bp.nextPage), [key], [val])), old(bp.nextPage) + 1)
    {
      hide bp.Valid, bp.ValidFrames, bp.Residents, bp.Snapshot, Run, DistinctKeys;
      RunPlaced(history);
      ghost var v0 := bp.Snapshot();
      rootPageId := bp.AllocateNewPage();
      var frame := NewRootLeaf(key, val);
      if frame.Thrown? { return Threw; }
      ghost var v, page := bp.Snapshot(), frame.value.data;
      bp.ResidentFrame(rootPageId);
      NearOfSnapshot(rootPageId);
      NearIsNearBut(rootPageId);
      var flushed := bp.FlushPage(rootPageId, true);
      CleanAreKept(v, bp.Snapshot(), rootPageId);
      return Done(flushed);
    }

    method NewRootLeaf(key: Key, val: Val) returns (r: Outcome<Frame>)
      requires bp.Valid() && InUse() && Near() && bp.nextPage <= |bp.disk.file| + 1
      requires 0 <= rootPageId == bp.nextPage - 1 && rootPageId in reach
      requires bp.Snapshot().Disciplined() && bp.Snapshot().NothingDirty()
      modifies bp`pageTable, bp`emptyFrames, bp.disk, bp.replacer, bp.frames
      ensures bp.Valid() && InUse()
      ensures r.Thrown? ==> bp.maxFrames < |reach| && bp.maxFrames < bp.nextPage
      ensures r.Returned? ==> Near()
      ensures r.Returned? ==>
                && bp.nextPage <= |bp.disk.file|
                && DirtyIn(bp.Snapshot(), rootPageId)
                && var v1 := Flushed(bp.Snapshot(), rootPageId, true);
                   && v1.Disciplined() && v1.NothingDirty() && LeafIn(v1, Leaf(rootPageId, [key], [val]))
                   && forall q :: q in v1.resident ==> v1.resident[q].pins == BasePins(old(bp.Snapshot()), q)
    {
      hide bp.Valid, bp.ValidFrames, bp.Residents, bp.Snapshot;
      ghost var v0 := bp.Snapshot();
      r := AskNear(rootPageId, false);
      if r.Thrown? { return; }
      var frame := r.value;
      ghost var v := bp.Snapshot();
      bp.ResidentFrame(rootPageId);
      label Held:
      frame.isDirty := true;
      LeafNode.InitFirstNode(frame, key, val);
      StillNear@Held(rootPageId);
      bp.FrameTouched@Held(rootPageId);
      assert bp.Snapshot() == Written(v, rootPageId, frame.data);
      FlushOneSettles(v0, v, rootPageId, frame.data);
    }

    /** Flushes at the end of an insertion; every page still held is dirty by then. */
    method Finish(ghost v0: State, ghost held: seq<int>, ghost t: Shape, ghost next: int) returns (r: InsertOutcome)
      requires bp.Valid() && InUse() && Near() && bp.nextPage == next <= |bp.disk.file| && frameQueue == []
      requires Pins(v0, bp.Snapshot(), held) && held != []
      requires AllDirty(bp.Snapshot(), held)
      requires ShapeIn(bp.Snapshot(), rootPageId, t)
      modifies bp`pageTable, bp`emptyFrames, bp.disk, bp.replacer`nodes, bp.frames
      ensures bp.Valid() && InUse()
      ensures r == Done(true) && Settled(v0, t, next) && OnlyKeepers()
    {
      hide bp.Valid, bp.ValidFrames, bp.Residents, bp.Snapshot;
      ghost var v := bp.Snapshot();
      InUseOfSnapshot();
      NearOfSnapshot(held[0]);
      NearIsNearBut(held[0]);
      assert DirtyIn(v, held[0]);
      var flushed := bp.FlushPages();
      InUseOfSnapshot();
      CleanAreKept(v, bp.Snapshot(), held[0]);
      FlushSettlesPins(v0, v, bp.Snapshot(), held);
      ShapeInSame(v, bp.Snapshot(), rootPageId, t);
      return Done(flushed);
    }

    /** The root was a leaf and has been split: a new root goes over the halves. */
    method SplitRootLeaf(newPageId: int, ghost key: Key, ghost val: Val, ghost v0: State, ghost l: Leaf, ghost next: int)
      returns (r: InsertOutcome)
      requires bp.Valid() && InUse() && Near() && next >= 0 && bp.nextPage == next + 1 <= |bp.disk.file|
      requires next in reach && next + 1 in reach
      requires v0.Disciplined() && ShapeOk(OneLeaf(l)) && Placed(OneLeaf(l), next)
      requires ShapeIn(v0, rootPageId, OneLeaf(l))
      requires newPageId == next && LeafStage(v0, bp.Snapshot(), OneLeaf(l), key, val, next, Some(newPageId))
      modifies this`rootPageId, bp`nextPage, bp`pageTable, bp`emptyFrames, bp.disk, bp.replacer, bp.frames
      ensures bp.Valid() && InUse() && !r.AssertFailed?
      ensures r.Threw? ==> bp.maxFrames < |reach| && bp.maxFrames < bp.nextPage <= next + 2
      ensures r.Done? ==>
                && r.flushed && OnlyKeepers() && TreeSpec.Insert(OneLeaf(l), key, val, next).Inserted?
                && var t := TreeSpec.Insert(OneLeaf(l), key, val, next); Settled(v0, t.shape, t.next)
    {
      hide bp.Valid, bp.ValidFrames, bp.Residents, bp.Snapshot, Pins, Requested, TreeSpec.Insert, LeafSplit,
           HeadIn, LeafIn, SameExcept, SameLogical, ShapeOk, Placed, Grown;
      ghost var v, held := bp.Snapshot(), [l.page, next];
      assert PathTo(OneLeaf(l), key) + [next] == held;
      TargetPlaced(OneLeaf(l), key, next);
      var newRoot := bp.AllocateNewPage();
      var fetched := Fetch(newRoot, v0, held);
      if fetched.Thrown? { return Threw; }
      ghost var v1 := bp.Snapshot();
      HeldStay(v0, v, v1, held, newRoot, true);
      SamePage(v, v1, next);
      UpperKeyAt(v0, v, OneLeaf(l), key, val, next);
      var written := WriteRootOverLeaves(fetched.value, newRoot, newPageId, v0, held);
      if !written { return Threw; }
      SameExceptChains(v, v1, bp.Snapshot(), {newRoot});
      RootLeafSplitDone(v0, v, bp.Snapshot(), l, key, val, next);
      rootPageId := newRoot;
      r := Finish(v0, held + [newRoot], TreeSpec.Insert(OneLeaf(l), key, val, next).shape, next + 2);
    }

    /** Fills in the new root; the new leaf is requested, and pinned, once more for its least key. */
    method WriteRootOverLeaves(frame: Frame, newRoot: int, newPageId: int, ghost v0: State, ghost held: seq<int>)
      returns (ok: bool)
      requires bp.Valid() && InUse() && NearBut(newRoot) && v0.Disciplined()
      requires Pins(v0, bp.Snapshot(), held + [newRoot])
      requires newPageId < bp.nextPage && newPageId in reach
      requires FrameHolds(bp.Snapshot(), newRoot, frame) && newPageId in held && newRoot !in held
      requires 0 <= newPageId < |bp.disk.file|
      requires AllDirty(bp.Snapshot(), held)
      modifies bp`pageTable, bp`emptyFrames, bp.disk, bp.replacer, bp.frames
      ensures bp.Valid() && InUse() && |bp.disk.file| >= |old(bp.disk.file)|
      ensures !ok ==> bp.maxFrames < |reach| && bp.maxFrames < bp.nextPage
      ensures ok ==> Near()
      ensures ok ==>
                && Pins(v0, bp.Snapshot(), held + [newRoot])
                && AllDirty(bp.Snapshot(), held + [newRoot])
                && SameExcept(old(bp.Snapshot()), bp.Snapshot(), {newRoot})
                && HeadIn(bp.Snapshot(), newRoot, [old(bp.Snapshot()).Logical(newPageId).keys[0]],
                          [rootPageId, newPageId])
    {
      hide bp.Valid, bp.ValidFrames, bp.Residents, bp.Snapshot, Pins, Requested;
      ghost var v, all := bp.Snapshot(), held + [newRoot];
      assert all[|held|] == newRoot;
      MarkDirty(frame, newRoot, v0, all);
      ghost var v1 := bp.Snapshot();
      var request := AskNear(newPageId, true);
      if request.Thrown? { return false; }
      ghost var v2 := bp.Snapshot();
      RequestKeepsPins(v0, v1, v2, all, newPageId, true);
      HeldStay(v0, v1, v2, all, newPageId, true);
      bp.ResidentFrame(newPageId);
      bp.ResidentFrame(newRoot);
      bp.ResidentFramesDiffer(newPageId, newRoot);
      var newLeaf := request.value;
      var page := frame.data;
      label Held:
      frame.data := page.(
        kind := InnerKind, maxSize := M, currentSize := 2, link := INVALID_PAGE_ID,
        keys := page.keys[0 := newLeaf.data.keys[0]][1 := INVALID_KEY],
        vals := page.vals[0 := rootPageId][1 := newPageId]);
      bp.FrameTouched@Held(newRoot);
      assert bp.Snapshot() == Written(v2, newRoot, frame.data);
      WritingKeepsPins(v0, v2, all, newRoot, frame.data);
      return true;
    }

    /** Requests and pins a page in order to write to it. */
    method FetchToWrite(id: int, ghost v0: State, ghost held: seq<int>) returns (r: Outcome<Frame>)
      requires bp.Valid() && InUse() && Near() && 0 <= id < |bp.disk.file| + GROWTH
      requires id < bp.nextPage && id in reach
      requires v0.Disciplined() && Pins(v0, bp.Snapshot(), held) && id !in held
      modifies bp`pageTable, bp`emptyFrames, bp.disk, bp.replacer, bp.frames
      ensures bp.Valid() && InUse() && |bp.disk.file| >= |old(bp.disk.file)|
      ensures r.Thrown? ==> bp.maxFrames < |reach| && bp.maxFrames < bp.nextPage
      ensures r.Returned? ==>
                && id < |bp.disk.file| && Near()
                && Pins(v0, bp.Snapshot(), held + [id])
                && SameLogical(old(bp.Snapshot()), bp.Snapshot())
                && Stay(old(bp.Snapshot()), bp.Snapshot(), held)
                && DirtyStay(old(bp.Snapshot()), bp.Snapshot(), held)
                && (AllDirty(old(bp.Snapshot()), held) ==> AllDirty(bp.Snapshot(), held + [id]))
                && FrameHolds(bp.Snapshot(), id, r.value) && DirtyIn(bp.Snapshot(), id)
                && r.value.data == bp.Snapshot().Logical(id)
    {
      hide bp.Valid, bp.ValidFrames, bp.Residents, bp.Snapshot, Pins, Requested;
      ghost var v := bp.Snapshot();
      r := Fetch(id, v0, held);
      if r.Thrown? { return; }
      ghost var v1 := bp.Snapshot();
      HeldStay(v0, v, v1, held, id, true);
      MarkDirty(r.value, id, v0, held + [id]);
      SameLogicalChains(v, v1, bp.Snapshot());
    }

    method MarkDirty(frame: Frame, ghost p: int, ghost v0: State, ghost held: seq<int>)
      requires bp.Valid() && FrameHolds(bp.Snapshot(), p, frame) && Pins(v0, bp.Snapshot(), held)
      requires NearBut(p)
      modifies frame`isDirty
      ensures bp.Valid() && Near() && Pins(v0, bp.Snapshot(), held) && SameLogical(old(bp.Snapshot()), bp.Snapshot())
      ensures bp.Snapshot() == Written(old(bp.Snapshot()), p, frame.data) && DirtyIn(bp.Snapshot(), p)
      ensures Stay(old(bp.Snapshot()), bp.Snapshot(), held) && DirtyStay(old(bp.Snapshot()), bp.Snapshot(), held)
      ensures frame.data == old(bp.Snapshot()).Logical(p)
    {
      hide bp.Valid, bp.ValidFrames, bp.Residents, bp.Snapshot, Pins;
      ghost var v := bp.Snapshot();
      bp.ResidentFrame(p);
      label Held:
      frame.isDirty := true;
      StillNear@Held(p);
      bp.FrameTouched@Held(p);
      WritingKeepsPins(v0, v, held, p, frame.data);
    }

    // ----- insertion: the inner nodes -----

    /** The inner node takes in the new leaf, whose frame has been requested once more. */
    method TakeInLeaf(
      frame: Frame, newPageId: int, newNodeFrame: Frame, ghost key: Key, ghost val: Val, ghost v0: State, ghost s: Shape,
      ghost next: int, ghost held: seq<int>)
      requires bp.Valid() && newPageId == next >= 0
      requires ShapeOk(s) && (s.OneInner? || s.TwoInner?) && Placed(s, next)
      requires ShapeIn(v0, rootPageId, s) && key !in AllKeys(s)
      requires LeafSplit(v0, bp.Snapshot(), s, key, val, next)
      requires Pins(v0, bp.Snapshot(), held) && DirtyIn(bp.Snapshot(), SideOf(s, key).page)
      requires FrameHolds(bp.Snapshot(), SideOf(s, key).page, frame)
      requires FrameHolds(bp.Snapshot(), next, newNodeFrame) && newNodeFrame.data == bp.Snapshot().Logical(next)
      modifies frame`data
      ensures bp.Valid()
      ensures LeafTakenIn(v0, bp.Snapshot(), s, key, val, next)
      ensures Pins(v0, bp.Snapshot(), held) && DirtyIn(bp.Snapshot(), SideOf(s, key).page)
      ensures Stay(old(bp.Snapshot()), bp.Snapshot(), held) && DirtyStay(old(bp.Snapshot()), bp.Snapshot(), held)
      ensures FrameHolds(bp.Snapshot(), next, newNodeFrame) && FrameHolds(bp.Snapshot(), SideOf(s, key).page, frame)
      ensures frame.data == bp.Snapshot().Logical(SideOf(s, key).page)
    {
      hide bp.Valid, bp.ValidFrames, bp.Residents, bp.Snapshot, Pins, Requested, ShapeOk, ShapeIn, LeafTakenIn,
           SideOf, LeafSplit, Grown, Placed, SameLogical, SameExcept, Stay, DirtyStay, HeadIn;
      ghost var v, side := bp.Snapshot(), SideOf(s, key).page;
      SideFacts(v0, v, rootPageId, s, key, val, next);
      HeadRead(v, side, SideOf(s, key).seps, LeafPages(SideOf(s, key).kids));
      WriteSeparator(frame, side, newPageId, newNodeFrame, v0, held);
      TakenIn(v0, v, bp.Snapshot(), rootPageId, s, key, val, next);
    }

    /** Requests a page this operation holds already, without pinning it again. */
    method RequestHeld(id: int, ghost v0: State, ghost held: seq<int>) returns (r: Outcome<Frame>)
      requires bp.Valid() && InUse() && Near() && 0 <= id < |bp.disk.file| && v0.Disciplined()
      requires Pins(v0, bp.Snapshot(), held)
      requires id < bp.nextPage && id in reach
      requires DirtyIn(bp.Snapshot(), id)
      modifies bp`pageTable, bp`emptyFrames, bp.disk, bp.replacer, bp.frames
      ensures bp.Valid() && InUse() && |bp.disk.file| >= |old(bp.disk.file)|
      ensures r.Thrown? ==> bp.maxFrames < |reach| && bp.maxFrames < bp.nextPage
      ensures r.Returned? ==> Near()
      ensures r.Returned? ==>
                && Pins(v0, bp.Snapshot(), held) && SameLogical(old(bp.Snapshot()), bp.Snapshot())
                && Stay(old(bp.Snapshot()), bp.Snapshot(), held) && DirtyStay(old(bp.Snapshot()), bp.Snapshot(), held)
                && FrameHolds(bp.Snapshot(), id, r.value) && r.value.data == bp.Snapshot().Logical(id)
    {
      hide bp.Valid, bp.ValidFrames, bp.Residents, bp.Snapshot, Pins, Requested;
      ghost var v := bp.Snapshot();
      r := AskNear(id, false);
      if r.Thrown? { return; }
      RequestKeepsPins(v0, v, bp.Snapshot(), held, id, false);
      HeldStay(v0, v, bp.Snapshot(), held, id, false);
      bp.ResidentFrame(id);
    }

    /** Marks the inner node above dirty and requests the page that is handed up to it. */
    method MarkAndRequest(frame: Frame, ghost top: int, newPageId: int, ghost v0: State, ghost held: seq<int>)
      returns (r: Outcome<Frame>)
      requires bp.Valid() && InUse() && Near() && v0.Disciplined() && Pins(v0, bp.Snapshot(), held) && top in held
      requires newPageId < bp.nextPage && newPageId in reach
      requires FrameHolds(bp.Snapshot(), top, frame)
      requires 0 <= newPageId < |bp.disk.file| && DirtyIn(bp.Snapshot(), newPageId)
      modifies bp`pageTable, bp`emptyFrames, bp.disk, bp.replacer, bp.frames
      ensures bp.Valid() && InUse() && |bp.disk.file| >= |old(bp.disk.file)|
      ensures r.Thrown? ==> bp.maxFrames < |reach| && bp.maxFrames < bp.nextPage
      ensures r.Returned? ==> Near()
      ensures r.Returned? ==>
                && Pins(v0, bp.Snapshot(), held) && SameLogical(old(bp.Snapshot()), bp.Snapshot())
                && Stay(old(bp.Snapshot()), bp.Snapshot(), held) && DirtyStay(old(bp.Snapshot()), bp.Snapshot(), held)
                && FrameHolds(bp.Snapshot(), top, frame) && DirtyIn(bp.Snapshot(), top)
                && FrameHolds(bp.Snapshot(), newPageId, r.value)
                && r.value.data == bp.Snapshot().Logical(newPageId) == old(bp.Snapshot()).Logical(newPageId)
    {
      hide bp.Valid, bp.ValidFrames, bp.Snapshot, bp.Residents, Pins, Stay, DirtyStay, SameLogical;
      ghost var v := bp.Snapshot();
      MarkDirty(frame, top, v0, held);
      ghost var v1 := bp.Snapshot();
      r := RequestHeld(newPageId, v0, held);
      if r.Thrown? { return; }
      ghost var v2 := bp.Snapshot();
      SameLogicalChains(v, v1, v2);
      StayChains(v, v1, v2, held);
      SamePage(v, v2, newPageId);
      HeldFrame(v1, v2, held, top);
    }

    method WriteSeparator(
      frame: Frame, ghost side: int, newPageId: int, leafFrame: Frame, ghost v0: State, ghost held: seq<int>)
      requires bp.Valid() && Pins(v0, bp.Snapshot(), held) && side != newPageId && DirtyIn(bp.Snapshot(), side)
      requires FrameHolds(bp.Snapshot(), side, frame) && FrameHolds(bp.Snapshot(), newPageId, leafFrame)
      requires var page := bp.Snapshot().Logical(side);
               && InnerNode.IsInner(page) && 2 <= page.currentSize < M && Ascending(InnerNode.Seps(page))
               && leafFrame.data.keys[0] !in InnerNode.Seps(page)
      requires LeafNode.IsLeaf(leafFrame.data) && leafFrame.data.currentSize > 0
      modifies frame`data
      ensures bp.Valid() && Pins(v0, bp.Snapshot(), held)
      ensures var v := old(bp.Snapshot());
              side in v.resident && bp.Snapshot() == Written(v, side, frame.data)
      ensures SameExcept(old(bp.Snapshot()), bp.Snapshot(), {side}) && DirtyIn(bp.Snapshot(), side)
      ensures Stay(old(bp.Snapshot()), bp.Snapshot(), held) && DirtyStay(old(bp.Snapshot()), bp.Snapshot(), held)
      ensures frame.data == bp.Snapshot().Logical(side)
      ensures var page, key := old(bp.Snapshot()).Logical(side), old(leafFrame.data.keys[0]);
              var at := ChildSlot(InnerNode.Seps(page), key);
              HeadIn(bp.Snapshot(), side, InsertAt(InnerNode.Seps(page), at, key),
                     InsertAt(InnerNode.Kids(page), at + 1, newPageId))
      ensures FrameHolds(bp.Snapshot(), side, frame) && FrameHolds(bp.Snapshot(), newPageId, leafFrame)
    {
      hide bp.Valid, bp.ValidFrames, bp.Residents, bp.Snapshot, Pins;
      ghost var v := bp.Snapshot();
      bp.ResidentFrame(side);
      bp.ResidentFrame(newPageId);
      bp.ResidentFramesDiffer(side, newPageId);
      label Held:
      FreshKeyOneSlot(InnerNode.Seps(frame.data), leafFrame.data.keys[0]);
      InnerNode.TrivialInsertLeafNode(frame, newPageId, leafFrame.data);
      bp.FrameTouched@Held(side);
      assert bp.Snapshot() == Written(v, side, frame.data);
      WritingKeepsPins(v0, v, held, side, frame.data);
    }

    /** The inner node is full: a new page takes its upper part. */
    method SplitInnerNode(
      frame: Frame, previousPageId: int, ghost key: Key, ghost val: Val, ghost v0: State, ghost s: Shape,
      ghost next: int, ghost held: seq<int>)
      returns (r: Outcome<int>)
      requires bp.Valid() && InUse() && Near() && next >= 0 && bp.nextPage == next + 1 <= |bp.disk.file|
      requires next + 1 in reach
      requires v0.Disciplined() && ShapeOk(s) && (s.OneInner? || s.TwoInner?) && Placed(s, next)
      requires |Grown(s, key, val).keys| == M && |Wider(s, key, val, next).kids| == M
      requires LeafTakenIn(v0, bp.Snapshot(), s, key, val, next)
      requires Pins(v0, bp.Snapshot(), held) && next + 1 !in held && SideOf(s, key).page in held
      requires FrameHolds(bp.Snapshot(), SideOf(s, key).page, frame) && DirtyIn(bp.Snapshot(), SideOf(s, key).page)
      modifies bp`nextPage, bp`pageTable, bp`emptyFrames, bp.disk, bp.replacer, bp.frames
      ensures bp.Valid() && InUse()
      ensures r.Thrown? ==> bp.maxFrames < |reach| && bp.maxFrames < bp.nextPage <= next + 2
      ensures r.Returned? ==>
                && Near() && r.value == next + 1 && bp.nextPage == next + 2 <= |bp.disk.file|
                && InnerSplit(v0, bp.Snapshot(), s, key, val, next)
                && Pins(v0, bp.Snapshot(), held + [next + 1])
                && Stay(old(bp.Snapshot()), bp.Snapshot(), held)
                && DirtyIn(bp.Snapshot(), next + 1)
                && DirtyStay(old(bp.Snapshot()), bp.Snapshot(), held)
    {
      hide bp.Valid, bp.ValidFrames, bp.Residents, bp.Snapshot, Pins, Requested, ShapeOk, ShapeIn, LeafTakenIn,
           SideOf, InnerSplit, Grown, Placed, Wider, SameExcept, SameLogical, HeadIn, LeafPages, SplitInner;
      ghost var v, side, wider := bp.Snapshot(), SideOf(s, key).page, Wider(s, key, val, next);
      WiderFacts(v0, v, s, key, val, next);
      var newPageId := bp.AllocateNewPage();
      var newPage :- Fetch(newPageId, v0, held);
      ghost var v1 := bp.Snapshot();
      HeldStay(v0, v, v1, held, newPageId, true);
      bp.ResidentFrame(side);
      SamePage(v, v1, side);
      assert frame.data == v1.Logical(side);
      SplitHeldInner(frame, newPage, newPageId, previousPageId, side);
      WritingTwoKeepsPins(v0, v1, held + [newPageId], side, frame.data, newPageId, newPage.data);
      SameExceptChains(v, v1, bp.Snapshot(), {side, newPageId});
      StayPrefix(v1, bp.Snapshot(), held, newPageId);
      SplitUp(v0, v, bp.Snapshot(), s, key, val, next);
      r := Returned(newPageId);
    }

    method SplitHeldInner(frame: Frame, newPage: Frame, newPageId: int, previousPageId: int, ghost side: int)
      requires bp.Valid() && FrameHolds(bp.Snapshot(), side, frame) && FrameHolds(bp.Snapshot(), newPageId, newPage)
      requires side != newPageId && DirtyIn(bp.Snapshot(), side)
      requires InnerNode.IsInner(frame.data) && frame.data.currentSize == M
      requires NearBut(newPageId)
      modifies frame`data, newPage`data, newPage`isDirty
      ensures bp.Valid() && Near()
      ensures var v := old(bp.Snapshot());
              && side in v.resident && newPageId in v.resident
              && bp.Snapshot() == Written(Written(v, side, frame.data), newPageId, newPage.data)
      ensures var seps, kids := old(InnerNode.Seps(frame.data)), old(InnerNode.Kids(frame.data));
              && HeadIn(bp.Snapshot(), side, seps[..H], kids[..H + 1])
              && HeadIn(bp.Snapshot(), newPageId, seps[H + 1..], kids[H + 1..])
              && frame.data.keys[H] == seps[H]
    {
      hide bp.Valid, bp.ValidFrames, bp.Snapshot, bp.Residents;
      ghost var v := bp.Snapshot();
      bp.ResidentFrame(side);
      bp.ResidentFrame(newPageId);
      bp.ResidentFramesDiffer(side, newPageId);
      label Held:
      newPage.isDirty := true;
      InnerNode.SplitNode(frame, newPage, previousPageId);
      StillNear@Held(newPageId);
      bp.TwoFramesTouched@Held((side, newPageId));
      assert bp.Snapshot() == Written(Written(v, side, frame.data), newPageId, newPage.data);
      assert |InnerNode.Kids(frame.data)| == H + 1;
    }

    /** The root was an inner node and has been split: a new root goes over the halves. */
    method CreateRootWithInnerNodes(
      victimPageId: int, rhsPageId: int, ghost key: Key, ghost val: Val, ghost v0: State, ghost n: Inner,
      ghost next: int, ghost held: seq<int>)
      returns (ok: bool)
      requires bp.Valid() && InUse() && Near() && next >= 0 && bp.nextPage == next + 2 <= |bp.disk.file|
      requires n.page in reach && next + 2 in reach
      requires v0.Disciplined() && ShapeOk(OneInner(n)) && Placed(OneInner(n), next)
      requires victimPageId == n.page && rhsPageId == next + 1
      requires InnerSplit(v0, bp.Snapshot(), OneInner(n), key, val, next)
      requires Pins(v0, bp.Snapshot(), held) && n.page !in held && next + 2 !in held
      requires AllDirty(bp.Snapshot(), held)
      modifies this`rootPageId, bp`nextPage, bp`pageTable, bp`emptyFrames, bp.disk, bp.replacer, bp.frames
      ensures bp.Valid() && InUse()
      ensures !ok ==> bp.maxFrames < |reach| && bp.maxFrames < bp.nextPage <= next + 3
      ensures ok ==> Near()
      ensures ok ==>
                && bp.nextPage == next + 3 <= |bp.disk.file|
                && TreeSpec.Insert(OneInner(n), key, val, next).Inserted?
                && TreeSpec.Insert(OneInner(n), key, val, next).next == next + 3
                && ShapeIn(bp.Snapshot(), rootPageId, TreeSpec.Insert(OneInner(n), key, val, next).shape)
                && Pins(v0, bp.Snapshot(), held + [n.page] + [next + 2])
                && AllDirty(bp.Snapshot(), held + [n.page] + [next + 2])
    {
      hide bp.Valid, bp.ValidFrames, bp.Residents, bp.Snapshot, Pins, Requested, ShapeOk, ShapeIn, InnerSplit,
           TreeSpec.Insert, Placed, SameLogical, SameExcept, AllDirty, HeadIn, SplitInner, Wider, LeafPages,
           Stay, DirtyStay;
      ghost var v := bp.Snapshot();
      RootFacts(v0, v, n, key, val, next);
      ghost var left := SplitInner(Wider(OneInner(n), key, val, next), next + 1).left;
      var fetched := FetchToWrite(victimPageId, v0, held);
      if fetched.Thrown? { return false; }
      var victimFrame := fetched.value;
      ghost var v1 := bp.Snapshot();
      assert (held + [n.page])[|held|] == n.page;
      var newRoot := bp.AllocateNewPage();
      fetched := FetchToWrite(newRoot, v0, held + [n.page]);
      if fetched.Thrown? { return false; }
      ghost var v2 := bp.Snapshot();
      SameLogicalChains(v, v1, v2);
      SamePage(v, v2, n.page);
      HeldFrame(v1, v2, held + [n.page], n.page);
      HeadRead(v, n.page, left.seps, LeafPages(left.kids));
      AllDirtyAt(v2, held + [n.page] + [newRoot], |held|);
      AllDirtyAt(v2, held + [n.page] + [newRoot], |held| + 1);
      WriteRootOverInners(victimFrame, fetched.value, newRoot, victimPageId, rhsPageId, v0, held + [n.page] + [newRoot]);
      SameExceptChains(v, v2, bp.Snapshot(), {n.page, next + 2});
      NewRootDone(v0, v, bp.Snapshot(), n, key, val, next);
      rootPageId := newRoot;
      return true;
    }

    method WriteRootOverInners(
      victimFrame: Frame, newRootFrame: Frame, newRoot: int, victimPageId: int, rhsPageId: int,
      ghost v0: State, ghost held: seq<int>)
      requires bp.Valid() && FrameHolds(bp.Snapshot(), victimPageId, victimFrame)
      requires FrameHolds(bp.Snapshot(), newRoot, newRootFrame) && newRoot != victimPageId
      requires DirtyIn(bp.Snapshot(), victimPageId) && DirtyIn(bp.Snapshot(), newRoot)
      requires Pins(v0, bp.Snapshot(), held) && AllDirty(bp.Snapshot(), held)
      requires var page := bp.Snapshot().Logical(victimPageId); InnerNode.IsInner(page) && page.currentSize >= 2
      modifies victimFrame`data, newRootFrame`data
      ensures bp.Valid()
      ensures Pins(v0, bp.Snapshot(), held) && AllDirty(bp.Snapshot(), held)
      ensures SameExcept(old(bp.Snapshot()), bp.Snapshot(), {victimPageId, newRoot})
      ensures var page := old(bp.Snapshot()).Logical(victimPageId);
              && HeadIn(bp.Snapshot(), victimPageId, InnerNode.Seps(page), InnerNode.Kids(page))
              && HeadIn(bp.Snapshot(), newRoot, [page.keys[page.currentSize - 1]], [victimPageId, rhsPageId])
    {
      hide bp.Valid, bp.ValidFrames, bp.Snapshot, bp.Residents, Pins;
      ghost var v := bp.Snapshot();
      bp.ResidentFrame(victimPageId);
      bp.ResidentFrame(newRoot);
      bp.ResidentFramesDiffer(victimPageId, newRoot);
      label Held:
      var page, victim := newRootFrame.data, victimFrame.data;
      page := page.(
        kind := InnerKind, maxSize := M, currentSize := 2, link := INVALID_PAGE_ID,
        keys := page.keys[0 := victim.keys[victim.currentSize - 1]][1 := INVALID_KEY],
        vals := page.vals[0 := victimPageId][1 := rhsPageId]);
      newRootFrame.data := page;
      victimFrame.data := victim.(keys := victim.keys[victim.currentSize - 1 := INVALID_KEY]);
      bp.TwoFramesTouched@Held((victimPageId, newRoot));
      assert bp.Snapshot() == Written(Written(v, victimPageId, victimFrame.data), newRoot, newRootFrame.data);
      WritingTwoKeepsPins(v0, v, held, victimPageId, victimFrame.data, newRoot, newRootFrame.data);
    }

    // ----- insertion: up the stack -----

    ghost function Top(): Frame
      requires frameQueue != []
      reads this`frameQueue
    {
      frameQueue[|frameQueue| - 1]
    }

    /** Takes the top frame off the stack and unpins it. */
    method Pop(ghost v0: State, ghost extra: seq<int>, ghost pages: seq<int>)
      requires bp.Valid() && v0.Disciplined() && frameQueue != []
      requires QueueIs(bp.Snapshot(), pages) && Distinct(pages) && pages[|pages| - 1] !in extra
      requires Pins(v0, bp.Snapshot(), extra + pages)
      modifies this`frameQueue, Top()`pinCount
      ensures bp.Valid() && frameQueue == old(frameQueue)[..|old(frameQueue)| - 1]
      ensures OnlyPins(old(bp.Snapshot()), bp.Snapshot())
      ensures Pins(v0, bp.Snapshot(), extra + pages[..|pages| - 1])
      ensures QueueIs(bp.Snapshot(), pages[..|pages| - 1])
    {
      hide bp.Valid, bp.ValidFrames, bp.Snapshot, bp.Residents, Pins;
      ghost var n, v := |pages| - 1, bp.Snapshot();
      assert extra + pages == extra + pages[..n] + [pages[n]];
      assert pages[n] !in extra + pages[..n];
      Release(frameQueue[|frameQueue| - 1], v0, extra + pages[..n], pages[n]);
      frameQueue := frameQueue[..|frameQueue| - 1];
    }

    /**
     Hands a page that was split off to the inner node on top of the stack.  A leaf goes in there, and
     the inner node is split in turn when that fills it; an inner node would have to go in by the step
     that is not implemented.
     */
    method HandUp(newPageId: int, ghost key: Key, ghost val: Val, ghost v0: State, ghost s: Shape, ghost next: int)
      returns (r: Handed)
      requires bp.Valid() && InUse() && Near() && next >= 0 && bp.nextPage <= |bp.disk.file| && v0.Disciplined()
      requires ShapeOk(s) && (s.OneInner? || s.TwoInner?) && Placed(s, next)
      requires ShapeIn(v0, rootPageId, s) && key !in AllKeys(s)
      requires 0 < |frameQueue| <= |Stacked(s, key)| && QueueIs(bp.Snapshot(), Stacked(s, key)[..|frameQueue|])
      requires Rising(v0, bp.Snapshot(), s, key, val, next, Some(newPageId), Stacked(s, key)[..|frameQueue|])
      requires Prepared(s, key, val, next)
      modifies this`frameQueue, bp`nextPage, bp`pageTable, bp`emptyFrames, bp.disk, bp.replacer, bp.frames
      ensures bp.Valid() && InUse()
      ensures r.HandThrew? ==> bp.maxFrames < |reach| && bp.maxFrames < bp.nextPage <= PagesAfter(s, key, val, next)
      ensures r.HandAsserted? ==> TreeSpec.Insert(s, key, val, next).Aborted?
      ensures r.HandedUp? ==> Near()
      ensures r.HandedUp? ==>
                && bp.nextPage <= |bp.disk.file| && |frameQueue| == |old(frameQueue)| - 1
                && QueueIs(bp.Snapshot(), Stacked(s, key)[..|frameQueue|])
                && Rising(v0, bp.Snapshot(), s, key, val, next, r.newPageId, Stacked(s, key)[..|frameQueue|])
    {
      hide PagesAfter, bp.Valid, bp.ValidFrames, bp.Snapshot, bp.Residents, Pins, ShapeOk, ShapeIn, LeafSplit,
           LeafTakenIn, InnerSplit, Rising, Placed, Grown, Wider, SideOf, PathTo, TargetLeaf, Stacked, AllDirty, Stay,
           DirtyStay, SameLogical, SameExcept, TreeSpec.Insert;
      ghost var pages, v, leaf := Stacked(s, key)[..|frameQueue|], bp.Snapshot(), TargetLeaf(s, key).page;
      StackedFacts(s, key, next);
      WhatRises(v0, v, s, key, val, next, newPageId, pages);
      ghost var top, held := pages[|pages| - 1], [leaf, newPageId] + pages;
      HeldPages(leaf, newPageId, pages);
      var frame := frameQueue[|frameQueue| - 1];
      var request := MarkAndRequest(frame, top, newPageId, v0, held);
      if request.Thrown? { return HandThrew; }
      if request.value.data.kind.InnerKind? {
        return HandAsserted;
      }
      ghost var v2 := bp.Snapshot();
      QueueStays(v, v2, held, pages);
      AllDirtyStays(v, v2, held, [leaf, next]);
      LeafSplitSame(v0, v, v2, s, key, val, next);
      var handed := AbsorbLeaf(frame, newPageId, request.value, key, val, v0, s, next);
      if handed.Thrown? { return HandThrew; }
      ClimbedRises(v0, bp.Snapshot(), s, key, val, next, handed.value, Stacked(s, key)[..|frameQueue|]);
      return HandedUp(handed.value);
    }

    /** A page on its way up is the new leaf right after a leaf was split, and an inner page after an inner node was. */
    lemma WhatRises(v0: State, v: State, s: Shape, key: Key, val: Val, next: int, newPageId: int, pages: seq<int>)
      requires ShapeOk(s) && (s.OneInner? || s.TwoInner?)
      requires 0 < |pages| <= |Stacked(s, key)| && pages == Stacked(s, key)[..|pages|]
      requires |Stacked(s, key)| == if s.OneInner? then 1 else 2
      requires Rising(v0, v, s, key, val, next, Some(newPageId), pages)
      ensures Pins(v0, v, [TargetLeaf(s, key).page, newPageId] + pages)
      ensures AllDirty(v, [TargetLeaf(s, key).page, newPageId]) && DirtyIn(v, newPageId)
      ensures next <= newPageId < bp.nextPage <= next + 2
      ensures bp.nextPage <= PagesAfter(s, key, val, next)
      ensures v.Logical(newPageId).kind.LeafKind? ==>
                && newPageId == next && pages == Stacked(s, key) && bp.nextPage == next + 1
                && |Grown(s, key, val).keys| == M && LeafSplit(v0, v, s, key, val, next)
      ensures v.Logical(newPageId).kind.InnerKind? ==> TreeSpec.Insert(s, key, val, next).Aborted?
    {
      hide ShapeOk, Pins, PathTo, TargetLeaf, Grown, Wider, LeafSplit, TreeSpec.Insert, Stacked, PagesAfter, InnerIn;
      PagesTaken(s, key, val, next);
      AllDirtyAt(v, [TargetLeaf(s, key).page, newPageId], 1);
      KindTells(v0, v, s, key, val, next, newPageId);
      if newPageId != next { InnerSplitAborts(v0, v, s, key, val, next); }
    }

    lemma ClimbedRises(
      v0: State, v: State, s: Shape, key: Key, val: Val, next: int, newPageId: Option<int>, pages: seq<int>)
      requires ShapeOk(s) && (s.OneInner? || s.TwoInner?)
      requires |pages| == |Stacked(s, key)| - 1 && pages == Stacked(s, key)[..|pages|]
      requires Climbed(v0, v, s, key, val, next, newPageId, pages)
      ensures Rising(v0, v, s, key, val, next, newPageId, pages)
    {
      hide ShapeOk, ShapeIn, Pins, PathTo, TargetLeaf, InnerSplit, TreeSpec.Insert, Stacked;
    }

    /** What is on its way up: nothing, the new leaf, or the new inner node. */
    ghost predicate Rising(
      v0: State, v: State, s: Shape, key: Key, val: Val, next: int, newPageId: Option<int>, pages: seq<int>)
      requires ShapeOk(s) && (s.OneInner? || s.TwoInner?)
      reads this`rootPageId, bp`nextPage
    {
      if newPageId == Some(next) then
        && bp.nextPage == next + 1 && pages == Stacked(s, key)
        && |Grown(s, key, val).keys| == M && LeafSplit(v0, v, s, key, val, next)
        && Pins(v0, v, [TargetLeaf(s, key).page, next] + pages) && AllDirty(v, [TargetLeaf(s, key).page, next])
      else
        && |pages| <= |Stacked(s, key)| && pages == Stacked(s, key)[..|pages|]
        && (newPageId.Some? ==> |pages| == |Stacked(s, key)| - 1)
        && Climbed(v0, v, s, key, val, next, newPageId, pages)
    }

    /** The inner node on top of the stack takes in the new leaf, and is split if that fills it. */
    method AbsorbLeaf(
      frame: Frame, newPageId: int, newNodeFrame: Frame, ghost key: Key, ghost val: Val, ghost v0: State, ghost s: Shape,
      ghost next: int)
      returns (r: Outcome<Option<int>>)
      requires bp.Valid() && InUse() && Near() && newPageId == next && next >= 0
      requires bp.nextPage == next + 1 <= |bp.disk.file|
      requires v0.Disciplined() && ShapeOk(s) && (s.OneInner? || s.TwoInner?) && Placed(s, next)
      requires ShapeIn(v0, rootPageId, s) && key !in AllKeys(s)
      requires |Grown(s, key, val).keys| == M && LeafSplit(v0, bp.Snapshot(), s, key, val, next)
      requires QueueIs(bp.Snapshot(), Stacked(s, key)) && AllDirty(bp.Snapshot(), [TargetLeaf(s, key).page, next])
      requires Pins(v0, bp.Snapshot(), [TargetLeaf(s, key).page, next] + Stacked(s, key))
      requires DirtyIn(bp.Snapshot(), SideOf(s, key).page) && FrameHolds(bp.Snapshot(), SideOf(s, key).page, frame)
      requires FrameHolds(bp.Snapshot(), next, newNodeFrame) && newNodeFrame.data == bp.Snapshot().Logical(next)
      requires Prepared(s, key, val, next)
      modifies this`frameQueue, bp`nextPage, bp`pageTable, bp`emptyFrames, bp.disk, bp.replacer, bp.frames
      ensures bp.Valid() && InUse()
      ensures r.Thrown? ==> bp.maxFrames < |reach| && bp.maxFrames < bp.nextPage <= PagesAfter(s, key, val, next)
      ensures r.Returned? ==> Near()
      ensures r.Returned? ==>
                && bp.nextPage <= |bp.disk.file|
                && |frameQueue| == |Stacked(s, key)| - 1
                && QueueIs(bp.Snapshot(), Stacked(s, key)[..|frameQueue|])
                && Climbed(v0, bp.Snapshot(), s, key, val, next, r.value, Stacked(s, key)[..|frameQueue|])
    {
      hide PagesAfter, bp.Valid, bp.ValidFrames, bp.Snapshot, bp.Residents, Pins, ShapeOk, ShapeIn, LeafSplit,
           LeafTakenIn, InnerSplit, Placed, Grown, Wider, SideOf, PathTo, TargetLeaf, Stacked, AllDirty, Stay, DirtyStay,
           SameLogical, SameExcept, TreeSpec.Insert;
      ghost var leaf, above, v := TargetLeaf(s, key).page, Stacked(s, key), bp.Snapshot();
      StackedFacts(s, key, next);
      ghost var held := [leaf, next] + above;
      HeldPages(leaf, next, above);
      TakeInLeaf(frame, newPageId, newNodeFrame, key, val, v0, s, next, held);
      ghost var v1 := bp.Snapshot();
      QueueStays(v, v1, held, above);
      AllDirtyStays(v, v1, held, [leaf, next]);
      r := SplitIfFull(frame, newNodeFrame, newPageId, key, val, v0, s, next);
    }

    method SplitIfFull(
      frame: Frame, newNodeFrame: Frame, newPageId: int, ghost key: Key, ghost val: Val, ghost v0: State, ghost s: Shape,
      ghost next: int)
      returns (r: Outcome<Option<int>>)
      requires bp.Valid() && InUse() && Near() && next >= 0 && bp.nextPage == next + 1 <= |bp.disk.file|
      requires v0.Disciplined() && ShapeOk(s) && (s.OneInner? || s.TwoInner?) && Placed(s, next)
      requires ShapeIn(v0, rootPageId, s) && |Grown(s, key, val).keys| == M
      requires LeafTakenIn(v0, bp.Snapshot(), s, key, val, next)
      requires QueueIs(bp.Snapshot(), Stacked(s, key)) && AllDirty(bp.Snapshot(), [TargetLeaf(s, key).page, next])
      requires Pins(v0, bp.Snapshot(), [TargetLeaf(s, key).page, next] + Stacked(s, key))
      requires FrameHolds(bp.Snapshot(), next, newNodeFrame) && FrameHolds(bp.Snapshot(), SideOf(s, key).page, frame)
      requires DirtyIn(bp.Snapshot(), SideOf(s, key).page) && frame.data == bp.Snapshot().Logical(SideOf(s, key).page)
      requires Prepared(s, key, val, next)
      modifies this`frameQueue, bp`nextPage, bp`pageTable, bp`emptyFrames, bp.disk, bp.replacer, bp.frames
      ensures bp.Valid() && InUse()
      ensures r.Thrown? ==> bp.maxFrames < |reach| && bp.maxFrames < bp.nextPage <= PagesAfter(s, key, val, next)
      ensures r.Returned? ==> Near()
      ensures r.Returned? ==>
                && bp.nextPage <= |bp.disk.file|
                && |Stacked(s, key)| > 0 && QueueIs(bp.Snapshot(), Stacked(s, key)[..|Stacked(s, key)| - 1])
                && Climbed(v0, bp.Snapshot(), s, key, val, next, r.value, Stacked(s, key)[..|Stacked(s, key)| - 1])
    {
      hide PagesAfter, bp.Valid, bp.ValidFrames, bp.Snapshot, bp.Residents, Pins, ShapeOk, ShapeIn, LeafSplit,
           LeafTakenIn, InnerSplit, Placed, Grown, Wider, SideOf, PathTo, TargetLeaf, Stacked, AllDirty, Stay, DirtyStay,
           SameLogical, SameExcept, TreeSpec.Insert, Climbed, InnerIn, HeadIn, LeafIn, LeafPages, Distinct;
      ghost var leaf, above, v := TargetLeaf(s, key).page, Stacked(s, key), bp.Snapshot();
      StackedFacts(s, key, next);
      PagesTaken(s, key, val, next);
      WiderSize(v0, v, s, key, val, next);
      if frame.data.currentSize != frame.data.maxSize {
        LetGo(newNodeFrame, key, val, v0, s, next);
        return Returned(None);
      }
      r := SplitAndLetGo(frame, newNodeFrame, newPageId, key, val, v0, s, next);
    }

    method SplitAndLetGo(
      frame: Frame, newNodeFrame: Frame, newPageId: int, ghost key: Key, ghost val: Val, ghost v0: State, ghost s: Shape,
      ghost next: int)
      returns (r: Outcome<Option<int>>)
      requires bp.Valid() && InUse() && Near() && next >= 0 && bp.nextPage == next + 1 <= |bp.disk.file|
      requires next + 1 in reach
      requires v0.Disciplined() && ShapeOk(s) && (s.OneInner? || s.TwoInner?) && Placed(s, next)
      requires |Grown(s, key, val).keys| == M && |Wider(s, key, val, next).kids| == M
      requires LeafTakenIn(v0, bp.Snapshot(), s, key, val, next)
      requires QueueIs(bp.Snapshot(), Stacked(s, key)) && AllDirty(bp.Snapshot(), [TargetLeaf(s, key).page, next])
      requires Pins(v0, bp.Snapshot(), [TargetLeaf(s, key).page, next] + Stacked(s, key))
      requires FrameHolds(bp.Snapshot(), next, newNodeFrame) && FrameHolds(bp.Snapshot(), SideOf(s, key).page, frame)
      requires DirtyIn(bp.Snapshot(), SideOf(s, key).page)
      modifies this`frameQueue, bp`nextPage, bp`pageTable, bp`emptyFrames, bp.disk, bp.replacer, bp.frames
      ensures bp.Valid() && InUse()
      ensures r.Thrown? ==> bp.maxFrames < |reach| && bp.maxFrames < bp.nextPage <= next + 2
      ensures r.Returned? ==> Near()
      ensures r.Returned? ==>
                && bp.nextPage <= |bp.disk.file|
                && |Stacked(s, key)| > 0 && QueueIs(bp.Snapshot(), Stacked(s, key)[..|Stacked(s, key)| - 1])
                && Climbed(v0, bp.Snapshot(), s, key, val, next, r.value, Stacked(s, key)[..|Stacked(s, key)| - 1])
    {
      hide bp.Valid, bp.ValidFrames, bp.Snapshot, bp.Residents, Pins, ShapeOk, ShapeIn, LeafSplit, LeafTakenIn,
           InnerSplit, Placed, Grown, Wider, SideOf, PathTo, TargetLeaf, Stacked, AllDirty, Stay, DirtyStay,
           SameLogical, SameExcept, Climbed, Distinct;
      ghost var leaf, above, v := TargetLeaf(s, key).page, Stacked(s, key), bp.Snapshot();
      StackedFacts(s, key, next);
      ghost var held := [leaf, next] + above;
      HeldPages(leaf, next, above);
      var splitOff :- SplitInnerNode(frame, newPageId, key, val, v0, s, next, held);
      ghost var v1 := bp.Snapshot();
      QueueStays(v, v1, held, above);
      AllDirtyStays(v, v1, held, [leaf, next]);
      HeldFrame(v, v1, held, next);
      LetGoSplit(newNodeFrame, key, val, v0, s, next);
      return Returned(Some(splitOff));
    }

    lemma HeldPages(leaf: int, next: int, above: seq<int>)
      requires above != []
      ensures var held := [leaf, next] + above;
              && (forall p :: p in held <==> p == leaf || p == next || p in above)
              && (forall i :: 0 <= i < |above| ==> above[i] in held)
              && above[|above| - 1] in held
    {
    }

    lemma QueueStays(v: State, v1: State, held: seq<int>, pages: seq<int>)
      requires QueueIs(v, pages) && Stay(v, v1, held) && forall i :: 0 <= i < |pages| ==> pages[i] in held
      ensures QueueIs(v1, pages)
    {
      forall i | 0 <= i < |pages|
        ensures FrameHolds(v1, pages[i], frameQueue[i])
      {
        HeldFrame(v, v1, held, pages[i]);
      }
    }

    /** The inner node had room: both frames are unpinned and the insertion is complete. */
    method LetGo(newNodeFrame: Frame, ghost key: Key, ghost val: Val, ghost v0: State, ghost s: Shape, ghost next: int)
      requires bp.Valid() && bp.nextPage == next + 1
      requires v0.Disciplined() && ShapeOk(s) && (s.OneInner? || s.TwoInner?) && Placed(s, next)
      requires ShapeIn(v0, rootPageId, s) && |Grown(s, key, val).keys| == M && |Wider(s, key, val, next).kids| < M
      requires LeafTakenIn(v0, bp.Snapshot(), s, key, val, next)
      requires FrameHolds(bp.Snapshot(), next, newNodeFrame)
      requires QueueIs(bp.Snapshot(), Stacked(s, key)) && AllDirty(bp.Snapshot(), [TargetLeaf(s, key).page, next])
      requires Pins(v0, bp.Snapshot(), [TargetLeaf(s, key).page, next] + Stacked(s, key))
      modifies this`frameQueue, newNodeFrame`pinCount, frameQueue`pinCount
      ensures bp.Valid() && |Stacked(s, key)| > 0
      ensures QueueIs(bp.Snapshot(), Stacked(s, key)[..|Stacked(s, key)| - 1])
      ensures Climbed(v0, bp.Snapshot(), s, key, val, next, None, Stacked(s, key)[..|Stacked(s, key)| - 1])
    {
      hide bp.Valid, bp.ValidFrames, bp.Snapshot, bp.Residents, Pins, ShapeOk, ShapeIn, LeafTakenIn, Placed,
           Grown, Wider, SideOf, PathTo, TargetLeaf, Stacked, SameLogical, TreeSpec.Insert, OnlyPins;
      ghost var leaf, above, v := TargetLeaf(s, key).page, Stacked(s, key), bp.Snapshot();
      StackedFacts(s, key, next);
      TakenInDone(v0, v, rootPageId, s, key, val, next);
      AllDirtyAt(v, [leaf, next], 0);
      AllDirtyAt(v, [leaf, next], 1);
      ReleaseBoth(newNodeFrame, next, v0, [leaf], [leaf, next] + above, above);
      OnlyPinsKeeps(v, bp.Snapshot(), [leaf]);
      ShapeInSame(v, bp.Snapshot(), rootPageId, TreeSpec.Insert(s, key, val, next).shape);
    }

    /** The inner node was split: both frames are unpinned and the split goes on upwards. */
    method LetGoSplit(newNodeFrame: Frame, ghost key: Key, ghost val: Val, ghost v0: State, ghost s: Shape, ghost next: int)
      requires bp.Valid() && bp.nextPage == next + 2
      requires v0.Disciplined() && ShapeOk(s) && (s.OneInner? || s.TwoInner?) && Placed(s, next)
      requires InnerSplit(v0, bp.Snapshot(), s, key, val, next)
      requires FrameHolds(bp.Snapshot(), next, newNodeFrame) && DirtyIn(bp.Snapshot(), next + 1)
      requires QueueIs(bp.Snapshot(), Stacked(s, key)) && AllDirty(bp.Snapshot(), [TargetLeaf(s, key).page, next])
      requires Pins(v0, bp.Snapshot(), [TargetLeaf(s, key).page, next] + Stacked(s, key) + [next + 1])
      modifies this`frameQueue, newNodeFrame`pinCount, frameQueue`pinCount
      ensures bp.Valid() && |Stacked(s, key)| > 0
      ensures QueueIs(bp.Snapshot(), Stacked(s, key)[..|Stacked(s, key)| - 1])
      ensures Climbed(v0, bp.Snapshot(), s, key, val, next, Some(next + 1), Stacked(s, key)[..|Stacked(s, key)| - 1])
    {
      hide bp.Valid, bp.ValidFrames, bp.Snapshot, bp.Residents, Pins, ShapeOk, ShapeIn, InnerSplit, Placed,
           Grown, Wider, SideOf, PathTo, TargetLeaf, Stacked, SameLogical, TreeSpec.Insert, OnlyPins;
      ghost var leaf, above, v := TargetLeaf(s, key).page, Stacked(s, key), bp.Snapshot();
      StackedFacts(s, key, next);
      AllDirtyAt(v, [leaf, next], 0);
      AllDirtyAt(v, [leaf, next], 1);
      ReleaseBoth(newNodeFrame, next, v0, [leaf, next + 1], [leaf, next] + above + [next + 1], above);
      OnlyPinsKeeps(v, bp.Snapshot(), [leaf, next + 1]);
      InnerSplitSame(v0, v, bp.Snapshot(), s, key, val, next);
    }

    /** Unpins the new node and then the inner node, which leaves the stack. */
    method ReleaseBoth(
      newNodeFrame: Frame, ghost next: int, ghost v0: State, ghost extra: seq<int>, ghost held: seq<int>,
      ghost pages: seq<int>)
      requires bp.Valid() && v0.Disciplined() && Pins(v0, bp.Snapshot(), held)
      requires FrameHolds(bp.Snapshot(), next, newNodeFrame) && next in bp.Snapshot().resident
      requires forall p :: p in held <==> p in extra || p in pages || p == next
      requires next !in extra && next !in pages && Distinct(pages)
      requires frameQueue != [] && QueueIs(bp.Snapshot(), pages) && pages[|pages| - 1] !in extra
      modifies this`frameQueue, newNodeFrame`pinCount, Top()`pinCount
      ensures bp.Valid() && OnlyPins(old(bp.Snapshot()), bp.Snapshot())
      ensures Pins(v0, bp.Snapshot(), extra + pages[..|pages| - 1])
      ensures QueueIs(bp.Snapshot(), pages[..|pages| - 1])
    {
      hide bp.Valid, bp.ValidFrames, bp.Snapshot, bp.Residents, Pins;
      ghost var v := bp.Snapshot();
      ghost var ordered := extra + pages + [next];
      Reordered(held, extra, pages, next);
      SameHeld(v0, v, held, ordered);
      Release(newNodeFrame, v0, extra + pages, next);
      ghost var v1 := bp.Snapshot();
      OnlyPinsKeeps(v, v1, pages);
      Pop(v0, extra, pages);
      OnlyPinsChains(v, v1, bp.Snapshot());
    }

    /** What the descent left is the start of the way up. */
    lemma StartsRising(v0: State, v: State, s: Shape, key: Key, val: Val, next: int, newPageId: Option<int>)
      requires ShapeOk(s) && (s.OneInner? || s.TwoInner?) && Placed(s, next) && ShapeIn(v0, rootPageId, s)
      requires LeafStage(v0, v, s, key, val, next, newPageId)
      requires bp.nextPage == if newPageId.Some? then next + 1 else next
      ensures Rising(v0, v, s, key, val, next, newPageId, Stacked(s, key)) && QueueIs(v, Stacked(s, key))
    {
      hide ShapeOk, ShapeIn, Placed, PathTo, TargetLeaf, Stacked, Pins, Grown, LeafFits, LeafSplit, DirtyIn,
           TreeSpec.Insert;
      var leaf := TargetLeaf(s, key).page;
      PathSplits(s, key, next);
      match newPageId
      case None =>
        FitsDone(v0, v, rootPageId, s, key, val, next);
        SameHeld(v0, v, PathTo(s, key), [leaf] + Stacked(s, key));
      case Some(_) =>
        LeafWasFull(v0, v, s, key, val, next);
        SameHeld(v0, v, PathTo(s, key) + [next], [leaf, next] + Stacked(s, key));
    }

    /** Nothing is handed up any more: the frame on top of the stack is only unpinned. */
    method LetGoUnchanged(ghost key: Key, ghost val: Val, ghost v0: State, ghost s: Shape, ghost next: int)
      requires bp.Valid() && v0.Disciplined() && frameQueue != []
      requires ShapeOk(s) && (s.OneInner? || s.TwoInner?) && Placed(s, next)
      requires |frameQueue| <= |Stacked(s, key)| && QueueIs(bp.Snapshot(), Stacked(s, key)[..|frameQueue|])
      requires Rising(v0, bp.Snapshot(), s, key, val, next, None, Stacked(s, key)[..|frameQueue|])
      modifies this`frameQueue, Top()`pinCount
      ensures bp.Valid() && |frameQueue| == |old(frameQueue)| - 1
      ensures QueueIs(bp.Snapshot(), Stacked(s, key)[..|frameQueue|])
      ensures Rising(v0, bp.Snapshot(), s, key, val, next, None, Stacked(s, key)[..|frameQueue|])
    {
      hide bp.Valid, bp.ValidFrames, bp.Snapshot, bp.Residents, Pins, ShapeOk, ShapeIn, PathTo, TargetLeaf,
           Stacked, Placed, AllDirty, SameLogical, TreeSpec.Insert, OnlyPins;
      ghost var n, v, leaf := |frameQueue| - 1, bp.Snapshot(), TargetLeaf(s, key).page;
      ghost var pages := Stacked(s, key)[..n + 1];
      StackedFacts(s, key, next);
      Pop(v0, [leaf], pages);
      assert pages[..n] == Stacked(s, key)[..n];
      OnlyPinsKeeps(v, bp.Snapshot(), [leaf]);
      ShapeInSame(v, bp.Snapshot(), rootPageId, TreeSpec.Insert(s, key, val, next).shape);
    }

    /** The way up the stack, a new root if the old one was split, and the flush. */
    method Propagate(
      pageSplitOff: Option<int>, ghost key: Key, ghost val: Val, ghost v0: State, ghost s: Shape, ghost next: int)
      returns (r: InsertOutcome)
      requires bp.Valid() && InUse() && Near() && next >= 0 && bp.nextPage <= |bp.disk.file| && v0.Disciplined()
      requires ShapeOk(s) && (s.OneInner? || s.TwoInner?) && Placed(s, next)
      requires ShapeIn(v0, rootPageId, s) && key !in AllKeys(s)
      requires bp.nextPage == if pageSplitOff.Some? then next + 1 else next
      requires LeafStage(v0, bp.Snapshot(), s, key, val, next, pageSplitOff)
      requires Prepared(s, key, val, next)
      modifies this`rootPageId, this`frameQueue, bp`nextPage, bp`pageTable, bp`emptyFrames, bp.disk, bp.replacer, bp.frames
      ensures bp.Valid() && InUse()
      ensures r.Threw? ==> bp.maxFrames < |reach| && bp.maxFrames < bp.nextPage <= PagesAfter(s, key, val, next)
      ensures r.AssertFailed? ==> TreeSpec.Insert(s, key, val, next).Aborted?
      ensures r.Done? ==> OnlyKeepers()
      ensures r.Done? ==>
                && r.flushed && TreeSpec.Insert(s, key, val, next).Inserted?
                && Settled(v0, TreeSpec.Insert(s, key, val, next).shape, TreeSpec.Insert(s, key, val, next).next)
    {
      hide PagesAfter, bp.Valid, bp.ValidFrames, bp.Snapshot, bp.Residents, Pins, ShapeOk, ShapeIn, LeafStage, Rising,
           Placed, PathTo, TargetLeaf, Stacked, AllDirty, SameLogical, TreeSpec.Insert, AllKeys;
      StackedFacts(s, key, next);
      StartsRising(v0, bp.Snapshot(), s, key, val, next, pageSplitOff);
      var newPageId := pageSplitOff;
      assert Stacked(s, key) == Stacked(s, key)[..|frameQueue|];
      while frameQueue != []
        invariant bp.Valid() && InUse() && Near() && bp.nextPage <= |bp.disk.file| && |frameQueue| <= |Stacked(s, key)|
        invariant QueueIs(bp.Snapshot(), Stacked(s, key)[..|frameQueue|])
        invariant Rising(v0, bp.Snapshot(), s, key, val, next, newPageId, Stacked(s, key)[..|frameQueue|])
        invariant rootPageId == old(rootPageId)
        decreases |frameQueue|
      {
        if newPageId.None? {
          LetGoUnchanged(key, val, v0, s, next);
          continue;
        }
        var handed := HandUp(newPageId.value, key, val, v0, s, next);
        match handed {
          case HandAsserted => return AssertFailed;
          case HandThrew => return Threw;
          case HandedUp(id) => newPageId := id;
        }
      }
      r := FinishPropagation(newPageId, key, val, v0, s, next);
    }

    method FinishPropagation(
      newPageId: Option<int>, ghost key: Key, ghost val: Val, ghost v0: State, ghost s: Shape, ghost next: int)
      returns (r: InsertOutcome)
      requires bp.Valid() && InUse() && Near() && next >= 0 && bp.nextPage <= |bp.disk.file| && v0.Disciplined()
      requires ShapeOk(s) && (s.OneInner? || s.TwoInner?) && Placed(s, next) && ShapeIn(v0, rootPageId, s)
      requires frameQueue == [] && Rising(v0, bp.Snapshot(), s, key, val, next, newPageId, [])
      requires Prepared(s, key, val, next)
      modifies this`rootPageId, bp`nextPage, bp`pageTable, bp`emptyFrames, bp.disk, bp.replacer, bp.frames
      ensures bp.Valid() && InUse() && !r.AssertFailed?
      ensures r.Threw? ==> bp.maxFrames < |reach| && bp.maxFrames < bp.nextPage <= PagesAfter(s, key, val, next)
      ensures r.Done? ==> OnlyKeepers()
      ensures r.Done? ==>
                && r.flushed && TreeSpec.Insert(s, key, val, next).Inserted?
                && Settled(v0, TreeSpec.Insert(s, key, val, next).shape, TreeSpec.Insert(s, key, val, next).next)
    {
      hide PagesAfter, bp.Valid, bp.ValidFrames, bp.Snapshot, bp.Residents, Pins, ShapeOk, InnerSplit, Placed, PathTo,
           TargetLeaf, Stacked, AllDirty, SameLogical, TreeSpec.Insert;
      StackedFacts(s, key, next);
      PagesTaken(s, key, val, next);
      ghost var leaf := TargetLeaf(s, key).page;
      if newPageId.None? {
        assert [leaf] + [] == [leaf];
        r := Finish(v0, [leaf], TreeSpec.Insert(s, key, val, next).shape, TreeSpec.Insert(s, key, val, next).next);
        return;
      }
      ghost var held := [leaf, next + 1];
      assert held + [] == held;
      RootNotHeld(s, key, next);
      InnerWasFull(v0, bp.Snapshot(), s, key, val, next);
      assert s.inner.page in reach by { RootOnPath(s, key); }
      var created := CreateRootWithInnerNodes(rootPageId, newPageId.value, key, val, v0, s.inner, next, held);
      if !created { return Threw; }
      r := Finish(v0, held + [s.inner.page] + [next + 2], TreeSpec.Insert(s, key, val, next).shape, next + 3);
    }

    lemma StackTells(v0: State, v: State, s: Shape, key: Key, val: Val, next: int, newPageId: Option<int>)
      requires ShapeOk(s) && !s.Empty? && Placed(s, next) && ShapeIn(v0, rootPageId, s)
      requires LeafStage(v0, v, s, key, val, next, newPageId)
      ensures frameQueue == [] <==> s.OneLeaf?
      ensures newPageId.Some? ==> newPageId.value == next && |Grown(s, key, val).keys| == M
      ensures s.OneLeaf? && newPageId.None? ==>
                && TreeSpec.Insert(s, key, val, next).Inserted? && TreeSpec.Insert(s, key, val, next).next == next
                && ShapeIn(v, rootPageId, TreeSpec.Insert(s, key, val, next).shape)
                && Pins(v0, v, [s.leaf.page]) && AllDirty(v, [s.leaf.page])
    {
      hide ShapeOk, Pins, SameExcept, TreeSpec.Insert, LeafIn;
      if newPageId.None? { FitsDone(v0, v, rootPageId, s, key, val, next); }
    }

    lemma SettledFacts(v0: State, t: Shape, next: int)
      requires bp.Valid() && Settled(v0, t, next)
      ensures bp.nextPage == next <= |bp.disk.file|
      ensures bp.Snapshot().Disciplined() && bp.Snapshot().NothingDirty()
      ensures ShapeIn(bp.Snapshot(), rootPageId, t) && frameQueue == []
      ensures forall q :: q in bp.Snapshot().resident ==> bp.Snapshot().resident[q].pins == BasePins(v0, q)
    {
    }

    /** The descent and everything after it. */
    method InsertBelowRoot(key: Key, val: Val, ghost v0: State, ghost s: Shape, ghost next: int) returns (r: InsertOutcome)
      requires bp.Valid() && InUse() && Near() && next == bp.nextPage <= |bp.disk.file| && next >= 0
      requires v0 == bp.Snapshot()
      requires ShapeOk(s) && !s.Empty? && Placed(s, next) && ShapeIn(v0, rootPageId, s)
      requires v0.Disciplined() && frameQueue == [] && key !in AllKeys(s)
      requires Prepared(s, key, val, next)
      modifies this`rootPageId, this`frameQueue, bp`nextPage, bp`pageTable, bp`emptyFrames, bp.disk, bp.replacer, bp.frames
      ensures bp.Valid() && InUse()
      ensures r.Threw? ==> bp.maxFrames < |reach| && bp.maxFrames < bp.nextPage <= PagesAfter(s, key, val, next)
      ensures r.AssertFailed? ==> TreeSpec.Insert(s, key, val, next).Aborted?
      ensures r.Done? ==> OnlyKeepers()
      ensures r.Done? ==>
                && r.flushed && TreeSpec.Insert(s, key, val, next).Inserted?
                && Settled(v0, TreeSpec.Insert(s, key, val, next).shape, TreeSpec.Insert(s, key, val, next).next)
    {
      hide PagesAfter, bp.Valid, bp.ValidFrames, bp.Snapshot, bp.Residents, Pins, ShapeOk, ShapeIn, Placed, PathTo,
           TargetLeaf, TreeSpec.Insert, AllKeys, LeafStage, Settled;
      FreshInTarget(s, key);
      PagesTaken(s, key, val, next);
      var newPageId := FindPlaceForNewKeyAndInsert(key, val, s, next);
      if newPageId.Thrown? { return Threw; }
      StackTells(v0, bp.Snapshot(), s, key, val, next, newPageId.value);
      if newPageId.value.Some? && frameQueue == [] {
        r := SplitRootLeaf(newPageId.value.value, key, val, v0, s.leaf, next);
        return;
      }
      if frameQueue == [] {
        r := Finish(v0, [s.leaf.page], TreeSpec.Insert(s, key, val, next).shape, next);
        return;
      }
      r := Propagate(newPageId.value, key, val, v0, s, next);
    }

    /** An insertion for which the pages it may ask for have been written down. */
    method InsertPrepared(key: Key, val: Val, ghost v0: State, ghost s: Shape, ghost next: int) returns (r: InsertOutcome)
      requires Valid() && v0 == bp.Snapshot() && s == Shape() && next == bp.nextPage && key !in AllKeys(s)
      requires Near() && if s.Empty? then next in reach else Prepared(s, key, val, next)
      modifies this`rootPageId, this`frameQueue, bp`nextPage, bp`pageTable, bp`emptyFrames, bp.disk, bp.replacer, bp.frames
      ensures bp.Valid() && InUse()
      ensures r.Threw? ==>
                bp.maxFrames < |reach| && bp.maxFrames < bp.nextPage <= PagesAfter(s, key, val, next)
      ensures r.AssertFailed? ==> TreeSpec.Insert(s, key, val, next).Aborted?
      ensures r.Done? ==> OnlyKeepers()
      ensures r.Done? ==>
                && r.flushed && TreeSpec.Insert(s, key, val, next).Inserted?
                && Settled(v0, TreeSpec.Insert(s, key, val, next).shape, TreeSpec.Insert(s, key, val, next).next)
    {
      hide bp.Valid, bp.ValidFrames, bp.Snapshot, bp.Residents, Pins, ShapeOk, ShapeIn, Placed, TreeSpec.Insert,
           AllKeys, Run, Settled, PagesAfter, DistinctKeys, Near, Prepared, OnlyKeepers;
      RunPlaced(history);
      EmptyOrRooted(v0, rootPageId, s, next);
      if rootPageId == INVALID_PAGE_ID {
        r := InsertFirst(key, val);
        FirstInsert(key, val, next);
      } else {
        r := InsertBelowRoot(key, val, v0, s, next);
      }
    }

    lemma Prepare(s: Shape, key: Key, val: Val, next: int)
      requires ShapeOk(s)
      requires reach == bp.pageTable.Keys + AskedPages(s, key, val, next) && keepers == bp.pageTable.Keys + InnerIds(s)
      ensures Near() && |reach| <= |bp.pageTable| + 5
      ensures s.Empty? ==> next in reach
      ensures !s.Empty? ==> Prepared(s, key, val, next)
    {
      hide ShapeOk, AskedPages, InnerIds, PathTo, Stacked, PagesAfter;
      FewAsked(s, key, val, next);
      AtMostThoseToo(bp.pageTable.Keys, AskedPages(s, key, val, next));
      AskedHas(s, key, val, next);
    }

    /**
     Inserts a key that was never inserted before.  When that returns, the pages hold the tree the longer
     run leads to, no frame is dirty, and each pin count is what it was; the assertion fails only where
     that run has no next tree.
     */
    method Insert(key: Key, val: Val) returns (r: InsertOutcome)
      requires Valid() && !Names(history, key)
      modifies this, bp`nextPage, bp`pageTable, bp`emptyFrames, bp.disk, bp.replacer, bp.frames
      ensures bp.Valid() && InUse()
      ensures DistinctKeys(old(history) + [(key, val)])
      ensures r.AssertFailed? ==> Run(old(history) + [(key, val)]).Aborted?
      ensures r.Threw? ==>
                bp.maxFrames < |old(bp.pageTable.Keys) + AskedPages(old(Shape()), key, val, old(bp.nextPage))|
      ensures r.Threw? ==> bp.maxFrames < bp.nextPage <= PagesFor(old(history) + [(key, val)])
      ensures r.Done? ==>
                && r.flushed && Valid() && history == old(history) + [(key, val)]
                && forall q :: q in bp.Snapshot().resident ==>
                                 bp.Snapshot().resident[q].pins == BasePins(old(bp.Snapshot()), q)
      ensures r.Done? ==> ShapeIn(State(map[], bp.disk.file), rootPageId, Shape())
      ensures r.Done? && old(Balanced()) ==> Balanced()
      ensures r.Done? ==> forall p :: p in bp.pageTable ==> p in old(bp.pageTable) || p in InnerIds(Shape())
      ensures |old(bp.pageTable)| + 5 <= bp.maxFrames ==>
                !r.Threw? && (r.AssertFailed? <==> Run(old(history) + [(key, val)]).Aborted?)
      ensures PagesFor(old(history) + [(key, val)]) <= old(bp.nextPage) + 3
      ensures PagesFor(old(history) + [(key, val)]) <= bp.maxFrames ==>
                !r.Threw? && (r.AssertFailed? <==> Run(old(history) + [(key, val)]).Aborted?)
    {
      hide bp.Valid, bp.ValidFrames, bp.Snapshot, bp.Residents, Pins, ShapeOk, ShapeIn, Placed, TreeSpec.Insert,
           AllKeys, Run, Settled, PagesFor, PagesAfter, DistinctKeys, Names, Near, Prepared, AskedPages, InnerIds, InUse;
      ghost var v0, s, next, longer := bp.Snapshot(), Shape(), bp.nextPage, history + [(key, val)];
      RunPlaced(history);
      RunLonger(history, key, val);
      PagesForLonger(history, key, val);
      reach, keepers := bp.pageTable.Keys + AskedPages(s, key, val, next), bp.pageTable.Keys + InnerIds(s);
      Prepare(s, key, val, next);
      r := InsertPrepared(key, val, v0, s, next);
      if r.Done? {
        InnerIdsStay(s, key, val, next);
        SettledFacts(v0, Run(longer).shape, Run(longer).next);
        history := longer;
        FileHoldsTree();
      }
    }

    /** What the stack of frames and the pages look like when a new page id, or none, is handed up. */
    ghost predicate Climbed(
      v0: State, v: State, s: Shape, key: Key, val: Val, next: int, newPageId: Option<int>, above: seq<int>)
      requires ShapeOk(s) && (s.OneInner? || s.TwoInner?)
      reads this`rootPageId, bp`nextPage
    {
      match newPageId
      case None =>
        && TreeSpec.Insert(s, key, val, next).Inserted? && TreeSpec.Insert(s, key, val, next).next == bp.nextPage
        && ShapeIn(v, rootPageId, TreeSpec.Insert(s, key, val, next).shape)
        && Pins(v0, v, [TargetLeaf(s, key).page] + above) && AllDirty(v, [TargetLeaf(s, key).page])
      case Some(id) =>
        && id == next + 1 && bp.nextPage == next + 2
        && InnerSplit(v0, v, s, key, val, next)
        && Pins(v0, v, [TargetLeaf(s, key).page, next + 1] + above) && AllDirty(v, [TargetLeaf(s, key).page, next + 1])
    }

    /** The pages hold tree t, no frame is dirty, and every pin count is what it was in state v0. */
    ghost predicate Settled(v0: State, t: Shape, next: int)
      requires bp.Valid()
      reads this`rootPageId, this`frameQueue, bp, bp.disk, bp.replacer, bp.frames
    {
      && bp.nextPage == next <= |bp.disk.file|
      && bp.Snapshot().Disciplined() && bp.Snapshot().NothingDirty()
      && ShapeIn(bp.Snapshot(), rootPageId, t)
      && (forall q :: q in bp.Snapshot().resident ==> bp.Snapshot().resident[q].pins == BasePins(v0, q))
      && frameQueue == []
    }
  }

  /** What the inner node above a leaf just split looks like, and where the new leaf's least key belongs in it. */
  lemma SideFacts(v0: State, v: State, root: int, s: Shape, key: Key, val: Val, next: int)
    requires ShapeOk(s) && (s.OneInner? || s.TwoInner?) && Placed(s, next) && ShapeIn(v0, root, s)
    requires key !in AllKeys(s) && LeafSplit(v0, v, s, key, val, next)
    ensures var n := SideOf(s, key);
            && 0 <= n.page < next
            && HeadIn(v, n.page, n.seps, LeafPages(n.kids)) && Ascending(n.seps)
            && |n.kids| < M
    ensures LeafNode.IsLeaf(v.Logical(next)) && v.Logical(next).currentSize > 0
    ensures var n, upper := SideOf(s, key), UpperHalf(Grown(s, key, val), next);
            && |upper.keys| > 0
            && v.Logical(next).keys[0] == upper.keys[0]
            && upper.keys[0] !in n.seps
            && ChildSlot(n.seps, upper.keys[0]) == KidFor(n, key)
  {
    hide HeadIn, LeafIn, SameExcept, LeafNode.IsLeaf, LeafPages;
    SidePlaced(s, key, next);
    SideIn(v0, root, s, key);
    var n := SideOf(s, key);
    HeadUnchanged(v0, v, n.page, n.seps, LeafPages(n.kids), {Grown(s, key, val).page, next});
    UpperKeyAt(v0, v, s, key, val, next);
    NewLeafGoesRight(s, key, val, next);
  }

  /** A leaf that is split off belongs immediately right of the leaf it came from. */
  lemma NewLeafGoesRight(s: Shape, key: Key, val: Val, next: int)
    requires ShapeOk(s) && (s.OneInner? || s.TwoInner?) && key !in AllKeys(s) && |Grown(s, key, val).keys| == M
    ensures var n, upper := SideOf(s, key), UpperHalf(Grown(s, key, val), next);
            && |upper.keys| > 0 && Ascending(n.seps)
            && upper.keys[0] !in n.seps
            && ChildSlot(n.seps, upper.keys[0]) == KidFor(n, key)
  {
    FreshInTarget(s, key);
    match s
    case OneInner(n) => NewLeafSlot(n, Unbounded, Unbounded, key, val);
    case TwoInner(_, l, sep, r) =>
      if key < sep { NewLeafSlot(l, Unbounded, At(sep), key, val); } else { NewLeafSlot(r, At(sep), Unbounded, key, val); }
  }

  lemma WiderFacts(v0: State, v: State, s: Shape, key: Key, val: Val, next: int)
    requires ShapeOk(s) && (s.OneInner? || s.TwoInner?) && Placed(s, next)
    requires LeafTakenIn(v0, v, s, key, val, next) && |Wider(s, key, val, next).kids| == M
    ensures var wider := Wider(s, key, val, next);
            && wider.page == SideOf(s, key).page && 0 <= wider.page < next
            && HeadIn(v, wider.page, wider.seps, LeafPages(wider.kids)) && v.Logical(wider.page).currentSize == M
  {
    SidePlaced(s, key, next);
  }

  lemma RequestedPages(v: State, v1: State, id: int, shouldPin: bool)
    requires Requested(v, v1, id, shouldPin)
    ensures id in v1.resident && id < |v1.file| && |v.file| <= |v1.file| && v1.Logical(id) == v1.resident[id].data
    ensures forall p :: p in v1.resident ==> p == id || p in v.resident
  {
  }

  lemma StayPrefix(v: State, v1: State, held: seq<int>, p: int)
    requires forall i :: 0 <= i < |held| ==> held[i] in v.resident
    ensures Stay(v, v1, held + [p]) ==> Stay(v, v1, held)
  {
    assert forall i :: 0 <= i < |held| ==> (held + [p])[i] == held[i];
  }

  lemma RootFacts(v0: State, v: State, n: Inner, key: Key, val: Val, next: int)
    requires ShapeOk(OneInner(n)) && Placed(OneInner(n), next) && InnerSplit(v0, v, OneInner(n), key, val, next)
    ensures 0 <= n.page < next
    ensures |Grown(OneInner(n), key, val).keys| == M && |Wider(OneInner(n), key, val, next).kids| == M
    ensures var r := SplitInner(Wider(OneInner(n), key, val, next), next + 1);
            && HeadIn(v, n.page, r.left.seps, LeafPages(r.left.kids))
            && v.Logical(n.page).keys[v.Logical(n.page).currentSize - 1] == r.sep
  {
    hide KidOk, LeafOk, Within, Ascending, LeafInsert, LeafIn, SameExcept;
    SidePlaced(OneInner(n), key, next);
    var r := SplitInner(Wider(OneInner(n), key, val, next), next + 1);
    assert |LeafPages(r.left.kids)| == H + 1;
  }

  lemma HeadRead(v: State, p: int, seps: seq<Key>, kids: seq<int>)
    requires HeadIn(v, p, seps, kids)
    ensures var page := v.Logical(p);
            && InnerNode.IsInner(page) && page.currentSize >= 2
            && InnerNode.Seps(page) == seps && InnerNode.Kids(page) == kids && page.currentSize == |kids|
  {
  }

  lemma HeldFrame(v: State, v1: State, held: seq<int>, p: int)
    requires Stay(v, v1, held) && p in held
    ensures p in v.resident && p in v1.resident && v1.resident[p].frame == v.resident[p].frame
    ensures DirtyStay(v, v1, held) && DirtyIn(v, p) ==> DirtyIn(v1, p)
  {
    var i :| 0 <= i < |held| && held[i] == p;
  }

  /** The pages on the stack after the descent. */
  ghost function Stacked(s: Shape, key: Key): seq<int>
    requires ShapeOk(s) && !s.Empty?
  {
    PathTo(s, key)[..|PathTo(s, key)| - 1]
  }

  lemma StackedFacts(s: Shape, key: Key, next: int)
    requires ShapeOk(s) && (s.OneInner? || s.TwoInner?) && Placed(s, next)
    ensures var above, leaf := Stacked(s, key), TargetLeaf(s, key).page;
            && |above| == (if s.OneInner? then 1 else 2) && above[|above| - 1] == SideOf(s, key).page
            && Distinct(above) && leaf !in above && 0 <= leaf < next
            && (forall i :: 0 <= i < |above| ==> 0 <= above[i] < next)
            && (forall p :: p in above ==> 0 <= p < next)
  {
    PathPlaced(s, key, next);
    var path := PathTo(s, key);
    assert path[|path| - 1] == TargetLeaf(s, key).page;
  }

  lemma AskedHas(s: Shape, key: Key, val: Val, next: int)
    requires ShapeOk(s)
    ensures s.Empty? ==> next in AskedPages(s, key, val, next)
    ensures !s.Empty? ==> forall p :: p in PathTo(s, key) ==> p in AskedPages(s, key, val, next)
    ensures !s.Empty? ==> forall p :: p in Stacked(s, key) ==> p in InnerIds(s)
    ensures forall p :: next <= p < PagesAfter(s, key, val, next) ==> p in AskedPages(s, key, val, next)
  {
    hide KidOk, LeafOk, Within, Ascending, PagesAfter;
    if s.Empty? { FirstInsert(key, val, next); }
  }

  lemma FirstInsert(key: Key, val: Val, next: int)
    ensures TreeSpec.Insert(Empty, key, val, next) == Inserted(OneLeaf(Leaf(next, [key], [val])), next + 1)
    ensures PagesAfter(Empty, key, val, next) == next + 1
  {
  }

  lemma RunLonger(ops: seq<Op>, key: Key, val: Val)
    requires DistinctKeys(ops) && !Names(ops, key) && Run(ops).Inserted?
    ensures DistinctKeys(ops + [(key, val)])
    ensures ShapeOk(Run(ops).shape) && key !in AllKeys(Run(ops).shape)
    ensures Run(ops + [(key, val)]) == TreeSpec.Insert(Run(ops).shape, key, val, Run(ops).next)
  {
    var longer := ops + [(key, val)];
    assert longer[..|longer| - 1] == ops;
    KeysComeFromOps(Run(ops).shape, ops, key);
  }

  /** The pages a run takes, in terms of its last insertion. */
  lemma PagesForLonger(ops: seq<Op>, key: Key, val: Val)
    requires DistinctKeys(ops) && !Names(ops, key) && Run(ops).Inserted?
    ensures DistinctKeys(ops + [(key, val)])
    ensures PagesFor(ops + [(key, val)]) == PagesAfter(Run(ops).shape, key, val, Run(ops).next)
    ensures Run(ops).next <= PagesFor(ops + [(key, val)]) <= Run(ops).next + 3
  {
    var longer := ops + [(key, val)];
    assert longer[..|longer| - 1] == ops;
    RunLonger(ops, key, val);
    if !Run(ops).shape.Empty? { PagesTaken(Run(ops).shape, key, val, Run(ops).next); }
  }

  lemma {:induction false} Subset(a: set<int>, b: set<int>)
    requires a <= b
    ensures |a| <= |b|
  {
    assert b == a + (b - a);
  }

  lemma PathSplits(s: Shape, key: Key, next: int)
    requires ShapeOk(s) && !s.Empty? && Placed(s, next)
    ensures PathTo(s, key) == Stacked(s, key) + [TargetLeaf(s, key).page]
    ensures Stacked(s, key) == PathTo(s, key)[..|PathTo(s, key)| - 1]
  {
    hide PathTo, TargetLeaf;
    PathPlaced(s, key, next);
  }

  lemma LeafWasFull(v0: State, v: State, s: Shape, key: Key, val: Val, next: int)
    requires ShapeOk(s) && !s.Empty? && LeafSplit(v0, v, s, key, val, next)
    ensures |Grown(s, key, val).keys| == M
  {
  }

  lemma RootOnPath(s: Shape, key: Key)
    requires ShapeOk(s) && s.OneInner?
    ensures s.inner.page in PathTo(s, key)
  {
  }

  lemma InnerWasFull(v0: State, v: State, s: Shape, key: Key, val: Val, next: int)
    requires ShapeOk(s) && (s.OneInner? || s.TwoInner?) && InnerSplit(v0, v, s, key, val, next)
    ensures |Grown(s, key, val).keys| == M && |Wider(s, key, val, next).kids| == M
  {
  }

  lemma RootNotHeld(s: Shape, key: Key, next: int)
    requires ShapeOk(s) && s.OneInner? && Placed(s, next)
    ensures 0 <= s.inner.page < next && s.inner.page != TargetLeaf(s, key).page
  {
    SidePlaced(s, key, next);
  }

  lemma WiderSize(v0: State, v: State, s: Shape, key: Key, val: Val, next: int)
    requires ShapeOk(s) && (s.OneInner? || s.TwoInner?) && |Grown(s, key, val).keys| == M
    requires LeafTakenIn(v0, v, s, key, val, next)
    ensures var page := v.Logical(SideOf(s, key).page);
            page.maxSize == M && page.currentSize == |Wider(s, key, val, next).kids| <= M
  {
  }

  lemma Reordered(held: seq<int>, extra: seq<int>, pages: seq<int>, next: int)
    requires forall p :: p in held <==> p in extra || p in pages || p == next
    ensures forall i :: 0 <= i < |extra + pages + [next]| ==> (extra + pages + [next])[i] in held
    ensures forall i :: 0 <= i < |held| ==> held[i] in extra + pages + [next]
  {
    var ordered := extra + pages + [next];
    forall i | 0 <= i < |ordered|
      ensures ordered[i] in held
    {
      var p := ordered[i];
      if i < |extra| {
        assert p == extra[i];
      } else if i < |extra| + |pages| {
        assert p == pages[i - |extra|];
      }
      assert p in held;
    }
    forall i | 0 <= i < |held|
      ensures held[i] in ordered
    {
      var p := held[i];
      assert p in held;
      if p == next { assert ordered[|ordered| - 1] == p; }
    }
  }

  lemma AllDirtyAt(v: State, pages: seq<int>, i: nat)
    requires AllDirty(v, pages) && i < |pages|
    ensures DirtyIn(v, pages[i])
  {
  }

  lemma LeafSplitSame(v0: State, v: State, v1: State, s: Shape, key: Key, val: Val, next: int)
    requires ShapeOk(s) && !s.Empty? && LeafSplit(v0, v, s, key, val, next) && SameLogical(v, v1)
    ensures LeafSplit(v0, v1, s, key, val, next)
  {
    assert LeafIn(v, LowerHalf(Grown(s, key, val)));
  }

  /** The page handed up is a leaf right after a leaf was split, and an inner node right after an inner node was. */
  lemma KindTells(v0: State, v: State, s: Shape, key: Key, val: Val, next: int, newPageId: int)
    requires ShapeOk(s) && (s.OneInner? || s.TwoInner?)
    requires if newPageId == next then LeafSplit(v0, v, s, key, val, next)
             else newPageId == next + 1 && InnerSplit(v0, v, s, key, val, next)
    ensures v.Logical(newPageId).kind.InnerKind? <==> newPageId == next + 1
  {
  }

  lemma InnerSplitAborts(v0: State, v: State, s: Shape, key: Key, val: Val, next: int)
    requires ShapeOk(s) && s.TwoInner? && InnerSplit(v0, v, s, key, val, next)
    ensures TreeSpec.Insert(s, key, val, next).Aborted?
  {
    SplitAborts(s, key, val, next);
  }

  lemma SamePage(v: State, v1: State, p: int)
    requires SameLogical(v, v1)
    ensures v1.Logical(p) == v.Logical(p)
  {
  }

  lemma StartDescent(v0: State, root: int, s: Shape, k: Key, next: int)
    requires ShapeOk(s) && !s.Empty? && ShapeIn(v0, root, s) && Placed(s, next) && v0.Disciplined()
    ensures Pins(v0, v0, []) && PathTo(s, k)[0] == root
    ensures forall i :: 0 <= i < |PathTo(s, k)| ==> 0 <= PathTo(s, k)[i] < next
    ensures PathTo(s, k)[|PathTo(s, k)| - 1] == TargetLeaf(s, k).page
  {
    PathPlaced(s, k, next);
    PinsAtFirst(v0);
    PathStep(v0, root, s, k, 0);
  }

  /** After both halves have been written. */
  lemma LeafSplitWritten(
    v0: State, v: State, s: Shape, key: Key, val: Val, next: int, lower: Page, upper: Page)
    requires ShapeOk(s) && !s.Empty? && |Grown(s, key, val).keys| == M
    requires var leaf := TargetLeaf(s, key).page;
             && leaf != next && next in v.resident && DirtyIn(v, leaf)
             && SameExcept(v0, v, {leaf}) && Pins(v0, v, PathTo(s, key) + [next])
    requires LeafNode.IsLeaf(lower) && LeafNode.IsLeaf(upper)
    requires LeafNode.Keys(lower) == LowerHalf(Grown(s, key, val)).keys
    requires LeafNode.Vals(lower) == LowerHalf(Grown(s, key, val)).vals
    requires LeafNode.Keys(upper) == UpperHalf(Grown(s, key, val), next).keys
    requires LeafNode.Vals(upper) == UpperHalf(Grown(s, key, val), next).vals
    ensures var leaf := TargetLeaf(s, key).page;
            var after := Written(Written(v, leaf, lower), next, upper);
            && LeafSplit(v0, after, s, key, val, next)
            && Pins(v0, after, PathTo(s, key) + [next])
            && DirtyIn(after, leaf) && DirtyIn(after, next)
            && Stay(v, after, PathTo(s, key) + [next])
  {
    hide ShapeOk, PathTo, Pins, TargetLeaf, LeafNode.IsLeaf, LeafNode.Keys, LeafNode.Vals;
    var leaf := TargetLeaf(s, key).page;
    GrownPage(s, key, val);
    WritingKeepsPins(v0, v, PathTo(s, key) + [next], leaf, lower);
    WritingKeepsPins(v0, Written(v, leaf, lower), PathTo(s, key) + [next], next, upper);
  }

  /** A lookup in progress has changed no page and holds no pin. */
  ghost predicate Reading(v0: State, v: State) {
    Pins(v0, v, []) && SameLogical(v0, v) && v.NothingDirty()
  }

  /** No page is pinned or dirty. */
  ghost predicate Idle(v: State) {
    v.NothingDirty() && forall p :: p in v.resident ==> v.resident[p].pins == 0
  }

  lemma StillIdle(v0: State, v: State)
    requires Reading(v0, v) && Idle(v0)
    ensures Idle(v)
  {
  }

  lemma NothingRead(v: State)
    ensures SameLogical(v, v) && forall q :: q in v.resident ==> v.resident[q].pins == BasePins(v, q)
  {
  }

  lemma ReadingEnds(v0: State, v: State)
    requires Reading(v0, v)
    ensures SameLogical(v0, v) && v.NothingDirty()
    ensures forall q :: q in v.resident ==> v.resident[q].pins == BasePins(v0, q)
  {
  }

  lemma ReadingThrew(v0: State, v: State, v1: State)
    requires Reading(v0, v) && v1.resident == v.resident && v1.Disciplined() && SameLogical(v, v1)
    ensures Reading(v0, v1)
  {
    SameLogicalChains(v0, v, v1);
  }

  lemma PinsDisciplined(v0: State, v: State, held: seq<int>)
    requires Pins(v0, v, held)
    ensures v.Disciplined()
  {
  }

  // ----- when a lookup runs out of frames -----

  lemma AtMostMore(pages: set<int>, path: seq<int>)
    ensures |pages + Members(path)| <= |pages| + |path|
  {
    FewMembers(path);
    AtMostThoseToo(pages, Members(path));
  }

  lemma AtMostThoseToo(pages: set<int>, more: set<int>)
    ensures |pages + more| <= |pages| + |more|
  {
    assert pages + more == pages + (more - pages);
    Subset(more - pages, more);
  }

  /** A full page table within some pages and those of a path, one of which it lacks. */
  lemma FullOf(table1: map<int, int>, table: map<int, int>, path: seq<int>, d: nat, maxFrames: int)
    requires d < |path| && |table1| == maxFrames && path[d] !in table1
    requires forall p :: p in table1 ==> p in table || p in path
    ensures maxFrames < |table.Keys + Members(path)|
  {
    var all := table1.Keys + {path[d]};
    assert |all| == |table1| + 1;
    forall p | p in all
      ensures p in table.Keys + Members(path)
    {
      assert p != path[d] ==> p in table1;
    }
    Subset(all, table.Keys + Members(path));
  }

  ghost predicate Injective(table: map<int, int>) {
    forall p, q :: p in table && q in table && p != q ==> table[p] != table[q]
  }

  ghost predicate FirstAbsent(path: seq<int>, table: map<int, int>, d: int) {
    0 <= d < |path| && path[d] !in table && forall i :: 0 <= i < d ==> path[i] in table
  }

  /** The frame is that of one of the first d pages of the path. */
  ghost predicate AskedFor(path: seq<int>, table: map<int, int>, d: int, frame: int) {
    exists i :: 0 <= i < d && i < |path| && path[i] in table && table[path[i]] == frame
  }

  lemma AskedForOneMore(path: seq<int>, table: map<int, int>, d: nat, frame: int)
    requires d < |path| && path[d] in table
    ensures AskedFor(path, table, d + 1, frame) <==> AskedFor(path, table, d, frame) || table[path[d]] == frame
  {
    if AskedFor(path, table, d + 1, frame) {
      var i :| 0 <= i < d + 1 && i < |path| && path[i] in table && table[path[i]] == frame;
      if i < d { assert AskedFor(path, table, d, frame); }
    }
  }

  /** A pool without pins or dirty pages cannot serve the pages of the path one after the other. */
  ghost predicate Blocked(path: seq<int>, table: map<int, int>, evictable: set<int>, maxFrames: int) {
    && |table| == maxFrames
    && exists d :: FirstAbsent(path, table, d) && forall f :: f in evictable ==> AskedFor(path, table, d, f)
  }

  /** What the requests for the first d pages have made of the page table and the evictable frames. */
  ghost predicate Passing(
    path: seq<int>, table: map<int, int>, evictable: set<int>, maxFrames: int, d: nat, table1: map<int, int>,
    evictable1: set<int>)
    requires d <= |path|
  {
    if forall i :: 0 <= i < d ==> path[i] in table then
      && table1 == table
      && forall f :: f in evictable1 <==> f in evictable && !AskedFor(path, table, d, f)
    else
      && !Blocked(path, table, evictable, maxFrames)
      && exists j :: 0 <= j < d && path[j] in table1 && table1[path[j]] in evictable1
  }

  lemma PassingAtFirst(path: seq<int>, table: map<int, int>, evictable: set<int>, maxFrames: int)
    ensures Passing(path, table, evictable, maxFrames, 0, table, evictable)
  {
  }

  lemma PassingStep(
    path: seq<int>, table: map<int, int>, evictable: set<int>, maxFrames: int, d: nat, table1: map<int, int>,
    evictable1: set<int>, table2: map<int, int>, evictable2: set<int>)
    requires d < |path| && Distinct(path) && Injective(table1)
    requires Passing(path, table, evictable, maxFrames, d, table1, evictable1)
    requires !(path[d] !in table1 && |table1| == maxFrames && evictable1 == {})
    requires Granted(table1, evictable1, table2, evictable2, path[d])
    ensures Passing(path, table, evictable, maxFrames, d + 1, table2, evictable2)
  {
    if forall i :: 0 <= i < d ==> path[i] in table {
      if path[d] in table {
        forall f
          ensures AskedFor(path, table, d + 1, f) <==> AskedFor(path, table, d, f) || table[path[d]] == f
        {
          AskedForOneMore(path, table, d, f);
        }
      } else {
        FirstAbsentIsUnique(path, table, d);
        if |table| == maxFrames { var f := SomeMember(evictable1); }
      }
    } else {
      var j :| 0 <= j < d && path[j] in table1 && table1[path[j]] in evictable1;
      if path[d] in table1 { assert path[j] in table2 && table2[path[j]] in evictable2; }
    }
  }

  lemma PassingStops(
    path: seq<int>, table: map<int, int>, evictable: set<int>, maxFrames: int, d: nat, table1: map<int, int>,
    evictable1: set<int>)
    requires d < |path| && Passing(path, table, evictable, maxFrames, d, table1, evictable1)
    requires path[d] !in table1 && |table1| == maxFrames && evictable1 == {}
    ensures Blocked(path, table, evictable, maxFrames)
  {
    assert FirstAbsent(path, table, d);
  }

  lemma PassedAll(
    path: seq<int>, table: map<int, int>, evictable: set<int>, maxFrames: int, table1: map<int, int>, evictable1: set<int>)
    ensures Passing(path, table, evictable, maxFrames, |path|, table1, evictable1) ==>
              !Blocked(path, table, evictable, maxFrames)
  {
  }

  lemma FirstAbsentIsUnique(path: seq<int>, table: map<int, int>, d: nat)
    requires FirstAbsent(path, table, d)
    ensures forall e :: FirstAbsent(path, table, e) ==> e == d
  {
  }

  lemma LeafIsLast(page: Page, s: Shape, k: Key, d: nat)
    requires ShapeOk(s) && !s.Empty? && d < |PathTo(s, k)| && OnPath(page, s, k, d) && page.kind.LeafKind?
    ensures d == |PathTo(s, k)| - 1
  {
  }

  lemma FoundFromHistory(ops: seq<Op>, key: Key)
    requires DistinctKeys(ops) && Run(ops).Inserted?
    ensures forall i :: 0 <= i < |ops| && ops[i].0 == key ==> TreeSpec.Find(Run(ops).shape, key) == Some(ops[i].1)
    ensures Names(ops, key) <==> key in AllKeys(Run(ops).shape)
    ensures !Names(ops, key) ==> TreeSpec.Find(Run(ops).shape, key) == None
  {
    RunFinds(ops, key);
    FindMeaning(Run(ops).shape, key);
  }

  lemma EmptyOrRooted(v: State, root: int, s: Shape, next: int)
    requires ShapeIn(v, root, s) && Placed(s, next)
    ensures s.Empty? <==> root == INVALID_PAGE_ID
  {
    match s
    case Empty =>
    case OneLeaf(l) => assert l.page in PagesOf(s);
    case OneInner(n) => assert n.page in PagesOf(s);
    case TwoInner(p, _, _, _) => assert p in PagesOf(s);
  }

  lemma StartReading(v0: State, root: int, s: Shape, k: Key, next: int)
    requires ShapeOk(s) && !s.Empty? && ShapeIn(v0, root, s) && Placed(s, next)
    requires v0.Disciplined() && v0.NothingDirty()
    ensures Reading(v0, v0) && PathTo(s, k)[0] == root
    ensures forall i :: 0 <= i < |PathTo(s, k)| ==> 0 <= PathTo(s, k)[i] < next
    ensures PathTo(s, k)[|PathTo(s, k)| - 1] == TargetLeaf(s, k).page && Distinct(PathTo(s, k))
  {
    PathPlaced(s, k, next);
    PinsAtFirst(v0);
    PathStep(v0, root, s, k, 0);
  }

  lemma StillReading(v0: State, v: State, v1: State, id: int)
    requires Reading(v0, v) && Requested(v, v1, id, true) && SameLogical(v, v1)
    ensures SameLogical(v0, v1) && v1.NothingDirty()
  {
    forall q
      ensures v1.Logical(q) == v0.Logical(q)
    {
      assert v1.Logical(q) == v.Logical(q);
    }
  }

  lemma TargetOrdered(s: Shape, k: Key)
    requires ShapeOk(s) && !s.Empty?
    ensures Ascending(TargetLeaf(s, k).keys)
  {
    Locate(s, k);
    LocateInRow(s, k, LeftOf(s, k), RightOf(s, k));
  }
}
