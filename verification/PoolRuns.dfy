/**
 The buffer pool over whole runs of calls and client actions: it behaves like a flat array of pages.
 */
module PoolRuns {
  import opened Pages
  import opened DiskManagerMock
  import opened PoolState
  import opened BufferPool
  import opened LruK

  /** A call of the pool, or what a client does to the frame of a page. */
  datatype PoolCall =
    | Request(id: int, shouldPin: bool)
    | FlushAll
    | FlushOne(p: int)
    | Write(p: int, page: Page)
    | Unpin(p: int)

  /** What became of a call.  `seen` are the bytes in the frame that a request returned. */
  datatype PoolStep =
    | RequestReturned(id: int, shouldPin: bool, seen: Page)
    | RequestThrew(id: int)
    | FlushedPages
    | FlushedPage(p: int)
    | ClientWrote(p: int, page: Page)
    | ClientUnpinned(p: int)
    | NotMade

  /** How a step changes the pages. */
  ghost predicate Changed(before: State, step: PoolStep, after: State) {
    match step
    case RequestReturned(id, shouldPin, seen) =>
      Requested(before, after, id, shouldPin) && seen == after.resident[id].data
    case RequestThrew(id) =>
      && id !in before.resident
      && after.resident == before.resident && forall q :: PageAt(after.file, q) == PageAt(before.file, q)
    case FlushedPages =>
      FlushedAll(before, after)
    case FlushedPage(p) =>
      p in before.resident && before.resident[p].dirty && 0 <= p < |before.file| && after == Flushed(before, p, true)
    case ClientWrote(p, page) =>
      && p in before.resident
      && after == before.(resident := before.resident[p := before.resident[p].(dirty := true, data := page)])
    case ClientUnpinned(p) =>
      && p in before.resident && before.resident[p].pins > 0
      && after == before.(resident := before.resident[p := before.resident[p].(pins := before.resident[p].pins - 1)])
    case NotMade =>
      after == before
  }

  /**
     How a step changes the pool.  A request that returns drops no page but the displaced one; one that
     throws moves nothing, but costs the frame that was picked its record; a flush of pages frees their
     frames and takes away the records of those that are evictable.
   */
  ghost predicate Taken(before: PoolView, step: PoolStep, after: PoolView) {
    && after.maxFrames == before.maxFrames && Changed(before.state, step, after.state)
    && match step
       case RequestReturned(id, shouldPin, _) =>
         Served(before, after, id, shouldPin)
       case RequestThrew(id) =>
         && Refuses(before, id)
         && after.free == before.free && after.nodes == AfterRefusal(before.nodes) && after.clock == before.clock
       case FlushedPages =>
         && Freed(before.free, after.free, DirtyFrames(before.state))
         && after.nodes == Removed(before.nodes, DirtyFrames(before.state)) && after.clock == before.clock
       case FlushedPage(p) =>
         && p in before.state.resident && after.free == before.free + [before.state.resident[p].frame]
         && after.nodes == Removed(before.nodes, {before.state.resident[p].frame}) && after.clock == before.clock
       case _ =>
         after.free == before.free && after.nodes == before.nodes && after.clock == before.clock
  }

  /** The step is one the call can end in. */
  predicate Answers(step: PoolStep, call: PoolCall) {
    match step
    case RequestReturned(id, shouldPin, _) => call == Request(id, shouldPin)
    case RequestThrew(id) => call.Request? && call.id == id
    case FlushedPages => call.FlushAll?
    case FlushedPage(p) => call == FlushOne(p)
    case ClientWrote(p, page) => call == Write(p, page)
    case ClientUnpinned(p) => call == Unpin(p)
    case NotMade => !call.FlushAll?
  }

  ghost predicate RunOf(views: seq<PoolView>, steps: seq<PoolStep>) {
    && |views| == |steps| + 1
    && forall i :: 0 <= i < |steps| ==> Taken(views[i], steps[i], views[i + 1])
  }

  // ----- runs of the pool itself -----

  method MakeRequest(pool: Pool, id: int, shouldPin: bool) returns (step: PoolStep)
    requires pool.Valid() && 0 <= id < |pool.disk.file| + GROWTH
    modifies pool`pageTable, pool`emptyFrames, pool.disk, pool.replacer, pool.frames
    ensures pool.Valid()
    ensures Taken(old(pool.View()), step, pool.View()) && Answers(step, Request(id, shouldPin))
    ensures step.RequestReturned? <==> !old(pool.NoFrameFor(id))
    ensures !step.NotMade?
  {
    hide pool.Valid, Retained, Served, Refuses, AfterRefusal;
    pool.RefusedView(id);
    var r := pool.RequestPage(id, shouldPin);
    if r.Thrown? { return RequestThrew(id); }
    return RequestReturned(id, shouldPin, r.value.data);
  }

  method WriteToFrame(pool: Pool, p: int, page: Page)
    requires pool.Valid() && p in pool.pageTable
    modifies pool.frames
    ensures pool.Valid() && Taken(old(pool.View()), ClientWrote(p, page), pool.View())
  {
    hide pool.Valid;
    pool.ResidentFrame(p);
    var frame := pool.frames[pool.pageTable[p]];
    frame.isDirty := true;
    frame.data := page;
    pool.FrameTouched(p);
  }

  method UnpinFrame(pool: Pool, p: int)
    requires pool.Valid() && p in pool.pageTable && pool.frames[pool.pageTable[p]].pinCount > 0
    modifies pool.frames
    ensures pool.Valid() && Taken(old(pool.View()), ClientUnpinned(p), pool.View())
  {
    hide pool.Valid;
    pool.ResidentFrame(p);
    pool.frames[pool.pageTable[p]].DecreasePinCount();
    pool.FrameTouched(p);
  }

  method FlushFrame(pool: Pool, p: int)
    requires pool.Valid() && p in pool.pageTable && pool.frames[pool.pageTable[p]].isDirty
    modifies pool`pageTable, pool`emptyFrames, pool.disk, pool.replacer`nodes, pool.frames
    ensures pool.Valid() && Taken(old(pool.View()), FlushedPage(p), pool.View())
  {
    hide pool.Valid, Removed;
    pool.ResidentFrame(p);
    var _ := pool.FlushPage(p, true);
  }

  /**
     Makes one call of the pool.  Calls its callee does not accept are not made: a page id that is negative
     or out of reach of the file, a flush of a page that is not dirty, an action on a page without a frame,
     an unpin without a pin.
   */
  method MakeCall(pool: Pool, call: PoolCall) returns (step: PoolStep)
    requires pool.Valid()
    modifies pool`pageTable, pool`emptyFrames, pool.disk, pool.replacer, pool.frames
    ensures pool.Valid()
    ensures Taken(old(pool.View()), step, pool.View()) && Answers(step, call)
    ensures call.Request? && 0 <= call.id < |old(pool.disk.file)| + GROWTH ==>
              (step.RequestReturned? <==> !old(pool.NoFrameFor(call.id))) && !step.NotMade?
  {
    hide pool.Valid, Retained, pool.NoFrameFor, Served, Refuses, AfterRefusal, Removed, Freed, DirtyFrames, FlushedAll;
    match call {
      case Request(id, shouldPin) =>
        if !(0 <= id < |pool.disk.file| + GROWTH) { return NotMade; }
        step := MakeRequest(pool, id, shouldPin);
      case FlushAll =>
        var _ := pool.FlushPages();
        return FlushedPages;
      case FlushOne(p) =>
        if p !in pool.pageTable || !pool.frames[pool.pageTable[p]].isDirty { return NotMade; }
        FlushFrame(pool, p);
        return FlushedPage(p);
      case Write(p, page) =>
        if p !in pool.pageTable { return NotMade; }
        WriteToFrame(pool, p, page);
        return ClientWrote(p, page);
      case Unpin(p) =>
        if p !in pool.pageTable || pool.frames[pool.pageTable[p]].pinCount <= 0 { return NotMade; }
        UnpinFrame(pool, p);
        return ClientUnpinned(p);
    }
  }

  /** Any list of calls, made on any pool, is a run of such steps from the pool before to the pool after. */
  method Drive(pool: Pool, calls: seq<PoolCall>) returns (steps: seq<PoolStep>, ghost views: seq<PoolView>)
    requires pool.Valid()
    modifies pool`pageTable, pool`emptyFrames, pool.disk, pool.replacer, pool.frames
    ensures pool.Valid()
    ensures |steps| == |calls| && forall i :: 0 <= i < |calls| ==> Answers(steps[i], calls[i])
    ensures RunOf(views, steps) && views[0] == old(pool.View()) && views[|steps|] == pool.View()
    ensures old(pool.Snapshot()).Disciplined() ==>
              && pool.Snapshot().Disciplined()
              && (forall q :: pool.Snapshot().Logical(q) == LastWritten(old(pool.Snapshot()).Logical(q), steps, q))
              && SeesLastWrites(old(pool.Snapshot()), steps)
  {
    hide pool.Valid, pool.Snapshot, pool.Residents, Taken, LastWritten, SeesLastWrites;
    steps, views := [], [pool.View()];
    for i := 0 to |calls|
      invariant pool.Valid() && |steps| == i && RunOf(views, steps)
      invariant forall j :: 0 <= j < i ==> Answers(steps[j], calls[j])
      invariant views[0] == old(pool.View()) && views[i] == pool.View()
    {
      var step := MakeCall(pool, calls[i]);
      steps, views := steps + [step], views + [pool.View()];
    }
    if views[0].state.Disciplined() {
      forall q
        ensures pool.Snapshot().Logical(q) == LastWritten(old(pool.Snapshot()).Logical(q), steps, q)
      {
        RunRefinesFlatArray(views, steps, q);
      }
      RunRefinesFlatArray(views, steps, 0);
      RunSeesLastWrites(views, steps);
    }
  }

  // ----- what such runs are -----

  /** The flat array: a page is what was last written to it. */
  function LastWritten(page: Page, steps: seq<PoolStep>, q: int): Page {
    if steps == [] then page
    else
      var last := steps[|steps| - 1];
      if last.ClientWrote? && last.p == q then last.page else LastWritten(page, steps[..|steps| - 1], q)
  }

  /** Each request that returned showed the page as it was last written before. */
  ghost predicate SeesLastWrites(first: State, steps: seq<PoolStep>) {
    forall i :: 0 <= i < |steps| && steps[i].RequestReturned? ==>
                  steps[i].seen == LastWritten(first.Logical(steps[i].id), steps[..i], steps[i].id)
  }

  lemma StepRefines(before: State, step: PoolStep, after: State)
    requires Changed(before, step, after) && before.Disciplined()
    ensures after.Disciplined()
    ensures forall q :: after.Logical(q) ==
                        if step.ClientWrote? && step.p == q then step.page else before.Logical(q)
    ensures step.RequestReturned? ==> step.seen == before.Logical(step.id)
  {
    match step
    case RequestReturned(id, shouldPin, _) => RequestKeepsContent(before, after, id, shouldPin);
    case FlushedPages => FlushingKeepsContent(before, after);
    case _ =>
  }

  /**
     In every run from a disciplined state each page reads as it was last written, whatever was loaded,
     flushed or dropped.
   */
  lemma {:induction false} RunRefinesFlatArray(views: seq<PoolView>, steps: seq<PoolStep>, q: int)
    requires RunOf(views, steps) && views[0].state.Disciplined()
    ensures views[|steps|].state.Disciplined()
    ensures views[|steps|].state.Logical(q) == LastWritten(views[0].state.Logical(q), steps, q)
  {
    if steps != [] {
      var n := |steps| - 1;
      RunRefinesFlatArray(views[..n + 1], steps[..n], q);
      StepRefines(views[n].state, steps[n], views[n + 1].state);
    }
  }

  lemma {:induction false} RunSeesLastWrites(views: seq<PoolView>, steps: seq<PoolStep>)
    requires RunOf(views, steps) && views[0].state.Disciplined()
    ensures SeesLastWrites(views[0].state, steps)
  {
    forall i | 0 <= i < |steps| && steps[i].RequestReturned?
      ensures steps[i].seen == LastWritten(views[0].state.Logical(steps[i].id), steps[..i], steps[i].id)
    {
      RunRefinesFlatArray(views[..i + 1], steps[..i], steps[i].id);
      StepRefines(views[i].state, steps[i], views[i + 1].state);
    }
  }

  /** Steps that may take the frame of page p, or a pin on it, away from a client that holds it. */
  predicate MayRelease(step: PoolStep, p: int) {
    step.FlushedPages? || step == FlushedPage(p) || step == ClientUnpinned(p)
  }

  /** Across any other steps a pinned page keeps its frame, and its bytes unless a client writes them. */
  lemma {:induction false} PinnedPageStays(views: seq<PoolView>, steps: seq<PoolStep>, p: int)
    requires RunOf(views, steps)
    requires p in views[0].state.resident && views[0].state.resident[p].pins > 0
    requires forall i :: 0 <= i < |steps| ==> !MayRelease(steps[i], p)
    ensures var first, last := views[0].state, views[|steps|].state;
            && p in last.resident
            && last.resident[p].frame == first.resident[p].frame
            && last.resident[p].pins >= first.resident[p].pins
            && last.resident[p].data == LastWritten(first.resident[p].data, steps, p)
  {
    hide Served, Refuses;
    if steps != [] {
      var n := |steps| - 1;
      PinnedPageStays(views[..n + 1], steps[..n], p);
      assert Taken(views[n], steps[n], views[n + 1]);
    }
  }

  /**
     As long as the frames suffice for all pages that were resident or are asked for, and nothing is
     flushed, no request is refused and no page leaves.
   */
  lemma {:induction false} NothingLeaves(views: seq<PoolView>, steps: seq<PoolStep>, pages: set<int>)
    requires RunOf(views, steps)
    requires views[0].state.resident.Keys <= pages && |pages| <= views[0].maxFrames
    requires forall i :: 0 <= i < |steps| ==> !steps[i].FlushedPages? && !steps[i].FlushedPage?
    requires forall i :: 0 <= i < |steps| && (steps[i].RequestReturned? || steps[i].RequestThrew?) ==> steps[i].id in pages
    ensures views[|steps|].maxFrames == views[0].maxFrames
    ensures views[0].state.resident.Keys <= views[|steps|].state.resident.Keys <= pages
    ensures forall i :: 0 <= i < |steps| ==>
                          && !steps[i].RequestThrew?
                          && (steps[i].RequestReturned? ==> steps[i].id in views[|steps|].state.resident)
  {
    if steps != [] {
      var n := |steps| - 1;
      NothingLeaves(views[..n + 1], steps[..n], pages);
      assert forall i :: 0 <= i < n ==> steps[..n][i] == steps[i];
      assert Taken(views[n], steps[n], views[n + 1]);
      OneStaysWithin(views[n], steps[n], views[n + 1], pages);
    }
  }

  lemma OneStaysWithin(before: PoolView, step: PoolStep, after: PoolView, pages: set<int>)
    requires Taken(before, step, after) && before.state.resident.Keys <= pages && |pages| <= before.maxFrames
    requires !step.FlushedPages? && !step.FlushedPage?
    requires step.RequestReturned? || step.RequestThrew? ==> step.id in pages
    ensures before.state.resident.Keys <= after.state.resident.Keys <= pages && !step.RequestThrew?
    ensures step.RequestReturned? ==> step.id in after.state.resident
  {
    hide Displaced, Retained, Removed, Freed, DirtyFrames, AfterRefusal, Admitted, Hit;
    if step.RequestReturned? || step.RequestThrew? {
      var resident := before.state.resident.Keys;
      if step.id !in resident {
        assert |resident + {step.id}| == |resident| + 1;
        assert pages == resident + {step.id} + (pages - (resident + {step.id}));
      }
    }
  }
}
