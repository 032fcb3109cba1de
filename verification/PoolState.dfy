/**
 What a buffer pool stands for, as a value: the resident pages with their frames, and the page file.
 */
module PoolState {
  import opened Pages
  import opened DiskManagerMock

  datatype Slot = Slot(frame: int, dirty: bool, pins: int, data: Page)

  datatype State = State(resident: map<int, Slot>, file: seq<Page>) {

    /** The bytes of a page as a client of the pool must see them. */
    ghost function Logical(p: int): Page {
      if p in resident then resident[p].data else PageAt(file, p)
    }

    /** The client discipline: mark a frame dirty before writing to it, and never unpin more than was pinned. */
    ghost predicate Disciplined() {
      forall p :: p in resident ==>
        && resident[p].pins >= 0
        && (!resident[p].dirty ==> resident[p].data == PageAt(file, p))
    }

    ghost predicate NothingDirty() {
      forall p :: p in resident ==> !resident[p].dirty
    }
  }

  ghost predicate SameLogical(before: State, after: State) {
    forall p :: after.Logical(p) == before.Logical(p)
  }

  /** What a request for a page that returned a frame did to the pool. */
  ghost predicate Requested(before: State, after: State, id: int, shouldPin: bool) {
    && id in after.resident
    && (id in before.resident ==>
          && after == before.(resident := before.resident[id := after.resident[id]])
          && after.resident[id] == before.resident[id].(pins := before.resident[id].pins + if shouldPin then 1 else 0))
    && (id !in before.resident ==>
          && !after.resident[id].dirty
          && after.resident[id].pins == (if shouldPin then 1 else 0)
          && after.resident[id].data == PageAt(before.file, id))
    && Retained(before, after, id)
  }

  /** A page that lost its frame was written back, or its file bytes are untouched and it was not dirty and unpinned. */
  ghost predicate DroppedSafely(before: State, after: State, q: int)
    requires q in before.resident
  {
    || PageAt(after.file, q) == before.resident[q].data
    || (PageAt(after.file, q) == PageAt(before.file, q) && !(before.resident[q].dirty && before.resident[q].pins == 0))
  }

  /** A request that returns changes no page's content, for clients that keep to the discipline. */
  lemma RequestKeepsContent(before: State, after: State, id: int, shouldPin: bool)
    requires Requested(before, after, id, shouldPin) && before.Disciplined()
    ensures after.Disciplined() && SameLogical(before, after)
  {
  }

  /** Loading page id leaves what stays resident and the file alone, except that pages without pins may be dropped. */
  ghost predicate Retained(before: State, after: State, id: int) {
    && (forall q :: q in after.resident && q != id ==> q in before.resident && after.resident[q] == before.resident[q])
    && (forall q :: q in before.resident && before.resident[q].pins > 0 ==> q in after.resident)
    && (forall q :: q in before.resident && q !in after.resident ==> DroppedSafely(before, after, q))
    && (forall q :: q !in before.resident || q in after.resident ==> PageAt(after.file, q) == PageAt(before.file, q))
    && |before.file| <= |after.file|
    && id < |after.file|
  }

  /** What flushing every dirty page did: the dirty pages are in the file and in no frame, the rest is as it was. */
  ghost predicate FlushedAll(before: State, after: State) {
    && |after.file| == |before.file|
    && (forall q :: q in after.resident <==> q in before.resident && !before.resident[q].dirty)
    && (forall q :: q in after.resident ==> after.resident[q] == before.resident[q])
    && forall q :: PageAt(after.file, q) ==
                   if q in before.resident && before.resident[q].dirty then before.resident[q].data
                   else PageAt(before.file, q)
  }

  lemma FlushingKeepsContent(before: State, after: State)
    requires FlushedAll(before, after) && before.Disciplined()
    ensures after.Disciplined() && after.NothingDirty() && SameLogical(before, after)
    ensures forall q :: PageAt(after.file, q) == before.Logical(q)
  {
  }

  /** The pool after page id, not resident before, was loaded and the pages `dropped` lost their frames. */
  ghost function Loaded(before: State, dropped: set<int>, file: seq<Page>, id: int, slot: Slot): State {
    State((before.resident - dropped)[id := slot], file)
  }

  /**
     A load keeps every page's content provided that each page that loses its frame is unpinned and
     has either just been written back or never been changed.
   */
  lemma LoadKeepsContent(
    before: State, dropped: set<int>, file: seq<Page>, id: int, slot: Slot, shouldPin: bool)
    requires id !in before.resident && id < |file| && |before.file| <= |file|
    requires slot == Slot(slot.frame, false, if shouldPin then 1 else 0, PageAt(before.file, id))
    requires forall q :: q in dropped ==> q in before.resident && before.resident[q].pins <= 0
    requires forall q :: q in dropped ==>
                           || PageAt(file, q) == before.resident[q].data
                           || (PageAt(file, q) == PageAt(before.file, q)
                               && !(before.resident[q].dirty && before.resident[q].pins == 0))
    requires forall q :: q !in dropped ==> PageAt(file, q) == PageAt(before.file, q)
    ensures Requested(before, Loaded(before, dropped, file, id, slot), id, shouldPin)
    ensures before.Disciplined() ==>
              && Loaded(before, dropped, file, id, slot).Disciplined()
              && SameLogical(before, Loaded(before, dropped, file, id, slot))
  {
  }

  /** Reading a page may grow the file, which changes the content of no page. */
  lemma GrowthIsInvisible(before: State, grown: State, after: State, id: int, shouldPin: bool)
    requires grown.resident == before.resident && |before.file| <= |grown.file|
    requires forall q :: PageAt(grown.file, q) == PageAt(before.file, q)
    requires id !in before.resident
    ensures Requested(grown, after, id, shouldPin) ==> Requested(before, after, id, shouldPin)
    ensures before.Disciplined() <==> grown.Disciplined()
    ensures SameLogical(grown, after) ==> SameLogical(before, after)
  {
    if SameLogical(grown, after) {
      forall q
        ensures after.Logical(q) == before.Logical(q)
      {
        assert after.Logical(q) == grown.Logical(q);
      }
    }
  }
}
