/**
 Inner nodes: n children need n - 1 keys, so the last key slot in use is "nil" and no search reads it.
 */
module InnerNode {
  import opened Pages
  import opened Search
  import opened BufferPool
  import opened Slots
  import LeafNode

  /** An inner page, possibly full; a full one is split at once. */
  ghost predicate IsInner(page: Page) {
    page.kind.InnerKind? && page.maxSize == M && 1 <= page.currentSize <= M
  }

  ghost function Seps(page: Page): seq<Key>
    requires 1 <= page.currentSize <= M
  {
    page.keys[..page.currentSize - 1]
  }

  ghost function Kids(page: Page): seq<int>
    requires page.currentSize <= M
  {
    page.vals[..page.currentSize]
  }

  /** Where a key goes: behind an equal separator in a small node, before it in a larger one. */
  ghost function Place(page: Page, key: Key): (at: nat)
    requires 1 <= page.currentSize <= M
    ensures at <= page.currentSize - 1
  {
    if page.currentSize < 5 then ChildSlot(Seps(page), key) else Rank(Seps(page), key)
  }

  /** The child to descend into: the first one whose separator to the right is larger than the key. */
  method FindIndex(page: Page, key: Key) returns (idx: nat)
    requires IsInner(page) && page.currentSize >= 2 && Ascending(Seps(page))
    ensures idx == ChildSlot(Seps(page), key) && idx < page.currentSize
  {
    assert page.currentSize > 0;
    var high: int := page.currentSize - 2;
    if key >= page.keys[high] {
      ChildSlotIsUnique(Seps(page), key, page.currentSize - 1);
      return page.currentSize - 1;
    }

    var low: int := 0;
    assert high >= low;
    while high > low
      invariant 0 <= low <= high < page.currentSize - 1
      invariant low > 0 ==> page.keys[low - 1] <= key
      invariant page.keys[high] > key
    {
      var middle := Halved(high + low);
      if page.keys[middle] > key {
        high := middle;
      } else {
        low := middle + 1;
      }
    }
    ChildSlotIsUnique(Seps(page), key, low);
    return low;
  }

  method FindIndexForInsert(page: Page, key: Key) returns (idx: nat)
    requires IsInner(page) && page.currentSize < page.maxSize && Ascending(Seps(page))
    ensures page.currentSize < 5 ==> idx == ChildSlot(Seps(page), key)
    ensures page.currentSize >= 5 ==> idx == Rank(Seps(page), key)
    ensures idx == Place(page, key)
  {
    if page.currentSize < 5 {
      idx := 0;
      while idx != page.currentSize - 1
        invariant idx <= page.currentSize - 1
        invariant forall i :: 0 <= i < idx ==> page.keys[i] <= key
      {
        if page.keys[idx] > key { break; }
        idx := idx + 1;
      }
      ChildSlotIsUnique(Seps(page), key, idx);
      return;
    }

    var high: int := page.currentSize - 2;
    var low: int := 0;
    if key > page.keys[high] {
      RankIsUnique(Seps(page), key, page.currentSize - 1);
      return page.currentSize - 1;
    }

    assert low < high;
    while high > low
      invariant 0 <= low <= high < page.currentSize - 1
      invariant low > 0 ==> page.keys[low - 1] < key
      invariant page.keys[high] >= key
    {
      var middle := Halved(high + low);
      if page.keys[middle] >= key {
        high := middle;
      } else {
        low := middle + 1;
      }
    }
    RankIsUnique(Seps(page), key, low);
    return low;
  }

  /**
     Puts a leaf that was split off immediately right of the child at its key's place.  When the key is not
     a separator yet, that is the child the search for it would enter.
   */
  method TrivialInsertLeafNode(frame: Frame, value: int, leaf: Page)
    requires IsInner(frame.data) && 2 <= frame.data.currentSize < frame.data.maxSize && Ascending(Seps(frame.data))
    requires LeafNode.IsLeaf(leaf) && leaf.currentSize > 0
    modifies frame`data
    ensures IsInner(frame.data) && frame.data.link == old(frame.data.link)
    ensures var at := Place(old(frame.data), leaf.keys[0]);
            && Seps(frame.data) == InsertAt(old(Seps(frame.data)), at, leaf.keys[0])
            && Kids(frame.data) == InsertAt(old(Kids(frame.data)), at + 1, value)
  {
    hide Ascending, ChildSlot, Rank, Place, InsertAt, Shifted, LeafNode.IsLeaf;
    var size := frame.data.currentSize;
    var key := leaf.keys[0];
    var whereToInsert := FindIndexForInsert(frame.data, key);

    if whereToInsert == size - 1 {
      var page := frame.data;
      page := page.(keys := page.keys[size := page.keys[size - 1]], vals := page.vals[size := page.vals[size - 1]]);
      page := page.(keys := page.keys[size - 1 := key], vals := page.vals[size - 1 := value]);
      page := page.(vals := page.vals[size - 1 := page.vals[size]][size := page.vals[size - 1]]);
      AddedLast(frame.data.keys, frame.data.vals, page.keys, page.vals, size, key, value);
      frame.data := page.(currentSize := size + 1);
      return;
    }

    ghost var keys, vals := frame.data.keys, frame.data.vals;
    ShiftRight(frame, whereToInsert, size);
    frame.data := frame.data.(
      keys := frame.data.keys[whereToInsert := key],
      vals := frame.data.vals[whereToInsert := value]);
    assert whereToInsert + 1 < size;
    var left, right := frame.data.vals[whereToInsert], frame.data.vals[whereToInsert + 1];
    frame.data := frame.data.(vals := frame.data.vals[whereToInsert := right][whereToInsert + 1 := left]);
    frame.data := frame.data.(currentSize := size + 1);
    SwappedIn(vals, whereToInsert, size, value);
    FilledGap(keys, whereToInsert, size, key);
    InsertedPrefix(keys, frame.data.keys, whereToInsert, size, key);
  }

  /** The new child goes behind the last one, and its key into the last slot that is read. */
  lemma AddedLast(
    keys: seq<Key>, vals: seq<int>, newKeys: seq<Key>, newVals: seq<int>, size: nat, key: Key, value: int)
    requires 1 <= size < |keys| == |vals|
    requires newKeys == keys[size := keys[size - 1]][size - 1 := key]
    requires var placed := vals[size := vals[size - 1]][size - 1 := value];
             newVals == placed[size - 1 := placed[size]][size := placed[size - 1]]
    ensures newVals[..size + 1] == InsertAt(vals[..size], size, value)
    ensures newKeys[..size] == InsertAt(keys[..size - 1], size - 1, key)
  {
  }

  lemma InsertedPrefix(keys: seq<Key>, newKeys: seq<Key>, at: nat, size: nat, key: Key)
    requires at < size < |keys| == |newKeys| && newKeys[..size + 1] == InsertAt(keys[..size], at, key)
    ensures newKeys[..size] == InsertAt(keys[..size - 1], at, key)
  {
    assert newKeys[..size] == newKeys[..size + 1][..size];
  }

  /** Swapping the new child with its right neighbour after the shift puts it right of the old child. */
  lemma SwappedIn(vals: seq<int>, at: nat, size: nat, value: int)
    requires at + 1 < size < |vals|
    ensures var now := Shifted(vals, at, size)[at := value];
            now[at := now[at + 1]][at + 1 := now[at]][..size + 1] == InsertAt(vals[..size], at + 1, value)
  {
  }

  /**
     Moves the upper part of a full inner node into a new one.  The separator between the two halves
     stays behind in the left node's last slot, where the caller picks it up.
   */
  method SplitNode(frame: Frame, newFrame: Frame, previousPageId: int)
    requires frame != newFrame && IsInner(frame.data) && frame.data.currentSize == frame.data.maxSize
    modifies frame`data, newFrame`data
    ensures IsInner(frame.data) && IsInner(newFrame.data)
    ensures frame.data.link == old(frame.data.link) && newFrame.data.link == previousPageId
    ensures frame.data.currentSize >= 2 && newFrame.data.currentSize >= 2
    ensures Kids(frame.data) == old(Kids(frame.data))[..H + 1] && Kids(newFrame.data) == old(Kids(frame.data))[H + 1..]
    ensures Seps(frame.data) == old(Seps(frame.data))[..H] && Seps(newFrame.data) == old(Seps(frame.data))[H + 1..]
    ensures frame.data.keys[frame.data.currentSize - 1] == old(Seps(frame.data))[H]
  {
    hide UpperPart, LowerPart;
    var fewer := if M % 2 == 1 then 1 else 2;
    var page, newPage := frame.data, newFrame.data;
    newPage := newPage.(kind := InnerKind, maxSize := page.maxSize);
    newPage := newPage.(
      keys := UpperPart(page.keys, newPage.keys, M / 2 + 1, M / 2 - fewer),
      vals := UpperPart(page.vals, newPage.vals, M / 2 + 1, M / 2 - fewer));
    page := page.(keys := LowerPart(page.keys, M / 2 + 1), vals := LowerPart(page.vals, M / 2 + 1));
    page := page.(currentSize := page.currentSize / 2 + 1);
    newPage := newPage.(currentSize := page.currentSize - fewer, link := previousPageId);
    InSlots(frame.data.keys, page.keys, newPage.keys);
    InSlots(frame.data.vals, page.vals, newPage.vals);
    frame.data := page;
    newFrame.data := newPage;
  }

  lemma InSlots(full: seq<int>, left: seq<int>, right: seq<int>)
    requires |full| == |left| == |right| == M
    requires left[..H + 1] == full[..H + 1] && right[..M - H - 1] == full[H + 1..]
    ensures left[..H + 1] == full[..M][..H + 1] && right[..M - H - 1] == full[..M][H + 1..]
    ensures left[..H] == full[..M - 1][..H] && right[..M - H - 2] == full[..M - 1][H + 1..]
    ensures left[H] == full[..M - 1][H]
  {
    assert left[..H + 1][H] == full[..H + 1][H];
    assert left[..H] == left[..H + 1][..H];
    assert right[..M - H - 2] == right[..M - H - 1][..M - H - 2];
  }
}
