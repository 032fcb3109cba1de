/**
 Leaf nodes: the searches over a leaf page, and the operations that shift and split its slots in
 place, inside the frame that holds the page.  Slots at or past currentSize are never read, and
 nothing is claimed about what is left in them.
 */
module LeafNode {
  import opened Pages
  import opened Search
  import opened BufferPool
  import opened Slots

  /** A leaf page, possibly full; a full one is split at once. */
  ghost predicate IsLeaf(page: Page) {
    page.kind.LeafKind? && page.maxSize == M && page.currentSize <= M
  }

  ghost function Keys(page: Page): seq<Key>
    requires page.currentSize <= M
  {
    page.keys[..page.currentSize]
  }

  ghost function Vals(page: Page): seq<Val>
    requires page.currentSize <= M
  {
    page.vals[..page.currentSize]
  }

  /** Where a key goes: behind an equal key in a small leaf, before it in a larger one. */
  ghost function Place(page: Page, key: Key): (at: nat)
    requires page.currentSize <= M
    ensures at <= page.currentSize
  {
    if page.currentSize < 5 then ChildSlot(Keys(page), key) else Rank(Keys(page), key)
  }

  /** Where a key goes: a scan in small leaves, a binary search in larger ones.  They differ on keys already present. */
  method FindIndexForInsert(page: Page, key: Key) returns (idx: nat)
    requires IsLeaf(page) && page.currentSize < page.maxSize && Ascending(Keys(page))
    ensures page.currentSize < 5 ==> idx == ChildSlot(Keys(page), key)
    ensures page.currentSize >= 5 ==> idx == Rank(Keys(page), key)
  {
    if page.currentSize < 5 {
      idx := 0;
      while idx != page.currentSize
        invariant idx <= page.currentSize
        invariant forall i :: 0 <= i < idx ==> page.keys[i] <= key
      {
        if page.keys[idx] > key { break; }
        idx := idx + 1;
      }
      ChildSlotIsUnique(Keys(page), key, idx);
      return;
    }

    var high: int := page.currentSize - 1;
    var low: int := 0;
    if key > page.keys[high] {
      RankIsUnique(Keys(page), key, page.currentSize);
      return page.currentSize;
    }

    assert low < high;
    while high > low
      invariant 0 <= low <= high < page.currentSize
      invariant low > 0 ==> page.keys[low - 1] < key
      invariant page.keys[high] >= key
    {
      var middle := Halved(high + low);
      if page.keys[middle] >= key {
        high := middle;
      } else {
        low := middle + 1;
      }
    }
    RankIsUnique(Keys(page), key, low);
    return low;
  }

  /** Binary search for a key; the bounds may cross at -1, where halving drops the fraction. */
  method FindIndex(page: Page, key: Key) returns (r: Option<nat>)
    requires IsLeaf(page) && page.currentSize > 0 && Ascending(Keys(page))
    ensures r.Some? <==> key in Keys(page)
    ensures r.Some? ==> r.value < page.currentSize && page.keys[r.value] == key
  {
    var high: int := page.currentSize - 1;
    var low: int := 0;
    assert high >= low;
    var middle := Halved(high + low);

    while high > low
      invariant 0 <= low <= page.currentSize && -1 <= high < page.currentSize
      invariant 0 <= middle < page.currentSize
      invariant high > low ==> low <= middle < high
      invariant high == low ==> middle == low
      invariant forall i :: 0 <= i < page.currentSize && page.keys[i] == key ==> low <= i <= high
    {
      if page.keys[middle] == key { break; }
      if page.keys[middle] > key {
        forall i | middle <= i < page.currentSize
          ensures page.keys[i] != key
        {
          assert Keys(page)[middle] <= Keys(page)[i];
        }
        high := middle - 1;
      } else {
        forall i | 0 <= i <= middle
          ensures page.keys[i] != key
        {
          assert Keys(page)[i] <= Keys(page)[middle];
        }
        low := middle + 1;
      }
      middle := Halved(high + low);
    }

    if page.keys[middle] != key {
      return None;
    }
    assert Keys(page)[middle] == key;
    return Some(middle);
  }

  method InitFirstNode(frame: Frame, key: Key, val: Val)
    modifies frame`data
    ensures IsLeaf(frame.data) && Keys(frame.data) == [key] && Vals(frame.data) == [val]
    ensures frame.data.link == INVALID_PAGE_ID
  {
    var page := frame.data;
    frame.data := page.(
      kind := LeafKind, maxSize := M, currentSize := 1, link := INVALID_PAGE_ID,
      keys := page.keys[0 := key], vals := page.vals[0 := val]);
  }

  /** Shifts the larger keys one slot to the right and writes the new pair into the gap. */
  method TrivialInsert(frame: Frame, key: Key, val: Val)
    requires IsLeaf(frame.data) && frame.data.currentSize < frame.data.maxSize
    requires Ascending(Keys(frame.data))
    modifies frame`data
    ensures IsLeaf(frame.data) && frame.data.link == old(frame.data.link)
    ensures Keys(frame.data) == InsertAt(old(Keys(frame.data)), Place(old(frame.data), key), key)
    ensures Vals(frame.data) == InsertAt(old(Vals(frame.data)), Place(old(frame.data), key), val)
    ensures key !in old(Keys(frame.data)) ==> Place(old(frame.data), key) == Rank(old(Keys(frame.data)), key)
  {
    var size := frame.data.currentSize;
    var whereToInsert := FindIndexForInsert(frame.data, key);
    if key !in Keys(frame.data) { FreshKeyOneSlot(Keys(frame.data), key); }
    assert whereToInsert <= size;

    FilledGap(frame.data.keys, whereToInsert, size, key);
    FilledGap(frame.data.vals, whereToInsert, size, val);
    if whereToInsert < size {
      ShiftRight(frame, whereToInsert, size);
    }
    frame.data := frame.data.(
      keys := frame.data.keys[whereToInsert := key],
      vals := frame.data.vals[whereToInsert := val]);
    frame.data := frame.data.(currentSize := size + 1);
  }

  /**
     Moves the upper half of a full leaf into a new node: the left leaf keeps half of the entries,
     rounded down, for capacities of either parity.
   */
  method SplitNode(frame: Frame, newFrame: Frame, newPageId: int)
    requires frame != newFrame && IsLeaf(frame.data) && frame.data.currentSize == frame.data.maxSize
    modifies frame`data, newFrame`data
    ensures IsLeaf(frame.data) && IsLeaf(newFrame.data)
    ensures frame.data.link == newPageId && newFrame.data.link == old(newFrame.data.link)
    ensures Keys(frame.data) == old(Keys(frame.data))[..H] && Keys(newFrame.data) == old(Keys(frame.data))[H..]
    ensures Vals(frame.data) == old(Vals(frame.data))[..H] && Vals(newFrame.data) == old(Vals(frame.data))[H..]
  {
    hide UpperPart, LowerPart;
    var odd := (M + 1) % 2;
    var page, newPage := frame.data, newFrame.data;
    newPage := newPage.(kind := LeafKind, maxSize := page.currentSize);
    newPage := newPage.(
      keys := UpperPart(page.keys, newPage.keys, M / 2, M / 2 - odd),
      vals := UpperPart(page.vals, newPage.vals, M / 2, M / 2 - odd));
    page := page.(keys := LowerPart(page.keys, M / 2), vals := LowerPart(page.vals, M / 2));
    page := page.(currentSize := page.currentSize / 2);
    newPage := newPage.(currentSize := page.currentSize + (odd + 1) % 2);
    assert newPage.currentSize == M - H;
    frame.data := page.(link := newPageId);
    newFrame.data := newPage;
  }
}
