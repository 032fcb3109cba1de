/**
 How the pages of a pool hold a tree, and how the pins of an operation on the tree add up.
 */
module TreePages {
  import opened Pages
  import opened Search
  import opened PoolState
  import opened TreeSpec
  import opened BufferPool
  import LeafNode
  import InnerNode

  // ----- a tree in the pages -----

  ghost predicate LeafIn(v: State, l: Leaf) {
    var page := v.Logical(l.page);
    LeafNode.IsLeaf(page) && LeafNode.Keys(page) == l.keys && LeafNode.Vals(page) == l.vals
  }

  ghost predicate HeadIn(v: State, p: int, seps: seq<Key>, kids: seq<int>) {
    var page := v.Logical(p);
    InnerNode.IsInner(page) && page.currentSize >= 2 && InnerNode.Seps(page) == seps && InnerNode.Kids(page) == kids
  }

  ghost predicate LeavesIn(v: State, leaves: seq<Leaf>) {
    forall i :: 0 <= i < |leaves| ==> LeafIn(v, leaves[i])
  }

  ghost predicate InnerIn(v: State, n: Inner) {
    HeadIn(v, n.page, n.seps, LeafPages(n.kids)) && LeavesIn(v, n.kids)
  }

  ghost predicate ShapeIn(v: State, root: int, s: Shape) {
    match s
    case Empty => root == INVALID_PAGE_ID
    case OneLeaf(l) => root == l.page && LeafIn(v, l)
    case OneInner(n) => root == n.page && InnerIn(v, n)
    case TwoInner(p, l, sep, r) => root == p && HeadIn(v, p, [sep], [l.page, r.page]) && InnerIn(v, l) && InnerIn(v, r)
  }

  ghost predicate SameExcept(before: State, after: State, pages: set<int>) {
    forall q :: q !in pages ==> after.Logical(q) == before.Logical(q)
  }

  lemma ShapeInSame(before: State, after: State, root: int, s: Shape)
    requires ShapeIn(before, root, s) && SameLogical(before, after)
    ensures ShapeIn(after, root, s)
  {
    match s
    case Empty =>
    case OneLeaf(_) =>
    case OneInner(n) =>
      InnerUnchanged(before, after, n, {});
    case TwoInner(_, l, _, r) =>
      InnerUnchanged(before, after, l, {});
      InnerUnchanged(before, after, r, {});
  }

  // ----- the way down -----

  /** The pages a search for key k visits, from the root to a leaf. */
  ghost function PathTo(s: Shape, k: Key): (path: seq<int>)
    requires ShapeOk(s) && !s.Empty?
    ensures 1 <= |path| <= 3
  {
    match s
    case OneLeaf(l) => [l.page]
    case OneInner(n) => [n.page, n.kids[KidFor(n, k)].page]
    case TwoInner(root, l, sep, r) =>
      var n := if k < sep then l else r;
      [root, n.page, n.kids[KidFor(n, k)].page]
  }

  /** What the page at depth d on the way to key k looks like. */
  ghost predicate OnPath(page: Page, s: Shape, k: Key, d: nat)
    requires ShapeOk(s) && !s.Empty? && d < |PathTo(s, k)|
  {
    var path := PathTo(s, k);
    if d < |path| - 1 then
      && InnerNode.IsInner(page) && page.currentSize >= 2 && Ascending(InnerNode.Seps(page))
      && ChildSlot(InnerNode.Seps(page), k) < page.currentSize
      && page.vals[ChildSlot(InnerNode.Seps(page), k)] == path[d + 1]
    else
      LeafNode.IsLeaf(page) && LeafNode.Keys(page) == TargetLeaf(s, k).keys && LeafNode.Vals(page) == TargetLeaf(s, k).vals
  }

  /** Each page on the way is an inner page that sends the search to the next one, and the last is the leaf. */
  lemma PathStep(v: State, root: int, s: Shape, k: Key, d: nat)
    requires ShapeOk(s) && !s.Empty? && ShapeIn(v, root, s) && d < |PathTo(s, k)|
    ensures PathTo(s, k)[0] == root
    ensures OnPath(v.Logical(PathTo(s, k)[d]), s, k, d)
  {
    hide LeafNode.IsLeaf, LeafNode.Keys, LeafNode.Vals, InnerNode.IsInner, LeafPages, KidOk, LeafOk, Within;
    match s
    case OneLeaf(_) =>
    case OneInner(n) =>
      KidStep(v, n, k);
    case TwoInner(root, l, sep, r) =>
      if d == 0 {
        RootStep(v, root, l.page, sep, r.page, k);
      } else {
        KidStep(v, if k < sep then l else r, k);
      }
  }

  lemma KidStep(v: State, n: Inner, k: Key)
    requires InnerIn(v, n) && |n.kids| == |n.seps| + 1
    ensures var page := v.Logical(n.page);
            && ChildSlot(InnerNode.Seps(page), k) == KidFor(n, k) < page.currentSize
            && page.vals[KidFor(n, k)] == n.kids[KidFor(n, k)].page
            && LeafIn(v, n.kids[KidFor(n, k)])
  {
    var page := v.Logical(n.page);
    assert InnerNode.Kids(page)[KidFor(n, k)] == LeafPages(n.kids)[KidFor(n, k)];
  }

  lemma RootStep(v: State, root: int, left: int, sep: Key, right: int, k: Key)
    requires HeadIn(v, root, [sep], [left, right])
    ensures var page := v.Logical(root);
            && Ascending(InnerNode.Seps(page))
            && ChildSlot(InnerNode.Seps(page), k) == (if k < sep then 0 else 1) < page.currentSize
            && page.vals[ChildSlot(InnerNode.Seps(page), k)] == if k < sep then left else right
  {
    var page := v.Logical(root);
    assert [sep][1..] == [];
    assert InnerNode.Kids(page)[0] == left && InnerNode.Kids(page)[1] == right;
  }

  // ----- pages change one at a time -----

  lemma LeavesUnchanged(before: State, after: State, leaves: seq<Leaf>)
    requires LeavesIn(before, leaves)
    requires forall i :: 0 <= i < |leaves| ==> after.Logical(leaves[i].page) == before.Logical(leaves[i].page)
    ensures LeavesIn(after, leaves)
  {
    forall i | 0 <= i < |leaves|
      ensures LeafIn(after, leaves[i])
    {
      assert LeafIn(before, leaves[i]);
    }
  }

  lemma InnerUnchanged(before: State, after: State, n: Inner, pages: set<int>)
    requires InnerIn(before, n) && SameExcept(before, after, pages)
    requires forall p :: p in InnerPages(n) ==> p !in pages
    ensures InnerIn(after, n)
  {
    assert InnerPages(n)[0] == n.page;
    forall i | 0 <= i < |n.kids|
      ensures after.Logical(n.kids[i].page) == before.Logical(n.kids[i].page)
    {
      assert InnerPages(n)[i + 1] == n.kids[i].page;
    }
    LeavesUnchanged(before, after, n.kids);
  }

  lemma LeafUnchanged(before: State, after: State, l: Leaf, pages: set<int>)
    requires LeafIn(before, l) && SameExcept(before, after, pages) && l.page !in pages
    ensures LeafIn(after, l)
  {
  }

  lemma HeadUnchanged(before: State, after: State, p: int, seps: seq<Key>, kids: seq<int>, pages: set<int>)
    requires HeadIn(before, p, seps, kids) && SameExcept(before, after, pages) && p !in pages
    ensures HeadIn(after, p, seps, kids)
  {
  }

  lemma InnerPageAt(n: Inner, i: nat)
    requires i <= |n.kids|
    ensures |InnerPages(n)| == |n.kids| + 1
    ensures InnerPages(n)[i] == if i == 0 then n.page else n.kids[i - 1].page
  {
  }

  /** Only the page of leaf i changes, to a leaf that stays where it was. */
  lemma LeafReplaced(before: State, after: State, n: Inner, i: nat, grown: Leaf)
    requires InnerIn(before, n) && Distinct(InnerPages(n)) && i < |n.kids| && grown.page == n.kids[i].page
    requires SameExcept(before, after, {grown.page}) && LeafIn(after, grown)
    ensures InnerIn(after, n.(kids := n.kids[i := grown]))
  {
    hide LeafIn, HeadIn, InnerPages, SameExcept;
    var kids := n.kids[i := grown];
    InnerPageAt(n, 0);
    InnerPageAt(n, i + 1);
    forall j | 0 <= j < |kids|
      ensures LeafIn(after, kids[j])
    {
      if j != i { KidUnchanged(before, after, n, i, j); }
    }
    HeadUnchanged(before, after, n.page, n.seps, LeafPages(n.kids), {grown.page});
    assert LeafPages(kids) == LeafPages(n.kids);
  }

  lemma KidUnchanged(before: State, after: State, n: Inner, i: nat, j: nat)
    requires InnerIn(before, n) && Distinct(InnerPages(n)) && i < |n.kids| && j < |n.kids| && i != j
    requires SameExcept(before, after, {n.kids[i].page})
    ensures LeafIn(after, n.kids[j])
  {
    hide LeafIn, HeadIn, InnerPages, LeafPages, SameExcept;
    InnerPageAt(n, i + 1);
    InnerPageAt(n, j + 1);
    LeafUnchanged(before, after, n.kids[j], {n.kids[i].page});
  }

  /** A leaf other than leaf i, when only leaf i, the inner page and a new page change. */
  lemma OtherLeafIn(before: State, after: State, n: Inner, i: nat, upper: int, j: nat)
    requires InnerIn(before, n) && Distinct(InnerPages(n)) && i < |n.kids| && j < |n.kids| && i != j
    requires upper !in InnerPages(n) && SameExcept(before, after, {n.page, n.kids[i].page, upper})
    ensures LeafIn(after, n.kids[j])
  {
    hide LeafIn, HeadIn, InnerPages, LeafPages, SameExcept;
    InnerPageAt(n, 0);
    InnerPageAt(n, i + 1);
    InnerPageAt(n, j + 1);
    assert n.kids[j].page in InnerPages(n);
    LeafUnchanged(before, after, n.kids[j], {n.page, n.kids[i].page, upper});
  }

  /** Leaf i is split in two and the inner page above it takes in the new one. */
  lemma LeafAbsorbed(before: State, after: State, n: Inner, i: nat, lower: Leaf, upper: Leaf)
    requires InnerIn(before, n) && Distinct(InnerPages(n)) && i < |n.kids| == |n.seps| + 1
    requires lower.page == n.kids[i].page && upper.page !in InnerPages(n) && |upper.keys| > 0
    requires SameExcept(before, after, {n.page, lower.page, upper.page})
    requires LeafIn(after, lower) && LeafIn(after, upper)
    requires HeadIn(after, n.page, InsertAt(n.seps, i, upper.keys[0]), InsertAt(LeafPages(n.kids), i + 1, upper.page))
    ensures InnerIn(after, Absorb(n, i, lower, upper))
  {
    hide HeadIn, LeafIn, InsertAt, LeafPages, Distinct, SameExcept;
    var kids := Absorb(n, i, lower, upper).kids;
    AbsorbedPages(n, i, lower, upper);
    forall j | 0 <= j < |kids|
      ensures LeafIn(after, kids[j])
    {
      if j < i {
        OtherLeafIn(before, after, n, i, upper.page, j);
      } else if j > i + 1 {
        OtherLeafIn(before, after, n, i, upper.page, j - 1);
      }
    }
  }

  /** A full inner page is split in two. */
  lemma InnerSplitIn(before: State, after: State, n: Inner, page: int)
    requires InnerIn(before, n) && Distinct(InnerPages(n)) && |n.kids| == |n.seps| + 1 == M
    requires page !in InnerPages(n) && SameExcept(before, after, {n.page, page})
    requires HeadIn(after, n.page, n.seps[..H], LeafPages(n.kids)[..H + 1])
    requires HeadIn(after, page, n.seps[H + 1..], LeafPages(n.kids)[H + 1..])
    ensures InnerIn(after, SplitInner(n, page).left) && InnerIn(after, SplitInner(n, page).right)
  {
    InnerPageAt(n, 0);
    forall j | 0 <= j < |n.kids|
      ensures after.Logical(n.kids[j].page) == before.Logical(n.kids[j].page)
    {
      InnerPageAt(n, j + 1);
      assert n.kids[j].page in InnerPages(n);
    }
    LeavesUnchanged(before, after, n.kids);
    assert LeafPages(n.kids[..H + 1]) == LeafPages(n.kids)[..H + 1];
    assert LeafPages(n.kids[H + 1..]) == LeafPages(n.kids)[H + 1..];
  }

  // ----- pins -----

  ghost function BasePins(v0: State, q: int): int {
    if q in v0.resident then v0.resident[q].pins else 0
  }

  /**
     Pins during an operation that found the pool in state v0: each held page has been pinned once more
     than it was then; a page that is clean carries no pin that is not accounted for in this way.
   */
  ghost predicate Pins(v0: State, v: State, held: seq<int>)
    ensures Pins(v0, v, held) ==> v.Disciplined()
  {
    && v.Disciplined()
    && (forall q :: q in v.resident && !v.resident[q].dirty ==>
                      v.resident[q].pins == BasePins(v0, q) + if q in held then 1 else 0)
    && (forall q :: q in v0.resident && v0.resident[q].pins > 0 ==>
                      q in v.resident && v.resident[q].pins >= v0.resident[q].pins)
    && (forall i :: 0 <= i < |held| ==> held[i] in v.resident && v.resident[held[i]].pins >= BasePins(v0, held[i]) + 1)
  }

  lemma PinsAtFirst(v0: State)
    requires v0.Disciplined()
    ensures Pins(v0, v0, [])
  {
  }

  lemma RequestPins(v0: State, v: State, v1: State, held: seq<int>, id: int)
    requires v0.Disciplined() && Pins(v0, v, held) && Requested(v, v1, id, true) && v1.Disciplined()
    requires id !in held
    ensures Pins(v0, v1, held + [id])
  {
    forall q | q in v1.resident && !v1.resident[q].dirty
      ensures v1.resident[q].pins == BasePins(v0, q) + if q in held + [id] then 1 else 0
    {
      assert q in held + [id] <==> q in held || q == id;
    }
    forall i | 0 <= i < |held + [id]|
      ensures (held + [id])[i] in v1.resident
      ensures v1.resident[(held + [id])[i]].pins >= BasePins(v0, (held + [id])[i]) + 1
    {
      if i < |held| {
        assert held[i] in v.resident && v.resident[held[i]].pins > 0;
      }
    }
  }

  /** Pages already held, or dirty anyway, can be requested again. */
  lemma RequestKeepsPins(v0: State, v: State, v1: State, held: seq<int>, id: int, shouldPin: bool)
    requires v0.Disciplined() && Pins(v0, v, held) && Requested(v, v1, id, shouldPin) && v1.Disciplined()
    requires id in v.resident && (v.resident[id].dirty || !shouldPin)
    ensures Pins(v0, v1, held)
  {
  }

  ghost function Touched(v: State, q: int, slot: Slot): State {
    v.(resident := v.resident[q := slot])
  }

  lemma UnpinReleases(v0: State, v: State, held: seq<int>, q: int)
    requires v0.Disciplined() && Pins(v0, v, held + [q]) && q !in held
    ensures q in v.resident
    ensures Pins(v0, Touched(v, q, v.resident[q].(pins := v.resident[q].pins - 1)), held)
    ensures SameLogical(v, Touched(v, q, v.resident[q].(pins := v.resident[q].pins - 1)))
  {
    assert (held + [q])[|held|] == q;
    forall x ensures x in held + [q] <==> x in held || x == q { }
    forall i | 0 <= i < |held|
      ensures held[i] in v.resident && held[i] != q && v.resident[held[i]].pins >= BasePins(v0, held[i]) + 1
    {
      assert (held + [q])[i] == held[i];
    }
  }

  lemma SameLogicalChains(v: State, v1: State, v2: State)
    requires SameLogical(v, v1) && SameLogical(v1, v2)
    ensures SameLogical(v, v2)
  {
    forall q ensures v2.Logical(q) == v.Logical(q) { assert v1.Logical(q) == v.Logical(q); }
  }

  lemma SameExceptChains(v: State, v1: State, v2: State, pages: set<int>)
    requires SameLogical(v, v1) && SameExcept(v1, v2, pages)
    ensures SameExcept(v, v2, pages)
  {
    forall q | q !in pages ensures v2.Logical(q) == v.Logical(q) { assert v1.Logical(q) == v.Logical(q); }
  }

  lemma SameExceptStays(v: State, v1: State, v2: State, pages: set<int>)
    requires SameExcept(v, v1, pages) && SameLogical(v1, v2)
    ensures SameExcept(v, v2, pages)
  {
    forall q | q !in pages ensures v2.Logical(q) == v.Logical(q) { assert v2.Logical(q) == v1.Logical(q); }
  }

  ghost predicate AllDirty(v: State, pages: seq<int>) {
    forall i :: 0 <= i < |pages| ==> DirtyIn(v, pages[i])
  }

  /** Pages written one after the other keep the pins and stay dirty. */
  lemma WritingTwoKeepsPins(v0: State, v: State, held: seq<int>, p: int, a: Page, q: int, b: Page)
    requires Pins(v0, v, held) && p in v.resident && q in v.resident && p != q
    ensures var v1 := Written(Written(v, p, a), q, b);
            && Pins(v0, v1, held) && SameExcept(v, v1, {p, q}) && Stay(v, v1, held) && DirtyStay(v, v1, held)
            && v1.Logical(p) == a && v1.Logical(q) == b
            && DirtyIn(v1, p) && DirtyIn(v1, q)
            && forall x :: DirtyIn(v, x) ==> DirtyIn(v1, x)
  {
    WritingKeepsPins(v0, v, held, p, a);
    WritingKeepsPins(v0, Written(v, p, a), held, q, b);
  }

  lemma SameHeld(v0: State, v: State, held: seq<int>, other: seq<int>)
    requires Pins(v0, v, held)
    requires forall i :: 0 <= i < |other| ==> other[i] in held
    requires forall i :: 0 <= i < |held| ==> held[i] in other
    ensures Pins(v0, v, other)
  {
    forall i | 0 <= i < |other|
      ensures other[i] in v.resident && v.resident[other[i]].pins >= BasePins(v0, other[i]) + 1
    {
      var p := other[i];
      assert p in held;
      var j :| 0 <= j < |held| && held[j] == p;
    }
    assert forall p :: p in other ==> p in held;
    assert forall p :: p in held ==> p in other;
  }

  /** Only pin counts have changed. */
  ghost predicate OnlyPins(v: State, v1: State) {
    && v1.file == v.file && v1.resident.Keys == v.resident.Keys
    && forall p :: p in v.resident ==> v1.resident[p] == v.resident[p].(pins := v1.resident[p].pins)
  }

  lemma OnlyPinsKeeps(v: State, v1: State, pages: seq<int>)
    requires OnlyPins(v, v1)
    ensures SameLogical(v, v1)
    ensures AllDirty(v, pages) ==> AllDirty(v1, pages)
    ensures (forall i :: 0 <= i < |pages| ==> pages[i] in v.resident) ==> Stay(v, v1, pages)
  {
  }

  lemma OnlyPinsChains(v: State, v1: State, v2: State)
    requires OnlyPins(v, v1) && OnlyPins(v1, v2)
    ensures OnlyPins(v, v2)
  {
  }

  /** Page p written to and marked dirty. */
  ghost function Written(v: State, p: int, page: Page): State
    requires p in v.resident
  {
    Touched(v, p, v.resident[p].(dirty := true, data := page))
  }

  lemma WritingKeepsPins(v0: State, v: State, held: seq<int>, p: int, page: Page)
    requires Pins(v0, v, held) && p in v.resident
    ensures Pins(v0, Written(v, p, page), held) && SameExcept(v, Written(v, p, page), {p})
    ensures DirtyIn(Written(v, p, page), p) && Written(v, p, page).Logical(p) == page
    ensures Stay(v, Written(v, p, page), held) && DirtyStay(v, Written(v, p, page), held)
    ensures forall q :: DirtyIn(v, q) ==> DirtyIn(Written(v, p, page), q)
  {
  }

  ghost predicate DirtyIn(v: State, p: int) {
    p in v.resident && v.resident[p].dirty
  }

  /** The pages keep their frames. */
  ghost predicate Stay(v: State, v1: State, pages: seq<int>) {
    forall i :: 0 <= i < |pages| ==>
                  pages[i] in v.resident && pages[i] in v1.resident && v1.resident[pages[i]].frame == v.resident[pages[i]].frame
  }

  ghost predicate DirtyStay(v: State, v1: State, pages: seq<int>) {
    forall i :: 0 <= i < |pages| && DirtyIn(v, pages[i]) ==> DirtyIn(v1, pages[i])
  }

  lemma StayChains(v: State, v1: State, v2: State, pages: seq<int>)
    ensures Stay(v, v1, pages) && Stay(v1, v2, pages) ==> Stay(v, v2, pages)
    ensures DirtyStay(v, v1, pages) && DirtyStay(v1, v2, pages) ==> DirtyStay(v, v2, pages)
  {
  }

  lemma AllDirtyStays(v: State, v1: State, held: seq<int>, pages: seq<int>)
    requires DirtyStay(v, v1, held) && AllDirty(v, pages) && forall i :: 0 <= i < |pages| ==> pages[i] in held
    ensures AllDirty(v1, pages)
  {
    forall i | 0 <= i < |pages|
      ensures DirtyIn(v1, pages[i])
    {
      var p := pages[i];
      assert p in held;
      var j :| 0 <= j < |held| && held[j] == p;
    }
  }

  /** A request moves no page that is held, and makes none clean or unpinned. */
  lemma HeldStay(v0: State, v: State, v1: State, held: seq<int>, id: int, shouldPin: bool)
    requires v0.Disciplined() && Pins(v0, v, held) && Requested(v, v1, id, shouldPin)
    ensures Stay(v, v1, held)
    ensures DirtyStay(v, v1, held)
    ensures AllDirty(v, held) ==> AllDirty(v1, held)
  {
    forall i | 0 <= i < |held|
      ensures held[i] in v.resident && v.resident[held[i]].pins > 0
    {
    }
  }

  /** When all held pages are dirty, a flush brings every pin count back to what it was. */
  lemma FlushSettlesPins(v0: State, v: State, v1: State, held: seq<int>)
    requires Pins(v0, v, held) && FlushedAll(v, v1)
    requires forall i :: 0 <= i < |held| ==> held[i] in v.resident && v.resident[held[i]].dirty
    ensures v1.Disciplined() && v1.NothingDirty() && SameLogical(v, v1)
    ensures forall q :: q in v1.resident ==> v1.resident[q].pins == BasePins(v0, q)
  {
  }

  /** Writing back and dropping the only dirty page. */
  lemma FlushOneSettles(v0: State, v: State, p: int, page: Page)
    requires v0.Disciplined() && v0.NothingDirty() && v.Disciplined() && 0 <= p < |v.file|
    requires Requested(v0, v, p, false) && SameLogical(v0, v)
    ensures var v1 := Flushed(Written(v, p, page), p, true);
            && v1.Disciplined() && v1.NothingDirty()
            && v1.Logical(p) == page && SameExcept(v0, v1, {p})
            && forall q :: q in v1.resident ==> v1.resident[q].pins == BasePins(v0, q)
  {
    var v1 := Flushed(Written(v, p, page), p, true);
    forall q
      ensures q != p ==> v1.Logical(q) == v0.Logical(q)
    {
      assert v.Logical(q) == v0.Logical(q);
    }
  }
}
