/**
 The stages an insertion goes through, as changes to the pages, and what they add up to.
 In these lemmas v0 is the pool before the insertion, and the later states follow in order.
 */
module TreeSteps {
  import opened Pages
  import opened Search
  import opened PoolState
  import opened TreeSpec
  import opened TreePages
  import LeafNode

  /** The inner node right above the leaf for key k. */
  function SideOf(s: Shape, k: Key): (n: Inner)
    requires ShapeOk(s) && (s.OneInner? || s.TwoInner?)
    ensures KidsFit(n) && 2 <= |n.kids| < M
  {
    match s
    case OneInner(n) => n
    case TwoInner(_, l, sep, r) => if k < sep then l else r
  }

  function Grown(s: Shape, k: Key, val: Val): Leaf
    requires ShapeOk(s) && !s.Empty?
  {
    LeafInsert(TargetLeaf(s, k), k, val)
  }

  function Wider(s: Shape, k: Key, val: Val, next: int): (n: Inner)
    requires ShapeOk(s) && (s.OneInner? || s.TwoInner?) && |Grown(s, k, val).keys| == M
    ensures |n.kids| == |n.seps| + 1
  {
    var grown := Grown(s, k, val);
    Absorb(SideOf(s, k), KidFor(SideOf(s, k), k), LowerHalf(grown), UpperHalf(grown, next))
  }

  /** The first page id an insertion leaves over; one that aborts has split a leaf and an inner node by then. */
  ghost function PagesAfter(s: Shape, k: Key, val: Val, next: int): int
    requires ShapeOk(s)
  {
    match Insert(s, k, val, next)
    case Inserted(_, after) => after
    case Aborted => next + 2
  }

  lemma PagesTaken(s: Shape, k: Key, val: Val, next: int)
    requires ShapeOk(s) && !s.Empty?
    ensures next <= PagesAfter(s, k, val, next) <= next + 3
    ensures |Grown(s, k, val).keys| == M ==> PagesAfter(s, k, val, next) >= if s.OneLeaf? then next + 2 else next + 1
    ensures !s.OneLeaf? && |Grown(s, k, val).keys| == M && |Wider(s, k, val, next).kids| == M ==>
              PagesAfter(s, k, val, next) >= if s.OneInner? then next + 3 else next + 2
  {
    hide KidOk, LeafOk, Within, Ascending, InsertAt, Absorb;
  }

  // ----- the pages an insertion asks for -----

  /** The pages of the inner nodes. */
  function InnerIds(s: Shape): set<int> {
    match s
    case OneInner(n) => {n.page}
    case TwoInner(root, l, _, r) => {root, l.page, r.page}
    case _ => {}
  }

  /** The pages on the way to the key, and those that are handed out. */
  ghost function AskedPages(s: Shape, k: Key, val: Val, next: int): set<int>
    requires ShapeOk(s)
  {
    (if s.Empty? then {} else Members(PathTo(s, k))) + NewPages(next, PagesAfter(s, k, val, next))
  }

  ghost function Members(pages: seq<int>): set<int> {
    set p | p in pages
  }

  ghost function NewPages(next: int, after: int): (pages: set<int>)
    ensures forall p :: p in pages <==> next <= p < after
    ensures |pages| == if next <= after then after - next else 0
    decreases after - next
  {
    if next < after then NewPages(next, after - 1) + {after - 1} else {}
  }

  lemma {:induction false} FewMembers(pages: seq<int>)
    ensures |Members(pages)| <= |pages|
  {
    if pages != [] {
      var init, last := pages[..|pages| - 1], pages[|pages| - 1];
      FewMembers(init);
      assert pages == init + [last];
      assert Members(pages) == Members(init) + {last};
    }
  }

  /** An insertion asks for at most five pages. */
  lemma FewAsked(s: Shape, k: Key, val: Val, next: int)
    requires ShapeOk(s)
    ensures |AskedPages(s, k, val, next)| <= 5
  {
    hide KidOk, LeafOk, Within, Ascending, Insert, Members, NewPages, PagesAfter;
    NewPagesByShape(s, k, val, next);
    if !s.Empty? { FewMembers(PathTo(s, k)); }
  }

  lemma NewPagesByShape(s: Shape, k: Key, val: Val, next: int)
    requires ShapeOk(s)
    ensures next <= PagesAfter(s, k, val, next) <= next +
              match s case Empty => 1 case OneLeaf(_) => 2 case OneInner(_) => 3 case TwoInner(_, _, _, _) => 2
  {
    hide KidOk, LeafOk, Within, Ascending, InsertAt, Absorb;
  }

  /** An inner node stays one. */
  lemma InnerIdsStay(s: Shape, k: Key, val: Val, next: int)
    requires ShapeOk(s) && Insert(s, k, val, next).Inserted?
    ensures InnerIds(s) <= InnerIds(Insert(s, k, val, next).shape)
  {
    hide KidOk, LeafOk, Within, Ascending, InsertAt;
  }

  /** The key went into its leaf, and nothing had to be split. */
  ghost predicate LeafFits(v0: State, v: State, s: Shape, k: Key, val: Val)
    requires ShapeOk(s) && !s.Empty?
  {
    var grown := Grown(s, k, val);
    |grown.keys| < M && LeafIn(v, grown) && SameExcept(v0, v, {grown.page})
  }

  /** The leaf was split, and nothing above it knows yet. */
  ghost predicate LeafSplit(v0: State, v: State, s: Shape, k: Key, val: Val, next: int)
    requires ShapeOk(s) && !s.Empty?
  {
    var grown := Grown(s, k, val);
    && |grown.keys| == M
    && LeafIn(v, LowerHalf(grown)) && LeafIn(v, UpperHalf(grown, next))
    && SameExcept(v0, v, {grown.page, next})
  }

  /** The inner page above the leaf holds the new leaf too. */
  ghost predicate LeafTakenIn(v0: State, v: State, s: Shape, k: Key, val: Val, next: int)
    requires ShapeOk(s) && (s.OneInner? || s.TwoInner?)
  {
    var grown := Grown(s, k, val);
    && |grown.keys| == M
    && InnerIn(v, Wider(s, k, val, next))
    && SameExcept(v0, v, {grown.page, next, SideOf(s, k).page})
  }

  /** That inner page was full and has been split; the separator between the halves is in the left one's last slot. */
  ghost predicate InnerSplit(v0: State, v: State, s: Shape, k: Key, val: Val, next: int)
    requires ShapeOk(s) && (s.OneInner? || s.TwoInner?)
  {
    var grown := Grown(s, k, val);
    && |grown.keys| == M && |Wider(s, k, val, next).kids| == M
    && InnerIn(v, SplitInner(Wider(s, k, val, next), next + 1).left)
    && InnerIn(v, SplitInner(Wider(s, k, val, next), next + 1).right)
    && v.Logical(SideOf(s, k).page).keys[H] == Wider(s, k, val, next).seps[H]
    && SameExcept(v0, v, {grown.page, next, SideOf(s, k).page, next + 1})
  }

  // ----- where pages lie -----

  lemma PartsPlaced(root: int, a: seq<int>, b: seq<int>, next: int)
    requires Distinct([root] + a + b) && forall p :: p in [root] + a + b ==> 0 <= p < next
    ensures Distinct(a) && Distinct(b) && 0 <= root < next && root !in a && root !in b
    ensures forall p :: p in a ==> 0 <= p < next && p !in b
    ensures forall p :: p in b ==> 0 <= p < next && p !in a
  {
    Apart([root] + a, b);
    Apart([root], a);
    assert root in [root];
    assert forall p :: p in a ==> p in [root] + a;
  }

  lemma Apart(a: seq<int>, b: seq<int>)
    requires Distinct(a + b)
    ensures Distinct(a) && Distinct(b) && forall p :: p in a ==> p !in b
    ensures forall p :: p in a + b <==> p in a || p in b
  {
    assert forall i :: 0 <= i < |a| ==> (a + b)[i] == a[i];
    assert forall i :: 0 <= i < |b| ==> (a + b)[|a| + i] == b[i];
  }

  lemma KidPlaced(n: Inner, i: nat)
    requires Distinct(InnerPages(n)) && i < |n.kids|
    ensures n.kids[i].page in InnerPages(n) && n.page in InnerPages(n) && n.kids[i].page != n.page
  {
    InnerPageAt(n, 0);
    InnerPageAt(n, i + 1);
  }

  lemma SidePlaced(s: Shape, k: Key, next: int)
    requires ShapeOk(s) && (s.OneInner? || s.TwoInner?) && Placed(s, next)
    ensures var n := SideOf(s, k);
            && Distinct(InnerPages(n))
            && (forall p :: p in InnerPages(n) ==> 0 <= p < next)
            && n.kids[KidFor(n, k)].page in InnerPages(n) && n.page in InnerPages(n)
            && n.kids[KidFor(n, k)].page != n.page
  {
    var n := SideOf(s, k);
    if s.TwoInner? { PartsPlaced(s.page, InnerPages(s.left), InnerPages(s.right), next); }
    KidPlaced(n, KidFor(n, k));
  }

  /** In a tree of three levels, the side that is not entered and the root lie on pages of their own. */
  lemma OtherSidePlaced(s: Shape, k: Key, next: int)
    requires ShapeOk(s) && s.TwoInner? && Placed(s, next)
    ensures var other := if k < s.sep then s.right else s.left;
            && (forall p :: p in InnerPages(other) ==> 0 <= p < next && p !in InnerPages(SideOf(s, k)) && p != s.page)
            && 0 <= s.page < next && s.page !in InnerPages(SideOf(s, k))
  {
    PartsPlaced(s.page, InnerPages(s.left), InnerPages(s.right), next);
  }

  lemma TargetPlaced(s: Shape, k: Key, next: int)
    requires ShapeOk(s) && !s.Empty? && Placed(s, next)
    ensures 0 <= TargetLeaf(s, k).page < next
  {
    match s
    case OneLeaf(l) =>
      assert l.page in PagesOf(s);
    case OneInner(_) =>
      SidePlaced(s, k, next);
    case TwoInner(_, _, _, _) =>
      SidePlaced(s, k, next);
  }

  lemma PathPlaced(s: Shape, k: Key, next: int)
    requires ShapeOk(s) && !s.Empty? && Placed(s, next)
    ensures var path := PathTo(s, k);
            && (forall i :: 0 <= i < |path| ==> 0 <= path[i] < next)
            && Distinct(path)
            && path[|path| - 1] == TargetLeaf(s, k).page
  {
    hide KidOk, LeafOk, Within, Ascending, LeafPages, InnerPages;
    TargetPlaced(s, k, next);
    if s.OneInner? || s.TwoInner? { SidePlaced(s, k, next); }
    if s.TwoInner? { OtherSidePlaced(s, k, next); }
  }

  // ----- the stages -----

  lemma SideIn(v0: State, root: int, s: Shape, k: Key)
    requires ShapeOk(s) && (s.OneInner? || s.TwoInner?) && ShapeIn(v0, root, s)
    ensures InnerIn(v0, SideOf(s, k))
  {
  }

  lemma GrownInSide(s: Shape, k: Key, val: Val)
    requires ShapeOk(s) && (s.OneInner? || s.TwoInner?)
    ensures Grown(s, k, val).page == SideOf(s, k).kids[KidFor(SideOf(s, k), k)].page
  {
  }

  lemma GrownPage(s: Shape, key: Key, val: Val)
    requires ShapeOk(s) && !s.Empty?
    ensures Grown(s, key, val).page == TargetLeaf(s, key).page
    ensures |Grown(s, key, val).keys| == |Grown(s, key, val).vals| == |TargetLeaf(s, key).keys| + 1 <= M
  {
  }

  lemma FitsDone(v0: State, v: State, root: int, s: Shape, k: Key, val: Val, next: int)
    requires ShapeOk(s) && !s.Empty? && ShapeIn(v0, root, s) && Placed(s, next)
    requires LeafFits(v0, v, s, k, val)
    ensures Insert(s, k, val, next).Inserted? && Insert(s, k, val, next).next == next
    ensures ShapeIn(v, root, Insert(s, k, val, next).shape)
  {
    match s
    case OneLeaf(l) =>
    case OneInner(n) =>
      SideFits(v0, v, s, k, val, next);
    case TwoInner(_, l, sep, r) =>
      SideFits(v0, v, s, k, val, next);
      SidePlaced(s, k, next);
      OtherSideStays(v0, v, s.page, l, sep, r, k < sep, next, {Grown(s, k, val).page});
  }

  lemma SideFits(v0: State, v: State, s: Shape, k: Key, val: Val, next: int)
    requires ShapeOk(s) && (s.OneInner? || s.TwoInner?) && InnerIn(v0, SideOf(s, k)) && Placed(s, next)
    requires LeafFits(v0, v, s, k, val)
    ensures InnerInsert(SideOf(s, k), k, val, next).0.Fits? && InnerInsert(SideOf(s, k), k, val, next).1 == next
    ensures InnerIn(v, InnerInsert(SideOf(s, k), k, val, next).0.node)
    ensures InnerInsert(SideOf(s, k), k, val, next).0.node.page == SideOf(s, k).page
  {
    SidePlaced(s, k, next);
    LeafReplaced(v0, v, SideOf(s, k), KidFor(SideOf(s, k), k), Grown(s, k, val));
  }

  /** What lies outside the entered side of a tree of three levels does not change with the pages of that side. */
  lemma OtherSideStays(
    v0: State, v: State, root: int, l: Inner, sep: Key, r: Inner, inLeft: bool, next: int, changed: set<int>)
    requires HeadIn(v0, root, [sep], [l.page, r.page]) && InnerIn(v0, l) && InnerIn(v0, r)
    requires Distinct([root] + InnerPages(l) + InnerPages(r))
    requires forall p :: p in [root] + InnerPages(l) + InnerPages(r) ==> 0 <= p < next
    requires forall p :: p in changed ==> p in InnerPages(if inLeft then l else r) || p >= next
    requires SameExcept(v0, v, changed)
    ensures InnerIn(v, if inLeft then r else l)
    ensures HeadIn(v, root, [sep], [l.page, r.page])
  {
    PartsPlaced(root, InnerPages(l), InnerPages(r), next);
    InnerUnchanged(v0, v, if inLeft then r else l, changed);
    assert root !in changed;
  }

  /** The least key of the new leaf, as read from its page. */
  lemma UpperKeyAt(v0: State, v: State, s: Shape, k: Key, val: Val, next: int)
    requires ShapeOk(s) && !s.Empty? && LeafSplit(v0, v, s, k, val, next)
    ensures LeafNode.IsLeaf(v.Logical(next)) && v.Logical(next).currentSize > 0
    ensures |UpperHalf(Grown(s, k, val), next).keys| > 0
    ensures v.Logical(next).keys[0] == UpperHalf(Grown(s, k, val), next).keys[0]
  {
    assert LeafNode.Keys(v.Logical(next))[0] == v.Logical(next).keys[0];
  }

  lemma RootLeafSplitDone(v0: State, v1: State, v2: State, l: Leaf, k: Key, val: Val, next: int)
    requires ShapeOk(OneLeaf(l)) && Placed(OneLeaf(l), next)
    requires LeafSplit(v0, v1, OneLeaf(l), k, val, next) && SameExcept(v1, v2, {next + 1})
    requires HeadIn(v2, next + 1, [UpperHalf(Grown(OneLeaf(l), k, val), next).keys[0]], [l.page, next])
    ensures Insert(OneLeaf(l), k, val, next).Inserted? && Insert(OneLeaf(l), k, val, next).next == next + 2
    ensures ShapeIn(v2, next + 1, Insert(OneLeaf(l), k, val, next).shape)
  {
    TargetPlaced(OneLeaf(l), k, next);
    var grown := Grown(OneLeaf(l), k, val);
    var kids := [LowerHalf(grown), UpperHalf(grown, next)];
    assert LeafPages(kids) == [l.page, next];
    assert LeafIn(v1, kids[0]) && LeafIn(v1, kids[1]);
  }

  lemma TakenIn(v0: State, v1: State, v2: State, root: int, s: Shape, k: Key, val: Val, next: int)
    requires ShapeOk(s) && (s.OneInner? || s.TwoInner?) && ShapeIn(v0, root, s) && Placed(s, next)
    requires LeafSplit(v0, v1, s, k, val, next) && SameExcept(v1, v2, {SideOf(s, k).page})
    requires var n, i, upper := SideOf(s, k), KidFor(SideOf(s, k), k), UpperHalf(Grown(s, k, val), next);
             HeadIn(v2, n.page, InsertAt(n.seps, i, upper.keys[0]), InsertAt(LeafPages(n.kids), i + 1, next))
    ensures LeafTakenIn(v0, v2, s, k, val, next)
  {
    hide ShapeOk, ShapeIn, HeadIn, LeafIn, InnerIn, InnerPages, LeafPages, LeafInsert, TargetLeaf, SideOf,
         Grown, InsertAt;
    SidePlaced(s, k, next);
    SideIn(v0, root, s, k);
    GrownPage(s, k, val);
    GrownInSide(s, k, val);
    var n, grown := SideOf(s, k), Grown(s, k, val);
    LeafUnchanged(v1, v2, LowerHalf(grown), {n.page});
    LeafUnchanged(v1, v2, UpperHalf(grown, next), {n.page});
    LeafAbsorbed(v0, v2, n, KidFor(n, k), LowerHalf(grown), UpperHalf(grown, next));
  }

  lemma TakenInShape(s: Shape, k: Key, val: Val, next: int)
    requires ShapeOk(s) && (s.OneInner? || s.TwoInner?)
    requires |Grown(s, k, val).keys| == M && |Wider(s, k, val, next).kids| < M
    ensures var wider := Wider(s, k, val, next);
            Insert(s, k, val, next) ==
            Inserted(
              match s
              case OneInner(_) => OneInner(wider)
              case TwoInner(root, l, sep, r) =>
                if k < sep then TwoInner(root, wider, sep, r) else TwoInner(root, l, sep, wider),
              next + 1)
    ensures Wider(s, k, val, next).page == SideOf(s, k).page
  {
    hide KidOk, LeafOk, Within, Ascending, InsertAt;
    assert InnerInsert(SideOf(s, k), k, val, next) == (Fits(Wider(s, k, val, next)), next + 1);
  }

  lemma TakenInDone(v0: State, v: State, root: int, s: Shape, k: Key, val: Val, next: int)
    requires ShapeOk(s) && (s.OneInner? || s.TwoInner?) && ShapeIn(v0, root, s) && Placed(s, next)
    requires LeafTakenIn(v0, v, s, k, val, next) && |Wider(s, k, val, next).kids| < M
    ensures Insert(s, k, val, next).Inserted? && Insert(s, k, val, next).next == next + 1
    ensures ShapeIn(v, root, Insert(s, k, val, next).shape)
  {
    hide Insert, KidOk, LeafOk, Within, Ascending, HeadIn, LeafIn, LeafPages, InnerPages, KidFor, Wider, Distinct;
    TakenInShape(s, k, val, next);
    if s.TwoInner? {
      SidePlaced(s, k, next);
      OtherSideStays(v0, v, s.page, s.left, s.sep, s.right, k < s.sep, next,
                     {Grown(s, k, val).page, next, SideOf(s, k).page});
    }
  }

  lemma SplitUp(v0: State, v1: State, v2: State, s: Shape, k: Key, val: Val, next: int)
    requires ShapeOk(s) && (s.OneInner? || s.TwoInner?) && Placed(s, next)
    requires LeafTakenIn(v0, v1, s, k, val, next) && |Wider(s, k, val, next).kids| == M
    requires var wider := Wider(s, k, val, next);
             && SameExcept(v1, v2, {wider.page, next + 1})
             && HeadIn(v2, wider.page, wider.seps[..H], LeafPages(wider.kids)[..H + 1])
             && v2.Logical(wider.page).keys[H] == wider.seps[H]
             && HeadIn(v2, next + 1, wider.seps[H + 1..], LeafPages(wider.kids)[H + 1..])
    ensures InnerSplit(v0, v2, s, k, val, next)
  {
    hide KidOk, LeafOk, Within, Ascending, HeadIn, LeafIn, LeafPages, InnerPages, Distinct, InsertAt;
    SidePlaced(s, k, next);
    var wider := Wider(s, k, val, next);
    WiderPlaced(s, k, val, next);
    InnerSplitIn(v1, v2, wider, next + 1);
  }

  lemma WiderPlaced(s: Shape, k: Key, val: Val, next: int)
    requires ShapeOk(s) && (s.OneInner? || s.TwoInner?) && Placed(s, next) && |Grown(s, k, val).keys| == M
    ensures Distinct(InnerPages(Wider(s, k, val, next)))
    ensures forall p :: p in InnerPages(Wider(s, k, val, next)) ==> 0 <= p <= next
  {
    hide Placed, InsertAt, LeafPages, KidFor, KidOk, LeafOk, Within, Ascending, Distinct;
    SidePlaced(s, k, next);
    var n, grown := SideOf(s, k), Grown(s, k, val);
    AbsorbedPages(n, KidFor(n, k), LowerHalf(grown), UpperHalf(grown, next));
    InsertBehindFirst(n.page, LeafPages(n.kids), KidFor(n, k) + 1, next);
    InsertedDistinct(InnerPages(n), KidFor(n, k) + 2, next);
  }

  lemma InsertBehindFirst(first: int, rest: seq<int>, at: nat, p: int)
    requires at <= |rest|
    ensures [first] + InsertAt(rest, at, p) == InsertAt([first] + rest, at + 1, p)
  {
  }

  lemma InsertedDistinct(pages: seq<int>, at: nat, p: int)
    requires Distinct(pages) && p !in pages && at <= |pages|
    ensures Distinct(InsertAt(pages, at, p))
    ensures forall q :: q in InsertAt(pages, at, p) <==> q in pages || q == p
  {
    assert pages == pages[..at] + pages[at..];
  }

  /** The new root over the two halves of the old one. */
  lemma NewRootDone(v0: State, v1: State, v2: State, n: Inner, k: Key, val: Val, next: int)
    requires ShapeOk(OneInner(n)) && Placed(OneInner(n), next) && InnerSplit(v0, v1, OneInner(n), k, val, next)
    requires SameExcept(v1, v2, {n.page, next + 2})
    requires var r := SplitInner(Wider(OneInner(n), k, val, next), next + 1);
             && HeadIn(v2, n.page, r.left.seps, LeafPages(r.left.kids))
             && HeadIn(v2, next + 2, [r.sep], [n.page, next + 1])
    ensures Insert(OneInner(n), k, val, next).Inserted? && Insert(OneInner(n), k, val, next).next == next + 3
    ensures ShapeIn(v2, next + 2, Insert(OneInner(n), k, val, next).shape)
  {
    hide ShapeOk, Placed, Insert, HeadIn, LeafIn, LeafPages, InnerPages, Wider, Distinct;
    var wider := Wider(OneInner(n), k, val, next);
    SidePlaced(OneInner(n), k, next);
    WiderPlaced(OneInner(n), k, val, next);
    InsertSplitsRoot(n, k, val, next);
    HalvesStay(v1, v2, wider, next + 1, next + 2);
  }

  lemma InsertSplitsRoot(n: Inner, k: Key, val: Val, next: int)
    requires ShapeOk(OneInner(n)) && |Grown(OneInner(n), k, val).keys| == M
    requires |Wider(OneInner(n), k, val, next).kids| == M
    ensures var r := SplitInner(Wider(OneInner(n), k, val, next), next + 1);
            && Insert(OneInner(n), k, val, next) == Inserted(TwoInner(next + 2, r.left, r.sep, r.right), next + 3)
            && r.left.page == n.page
  {
    hide KidOk, LeafOk, Within, LeafInsert, SplitInner;
    var r := SplitInner(Wider(OneInner(n), k, val, next), next + 1);
    assert InnerInsert(n, k, val, next) == (r, next + 2);
    SplitKeepsPage(Wider(OneInner(n), k, val, next), next + 1);
  }

  lemma SplitKeepsPage(n: Inner, page: int)
    requires |n.kids| == |n.seps| + 1 == M
    ensures SplitInner(n, page).left.page == n.page && SplitInner(n, page).right.page == page
  {
  }

  lemma HalvesStay(before: State, after: State, n: Inner, page: int, root: int)
    requires |n.kids| == |n.seps| + 1 == M && Distinct(InnerPages(n)) && root !in InnerPages(n)
    requires page != root && page != n.page && SameExcept(before, after, {n.page, root})
    requires InnerIn(before, SplitInner(n, page).left) && InnerIn(before, SplitInner(n, page).right)
    ensures LeavesIn(after, SplitInner(n, page).left.kids) && InnerIn(after, SplitInner(n, page).right)
  {
    hide InnerPages, LeafPages, LeafIn;
    forall j | 0 <= j < |n.kids|
      ensures after.Logical(n.kids[j].page) == before.Logical(n.kids[j].page)
    {
      KidPlaced(n, j);
    }
    var left, right := SplitInner(n, page).left.kids, SplitInner(n, page).right.kids;
    assert forall j :: 0 <= j < |left| ==> left[j] == n.kids[j];
    assert forall j :: 0 <= j < |right| ==> right[j] == n.kids[H + 1 + j];
    LeavesUnchanged(before, after, left);
    LeavesUnchanged(before, after, right);
  }

  lemma InnerSplitSame(v0: State, v: State, v1: State, s: Shape, k: Key, val: Val, next: int)
    requires ShapeOk(s) && (s.OneInner? || s.TwoInner?) && InnerSplit(v0, v, s, k, val, next) && SameLogical(v, v1)
    ensures InnerSplit(v0, v1, s, k, val, next)
  {
    var r := SplitInner(Wider(s, k, val, next), next + 1);
    InnerUnchanged(v, v1, r.left, {});
    InnerUnchanged(v, v1, r.right, {});
  }

  lemma SplitAborts(s: Shape, k: Key, val: Val, next: int)
    requires ShapeOk(s) && s.TwoInner? && |Grown(s, k, val).keys| == M && |Wider(s, k, val, next).kids| == M
    ensures Insert(s, k, val, next).Aborted?
  {
  }
}
