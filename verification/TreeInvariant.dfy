/**
 Insertion keeps the order, the bounds and the sizes of the tree.
 */
module TreeInvariant {
  import opened Pages
  import opened Search
  import opened TreeSpec

  lemma LeafInsertOk(l: Leaf, k: Key, v: Val, lo: Bound, hi: Bound)
    requires LeafOk(l, lo, hi) && k !in l.keys && Within(k, lo, hi)
    ensures LeafOk(LeafInsert(l, k, v), lo, hi)
    ensures l.keys[0] < k ==> LeafInsert(l, k, v).keys[0] == l.keys[0]
  {
    InsertedKeepsOrder(l.keys, k);
    RankSplits(l.keys, k);
  }

  lemma HalvesOk(l: Leaf, page: int, lo: Bound, hi: Bound)
    requires LeafOk(l, lo, hi) && |l.keys| == M
    ensures LeafOk(LowerHalf(l), lo, At(l.keys[H])) && LeafOk(UpperHalf(l, page), At(l.keys[H]), hi)
    ensures |LowerHalf(l).keys| == H && |UpperHalf(l, page).keys| == (M + 1) / 2
  {
  }

  /** A fresh key belongs within the bounds of the child it descends into, and after that child's separator. */
  lemma KidForBounds(n: Inner, lo: Bound, hi: Bound, k: Key)
    requires InnerOk(n, lo, hi) && Within(k, lo, hi)
    ensures var i := KidFor(n, k);
            && Within(k, LoOf(n.seps, lo, i), HiOf(n.seps, hi, i))
            && KidOk(n, lo, hi, i)
            && (i > 0 ==> n.seps[i - 1] == n.kids[i].keys[0] <= k)
  {
    ChildSlotSplits(n.seps, k);
    assert KidOk(n, lo, hi, KidFor(n, k));
  }

  lemma GrownKidOk(n: Inner, lo: Bound, hi: Bound, i: nat, grown: Leaf)
    requires InnerOk(n, lo, hi) && i < |n.kids|
    requires LeafOk(grown, LoOf(n.seps, lo, i), HiOf(n.seps, hi, i)) && H <= |grown.keys| < M
    requires i > 0 ==> grown.keys[0] == n.kids[i].keys[0]
    ensures InnerOk(n.(kids := n.kids[i := grown]), lo, hi)
  {
    var m := n.(kids := n.kids[i := grown]);
    forall j | 0 <= j < |m.kids|
      ensures KidOk(m, lo, hi, j)
    {
      assert KidOk(n, lo, hi, j);
    }
  }

  /** What it takes of the two halves of child i to replace it. */
  ghost predicate Halves(n: Inner, lo: Bound, hi: Bound, i: nat, lower: Leaf, upper: Leaf)
    requires i < |n.kids| == |n.seps| + 1 && |n.kids[i].keys| >= 1
  {
    && |upper.keys| >= 1
    && LeafOk(lower, LoOf(n.seps, lo, i), At(upper.keys[0])) && H <= |lower.keys| < M
    && LeafOk(upper, At(upper.keys[0]), HiOf(n.seps, hi, i)) && H <= |upper.keys| < M
    && (i > 0 ==> lower.keys[0] == n.kids[i].keys[0] < upper.keys[0])
    && Within(upper.keys[0], lo, hi)
  }

  lemma AbsorbedSlots(n: Inner, i: nat, lower: Leaf, upper: Leaf, j: nat)
    requires i < |n.kids| == |n.seps| + 1 && |upper.keys| > 0
    ensures var m := Absorb(n, i, lower, upper);
            && (j < |m.kids| ==> m.kids[j] == if j < i then n.kids[j] else if j == i then lower
                                              else if j == i + 1 then upper else n.kids[j - 1])
            && (j < |m.seps| ==> m.seps[j] == if j < i then n.seps[j] else if j == i then upper.keys[0] else n.seps[j - 1])
  {
  }

  lemma AbsorbKidOk(n: Inner, lo: Bound, hi: Bound, i: nat, lower: Leaf, upper: Leaf, j: nat)
    requires InnerOk(n, lo, hi) && i < |n.kids| && KidOk(n, lo, hi, i)
    requires Halves(n, lo, hi, i, lower, upper)
    requires j <= |n.kids|
    ensures var m := Absorb(n, i, lower, upper);
            KidOk(m, lo, hi, j) && H <= |m.kids[j].keys| == |m.kids[j].vals| < M
  {
    AbsorbedSlots(n, i, lower, upper, j);
    if j > 0 { AbsorbedSlots(n, i, lower, upper, j - 1); }
    if j < i {
      assert KidOk(n, lo, hi, j);
    } else if j > i + 1 {
      assert KidOk(n, lo, hi, j - 1);
    }
  }

  lemma AbsorbOk(n: Inner, lo: Bound, hi: Bound, i: nat, lower: Leaf, upper: Leaf)
    requires InnerOk(n, lo, hi) && i < |n.kids| && KidOk(n, lo, hi, i)
    requires Halves(n, lo, hi, i, lower, upper)
    ensures InnerOk(Absorb(n, i, lower, upper), lo, hi)
  {
    var m := Absorb(n, i, lower, upper);
    forall j: nat | j < |m.kids|
      ensures KidOk(m, lo, hi, j)
      ensures H <= |m.kids[j].keys| == |m.kids[j].vals| < M
    {
      AbsorbKidOk(n, lo, hi, i, lower, upper, j);
    }
    assert i < |n.seps| ==> upper.keys[0] < n.seps[i];
    assert i > 0 ==> n.seps[i - 1] < upper.keys[0];
    forall j: nat | j < |m.seps|
      ensures Within(m.seps[j], lo, hi)
      ensures j > 0 ==> m.seps[j - 1] < m.seps[j]
    {
      AbsorbedSlots(n, i, lower, upper, j);
      if j > 0 { AbsorbedSlots(n, i, lower, upper, j - 1); }
    }
    StepwiseAscending(m.seps);
  }

  lemma StepwiseAscending(keys: seq<Key>)
    requires forall j: nat :: 0 < j < |keys| ==> keys[j - 1] < keys[j]
    ensures Ascending(keys)
  {
    forall i, j | 0 <= i < j < |keys|
      ensures keys[i] < keys[j]
    {
      var l := i + 1;
      while l < j
        invariant i < l <= j && keys[i] < keys[l]
      {
        l := l + 1;
      }
    }
  }

  lemma SplitKidOk(n: Inner, page: int, lo: Bound, hi: Bound, j: nat)
    requires InnerOk(n, lo, hi) && |n.kids| == M && j < M && KidOk(n, lo, hi, j)
    ensures var r := SplitInner(n, page);
            && (j <= H ==> KidOk(r.left, lo, At(r.sep), j))
            && (j > H ==> KidOk(r.right, At(r.sep), hi, j - H - 1))
  {
  }

  lemma SplitInnerOk(n: Inner, page: int, lo: Bound, hi: Bound)
    requires InnerOk(n, lo, hi) && |n.kids| == M
    ensures var r := SplitInner(n, page);
            && InnerOk(r.left, lo, At(r.sep)) && InnerOk(r.right, At(r.sep), hi)
            && LEAST_KIDS <= |r.left.kids| < M && LEAST_KIDS <= |r.right.kids| < M
            && r.right.kids[0].keys[0] == r.sep
            && Within(r.sep, lo, hi)
  {
    hide LeafOk, KidOk;
    assert KidOk(n, lo, hi, H + 1);
    LeftHalfOk(n, page, lo, hi);
    RightHalfOk(n, page, lo, hi);
    PromotedKey(n, lo, hi);
  }

  lemma PromotedKey(n: Inner, lo: Bound, hi: Bound)
    requires InnerOk(n, lo, hi) && |n.kids| == M && KidOk(n, lo, hi, H + 1)
    ensures |n.kids[H + 1].keys| > 0 && n.kids[H + 1].keys[0] == n.seps[H] && Within(n.seps[H], lo, hi)
  {
  }

  lemma LeftHalfOk(n: Inner, page: int, lo: Bound, hi: Bound)
    requires InnerOk(n, lo, hi) && |n.kids| == M
    ensures InnerOk(SplitInner(n, page).left, lo, At(SplitInner(n, page).sep))
  {
    hide LeafOk, KidOk;
    var r := SplitInner(n, page);
    forall j: nat | j < |r.left.kids|
      ensures KidOk(r.left, lo, At(r.sep), j)
    {
      assert KidOk(n, lo, hi, j);
      SplitKidOk(n, page, lo, hi, j);
    }
  }

  lemma RightHalfOk(n: Inner, page: int, lo: Bound, hi: Bound)
    requires InnerOk(n, lo, hi) && |n.kids| == M
    ensures InnerOk(SplitInner(n, page).right, At(SplitInner(n, page).sep), hi)
  {
    hide LeafOk, KidOk;
    var r := SplitInner(n, page);
    forall j: nat | j < |r.right.kids|
      ensures KidOk(r.right, At(r.sep), hi, j)
    {
      assert KidOk(n, lo, hi, H + 1 + j);
      SplitKidOk(n, page, lo, hi, H + 1 + j);
    }
  }

  lemma InnerInsertOk(n: Inner, lo: Bound, hi: Bound, k: Key, v: Val, next: int)
    requires InnerOk(n, lo, hi) && |n.kids| < M && Within(k, lo, hi)
    requires k !in n.kids[KidFor(n, k)].keys
    ensures match InnerInsert(n, k, v, next).0
            case Fits(node) =>
              && InnerOk(node, lo, hi) && |n.kids| <= |node.kids| < M && node.page == n.page
              && (lo.At? && n.kids[0].keys[0] == lo.key ==> node.kids[0].keys[0] == lo.key)
            case Splits(left, sep, right) =>
              && InnerOk(left, lo, At(sep)) && LEAST_KIDS <= |left.kids| < M
              && InnerOk(right, At(sep), hi) && LEAST_KIDS <= |right.kids| < M
              && right.kids[0].keys[0] == sep
  {
    hide Ascending, SplitInner;
    var i := KidFor(n, k);
    var leaf := n.kids[i];
    KidForBounds(n, lo, hi, k);
    LeafInsertOk(leaf, k, v, LoOf(n.seps, lo, i), HiOf(n.seps, hi, i));
    var grown := LeafInsert(leaf, k, v);
    if i > 0 || (lo.At? && leaf.keys[0] == lo.key) {
      assert leaf.keys[0] in leaf.keys;
      assert grown.keys[0] == leaf.keys[0];
    }
    if |grown.keys| < M {
      GrownKidOk(n, lo, hi, i, grown);
    } else {
      HalvesOk(grown, next, LoOf(n.seps, lo, i), HiOf(n.seps, hi, i));
      var lower, upper := LowerHalf(grown), UpperHalf(grown, next);
      SepWithin(n, lo, hi, i, grown.keys[H]);
      AbsorbOk(n, lo, hi, i, lower, upper);
      var wider := Absorb(n, i, lower, upper);
      if |wider.kids| == M {
        SplitInnerOk(wider, next + 1, lo, hi);
      }
    }
  }

  /** The least key of a leaf that is split off child i is no separator yet, and belongs right after separator i - 1. */
  lemma NewLeafSlot(n: Inner, lo: Bound, hi: Bound, k: Key, v: Val)
    requires InnerOk(n, lo, hi) && Within(k, lo, hi) && k !in n.kids[KidFor(n, k)].keys
    requires |n.kids[KidFor(n, k)].keys| == M - 1
    ensures var grown := LeafInsert(n.kids[KidFor(n, k)], k, v);
            && grown.keys[H] !in n.seps
            && ChildSlot(n.seps, grown.keys[H]) == KidFor(n, k)
  {
    var i := KidFor(n, k);
    var leaf := n.kids[i];
    KidForBounds(n, lo, hi, k);
    LeafInsertOk(leaf, k, v, LoOf(n.seps, lo, i), HiOf(n.seps, hi, i));
    var grown := LeafInsert(leaf, k, v);
    assert leaf.keys[0] in leaf.keys;
    assert grown.keys[0] < grown.keys[H];
    ChildSlotIsUnique(n.seps, grown.keys[H], i);
    NoSepThere(n.seps, grown.keys[H], i);
  }

  lemma NoSepThere(seps: seq<Key>, k: Key, i: nat)
    requires Ascending(seps) && i <= |seps| && (i > 0 ==> seps[i - 1] < k) && (i < |seps| ==> k < seps[i])
    ensures k !in seps
  {
    forall j | 0 <= j < |seps|
      ensures seps[j] != k
    {
    }
  }

  lemma SepWithin(n: Inner, lo: Bound, hi: Bound, i: nat, k: Key)
    requires InnerOk(n, lo, hi) && i < |n.kids| && Within(k, LoOf(n.seps, lo, i), HiOf(n.seps, hi, i))
    ensures Within(k, lo, hi)
  {
  }

  /** Order, bounds and sizes survive every insertion of a fresh key. */
  lemma InsertOk(s: Shape, k: Key, v: Val, next: int)
    requires ShapeOk(s)
    requires !s.Empty? ==> k !in TargetLeaf(s, k).keys
    ensures Insert(s, k, v, next).Inserted? ==> ShapeOk(Insert(s, k, v, next).shape)
  {
    match s
    case Empty =>
    case OneLeaf(l) =>
      LeafInsertOk(l, k, v, Unbounded, Unbounded);
      var grown := LeafInsert(l, k, v);
      if |grown.keys| == M {
        HalvesOk(grown, next, Unbounded, Unbounded);
        RootOverHalvesOk(grown, next);
      }
    case OneInner(n) =>
      InnerInsertOk(n, Unbounded, Unbounded, k, v, next);
    case TwoInner(_, l, sep, r) =>
      if k < sep {
        InnerInsertOk(l, Unbounded, At(sep), k, v, next);
      } else {
        InnerInsertOk(r, At(sep), Unbounded, k, v, next);
      }
  }

  lemma RootOverHalvesOk(l: Leaf, next: int)
    requires LeafOk(l, Unbounded, Unbounded) && |l.keys| == M
    ensures var lower, upper := LowerHalf(l), UpperHalf(l, next);
            InnerOk(Inner(next + 1, [upper.keys[0]], [lower, upper]), Unbounded, Unbounded)
  {
    HalvesOk(l, next, Unbounded, Unbounded);
    var lower, upper := LowerHalf(l), UpperHalf(l, next);
    var n := Inner(next + 1, [upper.keys[0]], [lower, upper]);
    assert KidOk(n, Unbounded, Unbounded, 0) && KidOk(n, Unbounded, Unbounded, 1);
  }

  /**
     Insertion aborts exactly when the tree has three levels, the leaf for the key has one entry to
     spare, and so has the inner node above that leaf.
   */
  lemma AbortsExactlyWhen(s: Shape, k: Key, v: Val, next: int)
    requires ShapeOk(s)
    ensures Insert(s, k, v, next).Aborted? <==>
            && s.TwoInner?
            && |(if k < s.sep then s.left else s.right).kids| == M - 1
            && |TargetLeaf(s, k).keys| == M - 1
  {
  }
}
