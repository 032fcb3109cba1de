/**
 Runs in ascending key order: the missing step is reached, and at which insertion.
 */
module TreeAscending {
  import opened Pages
  import opened Search
  import opened TreeSpec
  import opened TreeInvariant
  import opened TreeContents
  import opened TreeRuns

  ghost predicate AscendingOps(ops: seq<Op>) {
    forall i, j :: 0 <= i < j < |ops| ==> ops[i].0 < ops[j].0
  }

  /** The insertion, counted from one, at which every run in ascending key order aborts. */
  const ASCENDING_LIMIT: nat := (H + M - 1) * H + M

  /** How many entries there are when every leaf but the last is exactly half full. */
  function Load(s: Shape): int
    requires s.OneInner? ==> s.inner.kids != []
    requires s.TwoInner? ==> s.right.kids != []
  {
    match s
    case Empty => 0
    case OneLeaf(l) => |l.keys|
    case OneInner(n) => (|n.kids| - 1) * H + LastSize(n)
    case TwoInner(_, _, _, r) => (H + |r.kids|) * H + LastSize(r)
  }

  lemma ShapeHasKids(s: Shape)
    requires ShapeOk(s)
    ensures s.OneInner? ==> s.inner.kids != []
    ensures s.TwoInner? ==> s.right.kids != []
  {
  }

  lemma {:induction false} KeyInRow(leaves: seq<Leaf>, i: nat, j: nat)
    requires i < |leaves| && j < |leaves[i].keys|
    ensures leaves[i].keys[j] in KeysOf(leaves)
  {
    if i > 0 { KeyInRow(leaves[1..], i - 1, j); }
  }

  /** A key above all others below an inner node goes to its last child. */
  lemma LastKidEntered(n: Inner, lo: Bound, hi: Bound, k: Key)
    requires InnerOk(n, lo, hi) && n.kids != [] && forall x :: x in KeysOf(n.kids) ==> x < k
    ensures KidFor(n, k) == |n.kids| - 1
  {
    var last := |n.seps|;
    if last > 0 {
      assert KidOk(n, lo, hi, last);
      KeyInRow(n.kids, last, 0);
    }
    ChildSlotIsUnique(n.seps, k, last);
  }

  /** What the insertion of such a key does to the sizes below an inner node. */
  lemma LastKidGrows(n: Inner, lo: Bound, hi: Bound, k: Key, v: Val, next: int)
    requires InnerOk(n, lo, hi) && 0 < |n.kids| < M && forall x :: x in KeysOf(n.kids) ==> x < k
    ensures match InnerInsert(n, k, v, next).0
            case Fits(node) =>
              if LastSize(n) < M - 1 then |node.kids| == |n.kids| && LastSize(node) == LastSize(n) + 1
              else |n.kids| < M - 1 && |node.kids| == |n.kids| + 1 && LastSize(node) == M - H
            case Splits(_, _, right) =>
              LastSize(n) == M - 1 && |n.kids| == M - 1 && |right.kids| == M - H - 1 && LastSize(right) == M - H
  {
    LastKidEntered(n, lo, hi, k);
  }

  /** One more key above all others adds one to the load, and aborts at the limit. */
  lemma LoadGrows(s: Shape, k: Key, v: Val, next: int)
    requires ShapeOk(s) && forall x :: x in AllKeys(s) ==> x < k
    requires k !in AllKeys(s)
    ensures s.OneInner? ==> s.inner.kids != []
    ensures s.TwoInner? ==> s.right.kids != []
    ensures Insert(s, k, v, next).Aborted? <==> Load(s) + 1 >= ASCENDING_LIMIT
    ensures Insert(s, k, v, next).Inserted? ==>
              var t := Insert(s, k, v, next).shape;
              && ShapeOk(t) && (t.OneInner? ==> t.inner.kids != []) && (t.TwoInner? ==> t.right.kids != [])
              && Load(t) == Load(s) + 1
  {
    ShapeHasKids(s);
    if !s.Empty? { FreshInTarget(s, k); }
    InsertOk(s, k, v, next);
    if Insert(s, k, v, next).Inserted? { ShapeHasKids(Insert(s, k, v, next).shape); }
    match s
    case Empty => Grows(0, H + M - 1, H);
    case OneLeaf(l) => LeafLoad(l, k, v, next);
    case OneInner(n) => InnerLoad(n, k, v, next);
    case TwoInner(root, l, sep, r) => TwoLoad(root, l, sep, r, k, v, next);
  }

  lemma LeafLoad(l: Leaf, k: Key, v: Val, next: int)
    requires ShapeOk(OneLeaf(l))
    ensures Load(OneLeaf(l)) + 1 < ASCENDING_LIMIT
    ensures Insert(OneLeaf(l), k, v, next).Inserted?
    ensures var t := Insert(OneLeaf(l), k, v, next).shape;
            (t.OneInner? ==> t.inner.kids != []) && !t.TwoInner? && Load(t) == Load(OneLeaf(l)) + 1
  {
    Grows(1, H + M - 1, H);
  }

  lemma InnerLoad(n: Inner, k: Key, v: Val, next: int)
    requires ShapeOk(OneInner(n)) && forall x :: x in KeysOf(n.kids) ==> x < k
    ensures Load(OneInner(n)) + 1 < ASCENDING_LIMIT
    ensures Insert(OneInner(n), k, v, next).Inserted?
    ensures var t := Insert(OneInner(n), k, v, next).shape;
            && (t.OneInner? ==> t.inner.kids != []) && (t.TwoInner? ==> t.right.kids != [])
            && Load(t) == Load(OneInner(n)) + 1
  {
    hide KidOk, LeafOk, Ascending, Within, ChildSlot, InnerInsert;
    LastKidGrows(n, Unbounded, Unbounded, k, v, next);
    BelowLimit(|n.kids|, LastSize(n));
  }

  lemma BelowLimit(q: nat, c: nat)
    requires 1 <= q < M && c < M
    ensures (q - 1) * H + c + 1 < ASCENDING_LIMIT
    ensures q * H == (q - 1) * H + H
    ensures q == M - 1 ==> (H + (M - H - 1)) * H + (M - H) == (q - 1) * H + M
  {
    Distribute(q - 1, 1, H);
    Grows(q - 1, M - 2, H);
    Grows(M - 2, H + M - 1, H);
    assert H + (M - H - 1) == M - 1;
    Distribute(M - 2, 1, H);
  }

  lemma AtLimit(q: nat, c: nat)
    requires q < M && c < M
    ensures (H + q) * H + c + 1 >= ASCENDING_LIMIT <==> q == M - 1 && c == M - 1
    ensures (H + (q + 1)) * H == (H + q) * H + H
  {
    Distribute(H + q, 1, H);
    if q < M - 1 {
      Grows(H + q, H + M - 2, H);
      Distribute(H + M - 2, 1, H);
    }
  }

  lemma TwoLoad(root: int, l: Inner, sep: Key, r: Inner, k: Key, v: Val, next: int)
    requires var s := TwoInner(root, l, sep, r);
             ShapeOk(s) && forall x :: x in AllKeys(s) ==> x < k
    ensures r.kids != []
    ensures var s := TwoInner(root, l, sep, r);
            && (Insert(s, k, v, next).Aborted? <==> Load(s) + 1 >= ASCENDING_LIMIT)
            && (Insert(s, k, v, next).Inserted? ==>
                  var t := Insert(s, k, v, next).shape;
                  t.TwoInner? && t.right.kids != [] && Load(t) == Load(s) + 1)
  {
    hide KidOk, LeafOk, Ascending, AllKeys, ChildSlot, InnerInsert, KeysOf;
    RightBelow(root, l, sep, r, k);
    LastKidGrows(r, At(sep), Unbounded, k, v, next);
    AtLimit(|r.kids|, LastSize(r));
  }

  lemma RightBelow(root: int, l: Inner, sep: Key, r: Inner, k: Key)
    requires var s := TwoInner(root, l, sep, r);
             ShapeOk(s) && forall x :: x in AllKeys(s) ==> x < k
    ensures sep < k && forall x :: x in KeysOf(r.kids) ==> x < k
  {
    hide InnerOk, KeysOf;
    OfConcat(l.kids, r.kids);
    assert AllKeys(TwoInner(root, l, sep, r)) == KeysOf(l.kids) + KeysOf(r.kids);
    SepAmongKeys(root, l, sep, r);
    forall x | x in KeysOf(r.kids)
      ensures x < k
    {
      assert x in KeysOf(l.kids) + KeysOf(r.kids);
    }
  }

  lemma SepAmongKeys(root: int, l: Inner, sep: Key, r: Inner)
    requires ShapeOk(TwoInner(root, l, sep, r))
    ensures sep in KeysOf(r.kids)
  {
    assert KidOk(r, At(sep), Unbounded, 0);
    KeyInRow(r.kids, 0, 0);
  }

  lemma AscendingAreDistinct(ops: seq<Op>)
    requires AscendingOps(ops)
    ensures DistinctKeys(ops)
  {
  }

  lemma AboveAllBefore(ops: seq<Op>, s: Shape)
    requires AscendingOps(ops) && ops != [] && DistinctKeys(ops[..|ops| - 1])
    requires ShapeOk(s) && multiset(Entries(s)) == multiset(ops[..|ops| - 1])
    ensures forall x :: x in AllKeys(s) ==> x < ops[|ops| - 1].0
  {
    var init := ops[..|ops| - 1];
    forall x | x in AllKeys(s)
      ensures x < ops[|ops| - 1].0
    {
      KeysComeFromOps(s, init, x);
      var i :| 0 <= i < |init| && init[i].0 == x;
      assert ops[i] == init[i];
    }
  }

  /** A run in ascending key order aborts exactly when it is at least as long as the limit. */
  lemma {:induction false} AscendingRunAborts(ops: seq<Op>)
    requires AscendingOps(ops)
    ensures DistinctKeys(ops)
    ensures Run(ops).Aborted? <==> |ops| >= ASCENDING_LIMIT
    ensures Run(ops).Inserted? ==>
              var s := Run(ops).shape;
              && (s.OneInner? ==> s.inner.kids != []) && (s.TwoInner? ==> s.right.kids != [])
              && Load(s) == |ops|
  {
    AscendingAreDistinct(ops);
    if ops == [] {
      Grows(0, H + M - 1, H);
    } else {
      var init, last := ops[..|ops| - 1], ops[|ops| - 1];
      AscendingRunAborts(init);
      if Run(init).Inserted? {
        RunStep(ops, Run(init).shape, Run(init).next);
        AboveAllBefore(ops, Run(init).shape);
        LoadGrows(Run(init).shape, last.0, last.1, Run(init).next);
      }
    }
  }
}
