/**
 What the leaves of the tree hold, read from left to right, and what insertion and lookup make of it.
 */
module TreeContents {
  import opened Pages
  import opened Search
  import opened TreeSpec

  ghost function AllKeys(s: Shape): seq<Key> {
    KeysOf(Leaves(s))
  }

  ghost function AllVals(s: Shape): seq<Val> {
    ValsOf(Leaves(s))
  }

  // ----- leaves in a row -----

  lemma {:induction false} KeysOfConcat(a: seq<Leaf>, b: seq<Leaf>)
    ensures KeysOf(a + b) == KeysOf(a) + KeysOf(b)
  {
    if a == [] {
      assert a + b == b;
    } else {
      KeysOfConcat(a[1..], b);
      assert (a + b)[1..] == a[1..] + b;
      assert KeysOf(a + b) == a[0].keys + (KeysOf(a[1..]) + KeysOf(b));
    }
  }

  lemma {:induction false} ValsOfConcat(a: seq<Leaf>, b: seq<Leaf>)
    ensures ValsOf(a + b) == ValsOf(a) + ValsOf(b)
  {
    if a == [] {
      assert a + b == b;
    } else {
      ValsOfConcat(a[1..], b);
      assert (a + b)[1..] == a[1..] + b;
      assert ValsOf(a + b) == a[0].vals + (ValsOf(a[1..]) + ValsOf(b));
    }
  }

  lemma OfConcat(a: seq<Leaf>, b: seq<Leaf>)
    ensures KeysOf(a + b) == KeysOf(a) + KeysOf(b)
    ensures ValsOf(a + b) == ValsOf(a) + ValsOf(b)
  {
    KeysOfConcat(a, b);
    ValsOfConcat(a, b);
  }

  lemma OfTriple(a: seq<Leaf>, l: Leaf, b: seq<Leaf>)
    ensures KeysOf(a + [l] + b) == KeysOf(a) + l.keys + KeysOf(b)
    ensures ValsOf(a + [l] + b) == ValsOf(a) + l.vals + ValsOf(b)
  {
    OfConcat(a + [l], b);
    OfConcat(a, [l]);
    assert [l][1..] == [];
  }

  lemma {:induction false} OfSameLength(leaves: seq<Leaf>)
    requires forall i :: 0 <= i < |leaves| ==> |leaves[i].keys| == |leaves[i].vals|
    ensures |KeysOf(leaves)| == |ValsOf(leaves)|
  {
    if leaves != [] {
      OfSameLength(leaves[1..]);
    }
  }

  lemma {:induction false} KeyHasLeaf(leaves: seq<Leaf>, k: Key) returns (i: nat)
    requires k in KeysOf(leaves)
    ensures i < |leaves| && k in leaves[i].keys
  {
    if k in leaves[0].keys {
      i := 0;
    } else {
      i := KeyHasLeaf(leaves[1..], k);
      i := i + 1;
    }
  }

  ghost predicate Before(a: Leaf, b: Leaf) {
    forall x, y :: x in a.keys && y in b.keys ==> x < y
  }

  lemma {:induction false} RowAscends(leaves: seq<Leaf>)
    requires forall i :: 0 <= i < |leaves| ==> Ascending(leaves[i].keys)
    requires forall i, j :: 0 <= i < j < |leaves| ==> Before(leaves[i], leaves[j])
    ensures Ascending(KeysOf(leaves))
  {
    if leaves != [] {
      var rest := leaves[1..];
      RowAscends(rest);
      forall y | y in KeysOf(rest)
        ensures forall x :: x in leaves[0].keys ==> x < y
      {
        var j := KeyHasLeaf(rest, y);
        assert Before(leaves[0], leaves[j + 1]);
      }
      var keys, tail := leaves[0].keys, KeysOf(rest);
      forall i, j | 0 <= i < j < |keys + tail|
        ensures (keys + tail)[i] < (keys + tail)[j]
      {
        if i < |keys| <= j {
          assert keys[i] in keys && tail[j - |keys|] in tail;
        }
      }
    }
  }

  // ----- order over the whole tree -----

  lemma KidBounds(n: Inner, lo: Bound, hi: Bound, i: nat, k: Key)
    requires InnerOk(n, lo, hi) && i < |n.kids| && k in n.kids[i].keys
    ensures Within(k, LoOf(n.seps, lo, i), HiOf(n.seps, hi, i)) && Within(k, lo, hi)
  {
    assert KidOk(n, lo, hi, i);
    var j :| 0 <= j < |n.kids[i].keys| && n.kids[i].keys[j] == k;
  }

  lemma KidsBefore(n: Inner, lo: Bound, hi: Bound, i: nat, j: nat)
    requires InnerOk(n, lo, hi) && i < j < |n.kids|
    ensures Before(n.kids[i], n.kids[j])
  {
    forall x, y | x in n.kids[i].keys && y in n.kids[j].keys
      ensures x < y
    {
      KidBounds(n, lo, hi, i, x);
      KidBounds(n, lo, hi, j, y);
      assert n.seps[i] <= n.seps[j - 1];
    }
  }

  lemma ShapeRow(s: Shape)
    requires ShapeOk(s)
    ensures var leaves := Leaves(s);
            && (forall i :: 0 <= i < |leaves| ==> Ascending(leaves[i].keys) && |leaves[i].keys| == |leaves[i].vals|)
            && (forall i, j :: 0 <= i < j < |leaves| ==> Before(leaves[i], leaves[j]))
  {
    match s
    case Empty =>
    case OneLeaf(l) =>
    case OneInner(n) =>
      InnerRow(n, Unbounded, Unbounded);
    case TwoInner(_, l, sep, r) =>
      InnerRow(l, Unbounded, At(sep));
      InnerRow(r, At(sep), Unbounded);
      forall i, j | 0 <= i < |l.kids| && 0 <= j < |r.kids|
        ensures Before(l.kids[i], r.kids[j])
      {
        forall x, y | x in l.kids[i].keys && y in r.kids[j].keys
          ensures x < y
        {
          KidBounds(l, Unbounded, At(sep), i, x);
          KidBounds(r, At(sep), Unbounded, j, y);
        }
      }
  }

  lemma InnerRow(n: Inner, lo: Bound, hi: Bound)
    requires InnerOk(n, lo, hi)
    ensures forall i :: 0 <= i < |n.kids| ==> Ascending(n.kids[i].keys) && |n.kids[i].keys| == |n.kids[i].vals|
    ensures forall i, j :: 0 <= i < j < |n.kids| ==> Before(n.kids[i], n.kids[j])
  {
    forall i: nat | i < |n.kids|
      ensures Ascending(n.kids[i].keys)
    {
      assert KidOk(n, lo, hi, i);
    }
    forall i: nat, j: nat | i < j < |n.kids|
      ensures Before(n.kids[i], n.kids[j])
    {
      KidsBefore(n, lo, hi, i, j);
    }
  }

  /** Reading the leaves from left to right gives the keys in ascending order, each once. */
  lemma ShapeAscends(s: Shape)
    requires ShapeOk(s)
    ensures Ascending(AllKeys(s)) && |AllKeys(s)| == |AllVals(s)|
  {
    ShapeRow(s);
    RowAscends(Leaves(s));
    OfSameLength(Leaves(s));
  }

  // ----- where a key belongs -----

  ghost predicate Below(keys: seq<Key>, k: Key) {
    forall x :: x in keys ==> x < k
  }

  ghost predicate Above(keys: seq<Key>, k: Key) {
    forall x :: x in keys ==> k < x
  }

  /** The leaf for key k sits in the row between leaves of smaller keys only and leaves of larger keys only. */
  ghost predicate Located(s: Shape, k: Key, a: seq<Leaf>, b: seq<Leaf>)
    requires ShapeOk(s) && !s.Empty?
  {
    && Leaves(s) == a + [TargetLeaf(s, k)] + b
    && Below(KeysOf(a), k)
    && Above(KeysOf(b), k)
  }

  lemma LocateInInner(n: Inner, lo: Bound, hi: Bound, k: Key)
    requires InnerOk(n, lo, hi)
    ensures var i := KidFor(n, k);
            && n.kids == n.kids[..i] + [n.kids[i]] + n.kids[i + 1..]
            && Below(KeysOf(n.kids[..i]), k)
            && Above(KeysOf(n.kids[i + 1..]), k)
  {
    var i := KidFor(n, k);
    var left, right := n.kids[..i], n.kids[i + 1..];
    ChildSlotSplits(n.seps, k);
    forall x | x in KeysOf(left)
      ensures x < k
    {
      var j := KeyHasLeaf(left, x);
      KidBounds(n, lo, hi, j, x);
    }
    forall x | x in KeysOf(right)
      ensures k < x
    {
      var j := KeyHasLeaf(right, x);
      KidBounds(n, lo, hi, i + 1 + j, x);
    }
  }

  lemma InnerKeysWithin(n: Inner, lo: Bound, hi: Bound, x: Key)
    requires InnerOk(n, lo, hi) && x in KeysOf(n.kids)
    ensures Within(x, lo, hi)
  {
    var j := KeyHasLeaf(n.kids, x);
    KidBounds(n, lo, hi, j, x);
  }

  lemma LocateInLeft(l: Inner, sep: Key, r: Inner, k: Key)
    requires InnerOk(l, Unbounded, At(sep)) && InnerOk(r, At(sep), Unbounded) && k < sep
    ensures var a, b := l.kids[..KidFor(l, k)], l.kids[KidFor(l, k) + 1..] + r.kids;
            l.kids + r.kids == a + [l.kids[KidFor(l, k)]] + b && Below(KeysOf(a), k) && Above(KeysOf(b), k)
  {
    hide KidOk, Ascending, Within;
    LocateInInner(l, Unbounded, At(sep), k);
    OfConcat(l.kids[KidFor(l, k) + 1..], r.kids);
    forall x | x in KeysOf(r.kids) ensures k < x { InnerKeysWithin(r, At(sep), Unbounded, x); }
  }

  lemma LocateInRight(l: Inner, sep: Key, r: Inner, k: Key)
    requires InnerOk(l, Unbounded, At(sep)) && InnerOk(r, At(sep), Unbounded) && k >= sep
    ensures var a, b := l.kids + r.kids[..KidFor(r, k)], r.kids[KidFor(r, k) + 1..];
            l.kids + r.kids == a + [r.kids[KidFor(r, k)]] + b && Below(KeysOf(a), k) && Above(KeysOf(b), k)
  {
    hide KidOk, Ascending, Within;
    LocateInInner(r, At(sep), Unbounded, k);
    OfConcat(l.kids, r.kids[..KidFor(r, k)]);
    forall x | x in KeysOf(l.kids) ensures x < k { InnerKeysWithin(l, Unbounded, At(sep), x); }
  }

  /** The leaves left of the one for key k. */
  function LeftOf(s: Shape, k: Key): seq<Leaf>
    requires ShapeOk(s) && !s.Empty?
  {
    match s
    case OneLeaf(_) => []
    case OneInner(n) => n.kids[..KidFor(n, k)]
    case TwoInner(_, l, sep, r) => if k < sep then l.kids[..KidFor(l, k)] else l.kids + r.kids[..KidFor(r, k)]
  }

  function RightOf(s: Shape, k: Key): seq<Leaf>
    requires ShapeOk(s) && !s.Empty?
  {
    match s
    case OneLeaf(_) => []
    case OneInner(n) => n.kids[KidFor(n, k) + 1..]
    case TwoInner(_, l, sep, r) => if k < sep then l.kids[KidFor(l, k) + 1..] + r.kids else r.kids[KidFor(r, k) + 1..]
  }

  lemma Locate(s: Shape, k: Key)
    requires ShapeOk(s) && !s.Empty?
    ensures Located(s, k, LeftOf(s, k), RightOf(s, k))
  {
    hide KidOk, Within, Ascending, Below, Above, KeysOf;
    match s
    case OneLeaf(l) =>
      BelowNone(k);
    case OneInner(n) =>
      LocateInInner(n, Unbounded, Unbounded, k);
    case TwoInner(root, l, sep, r) =>
      LocateInTwo(root, l, sep, r, k);
  }

  lemma LocateInTwo(root: int, l: Inner, sep: Key, r: Inner, k: Key)
    requires ShapeOk(TwoInner(root, l, sep, r))
    ensures var s := TwoInner(root, l, sep, r);
            Located(s, k, LeftOf(s, k), RightOf(s, k))
  {
    hide KidOk, Within, Ascending, Below, Above, KeysOf;
    if k < sep { LocateInLeft(l, sep, r, k); } else { LocateInRight(l, sep, r, k); }
  }

  lemma BelowNone(k: Key)
    ensures Below(KeysOf([]), k) && Above(KeysOf([]), k)
  {
  }

  /** The rank of a key in the whole tree, from its rank in the leaf it belongs to. */
  lemma RankInRow(a: seq<Key>, keys: seq<Key>, b: seq<Key>, k: Key)
    requires Ascending(a + keys + b)
    requires Below(a, k) && Above(b, k)
    ensures Ascending(keys)
    ensures Rank(a + keys + b, k) == |a| + Rank(keys, k)
    ensures k in a + keys + b <==> k in keys
  {
    var all := a + keys + b;
    MiddleAscends(a, keys, b);
    RankSplits(keys, k);
    var r := |a| + Rank(keys, k);
    if r > 0 {
      assert all[r - 1] < k by {
        if Rank(keys, k) == 0 { assert all[r - 1] == a[|a| - 1] && a[|a| - 1] in a; }
        else { assert all[r - 1] == keys[Rank(keys, k) - 1]; }
      }
    }
    if r < |all| {
      assert all[r] >= k by {
        if Rank(keys, k) == |keys| { assert all[r] == b[0] && b[0] in b; }
        else { assert all[r] == keys[Rank(keys, k)]; }
      }
    }
    RankIsUnique(all, k, r);
    FoundInMiddle(a, keys, b, k);
  }

  lemma FoundInMiddle(a: seq<Key>, keys: seq<Key>, b: seq<Key>, k: Key)
    requires Below(a, k) && Above(b, k)
    ensures k in a + keys + b <==> k in keys
  {
    assert k !in a && k !in b;
  }

  lemma MiddleAscends(a: seq<Key>, keys: seq<Key>, b: seq<Key>)
    requires Ascending(a + keys + b)
    ensures Ascending(keys)
  {
    var all := a + keys + b;
    forall i, j | 0 <= i < j < |keys|
      ensures keys[i] < keys[j]
    {
      assert all[|a| + i] == keys[i] && all[|a| + j] == keys[j];
    }
  }

  /** The same in terms of the tree: what lies left of the key's leaf, the leaf, and what lies right of it. */
  lemma LocateInRow(s: Shape, k: Key, a: seq<Leaf>, b: seq<Leaf>)
    requires ShapeOk(s) && !s.Empty? && Located(s, k, a, b)
    ensures Ascending(AllKeys(s)) && Ascending(TargetLeaf(s, k).keys)
    ensures AllKeys(s) == KeysOf(a) + TargetLeaf(s, k).keys + KeysOf(b)
    ensures AllVals(s) == ValsOf(a) + TargetLeaf(s, k).vals + ValsOf(b)
    ensures |KeysOf(a)| == |ValsOf(a)| && |AllKeys(s)| == |AllVals(s)|
    ensures Rank(AllKeys(s), k) == |KeysOf(a)| + Rank(TargetLeaf(s, k).keys, k)
    ensures k in AllKeys(s) <==> k in TargetLeaf(s, k).keys
  {
    ShapeAscends(s);
    OfTriple(a, TargetLeaf(s, k), b);
    ShapeRow(s);
    assert forall i :: 0 <= i < |a| ==> a[i] == Leaves(s)[i];
    OfSameLength(a);
    RankInRow(KeysOf(a), TargetLeaf(s, k).keys, KeysOf(b), k);
  }

  // ----- lookup -----

  /** Lookup by descent finds exactly what a scan of all the leaves finds. */
  lemma FindMeaning(s: Shape, k: Key)
    requires ShapeOk(s)
    ensures Find(s, k).Some? <==> k in AllKeys(s)
    ensures Find(s, k).Some? ==>
              var p := Rank(AllKeys(s), k);
              p < |AllKeys(s)| == |AllVals(s)| && AllKeys(s)[p] == k && AllVals(s)[p] == Find(s, k).value
  {
    if !s.Empty? {
      Locate(s, k);
      var a, b := LeftOf(s, k), RightOf(s, k);
      var l := TargetLeaf(s, k);
      LocateInRow(s, k, a, b);
      FoundInLeaf(l.keys, k);
      if k in l.keys {
        AtMiddle(KeysOf(a), l.keys, KeysOf(b), Rank(l.keys, k));
        AtMiddle(ValsOf(a), l.vals, ValsOf(b), Rank(l.keys, k));
      }
    }
  }

  lemma FoundInLeaf(keys: seq<Key>, k: Key)
    requires Ascending(keys)
    ensures k in keys <==> Rank(keys, k) < |keys| && keys[Rank(keys, k)] == k
  {
    RankSplits(keys, k);
  }

  lemma AtMiddle<T>(a: seq<T>, m: seq<T>, b: seq<T>, i: nat)
    requires i < |m|
    ensures |a| + i < |a + m + b| && (a + m + b)[|a| + i] == m[i]
  {
  }

  // ----- insertion -----

  lemma InsertInMiddle<T>(a: seq<T>, m: seq<T>, b: seq<T>, at: nat, x: T)
    requires at <= |m|
    ensures a + InsertAt(m, at, x) + b == InsertAt(a + m + b, |a| + at, x)
  {
  }

  /** The leaf the key went into, or the two halves of it. */
  ghost function Replacement(l: Leaf, k: Key, v: Val, next: int): seq<Leaf>
    requires |l.keys| == |l.vals|
  {
    var grown := LeafInsert(l, k, v);
    if |grown.keys| < M then [grown] else [LowerHalf(grown), UpperHalf(grown, next)]
  }

  ghost function KidsAfter(r: InnerResult): seq<Leaf> {
    match r
    case Fits(node) => node.kids
    case Splits(left, _, right) => left.kids + right.kids
  }

  lemma InnerInsertReplaces(n: Inner, k: Key, v: Val, next: int)
    requires KidsFit(n) && |n.kids| < M
    ensures var i := KidFor(n, k);
            KidsAfter(InnerInsert(n, k, v, next).0) ==
            n.kids[..i] + Replacement(n.kids[i], k, v, next) + n.kids[i + 1..]
  {
    var i := KidFor(n, k);
    var grown := LeafInsert(n.kids[i], k, v);
    if |grown.keys| < M {
      assert n.kids[i := grown] == n.kids[..i] + [grown] + n.kids[i + 1..];
    } else {
      var wider := Absorb(n, i, LowerHalf(grown), UpperHalf(grown, next));
      assert wider.kids == n.kids[..i] + [LowerHalf(grown), UpperHalf(grown, next)] + n.kids[i + 1..];
      if |wider.kids| == M {
        assert wider.kids[..H + 1] + wider.kids[H + 1..] == wider.kids;
      }
    }
  }

  /** Insertion changes the row of leaves at the key's own leaf only. */
  lemma InsertReplacesLeaf(s: Shape, k: Key, v: Val, next: int)
    requires ShapeOk(s) && !s.Empty? && Insert(s, k, v, next).Inserted?
    ensures Leaves(Insert(s, k, v, next).shape) == LeftOf(s, k) + Replacement(TargetLeaf(s, k), k, v, next) + RightOf(s, k)
  {
    hide KidOk, Within, LeafOk, InnerInsert, Replacement, LeafInsert;
    match s
    case OneLeaf(l) =>
      RootLeafReplaced(l, k, v, next);
    case OneInner(n) =>
      InnerInsertReplaces(n, k, v, next);
    case TwoInner(root, l, sep, r) =>
      TwoInnerInsertReplaces(root, l, sep, r, k, v, next);
  }

  lemma RootLeafReplaced(l: Leaf, k: Key, v: Val, next: int)
    requires ShapeOk(OneLeaf(l))
    ensures Insert(OneLeaf(l), k, v, next).Inserted?
    ensures Leaves(Insert(OneLeaf(l), k, v, next).shape) == Replacement(l, k, v, next)
  {
  }

  lemma TwoInnerInsertReplaces(root: int, l: Inner, sep: Key, r: Inner, k: Key, v: Val, next: int)
    requires var s := TwoInner(root, l, sep, r); ShapeOk(s) && Insert(s, k, v, next).Inserted?
    ensures var s := TwoInner(root, l, sep, r);
            Leaves(Insert(s, k, v, next).shape) ==
            if k < sep then
              l.kids[..KidFor(l, k)] + Replacement(l.kids[KidFor(l, k)], k, v, next) + (l.kids[KidFor(l, k) + 1..] + r.kids)
            else
              l.kids + r.kids[..KidFor(r, k)] + Replacement(r.kids[KidFor(r, k)], k, v, next) + r.kids[KidFor(r, k) + 1..]
  {
    if k < sep {
      InnerInsertReplaces(l, k, v, next);
      assert InnerInsert(l, k, v, next).0.Fits?;
    } else {
      InnerInsertReplaces(r, k, v, next);
      assert InnerInsert(r, k, v, next).0.Fits?;
    }
  }

  lemma ReplacementHolds(l: Leaf, k: Key, v: Val, next: int)
    requires |l.keys| == |l.vals|
    ensures KeysOf(Replacement(l, k, v, next)) == LeafInsert(l, k, v).keys
    ensures ValsOf(Replacement(l, k, v, next)) == LeafInsert(l, k, v).vals
  {
    var grown := LeafInsert(l, k, v);
    if |grown.keys| < M {
      OfTriple([], grown, []);
      assert [] + [grown] + [] == [grown];
    } else {
      var lower, upper := LowerHalf(grown), UpperHalf(grown, next);
      OfTriple([lower], upper, []);
      OfTriple([], lower, []);
      assert [] + [lower] + [] == [lower];
      assert [lower] + [upper] + [] == [lower, upper];
      assert lower.keys + upper.keys == grown.keys && lower.vals + upper.vals == grown.vals;
    }
  }

  lemma FirstContents(k: Key, v: Val, next: int)
    ensures Insert(Empty, k, v, next).Inserted? && AllKeys(Empty) == AllVals(Empty) == []
    ensures AllKeys(Insert(Empty, k, v, next).shape) == InsertAt([], Rank([], k), k)
    ensures AllVals(Insert(Empty, k, v, next).shape) == InsertAt([], Rank([], k), v)
  {
    assert Leaves(Insert(Empty, k, v, next).shape)[1..] == [];
  }

  /** A fresh key and its value enter the row of leaves at the key's rank, and nothing else changes. */
  lemma InsertContents(s: Shape, k: Key, v: Val, next: int)
    requires ShapeOk(s) && k !in AllKeys(s) && Insert(s, k, v, next).Inserted?
    ensures |AllKeys(s)| == |AllVals(s)|
    ensures AllKeys(Insert(s, k, v, next).shape) == InsertAt(AllKeys(s), Rank(AllKeys(s), k), k)
    ensures AllVals(Insert(s, k, v, next).shape) == InsertAt(AllVals(s), Rank(AllKeys(s), k), v)
  {
    hide ShapeOk, TargetLeaf, Insert, InsertAt, Rank, KeysOf, ValsOf, Leaves, Replacement, Located;
    if s.Empty? {
      FirstContents(k, v, next);
    } else {
      InsertReplacesLeaf(s, k, v, next);
      Locate(s, k);
      var a, b := LeftOf(s, k), RightOf(s, k);
      var l := TargetLeaf(s, k);
      ReplacementHolds(l, k, v, next);
      OfConcat(a + Replacement(l, k, v, next), b);
      OfConcat(a, Replacement(l, k, v, next));
      LocateInRow(s, k, a, b);
      InsertInMiddle(KeysOf(a), l.keys, KeysOf(b), Rank(l.keys, k), k);
      InsertInMiddle(ValsOf(a), l.vals, ValsOf(b), Rank(l.keys, k), v);
    }
  }

  /** A key the tree does not hold is not in the leaf it would go to. */
  lemma FreshInTarget(s: Shape, k: Key)
    requires ShapeOk(s) && !s.Empty? && k !in AllKeys(s)
    ensures k !in TargetLeaf(s, k).keys
  {
    Locate(s, k);
    var a, b := LeftOf(s, k), RightOf(s, k);
    OfTriple(a, TargetLeaf(s, k), b);
  }
}
