/**
 The shortest runs that reach the missing step: ascending keys until the root splits, and then keys
 that all go in just below the new separator.
 */
module TreeShortest {
  import opened Pages
  import opened Search
  import opened TreeSpec
  import opened TreeInvariant
  import opened TreeContents
  import opened TreeRuns
  import opened TreeAscending

  /** Insertions until the root, an inner node, is split; entries that are then left of the separator; and those to follow. */
  const ROOT_SPLIT: nat := (M - 2) * H + M
  const LEFT: nat := (H + 1) * H
  const GAP: int := ROOT_SPLIT - LEFT

  function KeyAt(i: nat): Key {
    if i < LEFT then i
    else if i < ROOT_SPLIT then i + GAP
    else if i < ROOT_SPLIT + GAP then LEFT + (i - ROOT_SPLIT)
    else i + GAP
  }

  function Shortest(n: nat): (ops: seq<Op>)
    ensures |ops| == n && forall i :: 0 <= i < n ==> ops[i] == (KeyAt(i), 0)
  {
    if n == 0 then [] else Shortest(n - 1) + [(KeyAt(n - 1), 0)]
  }

  lemma Numbers()
    ensures GAP >= M && LEFT < ROOT_SPLIT
    ensures ROOT_SPLIT + GAP == SHORTEST_ABORT
    ensures (H + (M - H - 1)) * H + (M - H) == ROOT_SPLIT
    ensures LEFT == H * H + H
  {
    assert LEAST_KIDS == M - H - 1;
    Grows(H + 1, M - 2, H);
    Distribute(H, 1, H);
    Distribute(M - 2, 1, H);
    Distribute(M - 2 - H, H, H);
    assert H + (M - H - 1) == M - 1;
  }

  lemma ShortestDistinct(n: nat)
    ensures DistinctKeys(Shortest(n))
  {
    Numbers();
  }

  lemma ShortestAscends(n: nat)
    requires n <= ROOT_SPLIT
    ensures AscendingOps(Shortest(n))
  {
    Numbers();
  }

  lemma ShortestPrefix(n: nat)
    requires n > 0
    ensures Shortest(n)[..n - 1] == Shortest(n - 1) && Shortest(n)[n - 1] == (KeyAt(n - 1), 0)
  {
  }

  // ----- the ascending part -----

  /** After a run in ascending key order the leaves hold the keys in the order they came. */
  lemma {:induction false} AscendingRow(ops: seq<Op>)
    requires AscendingOps(ops) && DistinctKeys(ops) && Run(ops).Inserted?
    ensures |AllKeys(Run(ops).shape)| == |ops|
    ensures forall i :: 0 <= i < |ops| ==> AllKeys(Run(ops).shape)[i] == ops[i].0
  {
    hide ShapeOk, AllKeys, Entries, Insert, Run, DistinctKeys, AscendingOps;
    if ops == [] {
      EmptyRow();
    } else {
      var init, last := ops[..|ops| - 1], ops[|ops| - 1];
      AscendingPrefix(ops);
      RunUnfolds(ops);
      AscendingRow(init);
      AboveAllBefore(ops, Run(init).shape);
      AppendedRow(Run(init).shape, last.0, last.1, Run(init).next);
    }
  }

  lemma AscendingPrefix(ops: seq<Op>)
    requires AscendingOps(ops) && ops != []
    ensures AscendingOps(ops[..|ops| - 1])
  {
  }

  lemma EmptyRow()
    ensures Run([]) == Inserted(Empty, 0) && AllKeys(Empty) == []
  {
  }

  lemma AppendedRow(s: Shape, k: Key, v: Val, next: int)
    requires ShapeOk(s) && k !in AllKeys(s) && (forall x :: x in AllKeys(s) ==> x < k) && Insert(s, k, v, next).Inserted?
    ensures AllKeys(Insert(s, k, v, next).shape) == AllKeys(s) + [k]
  {
    hide ShapeOk, AllKeys, Insert;
    ShapeAscends(s);
    if AllKeys(s) != [] { assert AllKeys(s)[|AllKeys(s)| - 1] in AllKeys(s); }
    RankIsUnique(AllKeys(s), k, |AllKeys(s)|);
    InsertContents(s, k, v, next);
  }

  function LeftLoad(s: Shape): int
    requires s.TwoInner? && s.left.kids != []
  {
    (|s.left.kids| - 1) * H + LastSize(s.left)
  }

  /** What holds while the left inner node fills up: all it holds lies below `above`, which lies below the separator. */
  ghost predicate Filling(s: Shape, load: int, above: Key): (r: bool)
    ensures r ==> ShapeOk(s) && s.TwoInner? && LEFT + GAP <= s.sep
  {
    && ShapeOk(s) && s.TwoInner? && s.left.kids != []
    && LeftLoad(s) == load
    && (forall x :: x in KeysOf(s.left.kids) ==> x < above)
    && LEFT + GAP <= s.sep
  }

  lemma RootHasSplit(s: Shape)
    requires ShapeOk(s) && (s.OneInner? ==> s.inner.kids != []) && (s.TwoInner? ==> s.right.kids != [])
    requires Load(s) == ROOT_SPLIT
    ensures s.TwoInner?
  {
    match s
    case Empty => Grows(0, M - 2, H);
    case OneLeaf(_) => Grows(0, M - 2, H);
    case OneInner(n) => Grows(|n.kids| - 1, M - 2, H);
    case TwoInner(_, _, _, _) =>
  }

  /** At the root's split each leaf on the left is exactly half full. */
  lemma LeftExactly(s: Shape)
    requires ShapeOk(s) && s.TwoInner? && Spread(s) && Load(s) == |AllKeys(s)| == ROOT_SPLIT
    ensures s.left.kids != [] && LeftLoad(s) == LEFT == |KeysOf(s.left.kids)|
  {
    hide KidOk, LeafOk, Within, KeysOf;
    Numbers();
    OfConcat(s.left.kids, s.right.kids);
    RowWithLast(s.left);
    RowWithLast(s.right);
    LeftLoadLeast(s.left);
    var q := |s.right.kids|;
    Distribute(H, q, H);
    Distribute(q - 1, 1, H);
  }

  lemma LeftLoadLeast(n: Inner)
    requires KidsFit(n) && |n.kids| >= H + 1
    ensures (|n.kids| - 1) * H + LastSize(n) >= LEFT
  {
    Grows(H, |n.kids| - 1, H);
    Distribute(H, 1, H);
  }

  lemma AscendingPart()
    ensures FilledBy(0)
  {
    hide ShapeOk, Load, Spread, KeysOf, Shortest;
    var ops := Shortest(ROOT_SPLIT);
    Numbers();
    LimitIsLater();
    ShortestAscends(ROOT_SPLIT);
    AscendingRunAborts(ops);
    RunSpreads(ops);
    AscendingRow(ops);
    var s := Run(ops).shape;
    RootHasSplit(s);
    LeftExactly(s);
    LeftKeys(s);
  }

  lemma LimitIsLater()
    ensures ROOT_SPLIT < ASCENDING_LIMIT
  {
    Grows(M - 2 + 1, H + M - 1, H);
    Distribute(M - 2, 1, H);
  }

  lemma LeftKeys(s: Shape)
    requires ShapeOk(s) && s.TwoInner? && |KeysOf(s.left.kids)| == LEFT && |AllKeys(s)| == ROOT_SPLIT
    requires forall i :: 0 <= i < ROOT_SPLIT ==> AllKeys(s)[i] == KeyAt(i)
    ensures forall x :: x in KeysOf(s.left.kids) ==> x < LEFT
    ensures LEFT + GAP <= s.sep
  {
    hide KidOk, LeafOk, Within, KeysOf;
    Numbers();
    var a, b := KeysOf(s.left.kids), KeysOf(s.right.kids);
    OfConcat(s.left.kids, s.right.kids);
    assert AllKeys(s) == a + b;
    forall x | x in a
      ensures x < LEFT
    {
      var i :| 0 <= i < |a| && a[i] == x;
      assert AllKeys(s)[i] == x;
    }
    SepAmongKeys(s.page, s.left, s.sep, s.right);
    var i :| 0 <= i < |b| && b[i] == s.sep;
    assert AllKeys(s)[LEFT + i] == s.sep;
  }

  // ----- filling the left inner node -----

  lemma FillingGrows(s: Shape, load: int, k: Key, next: int)
    requires Filling(s, load, k) && k < s.sep && load < ROOT_SPLIT
    requires k !in AllKeys(s)
    ensures Insert(s, k, 0, next).Aborted? <==> load + 1 == ROOT_SPLIT
    ensures Insert(s, k, 0, next).Inserted? ==> Filling(Insert(s, k, 0, next).shape, load + 1, k + 1)
  {
    hide KidOk, LeafOk, Within, KeysOf, InnerInsert;
    LastKidGrows(s.left, Unbounded, At(s.sep), k, 0, next);
    LeftAtLimit(|s.left.kids|, LastSize(s.left));
    if Insert(s, k, 0, next).Inserted? {
      FreshInTarget(s, k);
      InsertOk(s, k, 0, next);
      StillBelow(s, k, next);
    }
  }

  lemma LeftAtLimit(q: nat, c: nat)
    requires 1 <= q < M && c < M
    ensures (q - 1) * H + c + 1 == ROOT_SPLIT <==> q == M - 1 && c == M - 1
    ensures q * H == (q - 1) * H + H
  {
    Distribute(q - 1, 1, H);
    if q < M - 1 {
      Grows(q - 1, M - 3, H);
      Distribute(M - 3, 1, H);
    }
  }

  lemma StillBelow(s: Shape, k: Key, next: int)
    requires ShapeOk(s) && s.TwoInner? && k < s.sep && k !in AllKeys(s) && forall x :: x in KeysOf(s.left.kids) ==> x < k
    requires Insert(s, k, 0, next).Inserted? && ShapeOk(Insert(s, k, 0, next).shape)
    requires var t := Insert(s, k, 0, next).shape; t.TwoInner? && t.sep == s.sep
    ensures forall x :: x in KeysOf(Insert(s, k, 0, next).shape.left.kids) ==> x < k + 1
  {
    hide KidOk, LeafOk, KeysOf, Insert, InsertAt;
    var t := Insert(s, k, 0, next).shape;
    InsertContents(s, k, 0, next);
    OfConcat(s.left.kids, s.right.kids);
    OfConcat(t.left.kids, t.right.kids);
    forall x | x in KeysOf(t.left.kids)
      ensures x < k + 1
    {
      InnerKeysWithin(t.left, Unbounded, At(t.sep), x);
      assert x in AllKeys(t);
      InsertedMembers(AllKeys(s), Rank(AllKeys(s), k), k, x);
      if x in KeysOf(s.right.kids) { InnerKeysWithin(s.right, At(s.sep), Unbounded, x); }
    }
  }

  lemma InsertedMembers(keys: seq<Key>, at: nat, k: Key, x: Key)
    requires at <= |keys| && x in InsertAt(keys, at, k)
    ensures x == k || x in keys
  {
  }

  /** Where the run is after n keys of its second part. */
  ghost predicate FilledBy(n: nat) {
    && DistinctKeys(Shortest(ROOT_SPLIT + n)) && Run(Shortest(ROOT_SPLIT + n)).Inserted?
    && Filling(Run(Shortest(ROOT_SPLIT + n)).shape, LEFT + n, LEFT + n)
  }

  lemma {:induction false} FillingPart(n: nat)
    requires n < GAP
    ensures FilledBy(n)
  {
    hide FilledBy;
    if n == 0 {
      AscendingPart();
    } else {
      FillingPart(n - 1);
      FillingStep(n);
    }
  }

  lemma FillingKey(n: nat)
    requires 0 < n <= GAP
    ensures KeyAt(ROOT_SPLIT + n - 1) == LEFT + n - 1
  {
    Numbers();
  }

  /** The next key of the run goes in below the separator. */
  lemma FillingStep(n: nat)
    requires 0 < n <= GAP
    requires FilledBy(n - 1)
    ensures n < GAP ==> FilledBy(n)
    ensures n == GAP ==> RunAborts(SHORTEST_ABORT)
  {
    hide Filling, KeyAt, Shortest, Entries, Run, AllKeys, Insert, DistinctKeys;
    ShortestDistinct(ROOT_SPLIT + n);
    ShortestPrefix(ROOT_SPLIT + n);
    RunUnfolds(Shortest(ROOT_SPLIT + n));
    var before := Run(Shortest(ROOT_SPLIT + n - 1));
    NextKeyFills(before.shape, n, before.next);
  }

  lemma NextKeyFills(s: Shape, n: nat, next: int)
    requires 0 < n <= GAP && Filling(s, LEFT + n - 1, LEFT + n - 1)
    requires KeyAt(ROOT_SPLIT + n - 1) !in AllKeys(s)
    ensures var r := Insert(s, KeyAt(ROOT_SPLIT + n - 1), 0, next);
            && (r.Aborted? <==> n == GAP)
            && (n < GAP ==> Filling(r.shape, LEFT + n, LEFT + n))
    ensures ROOT_SPLIT + GAP == SHORTEST_ABORT
  {
    hide Filling, AllKeys, Insert;
    Numbers();
    FillingKey(n);
    FillingGrows(s, LEFT + n - 1, LEFT + n - 1, next);
  }

  // ----- how long aborting runs are -----

  ghost predicate RunAborts(n: nat) {
    DistinctKeys(Shortest(n)) && Run(Shortest(n)).Aborted?
  }

  lemma {:induction false} LongerAborts(n: nat)
    requires n >= SHORTEST_ABORT
    ensures RunAborts(n)
  {
    hide RunAborts, FilledBy;
    if n == SHORTEST_ABORT {
      Numbers();
      FillingPart(GAP - 1);
      FillingStep(GAP);
    } else {
      LongerAborts(n - 1);
      AbortLasts(n);
    }
  }

  lemma AbortLasts(n: nat)
    requires n > 0 && RunAborts(n - 1)
    ensures RunAborts(n)
  {
    hide Shortest, Run, Entries, DistinctKeys;
    ShortestDistinct(n);
    ShortestPrefix(n);
    RunUnfolds(Shortest(n));
  }

  /** For every length: some run of that length aborts if and only if it reaches SHORTEST_ABORT. */
  lemma SomeRunAborts(n: nat)
    ensures (exists ops: seq<Op> :: DistinctKeys(ops) && |ops| == n && Run(ops).Aborted?) <==> n >= SHORTEST_ABORT
  {
    if n >= SHORTEST_ABORT { LongerAborts(n); }
    forall ops: seq<Op> | DistinctKeys(ops) && |ops| == n && Run(ops).Aborted?
      ensures n >= SHORTEST_ABORT
    {
      var _ := AbortNeeds(ops);
    }
  }
}
