/**
 Runs: insertions of pairwise distinct keys into a tree that starts empty.
 */
module TreeRuns {
  import opened Pages
  import opened Search
  import opened TreeSpec
  import opened TreeInvariant
  import opened TreeContents

  type Op = (Key, Val)

  ghost predicate DistinctKeys(ops: seq<Op>) {
    forall i, j :: 0 <= i < j < |ops| ==> ops[i].0 != ops[j].0
  }

  ghost predicate Names(ops: seq<Op>, k: Key) {
    exists i :: 0 <= i < |ops| && ops[i].0 == k
  }

  /** The pairs in the leaves, from left to right. */
  ghost function Entries(s: Shape): (e: seq<Op>)
    requires ShapeOk(s)
    ensures |e| == |AllKeys(s)| == |AllVals(s)|
    ensures forall i :: 0 <= i < |e| ==> e[i] == (AllKeys(s)[i], AllVals(s)[i])
  {
    ShapeAscends(s);
    Zip(AllKeys(s), AllVals(s))
  }

  ghost function Zip(keys: seq<Key>, vals: seq<Val>): (e: seq<Op>)
    requires |keys| == |vals|
    ensures |e| == |keys| && forall i :: 0 <= i < |e| ==> e[i] == (keys[i], vals[i])
  {
    if keys == [] then [] else [(keys[0], vals[0])] + Zip(keys[1..], vals[1..])
  }

  /** The tree after a run, or the abort the run ended in; every prefix keeps the tree in order. */
  ghost function Run(ops: seq<Op>): (r: InsertResult)
    requires DistinctKeys(ops)
    ensures r.Inserted? ==> ShapeOk(r.shape) && multiset(Entries(r.shape)) == multiset(ops)
  {
    if ops == [] then Inserted(Empty, 0)
    else
      var init, last := ops[..|ops| - 1], ops[|ops| - 1];
      match Run(init)
      case Aborted => Aborted
      case Inserted(s, next) =>
        RunStep(ops, s, next);
        Insert(s, last.0, last.1, next)
  }

  /** A key in the leaves comes from the run that filled them. */
  lemma KeysComeFromOps(s: Shape, ops: seq<Op>, k: Key)
    requires ShapeOk(s) && multiset(Entries(s)) == multiset(ops)
    ensures k in AllKeys(s) ==> Names(ops, k)
  {
    if k in AllKeys(s) {
      ShapeAscends(s);
      var p :| 0 <= p < |AllKeys(s)| && AllKeys(s)[p] == k;
      var e := Entries(s)[p];
      assert e in multiset(ops);
      var i :| 0 <= i < |ops| && ops[i] == e;
      assert ops[i].0 == k;
    }
  }

  lemma FreshInRun(ops: seq<Op>, s: Shape)
    requires ops != [] && DistinctKeys(ops)
    requires ShapeOk(s) && multiset(Entries(s)) == multiset(ops[..|ops| - 1])
    ensures ops[|ops| - 1].0 !in AllKeys(s)
  {
    KeysComeFromOps(s, ops[..|ops| - 1], ops[|ops| - 1].0);
  }

  lemma ZipInserted(keys: seq<Key>, vals: seq<Val>, at: nat, k: Key, v: Val)
    requires |keys| == |vals| && at <= |keys|
    ensures Zip(InsertAt(keys, at, k), InsertAt(vals, at, v)) == InsertAt(Zip(keys, vals), at, (k, v))
  {
  }

  lemma InsertEntries(s: Shape, k: Key, v: Val, next: int)
    requires ShapeOk(s) && k !in AllKeys(s) && Insert(s, k, v, next).Inserted?
    requires ShapeOk(Insert(s, k, v, next).shape)
    ensures Entries(Insert(s, k, v, next).shape) == InsertAt(Entries(s), Rank(AllKeys(s), k), (k, v))
  {
    InsertContents(s, k, v, next);
    ZipInserted(AllKeys(s), AllVals(s), Rank(AllKeys(s), k), k, v);
  }

  lemma InsertedOnce<T>(s: seq<T>, at: nat, x: T)
    requires at <= |s|
    ensures multiset(InsertAt(s, at, x)) == multiset(s) + multiset{x}
  {
    assert s[..at] + s[at..] == s;
  }

  lemma RunStep(ops: seq<Op>, s: Shape, next: int)
    requires ops != [] && DistinctKeys(ops)
    requires ShapeOk(s) && multiset(Entries(s)) == multiset(ops[..|ops| - 1])
    ensures var last := ops[|ops| - 1];
            var r := Insert(s, last.0, last.1, next);
            && last.0 !in AllKeys(s)
            && (r.Inserted? ==> ShapeOk(r.shape) && multiset(Entries(r.shape)) == multiset(ops))
  {
    hide ShapeOk, AllKeys, Entries, Insert, InsertAt, Rank, DistinctKeys;
    var init, last := ops[..|ops| - 1], ops[|ops| - 1];
    assert ops == init + [last];
    FreshInRun(ops, s);
    if !s.Empty? { FreshInTarget(s, last.0); }
    InsertOk(s, last.0, last.1, next);
    if Insert(s, last.0, last.1, next).Inserted? {
      InsertEntries(s, last.0, last.1, next);
      InsertedOnce(Entries(s), Rank(AllKeys(s), last.0), last);
    }
  }

  /** A run in terms of the run without its last insertion. */
  lemma RunUnfolds(ops: seq<Op>)
    requires ops != [] && DistinctKeys(ops)
    ensures var init, last := ops[..|ops| - 1], ops[|ops| - 1];
            && DistinctKeys(init)
            && (Run(init).Aborted? ==> Run(ops).Aborted?)
            && (Run(init).Inserted? ==>
                  && ShapeOk(Run(init).shape) && last.0 !in AllKeys(Run(init).shape)
                  && Run(ops) == Insert(Run(init).shape, last.0, last.1, Run(init).next)
                  && (Run(ops).Inserted? ==> ShapeOk(Run(ops).shape)))
  {
    var init := ops[..|ops| - 1];
    if Run(init).Inserted? { RunStep(ops, Run(init).shape, Run(init).next); }
  }

  /** The leaves of the tree hold exactly the inserted pairs, in key order. */
  lemma RunContents(ops: seq<Op>)
    requires DistinctKeys(ops) && Run(ops).Inserted?
    ensures var s := Run(ops).shape;
            && multiset(Entries(s)) == multiset(ops)
            && Ascending(AllKeys(s))
            && |AllKeys(s)| == |ops|
  {
    ShapeAscends(Run(ops).shape);
    assert |multiset(Entries(Run(ops).shape))| == |multiset(ops)|;
  }

  lemma EntryFound(s: Shape, k: Key, v: Val)
    requires ShapeOk(s) && (k, v) in Entries(s)
    ensures Find(s, k) == Some(v)
  {
    ShapeAscends(s);
    var p :| 0 <= p < |Entries(s)| && Entries(s)[p] == (k, v);
    assert AllKeys(s)[p] == k;
    RankIsUnique(AllKeys(s), k, p);
    FindMeaning(s, k);
  }

  /** Lookup returns the inserted value of every inserted key, and nothing for any other key. */
  lemma RunFinds(ops: seq<Op>, k: Key)
    requires DistinctKeys(ops) && Run(ops).Inserted?
    ensures forall i :: 0 <= i < |ops| && ops[i].0 == k ==> Find(Run(ops).shape, k) == Some(ops[i].1)
    ensures !Names(ops, k) ==> Find(Run(ops).shape, k) == None
  {
    var s := Run(ops).shape;
    forall i | 0 <= i < |ops| && ops[i].0 == k
      ensures Find(s, k) == Some(ops[i].1)
    {
      assert ops[i] in multiset(ops);
      EntryFound(s, k, ops[i].1);
    }
    KeysComeFromOps(s, ops, k);
    FindMeaning(s, k);
  }

  // ----- how long a run can be -----

  /** Entries in a row of leaves of least size. */
  lemma {:induction false} RowAtLeast(leaves: seq<Leaf>)
    requires forall i :: 0 <= i < |leaves| ==> H <= |leaves[i].keys|
    ensures |leaves| * H <= |KeysOf(leaves)|
  {
    if leaves != [] {
      RowAtLeast(leaves[1..]);
      assert |leaves| * H == H + |leaves[1..]| * H;
    }
  }

  /** The length of the shortest runs that abort. */
  const SHORTEST_ABORT: nat := (M - 2) * H + M + (LEAST_KIDS - 1) * H + (M - H)

  function LastSize(n: Inner): nat
    requires n.kids != []
  {
    |n.kids[|n.kids| - 1].keys|
  }

  /**
     The last leaf below the root is always the upper half of a split, and the left one of two inner
     nodes keeps the children it was split with.
   */
  ghost predicate Spread(s: Shape) {
    match s
    case OneInner(n) => n.kids != [] && LastSize(n) >= M - H
    case TwoInner(_, l, _, r) => |l.kids| >= H + 1 && r.kids != [] && LastSize(r) >= M - H
    case _ => true
  }

  lemma InnerInsertSpreads(n: Inner, k: Key, v: Val, next: int)
    requires KidsFit(n) && 0 < |n.kids| < M
    ensures match InnerInsert(n, k, v, next).0
            case Fits(node) => |node.kids| >= |n.kids| && (LastSize(n) >= M - H ==> LastSize(node) >= M - H)
            case Splits(left, _, right) =>
              |left.kids| == H + 1 && right.kids != [] && (LastSize(n) >= M - H ==> LastSize(right) >= M - H)
  {
  }

  lemma InsertSpreads(s: Shape, k: Key, v: Val, next: int)
    requires ShapeOk(s) && Spread(s) && Insert(s, k, v, next).Inserted?
    ensures Spread(Insert(s, k, v, next).shape)
  {
    hide InnerInsert, KidOk, LeafOk, Within;
    match s
    case Empty =>
    case OneLeaf(_) =>
    case OneInner(n) => InnerInsertSpreads(n, k, v, next);
    case TwoInner(_, l, sep, r) => InnerInsertSpreads(if k < sep then l else r, k, v, next);
  }

  lemma {:induction false} RunSpreads(ops: seq<Op>)
    requires DistinctKeys(ops) && Run(ops).Inserted?
    ensures Spread(Run(ops).shape)
  {
    if ops != [] {
      var init, last := ops[..|ops| - 1], ops[|ops| - 1];
      RunSpreads(init);
      InsertSpreads(Run(init).shape, last.0, last.1, Run(init).next);
    }
  }

  lemma FullInnerHolds(n: Inner, k: Key)
    requires KidsFit(n) && |n.kids| == M - 1 && |n.kids[KidFor(n, k)].keys| == M - 1
    ensures |KeysOf(n.kids)| >= (M - 2) * H + M - 1
  {
    var i := KidFor(n, k);
    var a, b := n.kids[..i], n.kids[i + 1..];
    assert n.kids == a + [n.kids[i]] + b;
    OfTriple(a, n.kids[i], b);
    RowAtLeast(a);
    RowAtLeast(b);
    assert |a| * H + |b| * H == (M - 2) * H by {
      assert |a| + |b| == M - 2;
      Distribute(|a|, |b|, H);
    }
  }

  /** Entries in a row of leaves of least size, with what the last one holds. */
  lemma RowWithLast(n: Inner)
    requires KidsFit(n) && n.kids != []
    ensures |KeysOf(n.kids)| >= (|n.kids| - 1) * H + LastSize(n)
  {
    var init, last := n.kids[..|n.kids| - 1], n.kids[|n.kids| - 1];
    assert n.kids == init + [last] + [];
    OfTriple(init, last, []);
    RowAtLeast(init);
  }

  lemma Distribute(a: int, b: int, c: int)
    ensures a * c + b * c == (a + b) * c
  {
  }

  lemma Grows(a: nat, b: nat, c: nat)
    requires a <= b
    ensures a * c <= b * c
  {
    Distribute(a, b - a, c);
  }

  /**
     The key belongs in a leaf with one slot to spare below an inner node with one slot to spare.  The other
     leaves of that node have at least H keys, and so have those of its neighbour, which has at least the
     children a split leaves and, on the right, an upper half at its end.
   */
  ghost predicate Tight(s: Shape, k: Key) {
    s.TwoInner? &&
    var n, other := if k < s.sep then s.left else s.right, if k < s.sep then s.right else s.left;
    && KidsFit(n) && KidsFit(other)
    && |n.kids| == M - 1 && |n.kids[KidFor(n, k)].keys| == M - 1
    && (if k < s.sep then |other.kids| >= LEAST_KIDS && LastSize(other) >= M - H else |other.kids| >= H + 1)
  }

  lemma AbortHolds(s: Shape, k: Key, v: Val, next: int)
    requires ShapeOk(s) && Spread(s) && Insert(s, k, v, next).Aborted?
    ensures Tight(s, k) && |AllKeys(s)| + 1 >= SHORTEST_ABORT
  {
    hide KidOk, LeafOk, Within, InnerInsert, Insert, KeysOf;
    AbortsExactlyWhen(s, k, v, next);
    OfConcat(s.left.kids, s.right.kids);
    FullInnerHolds(if k < s.sep then s.left else s.right, k);
    if k < s.sep { LeastRight(s.right); } else { LeastLeft(s.left); }
  }

  lemma LeastRight(n: Inner)
    requires KidsFit(n) && n.kids != [] && |n.kids| >= LEAST_KIDS && LastSize(n) >= M - H
    ensures |KeysOf(n.kids)| >= (LEAST_KIDS - 1) * H + (M - H)
  {
    RowWithLast(n);
    Grows(LEAST_KIDS - 1, |n.kids| - 1, H);
  }

  lemma LeastLeft(n: Inner)
    requires KidsFit(n) && |n.kids| >= H + 1
    ensures |KeysOf(n.kids)| >= (LEAST_KIDS - 1) * H + (M - H)
  {
    RowAtLeast(n.kids);
    Grows(H + 1, |n.kids|, H);
    Grows(LEAST_KIDS - 1, H - 1, H);
    Distribute(H - 1, 2, H);
  }

  lemma AtLeastOne(ops: seq<Op>)
    requires DistinctKeys(ops) && Run(ops).Aborted?
    ensures ops != []
  {
  }

  /** Where a run first aborts the tree is tight for the key to come, which takes that many keys. */
  lemma {:induction false} AbortNeeds(ops: seq<Op>) returns (n: nat)
    requires DistinctKeys(ops) && Run(ops).Aborted?
    ensures SHORTEST_ABORT <= n + 1 <= |ops|
    ensures Run(ops[..n]).Inserted? && Tight(Run(ops[..n]).shape, ops[n].0)
    ensures DistinctKeys(ops[..n + 1]) && Run(ops[..n + 1]).Aborted?
  {
    hide Run, Tight, Spread, ShapeOk, Insert, AllKeys, Entries, DistinctKeys;
    AtLeastOne(ops);
    var init, last := ops[..|ops| - 1], ops[|ops| - 1];
    RunUnfolds(ops);
    match Run(init)
    case Aborted =>
      n := AbortNeeds(init);
      assert ops[..n] == init[..n] && ops[..n + 1] == init[..n + 1];
    case Inserted(s, next) =>
      RunContents(init);
      RunSpreads(init);
      AbortHolds(s, last.0, last.1, next);
      n := |init|;
      assert ops[..n + 1] == ops;
  }

  lemma ShortestIsLong()
    ensures SHORTEST_ABORT > M * H
  {
    Distribute(M - 2, 2, H);
    Grows(0, LEAST_KIDS - 1, H);
  }

  /** No run shorter than that reaches the missing step, nor does one as long as a full node of half-full leaves. */
  lemma ShortRunsSucceed(ops: seq<Op>)
    requires DistinctKeys(ops) && |ops| < SHORTEST_ABORT
    ensures Run(ops).Inserted?
    ensures SHORTEST_ABORT > M * H
  {
    hide Run, Tight, DistinctKeys;
    ShortestIsLong();
    if Run(ops).Aborted? {
      var n := AbortNeeds(ops);
    }
  }

  /** The page ids a run takes: those of its tree, or two more than those of the last tree before it aborted. */
  ghost function PagesFor(ops: seq<Op>): int
    requires DistinctKeys(ops)
  {
    if ops == [] then 0
    else
      var init := ops[..|ops| - 1];
      match Run(ops)
      case Inserted(_, next) => next
      case Aborted =>
        match Run(init)
        case Inserted(_, next) => next + 2
        case Aborted => PagesFor(init)
  }

  // ----- pages -----

  function Occurrences(pages: seq<int>, p: int): nat {
    if pages == [] then 0 else (if pages[0] == p then 1 else 0) + Occurrences(pages[1..], p)
  }

  lemma {:induction false} OccurrencesConcat(a: seq<int>, b: seq<int>, p: int)
    ensures Occurrences(a + b, p) == Occurrences(a, p) + Occurrences(b, p)
  {
    if a == [] {
      assert a + b == b;
    } else {
      OccurrencesConcat(a[1..], b, p);
      assert (a + b)[1..] == a[1..] + b;
    }
  }

  lemma OccurrencesInserted(s: seq<int>, at: nat, x: int, p: int)
    requires at <= |s|
    ensures Occurrences(InsertAt(s, at, x), p) == Occurrences(s, p) + if x == p then 1 else 0
  {
    OccurrencesConcat(s[..at] + [x], s[at..], p);
    OccurrencesConcat(s[..at], [x], p);
    OccurrencesConcat(s[..at], s[at..], p);
    assert s[..at] + s[at..] == s;
  }

  lemma LeafPagesConcat(a: seq<Leaf>, b: seq<Leaf>)
    ensures LeafPages(a + b) == LeafPages(a) + LeafPages(b)
  {
    forall i | 0 <= i < |a + b|
      ensures LeafPages(a + b)[i] == (LeafPages(a) + LeafPages(b))[i]
    {
      assert LeafPages(a + b)[i] == (a + b)[i].page;
    }
  }

  function InnerUses(n: Inner, p: int): nat {
    (if n.page == p then 1 else 0) + Occurrences(LeafPages(n.kids), p)
  }

  /** How often page p occurs in what an insertion below an inner node leaves. */
  function ResultUses(r: InnerResult, p: int): nat {
    match r
    case Fits(node) => InnerUses(node, p)
    case Splits(left, _, right) => InnerUses(left, p) + InnerUses(right, p)
  }

  function ShapeUses(s: Shape, p: int): nat {
    match s
    case Empty => 0
    case OneLeaf(l) => if l.page == p then 1 else 0
    case OneInner(n) => InnerUses(n, p)
    case TwoInner(root, l, _, r) => (if root == p then 1 else 0) + InnerUses(l, p) + InnerUses(r, p)
  }

  lemma PagesOfUses(s: Shape, p: int)
    ensures Occurrences(PagesOf(s), p) == ShapeUses(s, p)
  {
    match s
    case Empty =>
    case OneLeaf(_) =>
    case OneInner(n) =>
      OccurrencesConcat([n.page], LeafPages(n.kids), p);
    case TwoInner(root, l, _, r) =>
      OccurrencesConcat([root] + InnerPages(l), InnerPages(r), p);
      OccurrencesConcat([root], InnerPages(l), p);
      OccurrencesConcat([l.page], LeafPages(l.kids), p);
      OccurrencesConcat([r.page], LeafPages(r.kids), p);
  }

  lemma AbsorbUses(n: Inner, i: nat, lower: Leaf, upper: Leaf, p: int)
    requires i < |n.kids| == |n.seps| + 1 && |upper.keys| > 0 && lower.page == n.kids[i].page
    ensures InnerUses(Absorb(n, i, lower, upper), p) == InnerUses(n, p) + if upper.page == p then 1 else 0
  {
    AbsorbedPages(n, i, lower, upper);
    OccurrencesInserted(LeafPages(n.kids), i + 1, upper.page, p);
  }

  lemma SplitUses(n: Inner, page: int, p: int)
    requires |n.kids| == |n.seps| + 1 == M
    ensures ResultUses(SplitInner(n, page), p) == InnerUses(n, p) + if page == p then 1 else 0
  {
    var a, b := n.kids[..H + 1], n.kids[H + 1..];
    assert n.kids == a + b;
    LeafPagesConcat(a, b);
    OccurrencesConcat(LeafPages(a), LeafPages(b), p);
  }

  /** Insertion below an inner node uses the page ids from `next` on, in order. */
  lemma InnerInsertUses(n: Inner, k: Key, v: Val, next: int, p: int)
    requires KidsFit(n) && |n.kids| < M
    ensures next <= InnerInsert(n, k, v, next).1 <= next + 2
    ensures ResultUses(InnerInsert(n, k, v, next).0, p) ==
            InnerUses(n, p) + if next <= p < InnerInsert(n, k, v, next).1 then 1 else 0
  {
    var i := KidFor(n, k);
    var grown := LeafInsert(n.kids[i], k, v);
    if |grown.keys| < M {
      assert LeafPages(n.kids[i := grown]) == LeafPages(n.kids);
    } else {
      var lower, upper := LowerHalf(grown), UpperHalf(grown, next);
      AbsorbUses(n, i, lower, upper, p);
      var wider := Absorb(n, i, lower, upper);
      if |wider.kids| == M {
        SplitUses(wider, next + 1, p);
      }
    }
  }

  /** How often page p is in use when the ids below `next` have been handed out, each to one place. */
  function Uses(p: int, next: int): nat {
    if 0 <= p < next then 1 else 0
  }

  /** Insertion takes page ids from `next` on and loses or shares none. */
  lemma InsertUses(s: Shape, k: Key, v: Val, next: int, p: int)
    requires ShapeOk(s) && Occurrences(PagesOf(s), p) == Uses(p, next) && next >= 0
    requires Insert(s, k, v, next).Inserted?
    ensures next <= Insert(s, k, v, next).next <= next + 3
    ensures Occurrences(PagesOf(Insert(s, k, v, next).shape), p) == Uses(p, Insert(s, k, v, next).next)
  {
    hide PagesOf, InnerInsert, InnerPages, KidOk, Within;
    PagesOfUses(s, p);
    PagesOfUses(Insert(s, k, v, next).shape, p);
    match s
    case Empty =>
    case OneLeaf(l) =>
      var grown := LeafInsert(l, k, v);
      if |grown.keys| >= M {
        assert LeafPages(Insert(s, k, v, next).shape.inner.kids) == [l.page] + [next];
        OccurrencesConcat([l.page], [next], p);
      }
    case OneInner(n) =>
      InnerInsertUses(n, k, v, next, p);
    case TwoInner(_, l, sep, r) =>
      InnerInsertUses(if k < sep then l else r, k, v, next, p);
  }

  /**
     In every reachable tree each page id below `next` is the root or sits in one child slot, once,
     and no other page is in use.
   */
  lemma {:induction false} RunPages(ops: seq<Op>, p: int)
    requires DistinctKeys(ops) && Run(ops).Inserted?
    ensures Run(ops).next >= 0
    ensures Occurrences(PagesOf(Run(ops).shape), p) == Uses(p, Run(ops).next)
  {
    if ops != [] {
      var init, last := ops[..|ops| - 1], ops[|ops| - 1];
      RunPages(init, p);
      InsertUses(Run(init).shape, last.0, last.1, Run(init).next, p);
    }
  }

  lemma {:induction false} OccursTwice(pages: seq<int>, i: nat, j: nat)
    requires i < j < |pages| && pages[i] == pages[j]
    ensures Occurrences(pages, pages[i]) >= 2
  {
    var p := pages[i];
    assert pages == pages[..i + 1] + pages[i + 1..];
    OccurrencesConcat(pages[..i + 1], pages[i + 1..], p);
    Occurs(pages[..i + 1], i);
    Occurs(pages[i + 1..], j - i - 1);
  }

  lemma {:induction false} Occurs(pages: seq<int>, i: nat)
    requires i < |pages|
    ensures Occurrences(pages, pages[i]) >= 1
  {
    if i > 0 { Occurs(pages[1..], i - 1); }
  }

  /** No two places share a page, and all pages in use have been handed out. */
  lemma RunPlaced(ops: seq<Op>)
    requires DistinctKeys(ops) && Run(ops).Inserted?
    ensures Placed(Run(ops).shape, Run(ops).next) && Run(ops).next >= 0
  {
    var pages := PagesOf(Run(ops).shape);
    RunPages(ops, 0);
    forall i, j | 0 <= i < j < |pages|
      ensures pages[i] != pages[j]
    {
      RunPages(ops, pages[i]);
      if pages[i] == pages[j] { OccursTwice(pages, i, j); }
    }
    forall p | p in pages
      ensures 0 <= p < Run(ops).next
    {
      var i :| 0 <= i < |pages| && pages[i] == p;
      RunPages(ops, p);
      Occurs(pages, i);
    }
  }
}
