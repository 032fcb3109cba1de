/**
 The B+ tree as a value, and insertion as a function on it.

 Four shapes are enough: an inner node that splits makes a new root with two inner children, and
 the step that would give such a root a third child is not implemented, so insertion aborts there.
 That the tree in the pages always has one of these shapes is proved in module BPlusTree.
 */
module TreeSpec {
  import opened Pages
  import opened Search

  datatype Leaf = Leaf(page: int, keys: seq<Key>, vals: seq<Val>)

  datatype Inner = Inner(page: int, seps: seq<Key>, kids: seq<Leaf>)

  datatype Shape =
    | Empty
    | OneLeaf(leaf: Leaf)
    | OneInner(inner: Inner)
    | TwoInner(page: int, left: Inner, sep: Key, right: Inner)

  // ----- order and size -----

  datatype Bound = Unbounded | At(key: Key)

  ghost predicate Within(k: Key, lo: Bound, hi: Bound) {
    (lo.At? ==> lo.key <= k) && (hi.At? ==> k < hi.key)
  }

  ghost predicate LeafOk(l: Leaf, lo: Bound, hi: Bound) {
    && |l.keys| == |l.vals| >= 1
    && Ascending(l.keys)
    && forall i :: 0 <= i < |l.keys| ==> Within(l.keys[i], lo, hi)
  }

  function LoOf(seps: seq<Key>, lo: Bound, i: nat): Bound
    requires i <= |seps|
  {
    if i == 0 then lo else At(seps[i - 1])
  }

  function HiOf(seps: seq<Key>, hi: Bound, i: nat): Bound
    requires i <= |seps|
  {
    if i == |seps| then hi else At(seps[i])
  }

  ghost predicate KidOk(n: Inner, lo: Bound, hi: Bound, i: nat)
    requires i < |n.kids| == |n.seps| + 1
  {
    && LeafOk(n.kids[i], LoOf(n.seps, lo, i), HiOf(n.seps, hi, i))
    && (i > 0 ==> n.seps[i - 1] == n.kids[i].keys[0])
  }

  /** Every leaf below an inner node holds at least half the capacity, rounded down, and is not full. */
  ghost predicate KidsFit(n: Inner) {
    && |n.kids| == |n.seps| + 1
    && forall i :: 0 <= i < |n.kids| ==> H <= |n.kids[i].keys| == |n.kids[i].vals| < M
  }

  /**
     The keys under child i lie from separator i - 1 up to separator i, and each separator is the
     least key of the child to its right.
   */
  ghost predicate InnerOk(n: Inner, lo: Bound, hi: Bound) {
    && KidsFit(n)
    && Ascending(n.seps)
    && (forall i :: 0 <= i < |n.seps| ==> Within(n.seps[i], lo, hi))
    && (forall i :: 0 <= i < |n.kids| ==> KidOk(n, lo, hi, i))
  }

  /** The fewest children of an inner node below the root. */
  const LEAST_KIDS: nat := if M % 2 == 1 then H else H - 1

  ghost predicate ShapeOk(s: Shape) {
    match s
    case Empty => true
    case OneLeaf(l) => LeafOk(l, Unbounded, Unbounded) && |l.keys| < M
    case OneInner(n) => InnerOk(n, Unbounded, Unbounded) && 2 <= |n.kids| < M
    case TwoInner(_, l, sep, r) =>
      && InnerOk(l, Unbounded, At(sep)) && LEAST_KIDS <= |l.kids| < M
      && InnerOk(r, At(sep), Unbounded) && LEAST_KIDS <= |r.kids| < M
      && r.kids[0].keys[0] == sep
  }

  // ----- insertion -----

  function LeafInsert(l: Leaf, k: Key, v: Val): Leaf
    requires |l.keys| == |l.vals|
  {
    var at := Rank(l.keys, k);
    Leaf(l.page, InsertAt(l.keys, at, k), InsertAt(l.vals, at, v))
  }

  function LowerHalf(l: Leaf): Leaf
    requires |l.keys| == |l.vals| >= H
  {
    Leaf(l.page, l.keys[..H], l.vals[..H])
  }

  function UpperHalf(l: Leaf, page: int): Leaf
    requires |l.keys| == |l.vals| >= H
  {
    Leaf(page, l.keys[H..], l.vals[H..])
  }

  /** The child a search for key k enters. */
  function KidFor(n: Inner, k: Key): (i: nat)
    requires |n.kids| == |n.seps| + 1
    ensures i < |n.kids|
  {
    ChildSlot(n.seps, k)
  }

  /** Child i replaced by the halves it was split into. */
  function Absorb(n: Inner, i: nat, lower: Leaf, upper: Leaf): (r: Inner)
    requires i < |n.kids| == |n.seps| + 1 && |upper.keys| > 0
    ensures |r.kids| == |r.seps| + 1 == |n.kids| + 1
  {
    Inner(n.page, InsertAt(n.seps, i, upper.keys[0]), n.kids[..i] + [lower, upper] + n.kids[i + 1..])
  }

  datatype InnerResult =
    | Fits(node: Inner)
    | Splits(left: Inner, sep: Key, right: Inner)

  function SplitInner(n: Inner, page: int): (r: InnerResult)
    requires |n.kids| == |n.seps| + 1 == M
    ensures r.Splits?
  {
    Splits(
      Inner(n.page, n.seps[..H], n.kids[..H + 1]),
      n.seps[H],
      Inner(page, n.seps[H + 1..], n.kids[H + 1..]))
  }

  /** Insertion below an inner node.  `next` is the first page id not in use; the second result is the new one. */
  function InnerInsert(n: Inner, k: Key, v: Val, next: int): (InnerResult, int)
    requires KidsFit(n) && |n.kids| < M
  {
    var i := KidFor(n, k);
    var leaf := n.kids[i];
    var grown := LeafInsert(leaf, k, v);
    if |grown.keys| < M then (Fits(n.(kids := n.kids[i := grown])), next)
    else
      var wider := Absorb(n, i, LowerHalf(grown), UpperHalf(grown, next));
      if |wider.kids| < M then (Fits(wider), next + 1)
      else (SplitInner(wider, next + 1), next + 2)
  }

  datatype InsertResult = Inserted(shape: Shape, next: int) | Aborted

  function Insert(s: Shape, k: Key, v: Val, next: int): InsertResult
    requires ShapeOk(s)
  {
    match s
    case Empty => Inserted(OneLeaf(Leaf(next, [k], [v])), next + 1)
    case OneLeaf(l) =>
      var grown := LeafInsert(l, k, v);
      if |grown.keys| < M then Inserted(OneLeaf(grown), next)
      else
        var lower, upper := LowerHalf(grown), UpperHalf(grown, next);
        Inserted(OneInner(Inner(next + 1, [upper.keys[0]], [lower, upper])), next + 2)
    case OneInner(n) =>
      (match InnerInsert(n, k, v, next)
       case (Fits(node), after) => Inserted(OneInner(node), after)
       case (Splits(left, sep, right), after) => Inserted(TwoInner(after, left, sep, right), after + 1))
    case TwoInner(root, l, sep, r) =>
      if k < sep then
        match InnerInsert(l, k, v, next)
        case (Fits(node), after) => Inserted(TwoInner(root, node, sep, r), after)
        case (Splits(_, _, _), _) => Aborted
      else
        match InnerInsert(r, k, v, next)
        case (Fits(node), after) => Inserted(TwoInner(root, l, sep, node), after)
        case (Splits(_, _, _), _) => Aborted
  }

  // ----- what the tree holds -----

  function KeysOf(leaves: seq<Leaf>): seq<Key> {
    if leaves == [] then [] else leaves[0].keys + KeysOf(leaves[1..])
  }

  function ValsOf(leaves: seq<Leaf>): seq<Val> {
    if leaves == [] then [] else leaves[0].vals + ValsOf(leaves[1..])
  }

  /** The leaves from left to right. */
  function Leaves(s: Shape): seq<Leaf> {
    match s
    case Empty => []
    case OneLeaf(l) => [l]
    case OneInner(n) => n.kids
    case TwoInner(_, l, _, r) => l.kids + r.kids
  }

  /** Every page of the tree, as often as it occurs: the root and the pages in child slots. */
  function PagesOf(s: Shape): seq<int> {
    match s
    case Empty => []
    case OneLeaf(l) => [l.page]
    case OneInner(n) => InnerPages(n)
    case TwoInner(root, l, _, r) => [root] + InnerPages(l) + InnerPages(r)
  }

  function InnerPages(n: Inner): seq<int> {
    [n.page] + LeafPages(n.kids)
  }

  function LeafPages(leaves: seq<Leaf>): (pages: seq<int>)
    ensures |pages| == |leaves|
    ensures forall i :: 0 <= i < |leaves| ==> pages[i] == leaves[i].page
  {
    if leaves == [] then [] else [leaves[0].page] + LeafPages(leaves[1..])
  }

  /** No two places of the tree share a page, and every page of it has been handed out. */
  ghost predicate Placed(s: Shape, next: int) {
    Distinct(PagesOf(s)) && forall p :: p in PagesOf(s) ==> 0 <= p < next
  }

  ghost predicate Distinct(pages: seq<int>) {
    forall i, j :: 0 <= i < j < |pages| ==> pages[i] != pages[j]
  }

  lemma AbsorbedPages(n: Inner, i: nat, lower: Leaf, upper: Leaf)
    requires i < |n.kids| == |n.seps| + 1 && |upper.keys| > 0 && lower.page == n.kids[i].page
    ensures LeafPages(Absorb(n, i, lower, upper).kids) == InsertAt(LeafPages(n.kids), i + 1, upper.page)
  {
  }

  /** The leaf a search for key k ends in. */
  function TargetLeaf(s: Shape, k: Key): (l: Leaf)
    requires ShapeOk(s) && !s.Empty?
    ensures |l.keys| == |l.vals| >= 1
  {
    match s
    case OneLeaf(l) => l
    case OneInner(n) => n.kids[KidFor(n, k)]
    case TwoInner(_, l, sep, r) => if k < sep then l.kids[KidFor(l, k)] else r.kids[KidFor(r, k)]
  }

  function Find(s: Shape, k: Key): Option<Val>
    requires ShapeOk(s)
  {
    if s.Empty? then None
    else
      var l := TargetLeaf(s, k);
      var at := Rank(l.keys, k);
      if at < |l.keys| && l.keys[at] == k then Some(l.vals[at]) else None
  }
}
