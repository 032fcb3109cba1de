/**
 The page: four header words followed by a run of key slots and a run of value slots.

 The number of slots is fixed when the tree template is instantiated
 (MAX_NUMBER_OF_ELEMENTS); here it is the constant `M`, which has no value, so that every
 result holds for every capacity of at least five.  Five is the least capacity for which both
 halves of an inner split keep two children.  A key is a fixed-size byte string under a total
 order, so its type has finitely many values and embeds in `int` in an order-preserving way.
 */
module Pages {
  type Capacity = m: nat | m >= 5 witness 5

  const M: Capacity

  /** The fewest entries of a leaf that is not the root: each leaf split leaves at least this many on each side. */
  const H: nat := M / 2

  type Key = int
  type Val = int

  /** Stands for K::invalid_key(): an ordinary key value that marks slots no search reads. */
  const INVALID_KEY: Key := -99
  const INVALID_PAGE_ID := -1

  datatype NodeKind = LeafKind | InnerKind

  /** `link` is next_page_id in a leaf and previous_page_id in an inner node. */
  datatype RawPage = RawPage(
    kind: NodeKind,
    maxSize: nat,
    currentSize: nat,
    link: int,
    keys: seq<Key>,
    vals: seq<Val>)

  function Copies<T>(x: T, n: nat): (s: seq<T>)
    ensures |s| == n && forall i :: 0 <= i < n ==> s[i] == x
  {
    if n == 0 then [] else [x] + Copies(x, n - 1)
  }

  /** A page of zero bytes, as a freshly grown page file holds. */
  const BLANK: RawPage := RawPage(LeafKind, 0, 0, 0, Copies(0, M), Copies(0, M))

  type Page = p: RawPage | |p.keys| == M && |p.vals| == M witness BLANK

  datatype Option<+T> = None | Some(value: T)

  /** The result of an operation that may throw. */
  datatype Outcome<+T> = Returned(value: T) | Thrown {
    predicate IsFailure() { Thrown? }
    function PropagateFailure<U>(): Outcome<U> requires Thrown? { Thrown }
    function Extract(): T requires Returned? { value }
  }

  lemma SomeMember<T>(s: set<T>) returns (x: T)
    requires s != {}
    ensures x in s
  {
    x :| x in s;
  }
}
