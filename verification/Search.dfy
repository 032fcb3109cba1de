/**
 The searches within one node, as linear scans over its keys in slot order, and what they mean
 for keys in ascending order.
 */
module Search {
  import opened Pages

  ghost predicate Ascending(keys: seq<Key>) {
    forall i, j :: 0 <= i < j < |keys| ==> keys[i] < keys[j]
  }

  /** The first slot whose key is not smaller than k. */
  function Rank(keys: seq<Key>, k: Key): (r: nat)
    ensures r <= |keys|
  {
    if keys == [] || keys[0] >= k then 0 else 1 + Rank(keys[1..], k)
  }

  /** The first slot whose key is larger than k. */
  function ChildSlot(keys: seq<Key>, k: Key): (r: nat)
    ensures r <= |keys|
  {
    if keys == [] || keys[0] > k then 0 else 1 + ChildSlot(keys[1..], k)
  }

  lemma {:induction false} RankSplits(keys: seq<Key>, k: Key)
    requires Ascending(keys)
    ensures var r := Rank(keys, k);
            && (forall i :: 0 <= i < r ==> keys[i] < k)
            && (forall i :: r <= i < |keys| ==> keys[i] >= k)
  {
    if keys != [] && keys[0] < k {
      RankSplits(keys[1..], k);
      var r := Rank(keys, k);
      forall i | 1 <= i < |keys|
        ensures i < r ==> keys[i] < k
        ensures i >= r ==> keys[i] >= k
      {
        assert keys[i] == keys[1..][i - 1];
      }
    }
  }

  lemma {:induction false} ChildSlotSplits(keys: seq<Key>, k: Key)
    requires Ascending(keys)
    ensures var r := ChildSlot(keys, k);
            && (forall i :: 0 <= i < r ==> keys[i] <= k)
            && (forall i :: r <= i < |keys| ==> keys[i] > k)
  {
    if keys != [] && keys[0] <= k {
      ChildSlotSplits(keys[1..], k);
      var r := ChildSlot(keys, k);
      forall i | 1 <= i < |keys|
        ensures i < r ==> keys[i] <= k
        ensures i >= r ==> keys[i] > k
      {
        assert keys[i] == keys[1..][i - 1];
      }
    }
  }

  /** A position that splits the keys in the way Rank does is Rank. */
  lemma RankIsUnique(keys: seq<Key>, k: Key, r: nat)
    requires Ascending(keys) && r <= |keys|
    requires r > 0 ==> keys[r - 1] < k
    requires r < |keys| ==> keys[r] >= k
    ensures r == Rank(keys, k)
  {
    RankSplits(keys, k);
  }

  lemma ChildSlotIsUnique(keys: seq<Key>, k: Key, r: nat)
    requires Ascending(keys) && r <= |keys|
    requires r > 0 ==> keys[r - 1] <= k
    requires r < |keys| ==> keys[r] > k
    ensures r == ChildSlot(keys, k)
  {
    ChildSlotSplits(keys, k);
  }

  /** For a key that is not there, both searches stop at the same slot. */
  lemma FreshKeyOneSlot(keys: seq<Key>, k: Key)
    requires Ascending(keys) && k !in keys
    ensures Rank(keys, k) == ChildSlot(keys, k)
  {
    RankSplits(keys, k);
    var r := Rank(keys, k);
    assert r < |keys| ==> keys[r] in keys;
    ChildSlotIsUnique(keys, k, r);
  }

  ghost function CountSmaller(keys: seq<Key>, k: Key): nat {
    if keys == [] then 0 else (if keys[0] < k then 1 else 0) + CountSmaller(keys[1..], k)
  }

  /** The scan stops at the number of smaller keys. */
  lemma {:induction false} RankCounts(keys: seq<Key>, k: Key)
    requires Ascending(keys)
    ensures CountSmaller(keys, k) == Rank(keys, k)
  {
    if keys != [] {
      RankCounts(keys[1..], k);
      RankSplits(keys, k);
      if keys[0] >= k {
        RankIsUnique(keys[1..], k, 0);
      }
    }
  }

  function InsertAt<T>(s: seq<T>, at: nat, x: T): (r: seq<T>)
    requires at <= |s|
    ensures |r| == |s| + 1
  {
    s[..at] + [x] + s[at..]
  }

  lemma InsertedKeepsOrder(keys: seq<Key>, k: Key)
    requires Ascending(keys) && k !in keys
    ensures Ascending(InsertAt(keys, Rank(keys, k), k))
  {
    RankSplits(keys, k);
    var r := Rank(keys, k);
    assert r < |keys| ==> keys[r] in keys;
  }

  /** Division of machine integers, which drops the fraction. */
  function Halved(sum: int): int {
    if sum >= 0 then sum / 2 else -(-sum / 2)
  }
}
