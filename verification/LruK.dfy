/**
 The LRU-K replacer: which frame loses its page next.
 */
module LruK {
  import opened Pages

  datatype AccessRecord = AccessRecord(history: seq<nat>, isEvictable: bool)

  type Nodes = map<int, AccessRecord>

  ghost function Evictable(nodes: Nodes): set<int> {
    set id | id in nodes && nodes[id].isEvictable
  }

  /** Evictable frames that have been accessed fewer than k times. */
  ghost function Young(nodes: Nodes, k: int): set<int> {
    set id | id in nodes && nodes[id].isEvictable && |nodes[id].history| < k
  }

  /** The access whose age decides between frames with at least k accesses. */
  function Deciding(history: seq<nat>, k: int): nat
    requires 2 <= k <= |history|
  {
    history[|history| + 1 - k]
  }

  /** Access number i of frame id was recorded at time t. */
  ghost predicate Accessed(nodes: Nodes, id: int, i: int, t: int) {
    id in nodes && 0 <= i < |nodes[id].history| && nodes[id].history[i] == t
  }

  /** No two accesses were recorded at one time, and all of them lie before the clock. */
  ghost predicate Stamped(nodes: Nodes, clock: nat) {
    && (forall id, i, t :: Accessed(nodes, id, i, t) ==> t < clock)
    && (forall a, i, b, j, t :: Accessed(nodes, a, i, t) && Accessed(nodes, b, j, t) ==> a == b && i == j)
  }

  function Recorded(nodes: Nodes, clock: nat, id: int): Nodes {
    if id in nodes then nodes[id := nodes[id].(history := nodes[id].history + [clock])]
    else nodes[id := AccessRecord([clock], true)]
  }

  lemma RecordingKeepsStamps(nodes: Nodes, clock: nat, id: int)
    requires Stamped(nodes, clock)
    ensures Stamped(Recorded(nodes, clock, id), clock + 1)
  {
    var after := Recorded(nodes, clock, id);
    forall a, i, t | Accessed(after, a, i, t)
      ensures if Accessed(nodes, a, i, t) then true else t == clock && a == id && i == |after[id].history| - 1
    {
    }
  }

  lemma SameHistoriesSameStamps(nodes: Nodes, after: Nodes, clock: nat)
    requires Stamped(nodes, clock)
    requires after.Keys <= nodes.Keys && forall id :: id in after ==> after[id].history == nodes[id].history
    ensures Stamped(after, clock)
  {
    forall a, i, t | Accessed(after, a, i, t)
      ensures Accessed(nodes, a, i, t)
    {
    }
  }

  ghost predicate IsVictim(nodes: Nodes, k: int, id: int)
    requires k >= 2
  {
    && id in Evictable(nodes)
    && if Young(nodes, k) != {} then
         id in Young(nodes, k) && forall j :: j in Young(nodes, k) ==> id <= j
       else
         OldestAmong(nodes, k, id, Evictable(nodes))
  }

  /** Every frame of the set has k accesses, and the deciding one of frame id comes first of all. */
  ghost predicate OldestAmong(nodes: Nodes, k: int, id: int, frames: set<int>)
    requires k >= 2 && frames <= nodes.Keys
  {
    && id in frames
    && (forall j :: j in frames ==> k <= |nodes[j].history|)
    && forall j :: j in frames && j != id ==>
                     Deciding(nodes[id].history, k) < Deciding(nodes[j].history, k)
  }

  lemma VictimIsUnique(nodes: Nodes, k: int, a: int, b: int)
    requires k >= 2 && IsVictim(nodes, k, a) && IsVictim(nodes, k, b)
    ensures a == b
  {
  }

  lemma LeastExists(s: set<int>) returns (least: int)
    requires s != {}
    ensures least in s && forall j :: j in s ==> least <= j
  {
    least := SomeMember(s);
    var others := s - {least};
    if others != {} {
      var leastOther := LeastExists(others);
      if leastOther < least { least := leastOther; }
    }
    assert s == others + {least} || s == others + {least} + (s - others);
  }

  lemma DecidingIsAccess(nodes: Nodes, clock: nat, k: int, id: int)
    requires Stamped(nodes, clock) && id in nodes && 2 <= k <= |nodes[id].history|
    ensures Deciding(nodes[id].history, k) < clock
    ensures Accessed(nodes, id, |nodes[id].history| + 1 - k, Deciding(nodes[id].history, k))
  {
    assert Accessed(nodes, id, |nodes[id].history| + 1 - k, Deciding(nodes[id].history, k));
  }

  lemma OldestExists(nodes: Nodes, clock: nat, k: int, frames: set<int>) returns (id: int)
    requires Stamped(nodes, clock) && k >= 2 && frames != {} && frames <= nodes.Keys
    requires forall j :: j in frames ==> k <= |nodes[j].history|
    ensures OldestAmong(nodes, k, id, frames)
  {
    id := SomeMember(frames);
    var others := frames - {id};
    assert frames == others + {id};
    if others != {} {
      var oldestOther := OldestExists(nodes, clock, k, others);
      DecidingIsAccess(nodes, clock, k, id);
      DecidingIsAccess(nodes, clock, k, oldestOther);
      if Deciding(nodes[oldestOther].history, k) < Deciding(nodes[id].history, k) { id := oldestOther; }
    }
  }

  /** Where a frame is evictable there is a victim. */
  lemma VictimExists(nodes: Nodes, clock: nat, k: int) returns (id: int)
    requires Stamped(nodes, clock) && k >= 2 && Evictable(nodes) != {}
    ensures IsVictim(nodes, k, id)
  {
    if Young(nodes, k) != {} {
      id := LeastExists(Young(nodes, k));
    } else {
      assert forall j :: j in Evictable(nodes) ==> j !in Young(nodes, k);
      id := OldestExists(nodes, clock, k, Evictable(nodes));
    }
  }

  class Replacer {
    const k: int
    const size: int
    var nodes: Nodes
    var clock: nat

    ghost predicate Valid()
      reads this
    {
      && Stamped(nodes, clock)
      && (forall id :: id in nodes ==> id < size && nodes[id].history != [])
    }

    constructor (k: int, size: int)
      requires k >= 0 && size >= 0
      ensures Valid() && this.k == k && this.size == size && nodes == map[] && clock == 0
    {
      this.k := k;
      this.size := size;
      nodes := map[];
      clock := 0;
    }

    /** False stands for the exception thrown when the frame id is out of range. */
    method RecordAccess(id: int) returns (ok: bool)
      requires Valid()
      modifies this
      ensures Valid()
      ensures ok <==> id < size
      ensures !ok ==> nodes == old(nodes) && clock == old(clock)
      ensures ok ==> clock == old(clock) + 1 && nodes == Recorded(old(nodes), old(clock), id)
    {
      if id >= size { return false; }
      RecordingKeepsStamps(nodes, clock, id);
      if id !in nodes {
        nodes := nodes[id := AccessRecord([clock], true)];
      } else {
        nodes := nodes[id := nodes[id].(history := nodes[id].history + [clock])];
      }
      clock := clock + 1;
      return true;
    }

    method SetEvictable(id: int, setEvictable: bool) returns (ok: bool)
      requires Valid()
      modifies this`nodes
      ensures Valid()
      ensures ok <==> id < size
      ensures !ok || id !in old(nodes) ==> nodes == old(nodes)
      ensures ok && id in old(nodes) ==> nodes == old(nodes)[id := old(nodes)[id].(isEvictable := setEvictable)]
    {
      if id >= size { return false; }
      SameHistoriesSameStamps(
        nodes, if id in nodes then nodes[id := nodes[id].(isEvictable := setEvictable)] else nodes, clock);
      if id in nodes {
        nodes := nodes[id := nodes[id].(isEvictable := setEvictable)];
      }
      return true;
    }

    /**
     Removes the victim.  Failure means that nothing is evictable, with one exception: the search
     among frames with k accesses or more cannot tell a victim numbered -1 from no victim.
     */
    method Evict() returns (r: Option<int>)
      requires Valid() && k >= 2
      modifies this`nodes
      ensures Valid()
      ensures r.None? <==>
              Evictable(old(nodes)) == {} || (Young(old(nodes), k) == {} && IsVictim(old(nodes), k, -1))
      ensures r.None? ==> nodes == old(nodes)
      ensures r.Some? ==> IsVictim(old(nodes), k, r.value) && nodes == old(nodes) - {r.value}
      ensures r.Some? ==> |Evictable(nodes)| == |Evictable(old(nodes))| - 1
      ensures r.Some? ==> r.value in old(nodes) && old(nodes)[r.value].isEvictable
      ensures forall id :: id in old(nodes) && old(nodes)[id].isEvictable && |old(nodes)[id].history| < k ==>
                             r.Some? && r.value <= id && |old(nodes)[r.value].history| < k
    {
      assert forall j :: j in nodes && nodes[j].isEvictable && |nodes[j].history| < k ==> j in Young(nodes, k);
      r := FirstYoung();
      if r.Some? {
        SameHistoriesSameStamps(nodes, nodes - {r.value}, clock);
        EvictableAfterRemoval(nodes, r.value);
        nodes := nodes - {r.value};
        return;
      }
      var id := OldestEvictable();
      if id == -1 { return None; }
      SameHistoriesSameStamps(nodes, nodes - {id}, clock);
      EvictableAfterRemoval(nodes, id);
      nodes := nodes - {id};
      return Some(id);
    }

    /** The search for a frame with fewer than k accesses, in ascending order of frame ids. */
    method FirstYoung() returns (r: Option<int>)
      requires Valid()
      ensures r.None? <==> Young(nodes, k) == {}
      ensures r.Some? ==> r.value in Young(nodes, k) && forall j :: j in Young(nodes, k) ==> r.value <= j
    {
      var rest := nodes.Keys;
      while rest != {}
        invariant rest <= nodes.Keys
        invariant Young(nodes, k) <= rest
      {
        ghost var least := LeastExists(rest);
        var id :| id in rest && forall j :: j in rest ==> id <= j;
        if nodes[id].isEvictable && |nodes[id].history| < k {
          assert id in Young(nodes, k);
          return Some(id);
        }
        rest := rest - {id};
      }
      return None;
    }

    /** The frame whose deciding access lies furthest behind the clock, or -1. */
    method OldestEvictable() returns (id: int)
      requires Valid() && k >= 2 && Young(nodes, k) == {}
      ensures Evictable(nodes) == {} ==> id == -1
      ensures Evictable(nodes) != {} ==> IsVictim(nodes, k, id)
    {
      id := -1;
      var maxDistance := 0;
      var rest := nodes.Keys;
      while rest != {}
        invariant rest <= nodes.Keys
        invariant Evictable(nodes) - rest == {} ==> id == -1 && maxDistance == 0
        invariant Evictable(nodes) - rest != {} ==>
                    && OldestAmong(nodes, k, id, Evictable(nodes) - rest)
                    && maxDistance == clock - Deciding(nodes[id].history, k)
      {
        ghost var least := LeastExists(rest);
        var frame :| frame in rest && forall j :: j in rest ==> frame <= j;
        ghost var seen := Evictable(nodes) - rest;
        rest := rest - {frame};
        if nodes[frame].isEvictable {
          assert frame !in Young(nodes, k);
          assert Evictable(nodes) - rest == seen + {frame};
          DecidingIsAccess(nodes, clock, k, frame);
          if seen != {} { DecidingIsAccess(nodes, clock, k, id); }
          var diff := clock - Deciding(nodes[frame].history, k);
          if diff > maxDistance {
            maxDistance := diff;
            id := frame;
          }
        } else {
          assert Evictable(nodes) - rest == seen;
        }
      }
      assert Evictable(nodes) - rest == Evictable(nodes);
    }

    method Remove(id: int) returns (ok: bool)
      requires Valid()
      modifies this`nodes
      ensures Valid()
      ensures ok <==> id < size
      ensures nodes == if ok && id in old(nodes) && old(nodes)[id].isEvictable then old(nodes) - {id} else old(nodes)
    {
      if id >= size { return false; }
      if id in nodes && nodes[id].isEvictable {
        SameHistoriesSameStamps(nodes, nodes - {id}, clock);
        nodes := nodes - {id};
      }
      return true;
    }

    /** Counts the evictable frames by folding over the records. */
    method Size() returns (count: nat)
      ensures count == |Evictable(nodes)|
    {
      count := 0;
      var rest := nodes.Keys;
      while rest != {}
        invariant rest <= nodes.Keys
        invariant count == |Evictable(nodes) - rest|
      {
        ghost var member := SomeMember(rest);
        var id :| id in rest;
        ghost var seen := Evictable(nodes) - rest;
        rest := rest - {id};
        if nodes[id].isEvictable {
          assert Evictable(nodes) - rest == seen + {id};
          count := count + 1;
        } else {
          assert Evictable(nodes) - rest == seen;
        }
      }
      assert Evictable(nodes) - rest == Evictable(nodes);
    }
  }

  lemma EvictableAfterRemoval(nodes: Nodes, id: int)
    requires id in Evictable(nodes)
    ensures |Evictable(nodes - {id})| == |Evictable(nodes)| - 1
  {
    assert Evictable(nodes - {id}) == Evictable(nodes) - {id};
  }
}
