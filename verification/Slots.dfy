/**
 The loop with which both kinds of node make room for a new entry.
 */
module Slots {
  import opened Pages
  import opened Search
  import opened BufferPool

  /** The first `size` slots with those from `at` on moved one slot to the right; slot `at` keeps its old content. */
  function Shifted<T>(s: seq<T>, at: nat, size: nat): (r: seq<T>)
    requires at <= size < |s|
    ensures |r| == |s|
  {
    s[..at] + [s[at]] + s[at..size] + s[size + 1..]
  }

  method ShiftRight(frame: Frame, at: nat, size: nat)
    requires at <= size < M
    modifies frame`data
    ensures frame.data == old(frame.data).(
              keys := if at == size then old(frame.data).keys else Shifted(old(frame.data).keys, at, size),
              vals := if at == size then old(frame.data).vals else Shifted(old(frame.data).vals, at, size))
  {
    var page := frame.data;
    ghost var keys, vals := page.keys, page.vals;
    var i := size;
    while i > at
      invariant at <= i <= size
      invariant frame.data == page.(
                  keys := if i == size then keys else Shifted(keys, i, size),
                  vals := if i == size then vals else Shifted(vals, i, size))
    {
      ShiftOneMore(keys, i, size);
      ShiftOneMore(vals, i, size);
      frame.data := frame.data.(
        keys := frame.data.keys[i := frame.data.keys[i - 1]],
        vals := frame.data.vals[i := frame.data.vals[i - 1]]);
      i := i - 1;
    }
  }

  lemma ShiftOneMore<T>(s: seq<T>, i: nat, size: nat)
    requires 0 < i <= size < |s|
    ensures var now := if i == size then s else Shifted(s, i, size);
            now[i - 1] == s[i - 1] && now[i := now[i - 1]] == Shifted(s, i - 1, size)
  {
  }

  /** Writing the new entry into the gap completes an insertion among the first `size` slots. */
  lemma FilledGap<T>(s: seq<T>, at: nat, size: nat, x: T)
    requires at <= size < |s|
    ensures var now := if at == size then s else Shifted(s, at, size);
            now[at := x][..size + 1] == InsertAt(s[..size], at, x)
  {
  }

  /**
     The upper part of a full array in a new one, as a split puts it there: the slots from `at` up to the
     last are copied to the front, and the last one into slot `end`.
   */
  function UpperPart<T>(s: seq<T>, target: seq<T>, at: nat, end: nat): (r: seq<T>)
    requires |s| == |target| > at + 1 && at + end == |s| - 1
    ensures |r| == |s| && r[..|s| - at] == s[at..]
  {
    (s[at..|s| - 1] + target[|s| - 1 - at..])[end := s[|s| - 1]]
  }

  /** What the split leaves behind: the slots from `at` up to the last are overwritten, the last one is not. */
  function LowerPart(s: seq<int>, at: nat): (r: seq<int>)
    requires at < |s|
    ensures |r| == |s| && r[..at] == s[..at]
  {
    s[..at] + Copies(INVALID_KEY, |s| - 1 - at) + s[|s| - 1..]
  }
}
