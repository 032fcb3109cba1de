/**
 The tree over whole runs of insertions and lookups: for its callers it is a table from keys to values.
 */
module TreeCalls {
  import opened Pages
  import opened PoolState
  import opened TreeSpec
  import opened TreeContents
  import opened TreeRuns
  import opened TreePages
  import opened TreeSteps
  import opened BPlusTree

  /** A call of the tree.  A lookup comes with the value its caller keeps when the key is not there. */
  datatype TreeCall = Put(key: Key, val: Val) | Get(key: Key, value: Val)

  datatype Answer = Stored | Got(r: Outcome<Val>)

  function PairOf(call: TreeCall): seq<Op> {
    if call.Put? then [(call.key, call.val)] else []
  }

  /** The pairs the calls put in, in order. */
  function Pairs(calls: seq<TreeCall>): seq<Op> {
    if calls == [] then [] else Pairs(calls[..|calls| - 1]) + PairOf(calls[|calls| - 1])
  }

  /** The value put in for a key, or the caller's own. */
  function ValueOf(ops: seq<Op>, key: Key, value: Val): Val {
    if ops == [] then value
    else if ops[|ops| - 1].0 == key then ops[|ops| - 1].1
    else ValueOf(ops[..|ops| - 1], key, value)
  }

  /** What a call may answer when the pairs in the tree are these. */
  ghost predicate Answers(ops: seq<Op>, call: TreeCall, answer: Answer) {
    match call
    case Put(_, _) => answer.Stored?
    case Get(key, value) =>
      && answer.Got? && (ops == [] ==> answer.r.Thrown?)
      && (answer.r.Returned? ==> answer.r.value == ValueOf(ops, key, value))
  }

  /** A lookup throws in an empty tree and in no other. */
  ghost predicate ThrowsWhenEmpty(ops: seq<Op>, answer: Answer) {
    answer.Got? ==> (answer.r.Thrown? <==> ops == [])
  }

  /** Each call made so far was answered from the pairs that were in the tree then. */
  ghost predicate AllAnswered(ops: seq<Op>, calls: seq<TreeCall>, answers: seq<Answer>) {
    && |answers| <= |calls|
    && forall i :: 0 <= i < |answers| ==> Answers(ops + Pairs(calls[..i]), calls[i], answers[i])
  }

  ghost predicate AllThrowWhenEmpty(ops: seq<Op>, calls: seq<TreeCall>, answers: seq<Answer>)
    requires |answers| <= |calls|
  {
    forall i :: 0 <= i < |answers| ==> ThrowsWhenEmpty(ops + Pairs(calls[..i]), answers[i])
  }

  lemma OneMoreAnswer(ops: seq<Op>, calls: seq<TreeCall>, answers: seq<Answer>, answer: Answer)
    requires AllAnswered(ops, calls, answers) && |answers| < |calls|
    requires Answers(ops + Pairs(calls[..|answers|]), calls[|answers|], answer)
    ensures AllAnswered(ops, calls, answers + [answer])
    ensures AllThrowWhenEmpty(ops, calls, answers) && ThrowsWhenEmpty(ops + Pairs(calls[..|answers|]), answer) ==>
              AllThrowWhenEmpty(ops, calls, answers + [answer])
  {
    hide Answers, ThrowsWhenEmpty, Pairs;
  }

  /** Each lookup asks for a key that was put in before. */
  ghost predicate OnlyPresent(ops: seq<Op>, calls: seq<TreeCall>) {
    forall i :: 0 <= i < |calls| && calls[i].Get? ==> Names(ops + Pairs(calls[..i]), calls[i].key)
  }

  predicate OnlyPuts(calls: seq<TreeCall>) {
    forall i :: 0 <= i < |calls| ==> calls[i].Put?
  }

  /** The run of these insertions reaches the step that is not implemented. */
  ghost predicate Aborts(ops: seq<Op>)
    requires DistinctKeys(ops)
  {
    Run(ops).Aborted?
  }

  // ----- what the pairs of a run are -----

  lemma PairsSoFar(calls: seq<TreeCall>, i: nat)
    requires i < |calls|
    ensures Pairs(calls[..i + 1]) ==
            Pairs(calls[..i]) + PairOf(calls[i])
  {
    assert calls[..i + 1][..i] == calls[..i];
  }

  lemma {:induction false} PairsPrefix(calls: seq<TreeCall>, i: nat)
    requires i <= |calls|
    ensures |Pairs(calls[..i])| <= |Pairs(calls)| && Pairs(calls[..i]) == Pairs(calls)[..|Pairs(calls[..i])|]
  {
    if i == |calls| {
      assert calls[..i] == calls;
    } else {
      var init := calls[..|calls| - 1];
      assert init[..i] == calls[..i];
      PairsPrefix(init, i);
    }
  }

  /** What the tree holds after a call is the beginning of what it holds in the end. */
  lemma RunPrefix(ops: seq<Op>, calls: seq<TreeCall>, i: nat)
    requires i < |calls|
    ensures var all, longer := ops + Pairs(calls), ops + Pairs(calls[..i]) + PairOf(calls[i]);
            |longer| <= |all| && all[..|longer|] == longer
    ensures ops + Pairs(calls[..i + 1]) == ops + Pairs(calls[..i]) + PairOf(calls[i])
  {
    hide Pairs, PairOf;
    PairsSoFar(calls, i);
    PairsPrefix(calls, i + 1);
    Associates(ops, Pairs(calls[..i]), PairOf(calls[i]));
    PrefixOfSum(ops, Pairs(calls[..i + 1]), Pairs(calls));
  }

  lemma Associates<T>(a: seq<T>, b: seq<T>, c: seq<T>)
    ensures a + (b + c) == a + b + c
  {
  }

  lemma PrefixOfSum<T>(a: seq<T>, b: seq<T>, c: seq<T>)
    requires |b| <= |c| && b == c[..|b|]
    ensures (a + c)[..|a + b|] == a + b
  {
  }

  lemma PutIsFresh(ops: seq<Op>, calls: seq<TreeCall>, i: nat)
    requires i < |calls| && calls[i].Put? && DistinctKeys(ops + Pairs(calls))
    ensures !Names(ops + Pairs(calls[..i]), calls[i].key)
  {
    hide Pairs;
    RunPrefix(ops, calls, i);
    EarlierDiffer(ops + Pairs(calls), ops + Pairs(calls[..i]), (calls[i].key, calls[i].val));
  }

  lemma EarlierDiffer(all: seq<Op>, before: seq<Op>, op: Op)
    requires DistinctKeys(all) && |before| < |all| && all[..|before| + 1] == before + [op]
    ensures !Names(before, op.0)
  {
    assert all[|before|] == (before + [op])[|before|];
    forall j | 0 <= j < |before|
      ensures before[j].0 != op.0
    {
      assert all[j] == (before + [op])[j];
    }
  }

  lemma {:induction false} ValueIs(ops: seq<Op>, key: Key, value: Val, r: Val)
    requires forall i :: 0 <= i < |ops| && ops[i].0 == key ==> r == ops[i].1
    requires !Names(ops, key) ==> r == value
    ensures r == ValueOf(ops, key, value)
  {
    if ops != [] && ops[|ops| - 1].0 != key {
      var init := ops[..|ops| - 1];
      if !Names(init, key) { assert !Names(ops, key); }
      ValueIs(init, key, value, r);
    }
  }

  lemma EmptyTells(ops: seq<Op>)
    requires DistinctKeys(ops) && Run(ops).Inserted?
    ensures Run(ops).shape.Empty? <==> ops == []
  {
    RunContents(ops);
  }

  /** Once a run has aborted it stays so. */
  lemma {:induction false} AbortStays(ops: seq<Op>, n: nat)
    requires DistinctKeys(ops) && n <= |ops|
    ensures DistinctKeys(ops[..n])
    ensures Aborts(ops[..n]) ==> Aborts(ops)
  {
    hide Run;
    if n == |ops| {
      assert ops[..n] == ops;
    } else {
      var init := ops[..|ops| - 1];
      assert init[..n] == ops[..n];
      RunUnfolds(ops);
      AbortStays(init, n);
    }
  }

  /** A longer run takes at least the pages of a shorter one. */
  lemma {:induction false} PagesGrow(ops: seq<Op>, n: nat)
    requires DistinctKeys(ops) && n <= |ops|
    ensures DistinctKeys(ops[..n])
    ensures PagesFor(ops[..n]) <= PagesFor(ops)
  {
    hide Run, DistinctKeys, Names, PagesFor;
    if n == |ops| {
      assert ops[..n] == ops;
    } else {
      var init := ops[..|ops| - 1];
      assert init[..n] == ops[..n];
      PagesStep(ops);
      PagesGrow(init, n);
    }
  }

  lemma PagesStep(ops: seq<Op>)
    requires DistinctKeys(ops) && ops != []
    ensures DistinctKeys(ops[..|ops| - 1]) && PagesFor(ops[..|ops| - 1]) <= PagesFor(ops)
  {
    hide DistinctKeys, Names, Run;
    var init, last := ops[..|ops| - 1], ops[|ops| - 1];
    RunUnfolds(ops);
    if Run(init).Inserted? {
      LastIsFresh(ops);
      assert ops == init + [last];
      PagesForLonger(init, last.0, last.1);
      PagesOfTree(init);
    }
  }

  lemma LastIsFresh(ops: seq<Op>)
    requires ops != [] && DistinctKeys(ops)
    ensures !Names(ops[..|ops| - 1], ops[|ops| - 1].0)
  {
  }

  lemma PagesOfTree(ops: seq<Op>)
    requires DistinctKeys(ops) && Run(ops).Inserted?
    ensures PagesFor(ops) == Run(ops).next
  {
  }

  // ----- the runs -----

  method MakePut(tree: Tree, key: Key, val: Val) returns (r: InsertOutcome)
    requires tree.Valid() && !Names(tree.history, key)
    modifies tree, tree.bp`nextPage, tree.bp`pageTable, tree.bp`emptyFrames, tree.bp.disk, tree.bp.replacer, tree.bp.frames
    ensures tree.bp.Valid()
    ensures DistinctKeys(old(tree.history) + [(key, val)])
    ensures r.AssertFailed? ==> Run(old(tree.history) + [(key, val)]).Aborted?
    ensures r.Done? ==>
              tree.Valid() && tree.history == old(tree.history) + [(key, val)]
    ensures r.Done? && old(tree.Balanced()) ==> tree.Balanced()
    ensures r.Done? ==> forall p :: p in tree.bp.pageTable ==> p in old(tree.bp.pageTable) || p in InnerIds(tree.Shape())
    ensures r.Done? ==> InnerIds(old(tree.Shape())) <= InnerIds(tree.Shape())
    ensures |old(tree.bp.pageTable)| + 5 <= tree.bp.maxFrames ==> !r.Threw?
    ensures PagesFor(old(tree.history) + [(key, val)]) <= tree.bp.maxFrames ==> !r.Threw?
  {
    hide Run, DistinctKeys, Names, tree.bp.Valid, tree.bp.Snapshot, ShapeIn, SameLogical, InnerIds, AskedPages;
    ghost var ops := tree.history;
    r := tree.Insert(key, val);
    if r.Done? { InnerStays(ops, key, val); }
  }

  method MakeGet(tree: Tree, key: Key, value: Val) returns (r: Outcome<Val>)
    requires tree.Valid()
    modifies tree.bp`pageTable, tree.bp`emptyFrames, tree.bp.disk, tree.bp.replacer, tree.bp.frames
    ensures tree.Valid() && tree.bp.Valid()
    ensures Answers(tree.history, Get(key, value), Got(r))
    ensures PagesFor(tree.history) <= tree.bp.maxFrames ==> (r.Thrown? <==> tree.history == [])
    ensures old(tree.Balanced()) && Names(tree.history, key) ==> tree.Balanced()
  {
    hide Run, PagesFor, DistinctKeys, Names, ValueOf, tree.Valid, tree.Balanced, tree.NoFrameOnWay, tree.bp.Valid,
         tree.bp.Snapshot, ShapeIn, SameLogical, TargetLeaf, AllKeys, PathTo;
    PoolOf(tree);
    EmptyTells(tree.history);
    r := tree.Find(key, value);
    PoolOf(tree);
    if r.Returned? { ValueIs(tree.history, key, value, r.value); }
  }

  /** An insertion is of a key that is not among the pairs. */
  ghost predicate Fresh(ops: seq<Op>, call: TreeCall) {
    call.Put? ==> !Names(ops, call.key)
  }

  /** Makes one call; nothing but the pool's accounting is known of the tree when an insertion does not return. */
  method MakeCall(tree: Tree, call: TreeCall, ghost pages: set<int>) returns (answer: Answer, refused: Option<InsertOutcome>)
    requires tree.Valid() && Fresh(tree.history, call)
    modifies tree, tree.bp`nextPage, tree.bp`pageTable, tree.bp`emptyFrames, tree.bp.disk, tree.bp.replacer, tree.bp.frames
    ensures tree.bp.Valid()
    ensures refused.Some? ==> call.Put? && !refused.value.Done?
    ensures refused == Some(AssertFailed) ==>
              var longer := old(tree.history) + [(call.key, call.val)]; DistinctKeys(longer) && Aborts(longer)
    ensures refused.None? ==>
              && tree.Valid() && Answers(old(tree.history), call, answer)
              && tree.history == old(tree.history) + PairOf(call)
    ensures refused.None? && old(tree.Balanced()) && (call.Get? ==> Names(old(tree.history), call.key)) ==> tree.Balanced()
    ensures refused.None? && call.Put? && old(Kept(tree, pages)) ==> Kept(tree, pages)
    ensures |pages| + 8 <= tree.bp.maxFrames && old(Kept(tree, pages)) ==> refused != Some(Threw)
    ensures DistinctKeys(old(tree.history) + PairOf(call))
    ensures PagesFor(old(tree.history) + PairOf(call)) <= tree.bp.maxFrames ==>
              refused != Some(Threw) && (refused.None? ==> ThrowsWhenEmpty(old(tree.history), answer))
  {
    hide Run, PagesFor, DistinctKeys, Names, ValueOf, tree.Valid, tree.bp.Valid, tree.Balanced, InnerIds, Kept;
    match call {
      case Put(key, val) =>
        PoolOf(tree);
        ghost var kept, table, inner := Kept(tree, pages), tree.bp.pageTable, InnerIds(tree.Shape());
        if kept { FewKept(tree, pages); }
        var r := MakePut(tree, key, val);
        if r.Done? {
          PoolOf(tree);
          if kept { StillKept(tree, pages, table, inner); }
        }
        return Stored, if r.Done? then None else Some(r);
      case Get(key, value) =>
        PoolOf(tree);
        assert tree.history + PairOf(call) == tree.history;
        var r := MakeGet(tree, key, value);
        return Got(r), None;
    }
  }

  /**
     Makes the calls one after the other, until an insertion does not return.  Each lookup that returns gives
     the value put in for its key before, or the caller's own; at the end the file alone holds the tree.
     Without lookups of absent keys no frame stays pinned.  In a pool with as many frames as the insertions
     take pages, only an insertion that aborts stops the calls, and the same holds for insertions alone in a pool
     with eight frames more than it had pages in at first, whatever the size of the tree.
   */
  method Drive(tree: Tree, calls: seq<TreeCall>) returns (answers: seq<Answer>, refused: Option<InsertOutcome>)
    requires tree.Valid() && DistinctKeys(tree.history + Pairs(calls))
    modifies tree, tree.bp`nextPage, tree.bp`pageTable, tree.bp`emptyFrames, tree.bp.disk, tree.bp.replacer, tree.bp.frames
    ensures tree.bp.Valid() && AllAnswered(old(tree.history), calls, answers)
    ensures refused.None? ==>
              && |answers| == |calls| && tree.Valid() && tree.history == old(tree.history) + Pairs(calls)
              && ShapeIn(State(map[], tree.bp.disk.file), tree.rootPageId, tree.Shape())
    ensures refused.None? && old(tree.Balanced()) && OnlyPresent(old(tree.history), calls) ==> tree.Balanced()
    ensures refused.Some? ==>
              && |answers| < |calls| && calls[|answers|].Put? && !refused.value.Done?
              && (refused.value.AssertFailed? ==> Aborts(old(tree.history) + Pairs(calls)))
    ensures PagesFor(old(tree.history) + Pairs(calls)) <= tree.bp.maxFrames ==>
              && refused != Some(Threw)
              && (refused.None? <==> !Aborts(old(tree.history) + Pairs(calls)))
              && AllThrowWhenEmpty(old(tree.history), calls, answers)
    ensures OnlyPuts(calls) && |old(tree.bp.pageTable)| + 8 <= tree.bp.maxFrames ==>
              && refused != Some(Threw)
              && (refused.None? <==> !Aborts(old(tree.history) + Pairs(calls)))
    ensures OnlyPuts(calls) && refused.None? ==> Kept(tree, old(tree.bp.pageTable.Keys))
  {
    hide Run, Aborts, PagesFor, DistinctKeys, Names, Pairs, Answers, Fresh, tree.Valid, tree.bp.Valid, tree.Balanced,
         OnlyPresent, ShapeIn, ThrowsWhenEmpty, AllAnswered, AllThrowWhenEmpty, PairOf, InnerIds, Kept, OnlyPuts;
    ghost var ops, pages := tree.history, tree.bp.pageTable.Keys;
    PoolOf(tree);
    KeptAtFirst(tree);
    assert ops + Pairs(calls[..0]) == ops by { NoPairs(); }
    NoAnswers(ops, calls);
    answers := [];
    for i := 0 to |calls|
      invariant tree.bp.Valid() && tree.Valid() && |answers| == i && tree.history == ops + Pairs(calls[..i])
      invariant AllAnswered(ops, calls, answers)
      invariant old(tree.Balanced()) && OnlyPresent(ops, calls) ==> tree.Balanced()
      invariant OnlyPuts(calls) ==> Kept(tree, pages)
      invariant PagesFor(ops + Pairs(calls)) <= tree.bp.maxFrames ==> AllThrowWhenEmpty(ops, calls, answers)
    {
      NextCall(ops, calls, i);
      var answer, stop := MakeCall(tree, calls[i], pages);
      if stop.Some? {
        StoppedRun(ops, calls, i);
        return answers, stop;
      }
      OneMoreAnswer(ops, calls, answers, answer);
      answers := answers + [answer];
    }
    assert calls[..|calls|] == calls;
    PoolOf(tree);
    tree.FileHoldsTree();
    return answers, None;
  }

  /** Besides these pages only inner nodes are resident. */
  ghost predicate Kept(tree: Tree, pages: set<int>)
    reads tree`history, tree.bp`pageTable
  {
    && DistinctKeys(tree.history) && Run(tree.history).Inserted?
    && forall p :: p in tree.bp.pageTable ==> p in pages || p in InnerIds(tree.Shape())
  }

  lemma KeptAtFirst(tree: Tree)
    requires DistinctKeys(tree.history) && Run(tree.history).Inserted?
    ensures Kept(tree, tree.bp.pageTable.Keys)
  {
  }

  lemma StillKept(tree: Tree, pages: set<int>, table: map<int, int>, inner: set<int>)
    requires DistinctKeys(tree.history) && Run(tree.history).Inserted?
    requires (forall p :: p in table ==> p in pages || p in inner) && inner <= InnerIds(tree.Shape())
    requires forall p :: p in tree.bp.pageTable ==> p in table || p in InnerIds(tree.Shape())
    ensures Kept(tree, pages)
  {
  }

  lemma FewKept(tree: Tree, pages: set<int>)
    requires Kept(tree, pages)
    ensures |tree.bp.pageTable| <= |pages| + 3
    ensures forall p :: p in tree.bp.pageTable ==> p in pages || p in InnerIds(tree.Shape())
  {
    hide Run;
    var inner := InnerIds(tree.Shape());
    assert |inner| <= 3;
    forall p | p in tree.bp.pageTable.Keys
      ensures p in pages + inner
    {
      assert p in tree.bp.pageTable;
    }
    assert pages + inner == pages + (inner - pages);
    Subset(inner - pages, inner);
    Subset(tree.bp.pageTable.Keys, pages + inner);
  }

  lemma InnerStays(ops: seq<Op>, key: Key, val: Val)
    requires DistinctKeys(ops) && !Names(ops, key) && Run(ops).Inserted?
    ensures DistinctKeys(ops + [(key, val)])
    ensures Run(ops + [(key, val)]).Inserted? ==> InnerIds(Run(ops).shape) <= InnerIds(Run(ops + [(key, val)]).shape)
  {
    hide Run, DistinctKeys, Names, InnerIds;
    RunLonger(ops, key, val);
    if Run(ops + [(key, val)]).Inserted? { InnerIdsStay(Run(ops).shape, key, val, Run(ops).next); }
  }

  lemma PoolOf(tree: Tree)
    requires tree.Valid()
    ensures tree.bp.Valid() && DistinctKeys(tree.history) && Run(tree.history).Inserted? && !Aborts(tree.history)
    ensures tree.bp.nextPage == PagesFor(tree.history)
  {
  }

  lemma NoPairs()
    ensures Pairs([]) == []
  {
  }

  lemma NoAnswers(ops: seq<Op>, calls: seq<TreeCall>)
    ensures AllAnswered(ops, calls, []) && AllThrowWhenEmpty(ops, calls, [])
  {
  }

  lemma NextCall(ops: seq<Op>, calls: seq<TreeCall>, i: nat)
    requires i < |calls| && DistinctKeys(ops + Pairs(calls))
    ensures Fresh(ops + Pairs(calls[..i]), calls[i])
    ensures ops + Pairs(calls[..i + 1]) ==
            ops + Pairs(calls[..i]) + PairOf(calls[i])
    ensures DistinctKeys(ops + Pairs(calls[..i]) + PairOf(calls[i]))
    ensures PagesFor(ops + Pairs(calls[..i]) + PairOf(calls[i])) <= PagesFor(ops + Pairs(calls))
    ensures OnlyPuts(calls) ==> calls[i].Put?
    ensures OnlyPresent(ops, calls) && calls[i].Get? ==> Names(ops + Pairs(calls[..i]), calls[i].key)
  {
    hide Names, DistinctKeys, PagesFor, Pairs;
    RunPrefix(ops, calls, i);
    if calls[i].Put? { PutIsFresh(ops, calls, i); }
    PagesGrow(ops + Pairs(calls), |ops + Pairs(calls[..i]) + PairOf(calls[i])|);
  }

  lemma StoppedRun(ops: seq<Op>, calls: seq<TreeCall>, i: nat)
    requires i < |calls| && calls[i].Put? && DistinctKeys(ops + Pairs(calls))
    ensures var longer := ops + Pairs(calls[..i]) + [(calls[i].key, calls[i].val)];
            DistinctKeys(longer) && (Aborts(longer) ==> Aborts(ops + Pairs(calls)))
  {
    hide Run, Aborts, DistinctKeys, Pairs;
    RunPrefix(ops, calls, i);
    AbortStays(ops + Pairs(calls), |ops + Pairs(calls[..i]) + [(calls[i].key, calls[i].val)]|);
  }

  /** The calls made on a new tree: when only present keys are looked up, no frame is pinned at the end. */
  method DriveNew(maxFrames: int, calls: seq<TreeCall>)
    returns (tree: Tree, answers: seq<Answer>, refused: Option<InsertOutcome>)
    requires maxFrames >= 0 && DistinctKeys(Pairs(calls))
    ensures tree.bp.Valid() && tree.bp.maxFrames == maxFrames && AllAnswered([], calls, answers)
    ensures refused.None? ==>
              && |answers| == |calls| && tree.Valid() && tree.history == Pairs(calls)
              && ShapeIn(State(map[], tree.bp.disk.file), tree.rootPageId, tree.Shape())
    ensures refused.None? && OnlyPresent([], calls) ==> tree.Balanced()
    ensures PagesFor(Pairs(calls)) <= maxFrames ==>
              && refused != Some(Threw)
              && (refused.None? <==> !Aborts(Pairs(calls)))
              && AllThrowWhenEmpty([], calls, answers)
    ensures OnlyPuts(calls) && 8 <= maxFrames ==>
              refused != Some(Threw) && (refused.None? <==> !Aborts(Pairs(calls)))
  {
    hide Run, Aborts, PagesFor, DistinctKeys, Names, Pairs, Answers, AllAnswered, AllThrowWhenEmpty, OnlyPresent;
    tree := new Tree(INVALID_PAGE_ID, maxFrames);
    assert forall ops: seq<Op> :: [] + ops == ops;
    answers, refused := Drive(tree, calls);
  }
}
