/**
 What holds in every state the channel and the disk worker can reach.
 */
module SchedulerRuns {
  import opened Pages
  import opened DiskManagerMock
  import opened DiskScheduler

  // ----- the invariant -----

  /** The lock is held by whom the program counters say. */
  ghost predicate LockOk(s: State) {
    && (s.lock.ByWorker? <==> s.worker.Checking? || s.worker.Popped?)
    && (s.lock.ByProducer? ==> s.lock.p < |s.producers|)
    && forall p :: 0 <= p < |s.producers| ==>
         (s.producers[p].Holding? || s.producers[p].Emplaced? <==> s.lock == ByProducer(p))
  }

  /** The request the worker has taken out and not yet executed. */
  function InHand(w: Worker): seq<Request> {
    if w.Popped? || w.Executing? || w.Exited? then [w.req] else []
  }

  /** First in, first out: what entered the queue is what was executed, what the worker holds, and what waits. */
  ghost predicate OrderOk(s: State) {
    s.puts == s.executed + InHand(s.worker) + s.queue
  }

  predicate Pending(w: Producer) {
    w.Calling? || w.Holding?
  }

  /** No promise is shared. */
  ghost predicate PromisesOk(s: State) {
    && (forall i :: 0 <= i < |s.puts| ==> s.puts[i].promise < s.promises)
    && (forall i, j :: 0 <= i < j < |s.puts| ==> s.puts[i].promise != s.puts[j].promise)
    && (forall p :: 0 <= p < |s.producers| && Pending(s.producers[p]) ==> s.producers[p].req.promise < s.promises)
    && (forall p, i :: 0 <= p < |s.producers| && Pending(s.producers[p]) && 0 <= i < |s.puts| ==>
          s.producers[p].req.promise != s.puts[i].promise)
    && (forall p, q :: 0 <= p < q < |s.producers| && Pending(s.producers[p]) && Pending(s.producers[q]) ==>
          s.producers[p].req.promise != s.producers[q].req.promise)
  }

  /** The buffer of a request without an answer is its own, and holds what a write is to write. */
  ghost predicate Sound(s: State, req: Request) {
    req.kind.ShutdownRequest? ||
    (&& req.data in s.lent && s.lent[req.data] == req.promise
     && req.pageId < |s.file| + GROWTH
     && (req.kind.WriteRequest? ==> Bytes(s.memory, req.data) == req.bytes))
  }

  ghost predicate BuffersOk(s: State) {
    && (forall p :: 0 <= p < |s.producers| && Pending(s.producers[p]) ==> Sound(s, s.producers[p].req))
    && (forall i :: 0 <= i < |s.queue| ==> Sound(s, s.queue[i]))
    && (s.worker.Popped? || s.worker.Executing? || s.worker.Answering? ==> Sound(s, s.worker.req))
    && (s.worker.Answering? ==> !s.worker.req.kind.ShutdownRequest?)
  }

  ghost predicate FileOk(s: State, file: seq<Page>) {
    forall q :: PageAt(s.file, q) == Contents(file, s.executed, q)
  }

  predicate IsRead(req: Request) {
    req.kind.ReadRequest? && req.pageId >= 0
  }

  /** One answer for each executed request, in order; for a read it is the page as the requests before it left it. */
  ghost predicate AnswersOk(s: State, file: seq<Page>) {
    && |s.executed| == |s.answered| + (if s.worker.Answering? then 1 else 0)
    && |s.delivered| == |s.answered|
    && (forall i :: 0 <= i < |s.answered| ==> s.answered[i] == s.executed[i].promise)
    && (forall i :: 0 <= i < |s.answered| && IsRead(s.executed[i]) ==>
          s.delivered[i] == Contents(file, s.executed[..i], s.executed[i].pageId))
    && (s.worker.Answering? ==>
          && s.executed[|s.answered|] == s.worker.req
          && (IsRead(s.worker.req) ==>
                Bytes(s.memory, s.worker.req.data) == Contents(file, s.executed[..|s.answered|], s.worker.req.pageId)))
  }

  ghost predicate ShutdownPut(s: State) {
    exists i :: 0 <= i < |s.puts| && s.puts[i].kind.ShutdownRequest?
  }

  /** The owner's request for the shutdown is in the queue. */
  predicate LeftPut(w: Producer) {
    (Between(w) && w.req.kind.ShutdownRequest?) || w.Joining? || w.Joined?
  }

  ghost predicate ShutdownOk(s: State) {
    && (s.worker.Exited? ==> s.worker.req.kind.ShutdownRequest?)
    && (forall i :: 0 <= i < |s.executed| ==> !s.executed[i].kind.ShutdownRequest?)
    && (forall p :: 0 <= p < |s.producers| && p != OWNER ==> !s.producers[p].Joining? && !s.producers[p].Joined?)
    && (forall p :: 0 <= p < |s.producers| && p != OWNER && (Pending(s.producers[p]) || Between(s.producers[p])) ==>
          !s.producers[p].req.kind.ShutdownRequest?)
    && (forall p :: 0 <= p < |s.producers| && Between(s.producers[p]) && s.producers[p].req.kind.ShutdownRequest? ==>
          ShutdownPut(s))
    && (forall p :: 0 <= p < |s.producers| && (s.producers[p].Joining? || s.producers[p].Joined?) ==> ShutdownPut(s))
    && (forall p :: 0 <= p < |s.producers| && s.producers[p].Joined? ==> s.worker.Exited?)
    && (ShutdownPut(s) ==> OWNER < |s.producers| && LeftPut(s.producers[OWNER]))
  }

  /** The request is in the queue, and the notification is still to come. */
  predicate Between(w: Producer) {
    w.Emplaced? || w.Unlocked?
  }

  /** No wake-up is lost. */
  ghost predicate WakeOk(s: State) {
    s.worker.Asleep? && s.queue != [] ==> exists p :: 0 <= p < |s.producers| && Between(s.producers[p])
  }

  ghost predicate Inv(s: State, file: seq<Page>) {
    && |s.producers| > OWNER
    && LockOk(s) && OrderOk(s) && PromisesOk(s) && BuffersOk(s)
    && FileOk(s, file) && AnswersOk(s, file) && ShutdownOk(s) && WakeOk(s)
  }

  // ----- every step keeps it -----

  lemma LockKept(s: State, step: Step)
    requires LockOk(s) && Enabled(s, step)
    ensures LockOk(Next(s, step))
  {
  }

  lemma OrderKept(s: State, step: Step)
    requires OrderOk(s) && Enabled(s, step)
    ensures OrderOk(Next(s, step))
  {
    hide Reaching, Writing, Bytes, PageAt, Executed;
    match step
    case Emplace(p) => OrderEmplaced(s, p);
    case Check => OrderChecked(s);
    case Execute => OrderExecuted(s);
    case _ =>
  }

  lemma OrderEmplaced(s: State, p: nat)
    requires OrderOk(s) && Enabled(s, Emplace(p))
    ensures OrderOk(Next(s, Emplace(p)))
  {
    var t := Next(s, Emplace(p));
    assert s.executed + InHand(s.worker) + s.queue + [s.producers[p].req] == t.executed + InHand(t.worker) + t.queue;
  }

  lemma OrderChecked(s: State)
    requires OrderOk(s) && Enabled(s, Check)
    ensures OrderOk(Next(s, Check))
  {
    if s.queue != [] { assert s.queue == [s.queue[0]] + s.queue[1..]; }
  }

  lemma OrderExecuted(s: State)
    requires OrderOk(s) && Enabled(s, Execute)
    ensures OrderOk(Next(s, Execute))
  {
    hide Reaching, Writing, Bytes, PageAt;
  }

  lemma PromisesKept(s: State, step: Step)
    requires PromisesOk(s) && Enabled(s, step)
    ensures PromisesOk(Next(s, step))
  {
    match step
    case StartPut(p, _, _, _) => PutStarted(s, step);
    case Emplace(p) => PutEmplaced(s, p);
    case _ => NoNewPut(s, Next(s, step));
  }

  lemma PutStarted(s: State, step: Step)
    requires PromisesOk(s) && Enabled(s, step) && step.StartPut?
    ensures PromisesOk(Next(s, step))
  {
    var t := Next(s, step);
    assert forall q :: 0 <= q < |s.producers| && q != step.p ==> t.producers[q] == s.producers[q];
  }

  lemma PutEmplaced(s: State, p: nat)
    requires PromisesOk(s) && Enabled(s, Emplace(p))
    ensures PromisesOk(Next(s, Emplace(p)))
  {
    var t := Next(s, Emplace(p));
    assert !Pending(t.producers[p]);
    assert forall q :: 0 <= q < |s.producers| && q != p ==> t.producers[q] == s.producers[q];
  }

  /** Steps after which no thread is in the middle of another put than before. */
  lemma NoNewPut(s: State, t: State)
    requires PromisesOk(s) && t.puts == s.puts && t.promises == s.promises && |t.producers| == |s.producers|
    requires forall p :: 0 <= p < |t.producers| && Pending(t.producers[p]) ==>
                           Pending(s.producers[p]) && t.producers[p].req == s.producers[p].req
    ensures PromisesOk(t)
  {
  }

  /** The request the worker is busy with is none of those that wait or are being put. */
  lemma HandApart(s: State, file: seq<Page>)
    requires Inv(s, file) && (s.worker.Executing? || s.worker.Answering?)
    ensures forall i :: 0 <= i < |s.queue| ==> s.queue[i].promise != s.worker.req.promise
    ensures forall p :: 0 <= p < |s.producers| && Pending(s.producers[p]) ==>
                          s.producers[p].req.promise != s.worker.req.promise
  {
    var at := if s.worker.Answering? then |s.answered| else |s.executed|;
    assert s.puts[at] == s.worker.req;
    var rest := |s.puts| - |s.queue|;
    forall i | 0 <= i < |s.queue|
      ensures s.queue[i].promise != s.worker.req.promise
    {
      assert s.puts[rest + i] == s.queue[i];
    }
  }

  lemma SoundStays(s: State, step: Step, req: Request)
    requires Enabled(s, step) && Sound(s, req)
    requires step.Execute? || step.Answer? ==> Sound(s, s.worker.req) && req.promise != s.worker.req.promise
    requires step.Answer? ==> !s.worker.req.kind.ShutdownRequest?
    ensures Sound(Next(s, step), req)
  {
  }

  lemma BuffersKept(s: State, step: Step, file: seq<Page>)
    requires Inv(s, file) && Enabled(s, step)
    ensures BuffersOk(Next(s, step))
  {
    var t := Next(s, step);
    if step.Execute? || step.Answer? { HandApart(s, file); }
    forall p | 0 <= p < |t.producers| && Pending(t.producers[p])
      ensures Sound(t, t.producers[p].req)
    {
      if !(step.StartPut? && step.p == p) { SoundStays(s, step, s.producers[p].req); }
    }
    forall i | 0 <= i < |t.queue|
      ensures Sound(t, t.queue[i])
    {
      QueuedBefore(s, step, i);
      SoundStays(s, step, t.queue[i]);
    }
    HandKept(s, step);
  }

  lemma QueuedBefore(s: State, step: Step, i: nat)
    requires Enabled(s, step) && i < |Next(s, step).queue|
    ensures var req := Next(s, step).queue[i];
            || (exists j :: 0 <= j < |s.queue| && s.queue[j] == req)
            || (step.Emplace? && req == s.producers[step.p].req)
  {
    var t := Next(s, step);
    if step.Check? && s.queue != [] { assert t.queue[i] == s.queue[i + 1]; }
    else if i < |s.queue| { assert t.queue[i] == s.queue[i]; }
  }

  lemma HandKept(s: State, step: Step)
    requires BuffersOk(s) && Enabled(s, step)
    ensures var t := Next(s, step);
            && (t.worker.Popped? || t.worker.Executing? || t.worker.Answering? ==> Sound(t, t.worker.req))
            && (t.worker.Answering? ==> !t.worker.req.kind.ShutdownRequest?)
  {
    match step
    case Check => if s.queue != [] { assert Sound(s, s.queue[0]); }
    case WorkerAcquire =>
    case Execute =>
    case Answer =>
    case WakeForNothing =>
    case Join =>
    case _ =>
      if s.worker.Popped? || s.worker.Executing? || s.worker.Answering? { SoundStays(s, step, s.worker.req); }
  }

  lemma FileKept(s: State, step: Step, file: seq<Page>)
    requires Inv(s, file) && Enabled(s, step)
    ensures FileOk(Next(s, step), file)
  {
    var t := Next(s, step);
    if step.Execute? && !s.worker.req.kind.ShutdownRequest? {
      assert t.executed[..|t.executed| - 1] == s.executed;
    }
  }

  lemma AnswersKept(s: State, step: Step, file: seq<Page>)
    requires Inv(s, file) && Enabled(s, step)
    ensures AnswersOk(Next(s, step), file)
  {
    match step
    case Execute => if !s.worker.req.kind.ShutdownRequest? { ExecutedAnswers(s, file); }
    case Answer => AnsweredAnswers(s, file);
    case _ =>
  }

  lemma ExecutedAnswers(s: State, file: seq<Page>)
    requires AnswersOk(s, file) && FileOk(s, file) && BuffersOk(s)
    requires Enabled(s, Execute) && !s.worker.req.kind.ShutdownRequest?
    ensures AnswersOk(Next(s, Execute), file)
  {
    var t := Next(s, Execute);
    assert t.executed[|s.answered|] == s.worker.req;
    assert forall i :: 0 <= i <= |s.executed| ==> t.executed[..i] == s.executed[..i];
    assert s.executed[..|s.executed|] == s.executed;
  }

  lemma AnsweredAnswers(s: State, file: seq<Page>)
    requires AnswersOk(s, file) && Enabled(s, Answer)
    ensures AnswersOk(Next(s, Answer), file)
  {
  }

  lemma ShutdownPutStays(s: State, step: Step)
    requires Enabled(s, step) && ShutdownPut(s)
    ensures ShutdownPut(Next(s, step))
  {
    var i :| 0 <= i < |s.puts| && s.puts[i].kind.ShutdownRequest?;
    assert Next(s, step).puts[i] == s.puts[i];
  }

  lemma NoShutdownPut(s: State, step: Step)
    requires Enabled(s, step) && !ShutdownPut(s)
    ensures ShutdownPut(Next(s, step)) ==> step.Emplace? && s.producers[step.p].req.kind.ShutdownRequest?
  {
    assert forall i :: 0 <= i < |s.puts| ==> Next(s, step).puts[i] == s.puts[i] && !s.puts[i].kind.ShutdownRequest?;
  }

  lemma ShutdownKept(s: State, step: Step)
    requires ShutdownOk(s) && Enabled(s, step)
    ensures ShutdownOk(Next(s, step))
  {
    if Next(s, step).producers == s.producers && Next(s, step).puts == s.puts {
      ShutdownKeptByWorker(s, step);
    } else {
      ShutdownKeptByProducer(s, step);
    }
  }

  lemma ShutdownKeptByWorker(s: State, step: Step)
    requires ShutdownOk(s) && Enabled(s, step) && Next(s, step).producers == s.producers && Next(s, step).puts == s.puts
    ensures ShutdownOk(Next(s, step))
  {
    hide Between, Pending, LeftPut;
  }

  lemma ShutdownKeptByProducer(s: State, step: Step)
    requires ShutdownOk(s) && Enabled(s, step)
    requires step.StartPut? || step.Acquire? || step.Emplace? || step.Release? || step.Notify? || step.Join?
    ensures ShutdownOk(Next(s, step))
  {
    hide ShutdownPut, Executed;
    if ShutdownPut(s) { ShutdownPutStays(s, step); } else { NoShutdownPut(s, step); }
    if step.Emplace? && s.producers[step.p].req.kind.ShutdownRequest? { ShutdownEmplaced(s, step.p); }
  }

  lemma ShutdownEmplaced(s: State, p: nat)
    requires Enabled(s, Emplace(p)) && s.producers[p].req.kind.ShutdownRequest?
    ensures ShutdownPut(Next(s, Emplace(p)))
  {
    assert Next(s, Emplace(p)).puts[|s.puts|].kind.ShutdownRequest?;
  }

  lemma WakeKept(s: State, step: Step)
    requires WakeOk(s) && LockOk(s) && Enabled(s, step)
    ensures WakeOk(Next(s, step))
  {
    var t := Next(s, step);
    if t.worker.Asleep? && t.queue != [] {
      if step.Emplace? {
        assert Between(t.producers[step.p]);
      } else {
        var p :| 0 <= p < |s.producers| && Between(s.producers[p]);
        assert Between(t.producers[p]);
      }
    }
  }

  lemma StepKeeps(s: State, step: Step, file: seq<Page>)
    requires Inv(s, file) && Enabled(s, step)
    ensures Inv(Next(s, step), file)
  {
    hide LockOk, OrderOk, PromisesOk, BuffersOk, FileOk, AnswersOk, ShutdownOk, WakeOk;
    LockKept(s, step);
    OrderKept(s, step);
    PromisesKept(s, step);
    BuffersKept(s, step, file);
    FileKept(s, step, file);
    AnswersKept(s, step, file);
    ShutdownKept(s, step);
    WakeKept(s, step);
  }

  lemma AtFirst(producers: nat, file: seq<Page>)
    requires producers > OWNER
    ensures Inv(Initial(producers, file), file)
  {
    hide FileOk, Contents, Copies, Sound;
    assert FileOk(Initial(producers, file), file) by { FileAtFirst(producers, file); }
    assert !ShutdownPut(Initial(producers, file));
  }

  lemma FileAtFirst(producers: nat, file: seq<Page>)
    requires producers > OWNER
    ensures FileOk(Initial(producers, file), file)
  {
  }

  lemma {:induction false} Always(producers: nat, file: seq<Page>, steps: seq<Step>)
    requires producers > OWNER && After(producers, file, steps).Some?
    ensures Inv(After(producers, file, steps).value, file)
  {
    hide Enabled, Next, LockOk, OrderOk, PromisesOk, BuffersOk, FileOk, AnswersOk, ShutdownOk, WakeOk;
    if steps == [] {
      AtFirst(producers, file);
    } else {
      var init, last := steps[..|steps| - 1], steps[|steps| - 1];
      Always(producers, file, init);
      StepKeeps(After(producers, file, init).value, last, file);
    }
  }

  // ----- what it means for the clients -----

  /** If the worker sleeps although a request waits, a thread that has let go of the lock is about to notify. */
  lemma NoLostWakeUp(producers: nat, file: seq<Page>, steps: seq<Step>)
    requires producers > OWNER && After(producers, file, steps).Some?
    ensures var s := After(producers, file, steps).value;
            s.worker.Asleep? && s.queue != [] && s.lock.Free? ==>
              exists p :: 0 <= p < |s.producers| && s.producers[p].Unlocked?
  {
    Always(producers, file, steps);
    var s := After(producers, file, steps).value;
    if s.worker.Asleep? && s.queue != [] && s.lock.Free? {
      var p :| 0 <= p < |s.producers| && Between(s.producers[p]);
      assert s.producers[p].Unlocked?;
    }
  }

  /** No promise is ever set twice. */
  lemma AnsweredOnce(producers: nat, file: seq<Page>, steps: seq<Step>)
    requires producers > OWNER && After(producers, file, steps).Some?
    ensures var s := After(producers, file, steps).value;
            forall i, j :: 0 <= i < j < |s.answered| ==> s.answered[i] != s.answered[j]
  {
    Always(producers, file, steps);
    var s := After(producers, file, steps).value;
    forall i, j | 0 <= i < j < |s.answered|
      ensures s.answered[i] != s.answered[j]
    {
      assert s.puts[i] == s.executed[i] && s.puts[j] == s.executed[j];
    }
  }

  /** The first `count` requests, and no others, were executed in order and answered. */
  ghost predicate AllDone(s: State, file: seq<Page>, count: nat)
    requires count <= |s.puts|
  {
    && s.executed == s.puts[..count]
    && s.answered == Promises(s.puts[..count])
    && |s.delivered| == count
    && (forall i :: 0 <= i < count && IsRead(s.puts[i]) ==> s.delivered[i] == Contents(file, s.puts[..i], s.puts[i].pageId))
    && (forall q :: PageAt(s.file, q) == Contents(file, s.puts[..count], q))
  }

  /** Once the destructor has joined the worker, everything put before the shutdown has been done, once and in order. */
  lemma JoinedMeansDone(producers: nat, file: seq<Page>, steps: seq<Step>) returns (at: nat)
    requires producers > OWNER && After(producers, file, steps).Some?
    requires var s := After(producers, file, steps).value;
             OWNER < |s.producers| && s.producers[OWNER].Joined?
    ensures var s := After(producers, file, steps).value;
            && at < |s.puts| && s.puts[at].kind.ShutdownRequest?
            && (forall i :: 0 <= i < at ==> !s.puts[i].kind.ShutdownRequest?)
            && AllDone(s, file, at)
  {
    Always(producers, file, steps);
    var s := After(producers, file, steps).value;
    at := |s.executed|;
    assert s.worker.Exited?;
    assert s.puts[at] == s.worker.req && s.puts[..at] == s.executed;
    assert forall i :: 0 <= i < at ==> s.puts[..i] == s.executed[..i] && s.puts[i] == s.executed[i];
  }

  /** Contents in other words: the last write of the page, or what the file held before. */
  lemma {:induction false} ContentsIsLastWrite(file: seq<Page>, reqs: seq<Request>, id: nat, j: int)
    requires -1 <= j < |reqs|
    requires j >= 0 ==> reqs[j].kind.WriteRequest? && reqs[j].pageId == id
    requires forall i :: j < i < |reqs| ==> !(reqs[i].kind.WriteRequest? && reqs[i].pageId == id)
    ensures Contents(file, reqs, id) == if j >= 0 then reqs[j].bytes else PageAt(file, id)
  {
    if reqs != [] && j < |reqs| - 1 {
      ContentsIsLastWrite(file, reqs[..|reqs| - 1], id, j);
    }
  }

  // ----- a client that waits -----

  /** Every request that was put has been answered, and no thread is putting another. */
  ghost predicate Quiet(s: State) {
    && s.queue == [] && InHand(s.worker) == [] && !s.worker.Answering?
    && forall p :: 0 <= p < |s.producers| ==> !Pending(s.producers[p])
  }

  /** The page file after the worker has acted on a request. */
  function Applied(file: seq<Page>, req: Request): seq<Page>
    requires req.pageId < |file| + GROWTH
  {
    match req.kind
    case ReadRequest => Reaching(file, req.pageId)
    case WriteRequest => Writing(file, req.pageId, req.bytes)
    case ShutdownRequest => file
  }

  /** The buffers a client writes to in these steps. */
  function Touched(steps: seq<Step>): set<int> {
    if steps == [] then {}
    else Touched(steps[..|steps| - 1]) + if steps[|steps| - 1].Touch? then {steps[|steps| - 1].data} else {}
  }

  /** Of the buffers no client has written to, only that of a read changes, and holds the page once it is read. */
  ghost predicate BuffersAlone(s: State, req: Request, t: State, touched: set<int>) {
    forall data :: data !in touched ==>
      Bytes(t.memory, data) ==
      if |t.executed| > |s.executed| && IsRead(req) && data == req.data then PageAt(s.file, req.pageId)
      else Bytes(s.memory, data)
  }

  /** One request was put since the state s was quiet, or is being put, and nobody else has put any. */
  ghost predicate Alone(s: State, req: Request, t: State, touched: set<int>) {
    && req.promise == s.promises && req.pageId < |s.file| + GROWTH && !req.kind.ShutdownRequest?
    && (forall q :: 0 <= q < |t.producers| && Pending(t.producers[q]) ==> t.producers[q].req == req)
    && (t.puts == s.puts || t.puts == s.puts + [req])
    && |s.executed| <= |t.executed|
    && t.file == (if |t.executed| > |s.executed| then Applied(s.file, req) else s.file)
    && BuffersAlone(s, req, t, touched)
  }

  /** The request that such a step puts. */
  function Made(s: State, put: Step): Request
    requires put.StartPut?
  {
    Request(put.kind, put.data, put.pageId, s.promises, Bytes(s.memory, put.data))
  }

  lemma AloneAtFirst(s: State, file: seq<Page>, put: Step)
    requires Inv(s, file) && Quiet(s) && Enabled(s, put) && put.StartPut? && !put.kind.ShutdownRequest?
    ensures Alone(s, Made(s, put), Next(s, put), {})
  {
  }

  lemma AloneKept(s: State, req: Request, t: State, file: seq<Page>, step: Step, touched: set<int>)
    requires Inv(s, file) && Quiet(s) && Inv(t, file) && Alone(s, req, t, touched)
    requires Enabled(t, step) && !step.StartPut?
    ensures Alone(s, req, Next(t, step), touched + if step.Touch? then {step.data} else {})
  {
    hide LockOk, FileOk, AnswersOk, ShutdownOk, WakeOk, Contents, BuffersAlone;
    assert t.puts != s.puts ==> t.puts[|s.puts|] == req;
    if step.Execute? && !t.worker.req.kind.ShutdownRequest? {
      assert t.puts[|t.executed|] == t.worker.req;
      assert |t.executed| == |s.puts|;
      assert t.worker.req == req && Sound(t, req);
    }
    BuffersAloneKept(s, req, t, step, touched);
  }

  lemma BuffersAloneKept(s: State, req: Request, t: State, step: Step, touched: set<int>)
    requires BuffersAlone(s, req, t, touched) && Enabled(t, step) && |s.executed| <= |t.executed|
    requires step.Execute? && !t.worker.req.kind.ShutdownRequest? ==>
               t.worker.req == req && |t.executed| == |s.executed| && t.file == s.file
    ensures BuffersAlone(s, req, Next(t, step), touched + if step.Touch? then {step.data} else {})
  {
  }

  lemma {:induction false} AloneThroughout(
    producers: nat, file: seq<Page>, before: seq<Step>, put: Step, more: seq<Step>)
    requires producers > OWNER && After(producers, file, before).Some? && Quiet(After(producers, file, before).value)
    requires put.StartPut? && !put.kind.ShutdownRequest?
    requires forall i :: 0 <= i < |more| ==> !more[i].StartPut?
    requires After(producers, file, before + [put] + more).Some?
    ensures Enabled(After(producers, file, before).value, put)
    ensures var s := After(producers, file, before).value;
            Alone(s, Made(s, put), After(producers, file, before + [put] + more).value, Touched(more))
  {
    hide Inv, Quiet, Alone, Enabled, Next;
    var s, all := After(producers, file, before).value, before + [put] + more;
    Always(producers, file, before);
    if more == [] {
      assert all[..|all| - 1] == before && all[|all| - 1] == put;
      AloneAtFirst(s, file, put);
    } else {
      var init, last := more[..|more| - 1], more[|more| - 1];
      assert all[..|all| - 1] == before + [put] + init && all[|all| - 1] == last;
      AloneThroughout(producers, file, before, put, init);
      Always(producers, file, before + [put] + init);
      AloneKept(s, Made(s, put), After(producers, file, before + [put] + init).value, file, last, Touched(init));
    }
  }

  /**
     A client that puts a request when all others have been answered, and waits for the answer while nobody
     puts another, sees what a call of the page file would have done: after a read its buffer holds the page,
     a write writes the buffer, all other buffers are as they were unless a client writes to them, and the
     scheduler is quiet again.
   */
  lemma WaitingIsCalling(producers: nat, file: seq<Page>, before: seq<Step>, put: Step, more: seq<Step>)
    requires producers > OWNER && After(producers, file, before).Some? && Quiet(After(producers, file, before).value)
    requires put.StartPut? && !put.kind.ShutdownRequest?
    requires forall i :: 0 <= i < |more| ==> !more[i].StartPut?
    requires After(producers, file, before + [put] + more).Some?
    requires After(producers, file, before).value.promises in After(producers, file, before + [put] + more).value.answered
    ensures var s, t := After(producers, file, before).value, After(producers, file, before + [put] + more).value;
            && Quiet(t) && put.pageId < |s.file| + GROWTH
            && |t.answered| == |s.answered| + 1 == |t.delivered| && t.answered[|s.answered|] == s.promises
            && t.file == (if put.kind.ReadRequest? then Reaching(s.file, put.pageId)
                          else Writing(s.file, put.pageId, Bytes(s.memory, put.data)))
            && (put.kind.ReadRequest? && put.pageId >= 0 ==> t.delivered[|s.answered|] == PageAt(s.file, put.pageId))
            && forall data :: data !in Touched(more) ==>
                 Bytes(t.memory, data) ==
                 if put.kind.ReadRequest? && put.pageId >= 0 && data == put.data then PageAt(s.file, put.pageId)
                 else Bytes(s.memory, data)
  {
    hide LockOk, ShutdownOk, WakeOk, After, Next, Contents;
    var s, t := After(producers, file, before).value, After(producers, file, before + [put] + more).value;
    Always(producers, file, before);
    Always(producers, file, before + [put] + more);
    AloneThroughout(producers, file, before, put, more);
    Answered(s, Made(s, put), t, file, Touched(more));
  }

  lemma Answered(s: State, req: Request, t: State, file: seq<Page>, touched: set<int>)
    requires Inv(s, file) && Quiet(s) && Inv(t, file) && Alone(s, req, t, touched) && s.promises in t.answered
    ensures Quiet(t) && t.file == Applied(s.file, req)
    ensures |t.answered| == |s.answered| + 1 == |t.delivered| && t.answered[|s.answered|] == s.promises
    ensures IsRead(req) ==> t.delivered[|s.answered|] == PageAt(s.file, req.pageId)
    ensures forall data :: data !in touched ==>
                             Bytes(t.memory, data) ==
                             if IsRead(req) && data == req.data then PageAt(s.file, req.pageId) else Bytes(s.memory, data)
  {
    var i :| 0 <= i < |t.answered| && t.answered[i] == s.promises;
    assert t.puts[i] == t.executed[i];
    assert i == |s.puts| && t.executed == t.puts;
    assert t.executed[i] == req && t.executed[..i] == s.executed;
  }

  // ----- what a client finds in its buffer -----

  /** The step lets a client write to the buffer, or hands it to a request. */
  predicate Reuses(step: Step, data: int) {
    (step.Touch? || (step.StartPut? && !step.kind.ShutdownRequest?)) && step.data == data
  }

  /** A buffer that no request names and no client reuses keeps its bytes. */
  lemma BufferKept(s: State, file: seq<Page>, step: Step, data: int)
    requires Inv(s, file) && Enabled(s, step) && data !in s.lent && !Reuses(step, data)
    ensures data !in Next(s, step).lent && Bytes(Next(s, step).memory, data) == Bytes(s.memory, data)
  {
    hide LockOk, OrderOk, PromisesOk, FileOk, AnswersOk, ShutdownOk, WakeOk;
  }

  lemma {:induction false} BufferKeptThroughout(
    producers: nat, file: seq<Page>, before: seq<Step>, more: seq<Step>, data: int)
    requires producers > OWNER && After(producers, file, before + more).Some?
    requires After(producers, file, before).Some? && data !in After(producers, file, before).value.lent
    requires forall i :: 0 <= i < |more| ==> !Reuses(more[i], data)
    ensures var s, t := After(producers, file, before).value, After(producers, file, before + more).value;
            data !in t.lent && Bytes(t.memory, data) == Bytes(s.memory, data)
  {
    hide Inv, Enabled, Next, Reuses, Bytes;
    if more == [] {
      assert before + more == before;
    } else {
      var init, last := more[..|more| - 1], more[|more| - 1];
      assert (before + more)[..|before + more| - 1] == before + init && (before + more)[|before + more| - 1] == last;
      BufferKeptThroughout(producers, file, before, init, data);
      Always(producers, file, before + init);
      BufferKept(After(producers, file, before + init).value, file, last, data);
    }
  }

  /**
     With any number of clients: from the answer on, and until the buffer is reused, it holds for a read the
     page as the requests put before left it, and for a write what was written.
   */
  lemma BufferAfterAnswer(producers: nat, file: seq<Page>, before: seq<Step>, more: seq<Step>)
    requires producers > OWNER && After(producers, file, before).Some?
    requires After(producers, file, before).value.worker.Answering?
    requires After(producers, file, before + [Answer] + more).Some?
    requires forall i :: 0 <= i < |more| ==> !Reuses(more[i], After(producers, file, before).value.worker.req.data)
    ensures var s, t := After(producers, file, before).value, After(producers, file, before + [Answer] + more).value;
            var req := s.worker.req;
            && |s.answered| < |s.executed| && s.executed[|s.answered|] == req
            && (IsRead(req) ==>
                  Bytes(t.memory, req.data) == Contents(file, s.executed[..|s.answered|], req.pageId))
            && (req.kind.WriteRequest? ==> Bytes(t.memory, req.data) == req.bytes)
  {
    hide LockOk, OrderOk, PromisesOk, FileOk, ShutdownOk, WakeOk, Contents, Reuses;
    var s := After(producers, file, before).value;
    Always(producers, file, before);
    assert (before + [Answer])[..|before + [Answer]| - 1] == before;
    BufferKeptThroughout(producers, file, before + [Answer], more, s.worker.req.data);
    AnswerLeaves(s);
  }

  lemma AnswerLeaves(s: State)
    requires Enabled(s, Answer)
    ensures s.worker.req.data !in Next(s, Answer).lent
    ensures Bytes(Next(s, Answer).memory, s.worker.req.data) == Bytes(s.memory, s.worker.req.data)
  {
  }

  // ----- progress -----

  /** Steps that begin something new, or that nothing obliges a thread to take. */
  predicate Optional(step: Step) {
    step.StartPut? || step.WakeForNothing? || step.Touch?
  }

  function ProducerWork(w: Producer): nat {
    match w
    case Calling(_) => 13
    case Holding(_) => 12
    case Emplaced(_) => 5
    case Unlocked(_) => 4
    case Joining => 1
    case _ => 0
  }

  function WorkerWork(w: Worker): nat {
    match w
    case Popped(_) => 5
    case Executing(_) => 4
    case Answering(_) => 3
    case Starting => 2
    case Woken => 2
    case Checking => 1
    case _ => 0
  }

  function ProducersWork(ws: seq<Producer>): nat {
    if ws == [] then 0 else ProducerWork(ws[0]) + ProducersWork(ws[1..])
  }

  /** How many steps are left to take when nothing new begins, at the most. */
  function Work(s: State): nat {
    ProducersWork(s.producers) + 6 * |s.queue| + WorkerWork(s.worker)
  }

  lemma {:induction false} OneProducerMoves(ws: seq<Producer>, p: nat, w: Producer)
    requires p < |ws|
    ensures ProducersWork(ws[p := w]) == ProducersWork(ws) - ProducerWork(ws[p]) + ProducerWork(w)
  {
    if p == 0 {
      assert ws[p := w][1..] == ws[1..];
    } else {
      assert ws[p := w][1..] == ws[1..][p - 1 := w];
      OneProducerMoves(ws[1..], p - 1, w);
    }
  }

  lemma EveryStepSpends(s: State, step: Step)
    requires Enabled(s, step) && !Optional(step)
    ensures Work(Next(s, step)) < Work(s)
  {
    hide Work;
    if step.Acquire? || step.Emplace? || step.Release? || step.Notify? {
      ProducerStepSpends(s, step);
    } else {
      WorkerStepSpends(s, step);
    }
  }

  lemma ProducerStepSpends(s: State, step: Step)
    requires Enabled(s, step) && (step.Acquire? || step.Emplace? || step.Release? || step.Notify?)
    ensures Work(Next(s, step)) < Work(s)
  {
    hide ProducersWork;
    OneProducerMoves(s.producers, step.p, Next(s, step).producers[step.p]);
  }

  lemma WorkerStepSpends(s: State, step: Step)
    requires Enabled(s, step) && !Optional(step)
    requires !step.Acquire? && !step.Emplace? && !step.Release? && !step.Notify?
    ensures Work(Next(s, step)) < Work(s)
  {
    hide ProducersWork, Reaching, Writing, Bytes, PageAt;
    if step.Join? { OneProducerMoves(s.producers, OWNER, Joined); }
  }

  /** A run in which nothing new begins and nobody wakes up for nothing ends soon. */
  lemma {:induction false} QuietRunsEnd(producers: nat, file: seq<Page>, steps: seq<Step>, more: seq<Step>)
    requires producers > OWNER && After(producers, file, steps + more).Some?
    requires forall i :: 0 <= i < |more| ==> !Optional(more[i])
    ensures After(producers, file, steps).Some?
    ensures Work(After(producers, file, steps + more).value) + |more| <= Work(After(producers, file, steps).value)
  {
    if more == [] {
      assert steps + more == steps;
    } else {
      var fewer, last := more[..|more| - 1], more[|more| - 1];
      assert (steps + more)[..|steps + more| - 1] == steps + fewer;
      QuietRunsEnd(producers, file, steps, fewer);
      EveryStepSpends(After(producers, file, steps + fewer).value, last);
    }
  }

  /** Where no thread can go on, no thread is in the middle of a put, and nothing the worker should do is left. */
  ghost predicate AtRest(s: State) {
    && (forall p :: 0 <= p < |s.producers| ==> s.producers[p].Idle? || s.producers[p].Joined?)
    && (s.worker.Exited? || (s.worker.Asleep? && s.queue == [] && s.puts == s.executed))
    && (ShutdownPut(s) ==> s.worker.Exited? && OWNER < |s.producers| && s.producers[OWNER].Joined?)
  }

  /** There is no deadlock: in a reachable state some thread can go on, or everything is at rest. */
  lemma NoDeadlock(producers: nat, file: seq<Page>, steps: seq<Step>) returns (step: Step)
    requires producers > OWNER && After(producers, file, steps).Some?
    ensures var s := After(producers, file, steps).value;
            (!Optional(step) && Enabled(s, step)) || AtRest(s)
  {
    Always(producers, file, steps);
    var s := After(producers, file, steps).value;
    if s.lock.ByWorker? {
      step := if s.worker.Checking? then Check else WorkerRelease;
    } else if s.lock.ByProducer? {
      step := if s.producers[s.lock.p].Holding? then Emplace(s.lock.p) else Release(s.lock.p);
    } else if p :| 0 <= p < |s.producers| && s.producers[p].Calling? {
      step := Acquire(p);
    } else if p :| 0 <= p < |s.producers| && s.producers[p].Unlocked? {
      step := Notify(p);
    } else {
      step := WorkerGoesOn(s, file);
    }
  }

  /** With the lock free and no put under way, it is the worker's turn, or the destructor's, or nobody's. */
  lemma WorkerGoesOn(s: State, file: seq<Page>) returns (step: Step)
    requires Inv(s, file) && s.lock.Free?
    requires forall p :: 0 <= p < |s.producers| ==> !s.producers[p].Calling? && !s.producers[p].Unlocked?
    ensures (!Optional(step) && Enabled(s, step)) || AtRest(s)
  {
    step := WorkerAcquire;
    match s.worker
    case Executing(_) => step := Execute;
    case Answering(_) => step := Answer;
    case Asleep => assert s.puts == s.executed;
    case Exited(_) =>
      step := Join;
      assert s.puts[|s.executed|] == s.worker.req;
    case _ =>
  }
}
