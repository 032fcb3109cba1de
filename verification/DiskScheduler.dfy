/**
 The request channel and the disk worker as a transition system.

 Any number of threads put requests; one worker takes them out and executes them.  Each step is one
 atomic action of one thread: the queue changes only under the lock, a put releases the lock before it
 notifies, and waiting on the condition variable releases the lock and goes to sleep in one step.
 */
module DiskScheduler {
  import opened Pages
  import opened DiskManagerMock

  datatype Kind = WriteRequest | ReadRequest | ShutdownRequest

  /**
     A request names a buffer of its client by address.  `promise` tells the promises apart, and `bytes`
     records what the buffer held when the request was made; the worker looks at neither.
   */
  datatype Request = Request(kind: Kind, data: int, pageId: int, promise: nat, bytes: Page)

  /** Where a thread is in `put`, or in the destructor after its put. */
  datatype Producer =
    | Idle
    | Calling(req: Request)
    | Holding(req: Request)
    | Emplaced(req: Request)
    | Unlocked(req: Request)
    | Joining
    | Joined

  datatype Worker =
    | Starting
    | Checking
    | Asleep
    | Woken
    | Popped(req: Request)
    | Executing(req: Request)
    | Answering(req: Request)
    | Exited(req: Request)

  datatype Lock = Free | ByWorker | ByProducer(p: nat)

  /** The thread that destroys the scheduler. */
  const OWNER: nat := 0

  /**
     `lent` maps the buffers named by requests without an answer to the promise each will be answered by.
     The last four fields are the history: requests in the order they entered the queue, requests whose
     page access is over, promises that were set, and the buffer contents at that moment.
   */
  datatype State = State(
    lock: Lock,
    queue: seq<Request>,
    producers: seq<Producer>,
    worker: Worker,
    memory: map<int, Page>,
    file: seq<Page>,
    lent: map<int, nat>,
    promises: nat,
    puts: seq<Request>,
    executed: seq<Request>,
    answered: seq<nat>,
    delivered: seq<Page>)

  function Initial(producers: nat, file: seq<Page>): State
    requires producers > OWNER
  {
    State(Free, [], Copies(Idle, producers), Starting, map[], file, map[], 0, [], [], [], [])
  }

  function Bytes(memory: map<int, Page>, data: int): Page {
    if data in memory then memory[data] else BLANK
  }

  datatype Step =
    | StartPut(p: nat, kind: Kind, data: int, pageId: int)
    | Acquire(p: nat)
    | Emplace(p: nat)
    | Release(p: nat)
    | Notify(p: nat)
    | Join
    | WorkerAcquire
    | Check
    | WorkerRelease
    | Execute
    | Answer
    | WakeForNothing
    | Touch(data: int, bytes: Page)

  /**
     What the clients keep to is in StartPut and Touch: a buffer is not reused or written to before the
     request that names it is answered, a page lies at most one growth step past the end of the file, and
     only the owner asks for the shutdown, in the destructor.
   */
  predicate Enabled(s: State, step: Step) {
    match step
    case StartPut(p, kind, data, pageId) =>
      && p < |s.producers| && s.producers[p].Idle?
      && if kind.ShutdownRequest? then p == OWNER else data !in s.lent && pageId < |s.file| + GROWTH
    case Acquire(p) => p < |s.producers| && s.producers[p].Calling? && s.lock.Free?
    case Emplace(p) => p < |s.producers| && s.producers[p].Holding?
    case Release(p) => p < |s.producers| && s.producers[p].Emplaced?
    case Notify(p) => p < |s.producers| && s.producers[p].Unlocked?
    case Join => OWNER < |s.producers| && s.producers[OWNER].Joining? && s.worker.Exited?
    case WorkerAcquire => (s.worker.Starting? || s.worker.Woken?) && s.lock.Free?
    case Check => s.worker.Checking?
    case WorkerRelease => s.worker.Popped?
    case Execute => s.worker.Executing? && (s.worker.req.kind.ShutdownRequest? || s.worker.req.pageId < |s.file| + GROWTH)
    case Answer => s.worker.Answering?
    case WakeForNothing => s.worker.Asleep?
    case Touch(data, _) => data !in s.lent
  }

  function Next(s: State, step: Step): State
    requires Enabled(s, step)
  {
    match step
    case StartPut(p, kind, data, pageId) =>
      var req := Request(kind, data, pageId, s.promises, Bytes(s.memory, data));
      s.(producers := s.producers[p := Calling(req)],
         promises := s.promises + 1,
         lent := if kind.ShutdownRequest? then s.lent else s.lent[data := s.promises])
    case Acquire(p) =>
      s.(producers := s.producers[p := Holding(s.producers[p].req)], lock := ByProducer(p))
    case Emplace(p) =>
      var req := s.producers[p].req;
      s.(producers := s.producers[p := Emplaced(req)], queue := s.queue + [req], puts := s.puts + [req])
    case Release(p) =>
      s.(producers := s.producers[p := Unlocked(s.producers[p].req)], lock := Free)
    case Notify(p) =>
      s.(producers := s.producers[p := if s.producers[p].req.kind.ShutdownRequest? then Joining else Idle],
         worker := if s.worker.Asleep? then Woken else s.worker)
    case Join =>
      s.(producers := s.producers[OWNER := Joined])
    case WorkerAcquire =>
      s.(worker := Checking, lock := ByWorker)
    case Check =>
      if s.queue == [] then s.(worker := Asleep, lock := Free)
      else s.(worker := Popped(s.queue[0]), queue := s.queue[1..])
    case WorkerRelease =>
      s.(worker := Executing(s.worker.req), lock := Free)
    case Execute =>
      Executed(s)
    case Answer =>
      var req := s.worker.req;
      s.(worker := Starting, lent := s.lent - {req.data},
         answered := s.answered + [req.promise], delivered := s.delivered + [Bytes(s.memory, req.data)])
    case WakeForNothing =>
      s.(worker := Woken)
    case Touch(data, bytes) =>
      s.(memory := s.memory[data := bytes])
  }

  /** The worker acts on the request it took: a page access, or the end of its loop. */
  function Executed(s: State): State
    requires Enabled(s, Execute)
  {
    var req := s.worker.req;
    match req.kind
    case ReadRequest =>
      s.(worker := Answering(req), executed := s.executed + [req], file := Reaching(s.file, req.pageId),
         memory := if req.pageId < 0 then s.memory else s.memory[req.data := PageAt(s.file, req.pageId)])
    case WriteRequest =>
      s.(worker := Answering(req), executed := s.executed + [req],
         file := Writing(s.file, req.pageId, Bytes(s.memory, req.data)))
    case ShutdownRequest =>
      s.(worker := Exited(req))
  }

  /** The state after a run of steps, if each of them could be taken. */
  function After(producers: nat, file: seq<Page>, steps: seq<Step>): (r: Option<State>)
    requires producers > OWNER
  {
    if steps == [] then Some(Initial(producers, file))
    else
      var before := After(producers, file, steps[..|steps| - 1]);
      var last := steps[|steps| - 1];
      if before.Some? && Enabled(before.value, last) then Some(Next(before.value, last)) else None
  }

  // ----- what the requests mean, taken in order -----

  /** The bytes of a page once the requests have been executed one after the other. */
  function Contents(file: seq<Page>, reqs: seq<Request>, id: int): Page {
    if reqs == [] then PageAt(file, id)
    else
      var last := reqs[|reqs| - 1];
      if last.kind.WriteRequest? && last.pageId == id && id >= 0 then last.bytes
      else Contents(file, reqs[..|reqs| - 1], id)
  }

  function Promises(reqs: seq<Request>): (r: seq<nat>)
    ensures |r| == |reqs| && forall i :: 0 <= i < |r| ==> r[i] == reqs[i].promise
  {
    if reqs == [] then [] else [reqs[0].promise] + Promises(reqs[1..])
  }
}
