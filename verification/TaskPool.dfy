/**
 The background task pool: one dispatcher and a fixed set of worker threads.  Each worker reads its own
 signalled queue and all workers write to one response queue.  A step is one atomic action of one thread,
 down to the single lock operations of the task queues, and every interleaving is a schedule.
 */
module TaskPool {
  import opened Collections
  import opened Wrappers
  import Q = SignalledQueue

  /** A function together with its arguments, and what it may return. */
  type Call(!new)
  type Value(!new)

  /** What a call does when it runs.  A raised exception leaves its (never empty) traceback text. */
  datatype Outcome = Returned(value: Value) | Raised(traceback: string)

  datatype Task = Task(call: Call, returnValue: Option<Value>, traceback: Option<string>)
  {
    predicate HasRun() {
      returnValue.Some? || traceback.Some?
    }
  }

  datatype Message = Run(taskId: nat) | StopProcessing

  datatype Response = Booted(worker: nat) | Completed(worker: nat, taskId: nat)

  datatype Phase = NotStarted | Bootstrapping | Getting | Executing(taskId: nat) | Responding(taskId: nat) | Stopped

  /** taskId is history: the last task posted to this worker. */
  datatype Worker = Worker(phase: Phase, queue: Q.Queue<Message>, taskId: nat)

  /** Where the dispatcher is.  Crashed stands for any failed assertion or lookup of the source. */
  datatype Dispatcher =
    | Starting(next: nat)          // creating thread number next
    | AwaitingBoot(received: nat)
    | Looping                      // at the head of the main loop
    | Signalling(worker: nat)      // in StartTask: appended to a task queue, lock not yet released
    | Stopping(next: nat)
    | StopSignalling(worker: nat)
    | Joining(next: nat)
    | Finished
    | Crashed

  datatype ErrorMessage = ErrorMessage(call: Call, traceback: string)

  /** One execution of a task by a worker. */
  datatype Execution = Execution(taskId: nat, call: Call, outcome: Outcome)

  datatype Config = Config(calls: seq<Call>, maxConcurrency: int)
  {
    /** The effective concurrency; also the number of worker threads when it is not negative. */
    function Limit(): int {
      if maxConcurrency < |calls| then maxConcurrency else |calls|
    }

    function Workers(): nat {
      if Limit() < 0 then 0 else Limit()
    }
  }

  datatype State = State(
    dispatcher: Dispatcher,
    workers: seq<Worker>,
    responses: seq<Response>,
    uninitialized: set<nat>,
    available: seq<nat>,
    tasks: seq<Task>,
    started: nat,
    active: int,
    errors: seq<ErrorMessage>,
    awaited: seq<nat>,               // history: the task ids AwaitAnyTask has returned
    log: seq<Execution>)       // history: every execution, in order

  function WorkerIds(n: nat): seq<nat> {
    seq(n, w => w)
  }

  function WorkerIdSet(n: nat): (ids: set<nat>)
    ensures |ids| == n && forall w: nat :: w in ids <==> w < n
  {
    if n == 0 then {} else WorkerIdSet(n - 1) + {n - 1}
  }

  function Init(c: Config): State {
    State(Starting(0), seq(c.Workers(), _ => Worker(NotStarted, Q.Empty(), 0)), [],
          WorkerIdSet(c.Workers()), WorkerIds(c.Workers()), [], 0, 0, [], [], [])
  }

  datatype Step =
    | Dispatch                                        // the dispatcher's next action
    | Boot(worker: nat)                               // a worker announces that it is up
    | Receive(worker: nat, step: Q.Step<Message>)     // one atomic step of a worker's Get
    | Execute(worker: nat, outcome: Outcome)
    | Respond(worker: nat)

  predicate DispatchEnabled(c: Config, s: State) {
    match s.dispatcher
    case Starting(_) => true
    case AwaitingBoot(k) => k < c.Workers() ==> s.responses != []
    case Looping =>
      MayStart(c, s) || s.responses != [] || !(s.started < |c.calls| || s.active != 0)
    case Signalling(w) => true
    case Stopping(w) => true
    case StopSignalling(w) => true
    case Joining(w) => w < c.Workers() && w < |s.workers| ==> s.workers[w].phase.Stopped?
    case Finished => false
    case Crashed => false
  }

  predicate MayStart(c: Config, s: State) {
    s.started < |c.calls| && s.active < c.Limit()
  }

  predicate Enabled(c: Config, s: State, step: Step) {
    match step
    case Dispatch => DispatchEnabled(c, s)
    case Boot(w) => w < |s.workers| && s.workers[w].phase.Bootstrapping?
    case Receive(w, st) =>
      w < |s.workers| && s.workers[w].phase.Getting? && st.ByReader() && Q.Enabled(s.workers[w].queue, st)
    case Execute(w, o) =>
      && w < |s.workers| && s.workers[w].phase.Executing? && s.workers[w].phase.taskId < |s.tasks|
      && (o.Raised? ==> o.traceback != "")
    case Respond(w) => w < |s.workers| && s.workers[w].phase.Responding?
  }

  function Next(c: Config, s: State, step: Step): State
    requires Enabled(c, s, step)
  {
    match step
    case Dispatch => Dispatched(c, s)
    case Boot(w) =>
      s.(workers := s.workers[w := s.workers[w].(phase := Getting)], responses := s.responses + [Booted(w)])
    case Receive(w, st) =>
      s.(workers := s.workers[w := Received(s.workers[w], st)])
    case Execute(w, o) =>
      var id := s.workers[w].phase.taskId;
      s.(workers := s.workers[w := s.workers[w].(phase := Responding(id))],
         tasks := s.tasks[id := Ran(s.tasks[id], o)],
         log := s.log + [Execution(id, s.tasks[id].call, o)])
    case Respond(w) =>
      s.(workers := s.workers[w := s.workers[w].(phase := Getting)],
         responses := s.responses + [Completed(w, s.workers[w].phase.taskId)])
  }

  /** A worker's queue after one reader step; when that step ends the Get, the worker acts on the message. */
  function Received(worker: Worker, st: Q.Step<Message>): Worker
    requires st.ByReader() && Q.Enabled(worker.queue, st)
  {
    var q := Q.Next(worker.queue, st);
    if q.reader.Outside? then
      match q.returned[|q.returned| - 1]
      case Run(id) => worker.(phase := Executing(id), queue := q)
      case StopProcessing => worker.(phase := Stopped, queue := q)
    else worker.(queue := q)
  }

  function Ran(task: Task, outcome: Outcome): Task {
    match outcome
    case Returned(v) => task.(returnValue := Some(v))
    case Raised(tb) => task.(traceback := Some(tb))
  }

  function Dispatched(c: Config, s: State): State
    requires DispatchEnabled(c, s)
  {
    match s.dispatcher
    case Starting(k) =>
      if k < |s.workers| then
        s.(dispatcher := Starting(k + 1), workers := s.workers[k := s.workers[k].(phase := Bootstrapping)])
      else s.(dispatcher := AwaitingBoot(0))
    case AwaitingBoot(k) =>
      if k < c.Workers() then
        var r := s.responses[0];
        if r.Booted? && r.worker in s.uninitialized then
          s.(dispatcher := AwaitingBoot(k + 1), responses := s.responses[1..],
             uninitialized := s.uninitialized - {r.worker})
        else s.(dispatcher := Crashed)
      else s.(dispatcher := if s.uninitialized == {} then Looping else Crashed)
    case Looping =>
      if MayStart(c, s) then StartTask(c, s)
      else if s.started < |c.calls| || s.active != 0 then AwaitAnyTask(s)
      else s.(dispatcher := Stopping(0))
    case Signalling(w) =>
      Signal(s, w).(dispatcher := Looping, started := s.started + 1, active := s.active + 1)
    case Stopping(w) =>
      if w < c.Workers() then Post(s, w, StopProcessing).(dispatcher := StopSignalling(w))
      else s.(dispatcher := Joining(0))
    case StopSignalling(w) => Signal(s, w).(dispatcher := Stopping(w + 1))
    case Joining(w) => s.(dispatcher := if w < c.Workers() then Joining(w + 1) else Finished)
  }

  function StartTask(c: Config, s: State): State
    requires MayStart(c, s)
  {
    if s.available == [] then s.(dispatcher := Crashed)
    else
      var w := s.available[|s.available| - 1];
      Post(s, w, Run(|s.tasks|)).(dispatcher := Signalling(w), available := s.available[..|s.available| - 1],
        tasks := s.tasks + [Task(c.calls[s.started], None, None)])
  }

  function AwaitAnyTask(s: State): State
    requires s.responses != []
  {
    var r := s.responses[0];
    if r.Booted? || |s.tasks| <= r.taskId then s.(dispatcher := Crashed)
    else
      s.(responses := s.responses[1..], available := s.available + [r.worker], active := s.active - 1,
         awaited := s.awaited + [r.taskId], errors := s.errors + Failure(s.tasks[r.taskId]))
  }

  function Failure(task: Task): seq<ErrorMessage> {
    if task.traceback.Some? && task.traceback.value != "" then [ErrorMessage(task.call, task.traceback.value)] else []
  }

  /** The first half of Put on a task queue.  The dispatcher is writer 0 of every task queue. */
  function Post(s: State, w: nat, m: Message): State {
    if w < |s.workers| && Q.Enabled(s.workers[w].queue, Q.Append(0, m)) then
      s.(workers := s.workers[w := s.workers[w].(queue := Q.Next(s.workers[w].queue, Q.Append(0, m)),
           taskId := if m.Run? then m.taskId else s.workers[w].taskId)])
    else s
  }

  function Signal(s: State, w: nat): State {
    if w < |s.workers| && Q.Enabled(s.workers[w].queue, Q.Signal(0)) then
      s.(workers := s.workers[w := s.workers[w].(queue := Q.Next(s.workers[w].queue, Q.Signal(0)))])
    else s
  }

  // ---------------------------------------------------------------------------------------------
  // The invariant

  /** The sets of writers that have appended to w's task queue and not yet released its lock. */
  function PendingSignals(d: Dispatcher, w: nat): set<nat> {
    if (d.Signalling? || d.StopSignalling?) && d.worker == w then {0} else {}
  }

  ghost predicate NoResponse(s: State, w: nat) {
    forall r :: r in s.responses ==> r.worker != w
  }

  ghost predicate IsIdle(s: State, w: nat)
    requires w < |s.workers|
  {
    s.workers[w].phase.Getting? && s.workers[w].queue.Mail() == [] && NoResponse(s, w)
  }

  /** A worker thread that has been started but whose start-up response has not been read. */
  ghost predicate IsBooting(s: State, w: nat)
    requires w < |s.workers|
  {
    var worker := s.workers[w];
    && worker.queue.Mail() == []
    && ((worker.phase.Bootstrapping? && NoResponse(s, w)) || (worker.phase.Getting? && Booted(w) in s.responses))
  }

  /** The three stages of a task that is with worker w: queued, running, response pending. */
  ghost predicate IsQueued(s: State, w: nat)
    requires w < |s.workers| && s.workers[w].taskId < |s.tasks|
  {
    var worker := s.workers[w];
    && worker.phase.Getting? && worker.queue.Mail() == [Run(worker.taskId)]
    && NoResponse(s, w) && !s.tasks[worker.taskId].HasRun()
  }

  ghost predicate IsRunning(s: State, w: nat)
    requires w < |s.workers| && s.workers[w].taskId < |s.tasks|
  {
    var worker := s.workers[w];
    && worker.phase == Executing(worker.taskId) && worker.queue.Mail() == []
    && NoResponse(s, w) && !s.tasks[worker.taskId].HasRun()
  }

  ghost predicate IsResponsePending(s: State, w: nat)
    requires w < |s.workers| && s.workers[w].taskId < |s.tasks|
  {
    var worker := s.workers[w];
    && worker.queue.Mail() == [] && s.tasks[worker.taskId].HasRun()
    && (|| (worker.phase == Responding(worker.taskId) && NoResponse(s, w))
        || (worker.phase.Getting? && Completed(w, worker.taskId) in s.responses))
  }

  ghost predicate IsBusy(s: State, w: nat)
    requires w < |s.workers|
  {
    && s.workers[w].taskId < |s.tasks|
    && s.workers[w].taskId !in s.awaited
    && (IsQueued(s, w) || IsRunning(s, w) || IsResponsePending(s, w))
  }

  ghost predicate IsTold(s: State, w: nat)
    requires w < |s.workers|
  {
    var worker := s.workers[w];
    && NoResponse(s, w)
    && (|| (worker.phase.Getting? && worker.queue.Mail() == [StopProcessing])
        || (worker.phase.Stopped? && worker.queue.Mail() == []))
  }

  ghost predicate RoleOk(s: State, w: nat)
    requires w < |s.workers|
  {
    match s.dispatcher
    case Starting(k) =>
      w in s.uninitialized &&
      if w < k then IsBooting(s, w) else s.workers[w] == Worker(NotStarted, Q.Empty(), 0) && NoResponse(s, w)
    case AwaitingBoot(_) => if w in s.uninitialized then IsBooting(s, w) else IsIdle(s, w)
    case Looping => if w in s.available then IsIdle(s, w) else IsBusy(s, w)
    case Signalling(x) =>
      (if w in s.available then IsIdle(s, w) else IsBusy(s, w)) && (w == x ==> w !in s.available)
    case Stopping(k) => if w < k then IsTold(s, w) else IsIdle(s, w)
    case StopSignalling(k) => if w <= k then IsTold(s, w) else IsIdle(s, w)
    case Joining(k) => IsTold(s, w) && (w < k ==> s.workers[w].phase.Stopped?)
    case Finished => IsTold(s, w) && s.workers[w].phase.Stopped?
    case Crashed => false
  }

  ghost predicate WorkerOk(s: State, w: nat)
    requires w < |s.workers|
  {
    var worker := s.workers[w];
    && Q.Inv(worker.queue)
    && worker.queue.unsignalled == PendingSignals(s.dispatcher, w)
    && (!worker.phase.Getting? ==> worker.queue.reader.Outside?)
    && RoleOk(s, w)
  }

  ghost predicate WorkersOk(c: Config, s: State) {
    && |s.workers| == c.Workers()
    && (forall w: nat :: w < |s.workers| ==> WorkerOk(s, w))
    && (forall v: nat, w: nat :: v < w < |s.workers| && v !in s.available && w !in s.available
          ==> s.workers[v].taskId != s.workers[w].taskId)
  }

  /** How far the dispatcher has got, and what follows for the lists of its own. */
  ghost predicate DispatcherOk(c: Config, s: State) {
    match s.dispatcher
    case Starting(k) => k <= c.Workers() && |s.uninitialized| == c.Workers() && s.tasks == []
    case AwaitingBoot(k) => k <= c.Workers() && |s.uninitialized| == c.Workers() - k && s.tasks == []
    case Looping => s.uninitialized == {}
    case Signalling(w) => w < c.Workers() && s.uninitialized == {}
    case Stopping(k) => k <= c.Workers() && AllDone(c, s)
    case StopSignalling(k) => k < c.Workers() && AllDone(c, s)
    case Joining(k) => k <= c.Workers() && AllDone(c, s)
    case Finished => AllDone(c, s)
    case Crashed => false
  }

  ghost predicate AllDone(c: Config, s: State) {
    |s.tasks| == |c.calls| && s.active == 0
  }

  ghost predicate CountsOk(c: Config, s: State) {
    var starting := if s.dispatcher.Signalling? then 1 else 0;
    && s.started + starting == |s.tasks| <= |c.calls|
    && s.active + starting == |s.tasks| - |s.awaited|
    && |s.available| + |s.tasks| == c.Workers() + |s.awaited|
  }

  ghost predicate ListsOk(c: Config, s: State) {
    && Distinct(s.available) && (forall w :: w in s.available ==> w < c.Workers())
    && Distinct(s.awaited) && (forall id :: id in s.awaited ==> id < |s.tasks| && s.tasks[id].HasRun())
    && (forall w :: w in s.uninitialized ==> w < c.Workers())
    && (forall i, j :: 0 <= i < j < |s.responses| ==> s.responses[i].worker != s.responses[j].worker)
    && (forall r :: r in s.responses ==> (
          && r.worker < c.Workers()
          && (r.Booted? <==> s.dispatcher.Starting? || s.dispatcher.AwaitingBoot?)))
  }

  function Failures(tasks: seq<Task>, ids: seq<nat>): seq<ErrorMessage>
    requires forall j :: 0 <= j < |ids| ==> ids[j] < |tasks|
  {
    if ids == [] then []
    else Failures(tasks, ids[..|ids| - 1]) + Failure(tasks[ids[|ids| - 1]])
  }

  ghost predicate Matches(task: Task, outcome: Outcome) {
    match outcome
    case Returned(v) => task.returnValue == Some(v) && task.traceback == None
    case Raised(tb) => task.returnValue == None && task.traceback == Some(tb) && tb != ""
  }

  ghost predicate EntryOk(c: Config, s: State, e: Execution) {
    && e.taskId < |s.tasks| && e.taskId < |c.calls|
    && e.call == c.calls[e.taskId]
    && Matches(s.tasks[e.taskId], e.outcome)
  }

  /** The log has one entry for each task that has run, and the task holds the outcome of that run. */
  ghost predicate RecordsOk(c: Config, s: State) {
    && |s.tasks| <= |c.calls|
    && (forall i :: 0 <= i < |s.tasks| ==> s.tasks[i].call == c.calls[i])
    && (forall i, j :: 0 <= i < j < |s.log| ==> s.log[i].taskId != s.log[j].taskId)
    && (forall j :: 0 <= j < |s.log| ==> EntryOk(c, s, s.log[j]))
    && (forall i :: 0 <= i < |s.tasks| && s.tasks[i].HasRun() ==> exists j :: 0 <= j < |s.log| && s.log[j].taskId == i)
    && (forall j :: 0 <= j < |s.awaited| ==> s.awaited[j] < |s.tasks|)
    && s.errors == Failures(s.tasks, s.awaited)
  }

  ghost predicate Inv(c: Config, s: State) {
    WorkersOk(c, s) && DispatcherOk(c, s) && CountsOk(c, s) && ListsOk(c, s) && RecordsOk(c, s)
  }

  lemma InitInv(c: Config)
    ensures Inv(c, Init(c))
  {
    var s := Init(c);
    forall w: nat | w < |s.workers| ensures WorkerOk(s, w) {
      assert Q.Inv(s.workers[w].queue);
    }
    forall w: nat | w < c.Workers() ensures w in s.available {
      assert s.available[w] == w;
    }
  }

  lemma FailuresFrame(tasks: seq<Task>, tasks': seq<Task>, ids: seq<nat>)
    requires forall j :: 0 <= j < |ids| ==> ids[j] < |tasks| && ids[j] < |tasks'| && tasks[ids[j]] == tasks'[ids[j]]
    ensures Failures(tasks, ids) == Failures(tasks', ids)
  {
  }

  /** s' differs from s in worker w, in a response from w, and in the task with w; other workers see no change. */
  ghost predicate OnlyWorker(s: State, s': State, w: nat) {
    && w < |s.workers| == |s'.workers|
    && (forall v :: 0 <= v < |s.workers| && v != w ==> s'.workers[v] == s.workers[v])
    && s'.workers[w].taskId == s.workers[w].taskId
    && s' == s.(workers := s'.workers, responses := s'.responses, tasks := s'.tasks, log := s'.log)
    && |s.responses| <= |s'.responses| && s'.responses[..|s.responses|] == s.responses
    && (forall j :: |s.responses| <= j < |s'.responses| ==> s'.responses[j].worker == w)
    && |s.tasks| == |s'.tasks|
    && (forall id :: 0 <= id < |s.tasks| && id != s.workers[w].taskId ==> s'.tasks[id] == s.tasks[id])
  }

  lemma OtherWorkerOk(s: State, s': State, w: nat, v: nat)
    requires OnlyWorker(s, s', w) && v < |s.workers| && v != w && WorkerOk(s, v)
    requires v !in s.available && s.tasks != s'.tasks ==> s.workers[v].taskId != s.workers[w].taskId
    ensures WorkerOk(s', v)
  {
    forall r | r in s'.responses ensures r in s.responses || r.worker == w {
      var j :| 0 <= j < |s'.responses| && s'.responses[j] == r;
      if j < |s.responses| { assert s'.responses[..|s.responses|][j] == r; }
    }
    assert forall r :: r in s.responses ==> r in s'.responses by {
      assert s'.responses == s.responses + s'.responses[|s.responses|..];
    }
  }

  lemma WorkersStep(c: Config, s: State, s': State, w: nat)
    requires WorkersOk(c, s) && OnlyWorker(s, s', w) && WorkerOk(s', w)
    requires s.tasks != s'.tasks ==> w !in s.available
    ensures WorkersOk(c, s')
  {
    forall v: nat | v < |s'.workers| && v != w ensures WorkerOk(s', v) {
      OtherWorkerOk(s, s', w, v);
    }
  }

  lemma BootInv(c: Config, s: State, w: nat)
    requires Inv(c, s) && Enabled(c, s, Boot(w))
    ensures Inv(c, Next(c, s, Boot(w)))
  {
    var s' := Next(c, s, Step.Boot(w));
    BootedWorker(s, w);
    WorkersStep(c, s, s', w);
    ResponseAdded(c, s, s', Booted(w));
  }

  /** The dispatcher's lists and the records when only a worker and the response queue have changed. */
  lemma ResponseAdded(c: Config, s: State, s': State, r: Response)
    requires ListsOk(c, s) && RecordsOk(c, s) && NoResponse(s, r.worker) && r.worker < c.Workers()
    requires r.Booted? <==> s.dispatcher.Starting? || s.dispatcher.AwaitingBoot?
    requires s' == s.(workers := s'.workers, responses := s.responses + [r])
    ensures ListsOk(c, s') && RecordsOk(c, s')
  {
    forall i, j | 0 <= i < j < |s'.responses| ensures s'.responses[i].worker != s'.responses[j].worker {
      if j == |s.responses| { assert s.responses[i] in s.responses; }
    }
    RecordsFrame(c, s, s');
  }

  lemma RecordsFrame(c: Config, s: State, s': State)
    requires RecordsOk(c, s)
    requires s'.tasks == s.tasks && s'.log == s.log && s'.awaited == s.awaited && s'.errors == s.errors
    ensures RecordsOk(c, s')
  {
    forall j | 0 <= j < |s'.log| ensures EntryOk(c, s', s'.log[j]) {
      assert EntryOk(c, s, s.log[j]);
    }
  }

  lemma BootedWorker(s: State, w: nat)
    requires w < |s.workers| && WorkerOk(s, w) && s.workers[w].phase.Bootstrapping?
    ensures s.dispatcher.Starting? || s.dispatcher.AwaitingBoot?
    ensures NoResponse(s, w)
    ensures WorkerOk(s.(workers := s.workers[w := s.workers[w].(phase := Getting)],
                        responses := s.responses + [Booted(w)]), w)
  {
  }

  lemma RespondInv(c: Config, s: State, w: nat)
    requires Inv(c, s) && Enabled(c, s, Respond(w))
    ensures Inv(c, Next(c, s, Respond(w)))
  {
    var s' := Next(c, s, Step.Respond(w));
    RespondedWorker(s, w);
    WorkersStep(c, s, s', w);
    ResponseAdded(c, s, s', Completed(w, s.workers[w].phase.taskId));
  }

  lemma RespondedWorker(s: State, w: nat)
    requires w < |s.workers| && WorkerOk(s, w) && s.workers[w].phase.Responding?
    ensures s.dispatcher.Looping? || s.dispatcher.Signalling?
    ensures NoResponse(s, w)
    ensures WorkerOk(s.(workers := s.workers[w := s.workers[w].(phase := Getting)],
                        responses := s.responses + [Completed(w, s.workers[w].phase.taskId)]), w)
  {
    assert IsBusy(s, w) && IsResponsePending(s, w) && NoResponse(s, w);
  }

  /** A reader step either leaves the mail alone, or ends the Get and acts on the first piece of mail. */
  lemma ReceivedMail(worker: Worker, st: Q.Step<Message>)
    requires worker.phase.Getting? && Q.Inv(worker.queue) && st.ByReader() && Q.Enabled(worker.queue, st)
    ensures Q.Inv(Received(worker, st).queue)
    ensures Received(worker, st).queue.unsignalled == worker.queue.unsignalled
    ensures Received(worker, st).taskId == worker.taskId
    ensures var worker' := Received(worker, st);
      || (worker'.phase.Getting? && worker'.queue.Mail() == worker.queue.Mail())
      || (&& worker.queue.Mail() != [] && worker'.queue.Mail() == worker.queue.Mail()[1..]
          && worker'.queue.reader.Outside?
          && worker'.phase == match worker.queue.Mail()[0] case Run(id) => Executing(id) case StopProcessing => Stopped)
  {
    Q.StepKeepsInv(worker.queue, st);
  }

  lemma ReceiveInv(c: Config, s: State, w: nat, st: Q.Step<Message>)
    requires Inv(c, s) && Enabled(c, s, Receive(w, st))
    ensures Inv(c, Next(c, s, Receive(w, st)))
  {
    var s' := s.(workers := s.workers[w := Received(s.workers[w], st)]);
    ReceivingWorker(s, w, st);
    WorkersStep(c, s, s', w);
    OnlyWorkersChanged(c, s, s');
  }

  lemma OnlyWorkersChanged(c: Config, s: State, s': State)
    requires Inv(c, s) && s' == s.(workers := s'.workers) && WorkersOk(c, s')
    ensures Inv(c, s')
  {
    RecordsFrame(c, s, s');
  }

  lemma ReceivingWorker(s: State, w: nat, st: Q.Step<Message>)
    requires w < |s.workers| && WorkerOk(s, w) && s.workers[w].phase.Getting?
    requires st.ByReader() && Q.Enabled(s.workers[w].queue, st)
    ensures Received(s.workers[w], st).taskId == s.workers[w].taskId
    ensures WorkerOk(s.(workers := s.workers[w := Received(s.workers[w], st)]), w)
  {
    ReceivedMail(s.workers[w], st);
    ReceiverOk(s, w, Received(s.workers[w], st));
  }

  lemma ReceiverOk(s: State, w: nat, worker': Worker)
    requires w < |s.workers| && WorkerOk(s, w) && s.workers[w].phase.Getting?
    requires Q.Inv(worker'.queue) && worker'.taskId == s.workers[w].taskId
    requires worker'.queue.unsignalled == s.workers[w].queue.unsignalled
    requires var mail := s.workers[w].queue.Mail();
      || (worker'.phase.Getting? && worker'.queue.Mail() == mail)
      || (&& mail != [] && worker'.queue.Mail() == mail[1..] && worker'.queue.reader.Outside?
          && worker'.phase == match mail[0] case Run(id) => Executing(id) case StopProcessing => Stopped)
    ensures WorkerOk(s.(workers := s.workers[w := worker']), w)
  {
  }

  lemma ExecuteInv(c: Config, s: State, w: nat, o: Outcome)
    requires Inv(c, s) && Enabled(c, s, Execute(w, o))
    ensures Inv(c, Next(c, s, Execute(w, o)))
  {
    var s' := Next(c, s, Execute(w, o));
    ExecutingWorker(s, w, o);
    WorkersStep(c, s, s', w);
    ExecuteRecords(c, s, w, o);
    ExecuteLists(c, s, s', s.workers[w].taskId);
  }

  lemma ExecuteLists(c: Config, s: State, s': State, id: nat)
    requires ListsOk(c, s) && id !in s.awaited && |s'.tasks| == |s.tasks|
    requires s' == s.(workers := s'.workers, tasks := s'.tasks, log := s'.log)
    requires forall i :: 0 <= i < |s.tasks| && i != id ==> s'.tasks[i] == s.tasks[i]
    ensures ListsOk(c, s')
  {
  }

  lemma ExecutingWorker(s: State, w: nat, o: Outcome)
    requires w < |s.workers| && WorkerOk(s, w) && s.workers[w].phase.Executing?
    ensures w !in s.available && (s.dispatcher.Looping? || s.dispatcher.Signalling?)
    ensures s.workers[w].phase.taskId == s.workers[w].taskId < |s.tasks|
    ensures !s.tasks[s.workers[w].taskId].HasRun() && s.workers[w].taskId !in s.awaited
    ensures var id := s.workers[w].taskId;
      WorkerOk(s.(workers := s.workers[w := s.workers[w].(phase := Responding(id))],
                  tasks := s.tasks[id := Ran(s.tasks[id], o)],
                  log := s.log + [Execution(id, s.tasks[id].call, o)]), w)
  {
    assert IsBusy(s, w) && IsRunning(s, w);
  }

  lemma NotLogged(c: Config, s: State, id: nat)
    requires RecordsOk(c, s) && id < |s.tasks| && !s.tasks[id].HasRun()
    ensures forall j :: 0 <= j < |s.log| ==> s.log[j].taskId != id
  {
    forall j | 0 <= j < |s.log| ensures s.log[j].taskId != id { assert EntryOk(c, s, s.log[j]); }
  }

  lemma EveryRunLogged(s: State, s': State, id: nat)
    requires forall i :: 0 <= i < |s.tasks| && s.tasks[i].HasRun() ==>
      exists j :: 0 <= j < |s.log| && s.log[j].taskId == i
    requires |s'.tasks| == |s.tasks| && forall i :: 0 <= i < |s.tasks| && i != id ==> s'.tasks[i] == s.tasks[i]
    requires |s'.log| == |s.log| + 1 && s'.log[..|s.log|] == s.log && s'.log[|s.log|].taskId == id
    ensures forall i :: 0 <= i < |s'.tasks| && s'.tasks[i].HasRun() ==>
      exists j :: 0 <= j < |s'.log| && s'.log[j].taskId == i
  {
    forall i | 0 <= i < |s'.tasks| && s'.tasks[i].HasRun()
      ensures exists j :: 0 <= j < |s'.log| && s'.log[j].taskId == i
    {
      if i == id {
        assert s'.log[|s.log|].taskId == i;
      } else {
        var j :| 0 <= j < |s.log| && s.log[j].taskId == i;
        assert s'.log[..|s.log|][j].taskId == i;
      }
    }
  }

  lemma ExecuteRecords(c: Config, s: State, w: nat, o: Outcome)
    requires RecordsOk(c, s) && Enabled(c, s, Execute(w, o))
    requires !s.tasks[s.workers[w].phase.taskId].HasRun() && s.workers[w].phase.taskId !in s.awaited
    ensures RecordsOk(c, Next(c, s, Execute(w, o)))
  {
    var s' := Next(c, s, Execute(w, o));
    var id := s.workers[w].phase.taskId;
    FailuresFrame(s.tasks, s'.tasks, s.awaited);
    EveryRunLogged(s, s', id);
    NotLogged(c, s, id);
    forall j | 0 <= j < |s'.log| ensures EntryOk(c, s', s'.log[j]) {
      if j < |s.log| { assert EntryOk(c, s, s.log[j]); }
    }
  }

  lemma DistinctCount(xs: seq<nat>, n: nat)
    requires Distinct(xs) && forall x :: x in xs ==> x < n
    ensures |xs| <= n
    ensures |xs| == n ==> forall w: nat :: w < n ==> w in xs
    ensures |xs| < n ==> exists w: nat :: w < n && w !in xs
  {
    SubsetCount(Elements(xs), WorkerIdSet(n));
    if |xs| < n {
      if WorkerIdSet(n) <= Elements(xs) { SubsetCount(WorkerIdSet(n), Elements(xs)); }
      var w :| w in WorkerIdSet(n) && w !in Elements(xs);
      assert w < n && w !in xs;
    }
  }

  /** s' is s but for the task queue of worker w, which now holds mail and whose lock has these pending releases. */
  ghost predicate QueueChanged(s: State, s': State, w: nat, mail: seq<Message>, taskId: nat, pending: set<nat>) {
    && w < |s.workers| == |s'.workers|
    && (forall v :: 0 <= v < |s.workers| && v != w ==> s'.workers[v] == s.workers[v])
    && Q.Inv(s'.workers[w].queue)
    && s'.workers[w].queue.unsignalled == pending
    && s'.workers[w].queue.reader == s.workers[w].queue.reader
    && s'.workers[w].queue.Mail() == mail
    && s'.workers[w].taskId == taskId
    && s'.workers[w].phase == s.workers[w].phase
  }

  lemma PostEffect(s: State, w: nat, m: Message)
    requires w < |s.workers| && Q.Inv(s.workers[w].queue) && s.workers[w].queue.unsignalled == {}
    ensures Post(s, w, m) == s.(workers := Post(s, w, m).workers)
    ensures QueueChanged(s, Post(s, w, m), w, s.workers[w].queue.Mail() + [m],
                         if m.Run? then m.taskId else s.workers[w].taskId, {0})
  {
    Q.StepKeepsInv(s.workers[w].queue, Q.Append(0, m));
  }

  lemma SignalEffect(s: State, w: nat)
    requires w < |s.workers| && Q.Inv(s.workers[w].queue) && s.workers[w].queue.unsignalled == {0}
    ensures Signal(s, w) == s.(workers := Signal(s, w).workers)
    ensures QueueChanged(s, Signal(s, w), w, s.workers[w].queue.Mail(), s.workers[w].taskId, {})
  {
    Q.StepKeepsInv(s.workers[w].queue, Q.Signal(0));
  }

  lemma StartingInv(c: Config, s: State)
    requires Inv(c, s) && s.dispatcher.Starting?
    ensures Inv(c, Dispatched(c, s))
  {
    var s' := Dispatched(c, s);
    forall v: nat | v < |s'.workers| ensures WorkerOk(s', v) {
      assert WorkerOk(s, v);
    }
    DistinctCount(s.available, c.Workers());
    forall j | 0 <= j < |s'.log| ensures EntryOk(c, s', s'.log[j]) {
      assert EntryOk(c, s, s.log[j]);
    }
  }

  lemma AwaitingBootInv(c: Config, s: State)
    requires Inv(c, s) && s.dispatcher.AwaitingBoot? && DispatchEnabled(c, s)
    ensures Inv(c, Dispatched(c, s))
  {
    if s.dispatcher.received < c.Workers() {
      AwaitOneBootInv(c, s);
    } else {
      BootedInv(c, s);
    }
  }

  lemma AwaitOneBootInv(c: Config, s: State)
    requires Inv(c, s) && s.dispatcher.AwaitingBoot? && DispatchEnabled(c, s) && s.dispatcher.received < c.Workers()
    ensures Inv(c, Dispatched(c, s))
  {
    var s' := Dispatched(c, s);
    var r := s.responses[0];
    assert r in s.responses && WorkerOk(s, r.worker);
    TailMembers(s.responses);
    forall v: nat | v < |s'.workers| ensures WorkerOk(s', v) {
      assert WorkerOk(s, v);
    }
  }

  lemma BootedInv(c: Config, s: State)
    requires Inv(c, s) && s.dispatcher.AwaitingBoot? && c.Workers() <= s.dispatcher.received
    ensures Inv(c, Dispatched(c, s))
  {
    var s' := Dispatched(c, s);
    DistinctCount(s.available, c.Workers());
    forall v: nat | v < |s'.workers| ensures WorkerOk(s', v) && NoResponse(s, v) {
      assert WorkerOk(s, v);
    }
    NothingInFlight(c, s);
  }

  lemma TailMembers<T>(xs: seq<T>)
    requires xs != []
    ensures forall x :: x in xs <==> x == xs[0] || x in xs[1..]
  {
    assert xs == [xs[0]] + xs[1..];
  }

  lemma SomethingInFlight(c: Config, s: State)
    requires ListsOk(c, s) && s.responses != []
    ensures exists w: nat :: w < c.Workers() && !NoResponse(s, w)
  {
    assert s.responses[0] in s.responses;
    assert !NoResponse(s, s.responses[0].worker);
  }

  lemma NothingInFlight(c: Config, s: State)
    requires ListsOk(c, s) && forall w: nat :: w < c.Workers() ==> NoResponse(s, w)
    ensures s.responses == []
  {
    if s.responses != [] { SomethingInFlight(c, s); }
  }

  lemma StartTaskInv(c: Config, s: State)
    requires Inv(c, s) && s.dispatcher.Looping? && MayStart(c, s)
    ensures Inv(c, Dispatched(c, s))
  {
    var s' := Dispatched(c, s);
    StartTaskShape(c, s);
    ListsExtend(c, s, s');
    RecordsExtend(c, s, s');
    StartTaskWorkers(c, s, s');
  }

  ghost predicate TaskStarted(c: Config, s: State, s': State) {
    && s.available != [] && |s.tasks| < |c.calls|
    && var w := s.available[|s.available| - 1];
    && s' == s.(dispatcher := Signalling(w), workers := s'.workers,
                available := s.available[..|s.available| - 1],
                tasks := s.tasks + [Task(c.calls[|s.tasks|], None, None)])
    && QueueChanged(s, s', w, [Run(|s.tasks|)], |s.tasks|, {0})
  }

  lemma StartTaskShape(c: Config, s: State)
    requires Inv(c, s) && s.dispatcher.Looping? && MayStart(c, s)
    ensures TaskStarted(c, s, Dispatched(c, s))
  {
    var w := s.available[|s.available| - 1];
    assert w in s.available && WorkerOk(s, w);
    assert IsIdle(s, w);
    PostEffect(s, w, Run(|s.tasks|));
    assert [] + [Run(|s.tasks|)] == [Run(|s.tasks|)];
  }

  lemma StartTaskWorkers(c: Config, s: State, s': State)
    requires WorkersOk(c, s) && s.dispatcher.Looping? && TaskStarted(c, s, s')
    requires Distinct(s.available) && forall id :: id in s.awaited ==> id < |s.tasks|
    ensures WorkersOk(c, s')
  {
    var w := s.available[|s.available| - 1];
    assert s.available == s'.available + [w];
    assert w in s.available && w !in s'.available;
    forall v: nat | v < |s'.workers|
      ensures WorkerOk(s', v) && (v !in s.available ==> s.workers[v].taskId < |s.tasks|)
    {
      assert WorkerOk(s, v);
      StartTaskWorker(c, s, s', v);
    }
  }

  lemma StartTaskWorker(c: Config, s: State, s': State, v: nat)
    requires v < |s.workers| && WorkerOk(s, v) && s.dispatcher.Looping? && TaskStarted(c, s, s')
    requires Distinct(s.available) && forall id :: id in s.awaited ==> id < |s.tasks|
    requires var w := s.available[|s.available| - 1];
      w in s.available && w !in s'.available && forall x :: x in s.available <==> x == w || x in s'.available
    ensures WorkerOk(s', v) && (v !in s.available ==> s.workers[v].taskId < |s.tasks|)
  {
    if v == s.available[|s.available| - 1] {
      assert IsQueued(s', v);
    } else if v in s.available {
      assert IsIdle(s', v);
    } else {
      assert IsBusy(s', v);
    }
  }

  lemma ListsExtend(c: Config, s: State, s': State)
    requires ListsOk(c, s) && s.dispatcher.Looping? && s'.dispatcher.Signalling? && s.available != []
    requires s'.available == s.available[..|s.available| - 1]
    requires |s.tasks| < |s'.tasks| && s'.tasks[..|s.tasks|] == s.tasks
    requires s'.awaited == s.awaited && s'.responses == s.responses && s'.uninitialized == s.uninitialized
    ensures ListsOk(c, s')
  {
    assert forall w :: w in s'.available ==> w in s.available;
    forall id | id in s.awaited ensures s'.tasks[id] == s.tasks[id] {
      assert s'.tasks[..|s.tasks|][id] == s'.tasks[id];
    }
  }

  lemma RecordsExtend(c: Config, s: State, s': State)
    requires RecordsOk(c, s) && |s.tasks| < |c.calls|
    requires s'.tasks == s.tasks + [Task(c.calls[|s.tasks|], None, None)]
    requires s'.log == s.log && s'.awaited == s.awaited && s'.errors == s.errors
    ensures RecordsOk(c, s')
  {
    FailuresFrame(s.tasks, s'.tasks, s.awaited);
    forall j | 0 <= j < |s'.log| ensures EntryOk(c, s', s'.log[j]) {
      assert EntryOk(c, s, s.log[j]);
    }
  }

  lemma SignalInv(c: Config, s: State)
    requires Inv(c, s) && (s.dispatcher.Signalling? || s.dispatcher.StopSignalling?)
    ensures Inv(c, Dispatched(c, s))
  {
    var s' := Dispatched(c, s);
    var w := s.dispatcher.worker;
    assert WorkerOk(s, w);
    SignalEffect(s, w);
    forall v: nat | v < |s'.workers| ensures WorkerOk(s', v) {
      assert WorkerOk(s, v);
      SignalWorker(s, s', w, v);
    }
  }

  lemma SignalWorker(s: State, s': State, w: nat, v: nat)
    requires v < |s.workers| && WorkerOk(s, v)
    requires (s.dispatcher == Signalling(w) && s'.dispatcher == Looping)
      || (s.dispatcher == StopSignalling(w) && s'.dispatcher == Stopping(w + 1))
    requires w < |s.workers| && QueueChanged(s, s', w, s.workers[w].queue.Mail(), s.workers[w].taskId, {})
    requires s' == s.(dispatcher := s'.dispatcher, workers := s'.workers, started := s'.started, active := s'.active)
    ensures WorkerOk(s', v)
  {
  }

  lemma AwaitInv(c: Config, s: State)
    requires Inv(c, s) && s.dispatcher.Looping? && s.responses != []
    requires !MayStart(c, s) && (s.started < |c.calls| || s.active != 0)
    ensures Inv(c, Dispatched(c, s))
  {
    var s' := Dispatched(c, s);
    AwaitLists(c, s);
    AwaitWorkers(c, s);
    assert RecordsOk(c, s') by {
      assert s'.awaited[..|s.awaited|] == s.awaited;
      forall j | 0 <= j < |s'.log| ensures EntryOk(c, s', s'.log[j]) {
        assert EntryOk(c, s, s.log[j]);
      }
    }
  }

  lemma AwaitLists(c: Config, s: State)
    requires Inv(c, s) && s.dispatcher.Looping? && s.responses != []
    requires !MayStart(c, s) && (s.started < |c.calls| || s.active != 0)
    ensures var s' := Dispatched(c, s);
      && s'.dispatcher.Looping? && s' == AwaitAnyTask(s) && |s'.awaited| == |s.awaited| + 1
      && ListsOk(c, s') && CountsOk(c, s')
    ensures var r := s.responses[0];
      r.worker < c.Workers() && r.worker !in s.available && r == Completed(r.worker, s.workers[r.worker].taskId)
  {
    FirstResponse(c, s);
    ListsMove(c, s);
  }

  /** The first response is from a busy worker, and tells of its task. */
  lemma FirstResponse(c: Config, s: State)
    requires Inv(c, s) && s.dispatcher.Looping? && s.responses != []
    ensures var r := s.responses[0];
      && r.worker < c.Workers() && r.worker !in s.available && r == Completed(r.worker, s.workers[r.worker].taskId)
      && r.taskId < |s.tasks| && r.taskId !in s.awaited && s.tasks[r.taskId].HasRun()
  {
    var r := s.responses[0];
    assert r in s.responses;
    assert WorkerOk(s, r.worker);
    assert IsBusy(s, r.worker) && IsResponsePending(s, r.worker);
    assert Completed(r.worker, s.workers[r.worker].taskId) in s.responses;
  }

  /** The worker of the first response becomes available, and its task is awaited. */
  lemma ListsMove(c: Config, s: State)
    requires ListsOk(c, s) && s.dispatcher.Looping? && s.responses != [] && s.responses[0].Completed?
    requires var r := s.responses[0];
      && r.worker < c.Workers() && r.worker !in s.available
      && r.taskId < |s.tasks| && r.taskId !in s.awaited && s.tasks[r.taskId].HasRun()
    ensures ListsOk(c, AwaitAnyTask(s))
  {
    TailMembers(s.responses);
  }

  lemma AwaitWorkers(c: Config, s: State)
    requires WorkersOk(c, s) && s.dispatcher.Looping? && s.responses != [] && AwaitAnyTask(s).dispatcher.Looping?
    requires var r := s.responses[0];
      r.worker < c.Workers() && r.worker !in s.available && r == Completed(r.worker, s.workers[r.worker].taskId)
    requires forall i, j :: 0 <= i < j < |s.responses| ==> s.responses[i].worker != s.responses[j].worker
    ensures WorkersOk(c, AwaitAnyTask(s))
  {
    var s' := AwaitAnyTask(s);
    TailMembers(s.responses);
    forall v: nat | v < |s'.workers| ensures WorkerOk(s', v) {
      assert WorkerOk(s, v);
      if v != s.responses[0].worker && v !in s.available {
        assert s.workers[v].taskId != s.workers[s.responses[0].worker].taskId;
      }
      AwaitWorker(s, v);
    }
    assert forall v :: v in s.available ==> v in s'.available;
  }

  lemma AwaitWorker(s: State, v: nat)
    requires v < |s.workers| && WorkerOk(s, v) && s.dispatcher.Looping?
    requires s.responses != [] && AwaitAnyTask(s).dispatcher.Looping?
    requires s.responses[0].Completed? && s.responses[0].worker !in s.available
    requires forall x :: x in s.responses <==> x == s.responses[0] || x in s.responses[1..]
    requires forall j :: 0 < j < |s.responses| ==> s.responses[0].worker != s.responses[j].worker
    requires v != s.responses[0].worker && v !in s.available ==> s.workers[v].taskId != s.responses[0].taskId
    ensures WorkerOk(AwaitAnyTask(s), v)
  {
    var s' := AwaitAnyTask(s);
    if v == s.responses[0].worker {
      assert IsBusy(s, v) && s.responses[0] in s.responses;
      assert IsIdle(s', v);
    } else if v in s.available {
      assert IsIdle(s', v);
    } else {
      assert IsBusy(s', v);
    }
  }

  /** The main loop ends: every worker is idle and no response is under way. */
  lemma LoopEndInv(c: Config, s: State)
    requires Inv(c, s) && s.dispatcher.Looping? && s.started == |c.calls| && s.active == 0
    ensures Inv(c, s.(dispatcher := Stopping(0)))
  {
    var s' := s.(dispatcher := Stopping(0));
    DistinctCount(s.available, c.Workers());
    forall v: nat | v < |s'.workers| ensures WorkerOk(s', v) {
      assert WorkerOk(s, v);
    }
  }

  lemma StopOneInv(c: Config, s: State)
    requires Inv(c, s) && s.dispatcher.Stopping? && s.dispatcher.next < c.Workers()
    ensures Inv(c, Dispatched(c, s))
  {
    var s' := Dispatched(c, s);
    var w := s.dispatcher.next;
    assert WorkerOk(s, w) && IsIdle(s, w);
    PostEffect(s, w, StopProcessing);
    assert [] + [StopProcessing] == [StopProcessing];
    forall v: nat | v < |s'.workers| ensures WorkerOk(s', v) {
      assert WorkerOk(s, v);
      StopWorker(s, s', w, v);
    }
    DistinctCount(s.available, c.Workers());
  }

  lemma StopWorker(s: State, s': State, w: nat, v: nat)
    requires v < |s.workers| && WorkerOk(s, v) && s.dispatcher == Stopping(w) && s'.dispatcher == StopSignalling(w)
    requires w < |s.workers| && IsIdle(s, w) && QueueChanged(s, s', w, [StopProcessing], s.workers[w].taskId, {0})
    requires s' == s.(dispatcher := s'.dispatcher, workers := s'.workers)
    ensures WorkerOk(s', v)
  {
  }

  lemma JoinInv(c: Config, s: State)
    requires Inv(c, s) && DispatchEnabled(c, s)
    requires s.dispatcher.Joining? || (s.dispatcher.Stopping? && s.dispatcher.next == c.Workers())
    ensures Inv(c, Dispatched(c, s))
  {
    var s' := Dispatched(c, s);
    forall v: nat | v < |s'.workers| ensures WorkerOk(s', v) {
      assert WorkerOk(s, v);
    }
  }

  /** Whatever step a thread takes next, the pool stays in order. */
  lemma StepKeepsInv(c: Config, s: State, step: Step)
    requires Inv(c, s) && Enabled(c, s, step)
    ensures Inv(c, Next(c, s, step))
  {
    match step
    case Boot(w) => BootInv(c, s, w);
    case Receive(w, st) => ReceiveInv(c, s, w, st);
    case Execute(w, o) => ExecuteInv(c, s, w, o);
    case Respond(w) => RespondInv(c, s, w);
    case Dispatch =>
      if s.dispatcher.Starting? {
        StartingInv(c, s);
      } else if s.dispatcher.AwaitingBoot? {
        AwaitingBootInv(c, s);
      } else if s.dispatcher.Signalling? || s.dispatcher.StopSignalling? {
        SignalInv(c, s);
      } else if s.dispatcher.Looping? && MayStart(c, s) {
        StartTaskInv(c, s);
      } else if s.dispatcher.Looping? && (s.started < |c.calls| || s.active != 0) {
        AwaitInv(c, s);
      } else if s.dispatcher.Looping? {
        LoopEndInv(c, s);
      } else if s.dispatcher.Stopping? && s.dispatcher.next < c.Workers() {
        StopOneInv(c, s);
      } else {
        JoinInv(c, s);
      }
  }

  // ---------------------------------------------------------------------------------------------
  // Termination: every step lowers the rank of the state

  function Left(n: nat, k: nat): nat {
    if k < n then n - k else 0
  }

  function ReaderRank(r: Q.Reader<Message>): nat {
    match r
    case Outside => 1
    case Waiting => 0
    case Woken => 5
    case Taking => 4
    case Rechecking(_) => 30
    case Resignalling(_) => 29
    case Crashed => 0
  }

  function QueueRank(q: Q.Queue<Message>): nat {
    40 * |q.deque| + 10 * |q.unsignalled| + (if q.locked then 0 else 6) + ReaderRank(q.reader)
  }

  function WorkerRank(w: Worker): nat {
    QueueRank(w.queue) +
    match w.phase
    case NotStarted => 3
    case Bootstrapping => 3
    case Getting => 0
    case Executing(_) => 20
    case Responding(_) => 10
    case Stopped => 0
  }

  function WorkersRank(ws: seq<Worker>): nat {
    if ws == [] then 0 else WorkersRank(ws[..|ws| - 1]) + WorkerRank(ws[|ws| - 1])
  }

  function DispatcherRank(n: nat, d: Dispatcher): nat {
    match d
    case Starting(k) => 102 * n + 5 + Left(n, k) + n
    case AwaitingBoot(k) => 101 * n + 4 + Left(n, k)
    case Looping => 101 * n + 3
    case Signalling(_) => 101 * n + 3
    case Stopping(w) => 100 * Left(n, w) + n + 2
    case StopSignalling(w) => 100 * Left(n, w + 1) + 40 + n + 2
    case Joining(w) => 1 + Left(n, w)
    case Finished => 0
    case Crashed => 0
  }

  function Rank(c: Config, s: State): nat {
    DispatcherRank(c.Workers(), s.dispatcher) + 100 * Left(|c.calls|, |s.tasks|)
      + WorkersRank(s.workers) + 2 * |s.responses|
  }

  lemma WorkersRankUpdate(ws: seq<Worker>, w: nat, worker: Worker)
    requires w < |ws|
    ensures WorkersRank(ws[w := worker]) == WorkersRank(ws) - WorkerRank(ws[w]) + WorkerRank(worker)
  {
    var last := |ws| - 1;
    if w < last {
      WorkersRankUpdate(ws[..last], w, worker);
      assert ws[w := worker][..last] == ws[..last][w := worker];
    } else {
      assert ws[w := worker][..last] == ws[..last];
    }
  }

  lemma ReceivedLowersRank(worker: Worker, st: Q.Step<Message>)
    requires worker.phase.Getting? && Q.Inv(worker.queue) && st.ByReader() && Q.Enabled(worker.queue, st)
    ensures WorkerRank(Received(worker, st)) < WorkerRank(worker)
  {
  }

  lemma PostRank(s: State, w: nat, m: Message)
    requires w < |s.workers| && s.workers[w].queue.unsignalled == {}
    ensures WorkersRank(Post(s, w, m).workers) == WorkersRank(s.workers) + 50
  {
    var q := s.workers[w].queue;
    assert Q.Next(q, Q.Append(0, m)).unsignalled == {0};
    assert QueueRank(Q.Next(q, Q.Append(0, m))) == QueueRank(q) + 50;
    WorkersRankUpdate(s.workers, w, Post(s, w, m).workers[w]);
  }

  lemma SignalRank(s: State, w: nat)
    requires w < |s.workers| && s.workers[w].queue.unsignalled == {0}
    ensures WorkersRank(Signal(s, w).workers) < WorkersRank(s.workers)
  {
    var q := s.workers[w].queue;
    assert Q.Next(q, Q.Signal(0)).unsignalled == {};
    assert QueueRank(Q.Next(q, Q.Signal(0))) < QueueRank(q);
    WorkersRankUpdate(s.workers, w, Signal(s, w).workers[w]);
  }

  lemma LoopLowersRank(c: Config, s: State)
    requires Inv(c, s) && s.dispatcher.Looping? && DispatchEnabled(c, s)
    ensures Rank(c, Dispatched(c, s)) < Rank(c, s)
  {
    if MayStart(c, s) {
      StartTaskShape(c, s);
      var w := s.available[|s.available| - 1];
      assert w in s.available && WorkerOk(s, w);
      StartingLowersRank(c, s);
    } else if s.started < |c.calls| || s.active != 0 {
      AwaitLists(c, s);
    }
  }

  lemma StartingLowersRank(c: Config, s: State)
    requires s.dispatcher.Looping? && MayStart(c, s) && s.available != [] && |s.tasks| < |c.calls|
    requires var w := s.available[|s.available| - 1]; w < |s.workers| && s.workers[w].queue.unsignalled == {}
    ensures Rank(c, StartTask(c, s)) < Rank(c, s)
  {
    PostRank(s, s.available[|s.available| - 1], Run(|s.tasks|));
  }

  lemma SignalLowersRank(c: Config, s: State)
    requires Inv(c, s) && (s.dispatcher.Signalling? || s.dispatcher.StopSignalling?)
    ensures Rank(c, Dispatched(c, s)) < Rank(c, s)
  {
    assert WorkerOk(s, s.dispatcher.worker);
    SignalRank(s, s.dispatcher.worker);
    assert Signal(s, s.dispatcher.worker) == s.(workers := Signal(s, s.dispatcher.worker).workers);
  }

  lemma StopLowersRank(c: Config, s: State)
    requires Inv(c, s) && s.dispatcher.Stopping? && s.dispatcher.next < c.Workers()
    ensures Rank(c, Dispatched(c, s)) < Rank(c, s)
  {
    var w := s.dispatcher.next;
    assert WorkerOk(s, w);
    PostRank(s, w, StopProcessing);
    assert Post(s, w, StopProcessing) == s.(workers := Post(s, w, StopProcessing).workers);
  }

  lemma StartLowersRank(c: Config, s: State)
    requires Inv(c, s) && s.dispatcher.Starting?
    ensures Rank(c, Dispatched(c, s)) < Rank(c, s)
  {
    var k := s.dispatcher.next;
    if k < |s.workers| {
      assert WorkerOk(s, k);
      WorkersRankUpdate(s.workers, k, s.workers[k].(phase := Bootstrapping));
    }
  }

  lemma DispatchLowersRank(c: Config, s: State)
    requires Inv(c, s) && DispatchEnabled(c, s)
    ensures Rank(c, Dispatched(c, s)) < Rank(c, s)
  {
    if s.dispatcher.Looping? {
      LoopLowersRank(c, s);
    } else if s.dispatcher.Starting? {
      StartLowersRank(c, s);
    } else if s.dispatcher.Signalling? || s.dispatcher.StopSignalling? {
      SignalLowersRank(c, s);
    } else if s.dispatcher.Stopping? && s.dispatcher.next < c.Workers() {
      StopLowersRank(c, s);
    }
  }

  lemma StepLowersRank(c: Config, s: State, step: Step)
    requires Inv(c, s) && Enabled(c, s, step)
    ensures Rank(c, Next(c, s, step)) < Rank(c, s)
  {
    if step.Dispatch? {
      DispatchLowersRank(c, s);
    } else {
      if step.Receive? { assert WorkerOk(s, step.worker); }
      WorkerStepLowersRank(c, s, step);
    }
  }

  lemma WorkerStepLowersRank(c: Config, s: State, step: Step)
    requires !step.Dispatch? && Enabled(c, s, step) && (step.Receive? ==> Q.Inv(s.workers[step.worker].queue))
    ensures Rank(c, Next(c, s, step)) < Rank(c, s)
  {
    if step.Receive? { ReceivedLowersRank(s.workers[step.worker], step.step); }
    WorkersRankUpdate(s.workers, step.worker, Next(c, s, step).workers[step.worker]);
  }

  // ---------------------------------------------------------------------------------------------
  // Progress

  /** The calls can be made: there is at least one worker for them. */
  predicate CanWork(c: Config) {
    c.calls == [] || 1 <= c.maxConcurrency
  }

  ghost predicate CanStep(c: Config, s: State) {
    exists step :: Enabled(c, s, step)
  }

  /** A worker that has mail can take its next step, unless its lock is still to be released. */
  lemma MailIsRead(c: Config, s: State, w: nat)
    requires w < |s.workers| && s.workers[w].phase.Getting? && Q.Inv(s.workers[w].queue)
    requires s.workers[w].queue.Mail() != [] && s.workers[w].queue.unsignalled == {}
    ensures CanStep(c, s)
  {
    var q := s.workers[w].queue;
    if q.reader.Outside? {
      assert Enabled(c, s, Receive(w, Q.BeginGet));
    } else if q.deque == [] {
      assert Enabled(c, s, Receive(w, if q.reader.Rechecking? then Q.Recheck else Q.Resignal));
    } else {
      Q.ReaderNotStuck(q);
      var st: Q.Step<Message> :| st.ByReader() && Q.Enabled(q, st);
      assert Enabled(c, s, Receive(w, st));
    }
  }

  lemma BusyWorkerMoves(c: Config, s: State, w: nat)
    requires w < |s.workers| && WorkerOk(s, w) && s.dispatcher.Looping? && w !in s.available && s.responses == []
    ensures CanStep(c, s)
  {
    assert IsBusy(s, w);
    if IsQueued(s, w) {
      MailIsRead(c, s, w);
    } else if IsRunning(s, w) {
      assert Enabled(c, s, Execute(w, Raised("traceback")));
    } else {
      assert Enabled(c, s, Respond(w));
    }
  }

  /** No deadlock: until the dispatcher has finished, some thread can take a step. */
  lemma SomeStepIsEnabled(c: Config, s: State)
    requires Inv(c, s) && CanWork(c) && !s.dispatcher.Finished?
    ensures CanStep(c, s)
  {
    if DispatchEnabled(c, s) {
      assert Enabled(c, s, Dispatch);
    } else if s.dispatcher.AwaitingBoot? {
      var w :| w in s.uninitialized;
      assert WorkerOk(s, w) && IsBooting(s, w);
      assert Enabled(c, s, Boot(w));
    } else if s.dispatcher.Looping? {
      DistinctCount(s.available, c.Workers());
      var w: nat :| w < c.Workers() && w !in s.available;
      assert WorkerOk(s, w);
      BusyWorkerMoves(c, s, w);
    } else {
      var w := s.dispatcher.next;
      assert WorkerOk(s, w) && IsTold(s, w);
      MailIsRead(c, s, w);
    }
  }

  // ---------------------------------------------------------------------------------------------
  // Whole runs

  ghost predicate Stepped(c: Config, s: State, s': State) {
    exists step :: Enabled(c, s, step) && s' == Next(c, s, step)
  }

  ghost predicate IsRun(c: Config, run: seq<State>) {
    && run != [] && run[0] == Init(c)
    && forall i :: 0 <= i < |run| - 1 ==> Stepped(c, run[i], run[i + 1])
  }

  lemma {:induction false} EveryRunKeepsInv(c: Config, run: seq<State>, i: nat)
    requires IsRun(c, run) && i < |run|
    ensures Inv(c, run[i]) && Rank(c, run[i]) + i <= Rank(c, Init(c))
  {
    if i == 0 {
      InitInv(c);
    } else {
      EveryRunKeepsInv(c, run, i - 1);
      assert Stepped(c, run[i - 1], run[i - 1 + 1]);
      var step :| Enabled(c, run[i - 1], step) && run[i] == Next(c, run[i - 1], step);
      StepKeepsInv(c, run[i - 1], step);
      StepLowersRank(c, run[i - 1], step);
    }
  }

  /** No schedule goes on for ever. */
  lemma EveryRunIsFinite(c: Config, run: seq<State>)
    requires IsRun(c, run)
    ensures |run| <= Rank(c, Init(c)) + 1
  {
    EveryRunKeepsInv(c, run, |run| - 1);
  }

  /** In every reachable state: no assertion of the source fails, the worker threads divide into available
      ones and ones whose task is queued, running or waiting to be reported, and the dispatcher's counter
      counts the latter and stays within the limit. */
  lemma WorkersAlwaysPartitioned(c: Config, run: seq<State>, i: nat)
    requires IsRun(c, run) && i < |run| && (run[i].dispatcher.Looping? || run[i].dispatcher.Signalling?)
    ensures var s := run[i];
      && |s.workers| == c.Workers()
      && (forall w: nat :: w < c.Workers() ==> (
            (w in s.available <==> IsIdle(s, w)) && (w !in s.available <==> IsBusy(s, w))))
      && s.active + (if s.dispatcher.Signalling? then 1 else 0) == c.Workers() - |s.available|
      && 0 <= s.active <= c.Workers()
      && (s.active > 0 ==> s.active <= c.maxConcurrency && s.active <= |c.calls|)
      && (MayStart(c, s) && s.dispatcher.Looping? ==> s.available != [])
      && (forall r :: r in s.responses ==> r.Completed?)
  {
    EveryRunKeepsInv(c, run, i);
    var s := run[i];
    DistinctCount(s.available, c.Workers());
    forall w: nat | w < c.Workers()
      ensures (w in s.available <==> IsIdle(s, w)) && (w !in s.available <==> IsBusy(s, w))
    {
      assert WorkerOk(s, w);
      IdleIsNotBusy(s, w);
    }
    if s.dispatcher.Signalling? {
      assert WorkerOk(s, s.dispatcher.worker);
      NotAllAvailable(s.available, c.Workers(), s.dispatcher.worker);
    }
  }

  lemma NotAllAvailable(xs: seq<nat>, n: nat, w: nat)
    requires Distinct(xs) && (forall x :: x in xs ==> x < n) && w < n && w !in xs
    ensures |xs| < n
  {
    DistinctCount(xs, n);
  }

  lemma IdleIsNotBusy(s: State, w: nat)
    requires w < |s.workers|
    ensures !(IsIdle(s, w) && IsBusy(s, w))
  {
  }

  datatype Result = Results(values: seq<Option<Value>>) | ParallelException(errors: seq<ErrorMessage>)

  /** What _RunParallelTasks returns or raises once the dispatcher has finished. */
  function ResultOf(s: State): Result {
    if s.errors != [] then ParallelException(s.errors)
    else Results(seq(|s.tasks|, i requires 0 <= i < |s.tasks| => s.tasks[i].returnValue))
  }

  /** Every call was executed exactly once, and is reported exactly once. */
  ghost predicate EachCallOnce(c: Config, s: State) {
    && |s.log| == |c.calls| && |s.awaited| == |c.calls|
    && (forall i :: 0 <= i < |c.calls| ==>
          i in s.awaited && exists j :: 0 <= j < |s.log| && s.log[j].taskId == i && s.log[j].call == c.calls[i])
    && (forall i, j :: 0 <= i < j < |s.log| ==> s.log[i].taskId != s.log[j].taskId)
    && (forall i, j :: 0 <= i < j < |s.awaited| ==> s.awaited[i] != s.awaited[j])
  }

  /** The i-th result is what the i-th call returned, whatever the order of completion; there is an exception
      exactly when some call raised one, and it has one message for each such call, in order of completion. */
  ghost predicate ResultOk(c: Config, s: State) {
    && |s.tasks| == |c.calls|
    && (forall j :: 0 <= j < |s.log| ==> (
          s.log[j].taskId < |c.calls| && Matches(s.tasks[s.log[j].taskId], s.log[j].outcome)))
    && (ResultOf(s).ParallelException? <==> exists j :: 0 <= j < |s.log| && s.log[j].outcome.Raised?)
    && (ResultOf(s).ParallelException? ==> ErrorsOk(c, s, ResultOf(s).errors))
    && (ResultOf(s).Results? ==>
          && |ResultOf(s).values| == |c.calls|
          && forall j :: 0 <= j < |s.log| ==>
               s.log[j].outcome.Returned? && ResultOf(s).values[s.log[j].taskId] == Some(s.log[j].outcome.value))
  }

  ghost predicate HasRaised(s: State, id: nat) {
    exists j :: 0 <= j < |s.log| && s.log[j].taskId == id && s.log[j].outcome.Raised?
  }

  /** Which of the first n completions were those of calls that raised. */
  ghost function RaisedAmong(s: State, n: nat): set<int>
    requires n <= |s.awaited|
  {
    set i | 0 <= i < n && HasRaised(s, s.awaited[i])
  }

  /** errors has one message for each execution that raised, and they are in the order of completion: the message of
      a call that completes after k others that raised is number k, and has that call and its traceback. */
  ghost predicate ErrorsOk(c: Config, s: State, errors: seq<ErrorMessage>) {
    |errors| == |RaisedEntries(s)| && MessagesOk(c, s, errors, |s.awaited|)
  }

  ghost function RaisedEntries(s: State): set<int> {
    set j | 0 <= j < |s.log| && s.log[j].outcome.Raised?
  }

  /** The messages of the first n completions. */
  ghost predicate MessagesOk(c: Config, s: State, errors: seq<ErrorMessage>, n: nat)
    requires n <= |s.awaited|
  {
    forall a, j :: 0 <= a < n && 0 <= j < |s.log| && s.log[j].taskId == s.awaited[a] && s.log[j].outcome.Raised? ==>
      MessageIs(c, s, errors, a, s.log[j].outcome.traceback)
  }

  ghost predicate MessageIs(c: Config, s: State, errors: seq<ErrorMessage>, a: nat, traceback: string)
    requires a < |s.awaited|
  {
    && s.awaited[a] < |c.calls| && |RaisedAmong(s, a)| < |errors|
    && errors[|RaisedAmong(s, a)|] == ErrorMessage(c.calls[s.awaited[a]], traceback)
  }

  ghost predicate AllAwaitedRan(c: Config, s: State) {
    && RecordsOk(c, s) && |s.tasks| == |c.calls|
    && (forall i :: 0 <= i < |s.tasks| ==> i in s.awaited && s.tasks[i].HasRun())
  }

  /** What awaiting a task adds to the errors. */
  ghost predicate FailureIs(c: Config, s: State, id: nat) {
    && id < |s.tasks| && id < |c.calls|
    && |Failure(s.tasks[id])| == (if HasRaised(s, id) then 1 else 0)
    && forall j :: 0 <= j < |s.log| && s.log[j].taskId == id && s.log[j].outcome.Raised? ==>
         Failure(s.tasks[id]) == [ErrorMessage(c.calls[id], s.log[j].outcome.traceback)]
  }

  lemma FailureOfAwaited(c: Config, s: State, id: nat)
    requires AllAwaitedRan(c, s) && id < |s.tasks|
    ensures FailureIs(c, s, id)
  {
    forall j | 0 <= j < |s.log| && s.log[j].taskId == id && s.log[j].outcome.Raised?
      ensures Failure(s.tasks[id]) == [ErrorMessage(c.calls[id], s.log[j].outcome.traceback)]
    {
      assert EntryOk(c, s, s.log[j]);
    }
    if !HasRaised(s, id) {
      var j := LogEntry(c, s, id);
      assert Matches(s.tasks[id], s.log[j].outcome);
    }
  }

  lemma RaisedAmongStep(s: State, n: nat)
    requires n < |s.awaited|
    ensures |RaisedAmong(s, n + 1)| == |RaisedAmong(s, n)| + if HasRaised(s, s.awaited[n]) then 1 else 0
  {
    assert RaisedAmong(s, n + 1) == RaisedAmong(s, n) + if HasRaised(s, s.awaited[n]) then {n} else {};
  }

  ghost predicate ErrorsUpTo(c: Config, s: State, errors: seq<ErrorMessage>, n: nat)
    requires n <= |s.awaited|
  {
    |errors| == |RaisedAmong(s, n)| && MessagesOk(c, s, errors, n)
  }

  lemma {:induction false} ErrorsSoFar(c: Config, s: State, n: nat)
    requires n <= |s.awaited| && forall i :: 0 <= i < |s.awaited| ==> FailureIs(c, s, s.awaited[i])
    requires forall i :: 0 <= i < |s.awaited| ==> s.awaited[i] < |s.tasks|
    ensures ErrorsUpTo(c, s, Failures(s.tasks, s.awaited[..n]), n)
    decreases n
  {
    if n == 0 {
      assert RaisedAmong(s, 0) == {};
    } else {
      ErrorsSoFar(c, s, n - 1);
      FailuresStep(s.tasks, s.awaited, n - 1);
      ErrorsStep(c, s, Failures(s.tasks, s.awaited[..n - 1]), n - 1);
    }
  }

  lemma ErrorsStep(c: Config, s: State, before: seq<ErrorMessage>, n: nat)
    requires n < |s.awaited| && ErrorsUpTo(c, s, before, n) && FailureIs(c, s, s.awaited[n])
    ensures ErrorsUpTo(c, s, before + Failure(s.tasks[s.awaited[n]]), n + 1)
  {
    RaisedAmongStep(s, n);
    MessagesStep(c, s, before, Failure(s.tasks[s.awaited[n]]), n);
  }

  lemma FailuresStep(tasks: seq<Task>, ids: seq<nat>, n: nat)
    requires n < |ids| && forall j :: 0 <= j < |ids| ==> ids[j] < |tasks|
    ensures Failures(tasks, ids[..n + 1]) == Failures(tasks, ids[..n]) + Failure(tasks[ids[n]])
  {
    assert ids[..n + 1][..n] == ids[..n];
  }

  lemma MessagesStep(c: Config, s: State, before: seq<ErrorMessage>, added: seq<ErrorMessage>, n: nat)
    requires n < |s.awaited| && MessagesOk(c, s, before, n) && |before| == |RaisedAmong(s, n)|
    requires s.awaited[n] < |c.calls|
    requires forall j :: 0 <= j < |s.log| && s.log[j].taskId == s.awaited[n] && s.log[j].outcome.Raised? ==>
      added == [ErrorMessage(c.calls[s.awaited[n]], s.log[j].outcome.traceback)]
    ensures MessagesOk(c, s, before + added, n + 1)
  {
    forall a, j |
      0 <= a < n + 1 && 0 <= j < |s.log| && s.log[j].taskId == s.awaited[a] && s.log[j].outcome.Raised?
      ensures MessageIs(c, s, before + added, a, s.log[j].outcome.traceback)
    {
      if a < n { assert MessageIs(c, s, before, a, s.log[j].outcome.traceback); }
    }
  }

  ghost function RaisedIds(s: State): (r: set<nat>)
    ensures forall id :: id in r <==> HasRaised(s, id)
  {
    set j | 0 <= j < |s.log| && s.log[j].outcome.Raised? :: s.log[j].taskId
  }

  lemma RaisedEntriesCount(s: State)
    requires forall i, j :: 0 <= i < j < |s.log| ==> s.log[i].taskId != s.log[j].taskId
    ensures |RaisedEntries(s)| == |RaisedIds(s)|
  {
    var ids := seq(|s.log|, j requires 0 <= j < |s.log| => s.log[j].taskId);
    forall id | id in RaisedIds(s) ensures id in ids {
      var j :| 0 <= j < |s.log| && s.log[j].taskId == id;
      assert ids[j] == id;
    }
    PositionsCount(ids, RaisedIds(s));
    forall j | 0 <= j < |s.log| ensures s.log[j].outcome.Raised? <==> ids[j] in RaisedIds(s) {
      if HasRaised(s, s.log[j].taskId) {
        var k :| 0 <= k < |s.log| && s.log[k].taskId == s.log[j].taskId && s.log[k].outcome.Raised?;
        assert k == j;
      }
    }
    assert RaisedEntries(s) == Positions(ids, RaisedIds(s));
  }

  /** As many completions as executions are those of calls that raised. */
  lemma RaisedCount(c: Config, s: State)
    requires AllAwaitedRan(c, s) && Distinct(s.awaited)
    ensures |RaisedAmong(s, |s.awaited|)| == |RaisedEntries(s)|
  {
    forall id | id in RaisedIds(s) ensures id in s.awaited {
      var j :| 0 <= j < |s.log| && s.log[j].taskId == id;
      assert EntryOk(c, s, s.log[j]);
    }
    PositionsCount(s.awaited, RaisedIds(s));
    assert RaisedAmong(s, |s.awaited|) == Positions(s.awaited, RaisedIds(s));
    RaisedEntriesCount(s);
  }

  lemma LogCount(c: Config, s: State)
    requires RecordsOk(c, s) && forall i :: 0 <= i < |s.tasks| ==> s.tasks[i].HasRun()
    ensures |s.log| == |s.tasks|
  {
    var ids := seq(|s.log|, j requires 0 <= j < |s.log| => s.log[j].taskId);
    forall j | 0 <= j < |s.log| ensures ids[j] < |s.tasks| { assert EntryOk(c, s, s.log[j]); }
    forall w: nat | w < |s.tasks| ensures w in ids {
      var j := LogEntry(c, s, w);
      assert ids[j] == w;
    }
    DistinctCount(ids, |s.tasks|);
  }

  lemma LogEntry(c: Config, s: State, id: nat) returns (j: nat)
    requires RecordsOk(c, s) && id < |s.tasks| && s.tasks[id].HasRun()
    ensures j < |s.log| && s.log[j].taskId == id && EntryOk(c, s, s.log[j])
  {
    var k :| 0 <= k < |s.log| && s.log[k].taskId == id;
    assert EntryOk(c, s, s.log[k]);
    j := k;
  }

  lemma FinishedState(c: Config, s: State)
    requires Inv(c, s) && s.dispatcher.Finished?
    ensures EachCallOnce(c, s) && ResultOk(c, s)
    ensures forall w :: 0 <= w < |s.workers| ==> s.workers[w].phase.Stopped?
  {
    AllAwaited(c, s);
    FinishedCalls(c, s);
    FinishedResult(c, s);
    forall w | 0 <= w < |s.workers| ensures s.workers[w].phase.Stopped? { assert WorkerOk(s, w); }
  }

  lemma AllAwaited(c: Config, s: State)
    requires ListsOk(c, s) && CountsOk(c, s) && AllDone(c, s) && s.dispatcher.Finished?
    ensures |s.awaited| == |s.tasks| && forall i :: 0 <= i < |s.tasks| ==> i in s.awaited && s.tasks[i].HasRun()
  {
    DistinctCount(s.awaited, |s.tasks|);
  }

  lemma FinishedCalls(c: Config, s: State)
    requires RecordsOk(c, s) && Distinct(s.awaited) && |s.awaited| == |s.tasks| == |c.calls|
    requires forall i :: 0 <= i < |s.tasks| ==> i in s.awaited && s.tasks[i].HasRun()
    ensures EachCallOnce(c, s)
  {
    LogCount(c, s);
    forall i | 0 <= i < |c.calls|
      ensures exists j :: 0 <= j < |s.log| && s.log[j].taskId == i && s.log[j].call == c.calls[i]
    {
      var j := LogEntry(c, s, i);
    }
  }

  lemma FinishedResult(c: Config, s: State)
    requires AllAwaitedRan(c, s) && Distinct(s.awaited)
    ensures ResultOk(c, s)
  {
    assert forall j :: 0 <= j < |s.log| ==> EntryOk(c, s, s.log[j]);
    FinishedErrors(c, s);
  }

  lemma FinishedErrors(c: Config, s: State)
    requires AllAwaitedRan(c, s) && Distinct(s.awaited)
    ensures ErrorsOk(c, s, s.errors)
    ensures s.errors == [] <==> forall j :: 0 <= j < |s.log| ==> !s.log[j].outcome.Raised?
  {
    forall i | 0 <= i < |s.awaited| ensures FailureIs(c, s, s.awaited[i]) {
      FailureOfAwaited(c, s, s.awaited[i]);
    }
    assert s.awaited[..|s.awaited|] == s.awaited;
    ErrorsSoFar(c, s, |s.awaited|);
    RaisedCount(c, s);
    NoRaisedEntries(s);
  }

  lemma NoRaisedEntries(s: State)
    ensures |RaisedEntries(s)| == 0 <==> forall j :: 0 <= j < |s.log| ==> !s.log[j].outcome.Raised?
  {
    if j :| 0 <= j < |s.log| && s.log[j].outcome.Raised? {
      assert j in RaisedEntries(s);
    }
  }

  /** Main result: every maximal schedule ends, with every call executed once and the right result. */
  lemma EveryCompleteRunIsCorrect(c: Config, run: seq<State>)
    requires CanWork(c) && IsRun(c, run) && !CanStep(c, run[|run| - 1])
    ensures var s := run[|run| - 1];
      && s.dispatcher.Finished? && EachCallOnce(c, s) && ResultOk(c, s)
      && forall w :: 0 <= w < |s.workers| ==> s.workers[w].phase.Stopped?
  {
    var s := run[|run| - 1];
    EveryRunKeepsInv(c, run, |run| - 1);
    if !s.dispatcher.Finished? { SomeStepIsEnabled(c, s); }
    FinishedState(c, s);
  }

  /** With calls to make but no worker allowed, the dispatcher waits for ever for a response: CanWork is needed. */
  lemma NoWorkersHang(c: Config)
    requires !CanWork(c)
    ensures exists run: seq<State> ::
      IsRun(c, run) && !CanStep(c, run[|run| - 1]) && !run[|run| - 1].dispatcher.Finished?
  {
    var s0 := Init(c);
    assert s0.workers == [] && s0.uninitialized == {};
    var s1 := s0.(dispatcher := AwaitingBoot(0));
    var s2 := s0.(dispatcher := Looping);
    assert Enabled(c, s0, Dispatch) && s1 == Next(c, s0, Dispatch);
    assert Enabled(c, s1, Dispatch) && s2 == Next(c, s1, Dispatch);
    var run := [s0, s1, s2];
    assert Stepped(c, run[0], run[1]) && Stepped(c, run[1], run[2]);
    assert !CanStep(c, s2);
    assert IsRun(c, run) && run[|run| - 1] == s2;
  }
}
