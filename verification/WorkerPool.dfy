/**
 The data-processor worker pool: a GenServer whose state is replaced message by message. Each
 handler returns the new state and what it makes visible (tasks sent to workers, telemetry), and a
 run is any legal sequence of mailbox messages.
 */
module WorkerPool {
  import opened Outcomes
  import opened Sums

  const MAX_ATTEMPTS := 3

  type Pid = nat

  type PoolSize = n: nat | 0 < n witness 1

  /** The submitted data: an Elixir map (with some content) or a term of another type. */
  datatype Term = MapTerm(content: int) | OtherTerm

  datatype Payload = Payload(chain: string, kind: string, data: Term)

  datatype Task = Task(payload: Payload, attempt: int)

  /** The parts of the state that handlers change; monitor references are not observable here. */
  datatype Pool = Pool(size: PoolSize, workers: set<Pid>, tasks: seq<Task>, processing: map<Pid, Task>)

  /** What a handler shows the outside: a send to a worker, or a telemetry event. */
  datatype Output =
    | Dispatched(pid: Pid, task: Task)
    | Submitted(task: Task)
    | Retried(task: Task)
    | Abandoned(task: Task)

  datatype Verdict = Continue | Shutdown | Crash

  /** What a call is answered; other messages are not answered. */
  type Reply = Result<(), string>

  datatype Effect = Effect(pool: Pool, verdict: Verdict, outputs: seq<Output>, reply: Option<Reply>)

  /**
   Mailbox messages together with the choices the code leaves to its environment: which idle pid
   comes first in map order, and whether starting a worker succeeds.
   */
  datatype Message =
    | SubmitTask(payload: Payload, firstIdle: Option<Pid>)
    | StartWorkers(started: seq<Option<Pid>>)
    | WorkerExit(pid: Pid, normal: bool, restarted: Option<Pid>)
    | TaskComplete(pid: Pid)

  // ---------------------------------------------------------------- handlers

  predicate ValidTask(p: Payload) {
    p.chain in {"ethereum", "solana"} && p.kind in {"block", "transaction", "token"} && p.data.MapTerm?
  }

  function IdleWorkers(pool: Pool): set<Pid> {
    pool.workers - pool.processing.Keys
  }

  /** `found` is a possible answer of Enum.find over the worker pids. */
  predicate FindsIdle(pool: Pool, found: Option<Pid>) {
    match found
    case None => IdleWorkers(pool) == {}
    case Some(pid) => pid in IdleWorkers(pool)
  }

  function EnqueueAndProcess(task: Task, pool: Pool, found: Option<Pid>): Effect {
    var enqueued := pool.(tasks := pool.tasks + [task]);
    var (after, sent) := AssignPendingTasks(enqueued, found);
    Effect(after, Continue, [Submitted(task)] + sent, Some(Ok(())))
  }

  function AssignPendingTasks(pool: Pool, found: Option<Pid>): (Pool, seq<Output>) {
    match found
    case None => (pool, [])
    case Some(pid) =>
      if pool.tasks == [] then (pool, [])
      else AssignTask(pid, pool.tasks[0], pool.(tasks := pool.tasks[1..]))
  }

  function AssignTask(pid: Pid, task: Task, pool: Pool): (Pool, seq<Output>) {
    (pool.(processing := pool.processing[pid := task]), [Dispatched(pid, task)])
  }

  function AddWorker(pool: Pool, started: Option<Pid>): Pool {
    if started.Some? then pool.(workers := pool.workers + {started.value}) else pool
  }

  function StartAll(pool: Pool, started: seq<Option<Pid>>): Pool
    decreases |started|
  {
    if started == [] then pool else StartAll(AddWorker(pool, started[0]), started[1..])
  }

  function MaybeRestartWorker(pool: Pool, started: Option<Pid>): Pool {
    if |pool.workers| < pool.size then AddWorker(pool, started) else pool
  }

  function MaybeRetryTask(task: Option<Task>, pool: Pool): (Pool, seq<Output>) {
    match task
    case None => (pool, [])
    case Some(t) =>
      if t.attempt < MAX_ATTEMPTS then
        var retried := t.(attempt := t.attempt + 1);
        (pool.(tasks := pool.tasks + [retried]), [Retried(retried)])
      else (pool, [Abandoned(t)])
  }

  function AssignedTo(pool: Pool, pid: Pid): Option<Task> {
    if pid in pool.processing then Some(pool.processing[pid]) else None
  }

  function HandleWorkerExit(pid: Pid, normal: bool, pool: Pool, started: Option<Pid>): Effect {
    var failed := AssignedTo(pool, pid);
    var removed := pool.(workers := pool.workers - {pid}, processing := pool.processing - {pid});
    if |removed.workers| == 0 then Effect(removed, Shutdown, [], None)
    else if normal then Effect(MaybeRestartWorker(removed, started), Continue, [], None)
    else
      var (retried, out) := MaybeRetryTask(failed, MaybeRestartWorker(removed, started));
      Effect(retried, Continue, out, None)
  }

  /** No handler clause accepts the completion message of a worker, so it crashes the server. */
  function Handle(pool: Pool, m: Message): Effect {
    match m
    case SubmitTask(payload, found) =>
      if ValidTask(payload) then EnqueueAndProcess(Task(payload, 1), pool, found)
      else Effect(pool, Continue, [], Some(Err("invalid_task_format")))
    case StartWorkers(started) => Effect(StartAll(pool, started), Continue, [], None)
    case WorkerExit(pid, normal, restarted) => HandleWorkerExit(pid, normal, pool, restarted)
    case TaskComplete(_) => Effect(pool, Crash, [], None)
  }

  // ---------------------------------------------------------------- runs

  /**
   The server and its history: every pid used so far, everything shown so far, and the tasks that
   an exiting worker held and that did not come back as a retry. After a shutdown or a crash `pool`
   is the last state the server had; nothing processes it any more.
   */
  datatype World = World(
    pool: Pool, verdict: Verdict, startPending: bool, known: set<Pid>, trace: seq<Output>, lost: seq<Task>)

  function Init(size: PoolSize): World {
    World(Pool(size, {}, [], map[]), Continue, true, {}, [], [])
  }

  predicate AllFresh(started: seq<Option<Pid>>, known: set<Pid>)
    decreases |started|
  {
    started == [] || (Fresh(started[0], known) && AllFresh(started[1..], Learn(known, started[0])))
  }

  predicate Fresh(started: Option<Pid>, known: set<Pid>) {
    started.Some? ==> started.value !in known
  }

  function Learn(known: set<Pid>, started: Option<Pid>): set<Pid> {
    if started.Some? then known + {started.value} else known
  }

  function LearnAll(known: set<Pid>, started: seq<Option<Pid>>): set<Pid>
    decreases |started|
  {
    if started == [] then known else LearnAll(Learn(known, started[0]), started[1..])
  }

  /** The messages the mailbox can hold next, and the answers the environment can give to them. */
  predicate Enabled(w: World, m: Message) {
    w.verdict == Continue &&
    match m
    case SubmitTask(_, found) => FindsIdle(w.pool, found)
    case StartWorkers(started) =>
      w.startPending && |started| == w.pool.size && AllFresh(started, w.known)
    case WorkerExit(pid, _, restarted) => pid in w.pool.workers && Fresh(restarted, w.known)
    case TaskComplete(pid) => pid in w.known
  }

  function Step(w: World, m: Message): World {
    var effect := Handle(w.pool, m);
    World(
      effect.pool,
      effect.verdict,
      w.startPending && !m.StartWorkers?,
      match m {
        case StartWorkers(started) => LearnAll(w.known, started)
        case WorkerExit(_, _, restarted) => Learn(w.known, restarted)
        case _ => w.known
      },
      w.trace + effect.outputs,
      w.lost + Vanished(w.pool, m, effect))
  }

  /** Lost by an exit: the task of the exiting worker, unless the handler re-enqueued it. */
  function Vanished(pool: Pool, m: Message, effect: Effect): seq<Task> {
    if m.WorkerExit? && m.pid in pool.processing && !(effect.outputs != [] && effect.outputs[0].Retried?)
    then [pool.processing[m.pid]]
    else []
  }

  predicate Legal(w: World, ms: seq<Message>)
    decreases |ms|
  {
    ms == [] || (Enabled(w, ms[0]) && Legal(Step(w, ms[0]), ms[1..]))
  }

  function Run(w: World, ms: seq<Message>): World
    requires Legal(w, ms)
    decreases |ms|
  {
    if ms == [] then w else Run(Step(w, ms[0]), ms[1..])
  }

  // ---------------------------------------------------------------- structural invariant

  predicate GoodAttempt(t: Task) { 1 <= t.attempt <= MAX_ATTEMPTS }

  /** Busy pids are worker pids, and there are never more workers than the configured size. */
  ghost predicate Inv(w: World) {
    && w.pool.processing.Keys <= w.pool.workers <= w.known
    && |w.pool.workers| <= w.pool.size
    && (w.startPending ==> w.pool.workers == {})
    && (forall t | t in w.pool.tasks :: GoodAttempt(t))
    && (forall pid | pid in w.pool.processing :: GoodAttempt(w.pool.processing[pid]))
    && (forall t | t in w.lost :: GoodAttempt(t))
    && (forall o | o in w.trace && o.Submitted? :: o.task.attempt == 1)
  }

  function PidsOf(started: seq<Option<Pid>>): set<Pid> {
    if started == [] then {} else
      (if started[0].Some? then {started[0].value} else {}) + PidsOf(started[1..])
  }

  lemma {:induction false} StartAllKeepsShape(pool: Pool, started: seq<Option<Pid>>, known: set<Pid>)
    requires AllFresh(started, known) && pool.workers <= known
    ensures var p := StartAll(pool, started);
      && p == pool.(workers := pool.workers + PidsOf(started))
      && p.workers <= LearnAll(known, started)
      && |p.workers| <= |pool.workers| + |started|
    decreases |started|
  {
    if started != [] {
      StartAllKeepsShape(AddWorker(pool, started[0]), started[1..], Learn(known, started[0]));
    }
  }

  predicate WillRetry(pool: Pool, pid: Pid, normal: bool) {
    !normal && pid in pool.processing && pool.processing[pid].attempt < 3
  }

  /** An exit removes the pid everywhere, restarts at most one worker, and re-enqueues at most its task. */
  lemma ExitEffect(pool: Pool, pid: Pid, normal: bool, restarted: Option<Pid>)
    requires pid in pool.workers && |pool.workers| <= pool.size
    ensures var e := HandleWorkerExit(pid, normal, pool, restarted); var last := pool.workers == {pid};
      && e.pool.size == pool.size
      && e.pool.processing == pool.processing - {pid}
      && e.pool.workers == pool.workers - {pid} +
                           (if !last && restarted.Some? then {restarted.value} else {})
      && e.verdict == (if last then Shutdown else Continue)
      && (if !last && WillRetry(pool, pid, normal) then
            var retried := pool.processing[pid].(attempt := pool.processing[pid].attempt + 1);
            e.pool.tasks == pool.tasks + [retried] && e.outputs == [Retried(retried)]
          else
            && e.pool.tasks == pool.tasks
            && e.outputs == if !last && !normal && pid in pool.processing
                            then [Abandoned(pool.processing[pid])] else [])
  {
    var rest := pool.workers - {pid};
    assert |rest| == |pool.workers| - 1;
    assert |rest| == 0 <==> pool.workers == {pid};
  }

  lemma StepKeepsInv(w: World, m: Message)
    requires Inv(w) && Enabled(w, m)
    ensures Inv(Step(w, m))
  {
    match m
    case StartWorkers(started) => StartKeepsInv(w, started);
    case SubmitTask(payload, found) =>
    case WorkerExit(pid, normal, restarted) => ExitKeepsInv(w, pid, normal, restarted);
    case TaskComplete(pid) =>
  }

  lemma StartKeepsInv(w: World, started: seq<Option<Pid>>)
    requires Inv(w) && Enabled(w, StartWorkers(started))
    ensures Inv(Step(w, StartWorkers(started)))
  {
    StartAllKeepsShape(w.pool, started, w.known);
  }

  lemma ExitKeepsInv(w: World, pid: Pid, normal: bool, restarted: Option<Pid>)
    requires Inv(w) && Enabled(w, WorkerExit(pid, normal, restarted))
    ensures Inv(Step(w, WorkerExit(pid, normal, restarted)))
  {
    ExitEffect(w.pool, pid, normal, restarted);
    var rest := w.pool.workers - {pid};
    assert |rest| == |w.pool.workers| - 1;
  }

  lemma {:induction false} RunKeepsInv(w: World, ms: seq<Message>)
    requires Inv(w) && Legal(w, ms)
    ensures Inv(Run(w, ms))
    decreases |ms|
  {
    if ms != [] {
      StepKeepsInv(w, ms[0]);
      RunKeepsInv(Step(w, ms[0]), ms[1..]);
    }
  }

  /** A dispatch goes to an idle worker and leaves every other assignment as it was. */
  lemma DispatchNeverOverwrites(w: World, m: Message, o: Output)
    requires Inv(w) && Enabled(w, m)
    requires o in Handle(w.pool, m).outputs && o.Dispatched?
    ensures o.pid in w.pool.workers && o.pid !in w.pool.processing
    ensures Step(w, m).pool.processing == w.pool.processing[o.pid := o.task]
    ensures o.task == (w.pool.tasks + [Task(m.payload, 1)])[0]
  {
  }

  /**
   A submission is accepted, and answered with success, exactly when its task is well formed: then
   the task goes to the end of the queue, whose head may leave for a worker at once. A refused one
   changes nothing.
   */
  lemma AcceptsExactlyValidTasks(w: World, payload: Payload, found: Option<Pid>)
    requires Enabled(w, SubmitTask(payload, found))
    ensures var after := Step(w, SubmitTask(payload, found));
      var task := Task(payload, 1); var queue := w.pool.tasks + [task];
      && (ValidTask(payload) <==>
            && (payload.chain == "ethereum" || payload.chain == "solana")
            && (payload.kind == "block" || payload.kind == "transaction" || payload.kind == "token")
            && payload.data.MapTerm?)
      && (Handle(w.pool, SubmitTask(payload, found)).reply == Some(Ok(())) <==> ValidTask(payload))
      && (ValidTask(payload) ==>
            && queue == DispatchOrder(after.trace[|w.trace|..]) + after.pool.tasks
            && w.trace + [Submitted(task)] <= after.trace
            && (IdleWorkers(w.pool) == {} <==> after.pool.tasks == queue)
            && (IdleWorkers(w.pool) == {} ==> after.pool.processing == w.pool.processing)
            && after == w.(trace := after.trace,
                           pool := w.pool.(tasks := after.pool.tasks, processing := after.pool.processing)))
      && (!ValidTask(payload) ==> after == w)
  {
    if ValidTask(payload) {
      var after := Step(w, SubmitTask(payload, found));
      SubmitEffect(w, payload, found);
      var shown := after.trace[|w.trace|..];
      Append([], Submitted(Task(payload, 1)));
      assert [] + [Submitted(Task(payload, 1))] == [Submitted(Task(payload, 1))];
      if found.Some? {
        var head := Dispatched(found.value, (w.pool.tasks + [Task(payload, 1)])[0]);
        Append([Submitted(Task(payload, 1))], head);
        assert shown == [Submitted(Task(payload, 1))] + [head];
      } else {
        assert shown == [Submitted(Task(payload, 1))];
      }
    } else {
      assert w.trace + [] == w.trace && w.lost + [] == w.lost;
    }
  }

  /** Starting adds the workers that could be started, and does nothing else: queued tasks stay queued. */
  lemma StartEffect(w: World, started: seq<Option<Pid>>)
    requires Enabled(w, StartWorkers(started)) && w.pool.workers <= w.known
    ensures var after := Step(w, StartWorkers(started));
      && (forall pid :: pid in after.pool.workers <==> pid in w.pool.workers || Some(pid) in started)
      && after.pool == w.pool.(workers := after.pool.workers)
      && after.trace == w.trace && after.lost == w.lost && after.verdict == Continue
  {
    StartAllKeepsShape(w.pool, started, w.known);
    PidsOfStarted(started);
    assert w.trace + [] == w.trace && w.lost + [] == w.lost;
  }

  lemma {:induction false} PidsOfStarted(started: seq<Option<Pid>>)
    ensures forall pid :: pid in PidsOf(started) <==> Some(pid) in started
  {
    if started != [] {
      assert started == [started[0]] + started[1..];
      PidsOfStarted(started[1..]);
    }
  }

  /** The answer to the message at position `i` of a run. */
  function ReplyAt(w: World, ms: seq<Message>, i: nat): Option<Reply>
    requires Legal(w, ms) && i < |ms|
    decreases i
  {
    if i == 0 then Handle(w.pool, ms[0]).reply else ReplyAt(Step(w, ms[0]), ms[1..], i - 1)
  }

  lemma {:induction false} TraceGrows(w: World, ms: seq<Message>)
    requires Legal(w, ms)
    ensures w.trace <= Run(w, ms).trace
    decreases |ms|
  {
    if ms != [] { TraceGrows(Step(w, ms[0]), ms[1..]); }
  }

  /** In a run, a submission is answered with success exactly when it is well formed, and then it is in the trace. */
  lemma {:induction false} AnsweredSubmissions(w: World, ms: seq<Message>, i: nat)
    requires Legal(w, ms) && i < |ms| && ms[i].SubmitTask?
    ensures ReplyAt(w, ms, i) == Some(Ok(())) <==> ValidTask(ms[i].payload)
    ensures ReplyAt(w, ms, i) == Some(Ok(())) ==> Submitted(Task(ms[i].payload, 1)) in Run(w, ms).trace
    decreases i
  {
    var next := Step(w, ms[0]);
    if i == 0 {
      AcceptsExactlyValidTasks(w, ms[0].payload, ms[0].firstIdle);
      TraceGrows(next, ms[1..]);
      if ValidTask(ms[0].payload) {
        var o := Submitted(Task(ms[0].payload, 1));
        assert (w.trace + [o])[|w.trace|] == o;
        assert Run(w, ms).trace[|w.trace|] == o;
      }
    } else {
      AnsweredSubmissions(next, ms[1..], i - 1);
    }
  }

  /** A worker that reports completion brings the server down: nothing is handled after it. */
  lemma CompletionEndsTheRun(w: World, before: seq<Message>, pid: Pid, after: seq<Message>)
    requires Legal(w, before + [TaskComplete(pid)] + after)
    ensures after == []
    decreases |before|
  {
    var ms := before + [TaskComplete(pid)] + after;
    if before == [] {
      assert ms[1..] == after;
    } else {
      assert ms[1..] == before[1..] + [TaskComplete(pid)] + after;
      CompletionEndsTheRun(Step(w, ms[0]), before[1..], pid, after);
    }
  }

  // ---------------------------------------------------------------- the weighted ledger

  /**
   Weights for one conservation law: a queued task weighs `queued`, a dispatch costs `dispatch`, and
   what remains, `queued - dispatch`, is carried by the worker the task went to.
   */
  datatype Weights = Weights(queued: Task -> int, dispatch: Task -> int) {
    function Carried(): Task -> int {
      (t: Task) => queued(t) - dispatch(t)
    }

    /** A retry hands the carried weight back to the queue unchanged. */
    ghost predicate Balanced() {
      forall t: Task {:trigger dispatch(t)} | 1 <= t.attempt < MAX_ATTEMPTS ::
        queued(t) - dispatch(t) == queued(Task(t.payload, t.attempt + 1))
    }

    function Submission(): Output -> int {
      (o: Output) => if o.Submitted? then queued(o.task) else 0
    }

    function Cost(): Output -> int {
      (o: Output) => if o.Dispatched? then dispatch(o.task) else 0
    }
  }

  /** Everything submitted is queued, carried by a worker, paid for dispatches, or lost. */
  ghost predicate Ledger(w: World, k: Weights) {
    SumSeq(w.trace, k.Submission()) ==
    SumSeq(w.pool.tasks, k.queued) + SumMap(w.pool.processing, k.Carried())
    + SumSeq(w.trace, k.Cost()) + SumSeq(w.lost, k.Carried())
  }

  lemma StepKeepsLedger(w: World, m: Message, k: Weights)
    requires Inv(w) && Enabled(w, m) && k.Balanced() && Ledger(w, k)
    ensures Ledger(Step(w, m), k)
  {
    match m
    case SubmitTask(payload, found) => SubmitKeepsLedger(w, payload, found, k);
    case StartWorkers(started) =>
      StartAllKeepsShape(w.pool, started, w.known);
      assert w.trace + [] == w.trace && w.lost + [] == w.lost;
    case WorkerExit(pid, normal, restarted) => ExitKeepsLedger(w, pid, normal, restarted, k);
    case TaskComplete(pid) =>
      assert w.trace + [] == w.trace && w.lost + [] == w.lost;
  }

  /** A well-formed submission enqueues its task, and sends the head of the queue to an idle worker. */
  lemma SubmitEffect(w: World, payload: Payload, found: Option<Pid>)
    requires ValidTask(payload)
    ensures var after := Step(w, SubmitTask(payload, found));
      var queue := w.pool.tasks + [Task(payload, 1)]; var enqueued := w.trace + [Submitted(Task(payload, 1))];
      && after.lost == w.lost
      && (match found
          case None =>
            after.pool.tasks == queue && after.trace == enqueued && after.pool.processing == w.pool.processing
          case Some(pid) =>
            && after.pool.tasks == queue[1..]
            && after.trace == enqueued + [Dispatched(pid, queue[0])]
            && after.pool.processing == w.pool.processing[pid := queue[0]])
  {
    assert w.lost + [] == w.lost;
  }

  lemma SubmitKeepsLedger(w: World, payload: Payload, found: Option<Pid>, k: Weights)
    requires Ledger(w, k) && (found.Some? ==> found.value !in w.pool.processing)
    ensures Ledger(Step(w, SubmitTask(payload, found)), k)
  {
    var after := Step(w, SubmitTask(payload, found));
    if ValidTask(payload) {
      var task := Task(payload, 1);
      var enqueued := w.(pool := w.pool.(tasks := w.pool.tasks + [task]), trace := w.trace + [Submitted(task)]);
      SubmitEffect(w, payload, found);
      EnqueueKeepsLedger(w, enqueued, task, k);
      match found
      case Some(pid) => DispatchKeepsLedger(enqueued, after, pid, k);
      case None => SameLedger(enqueued, after, k);
    } else {
      assert w.trace + [] == w.trace && w.lost + [] == w.lost;
      SameLedger(w, after, k);
    }
  }

  lemma EnqueueKeepsLedger(w: World, after: World, task: Task, k: Weights)
    requires Ledger(w, k) && after.pool.processing == w.pool.processing && after.lost == w.lost
    requires after.pool.tasks == w.pool.tasks + [task] && after.trace == w.trace + [Submitted(task)]
    ensures Ledger(after, k)
  {
    SumAppend(w.pool.tasks, task, k.queued);
    AppendOutput(w.trace, Submitted(task), k);
  }

  lemma DispatchKeepsLedger(w: World, after: World, pid: Pid, k: Weights)
    requires Ledger(w, k) && w.pool.tasks != [] && pid !in w.pool.processing && after.lost == w.lost
    requires after.pool.tasks == w.pool.tasks[1..]
    requires after.pool.processing == w.pool.processing[pid := w.pool.tasks[0]]
    requires after.trace == w.trace + [Dispatched(pid, w.pool.tasks[0])]
    ensures Ledger(after, k)
  {
    SumHead(w.pool.tasks, k.queued);
    SumMapAdd(w.pool.processing, pid, w.pool.tasks[0], k.Carried());
    AppendOutput(w.trace, Dispatched(pid, w.pool.tasks[0]), k);
  }

  lemma SameLedger(w: World, after: World, k: Weights)
    requires Ledger(w, k) && after.lost == w.lost && after.trace == w.trace
    requires after.pool.tasks == w.pool.tasks && after.pool.processing == w.pool.processing
    ensures Ledger(after, k)
  {
  }

  lemma AppendOutput(trace: seq<Output>, o: Output, k: Weights)
    ensures SumSeq(trace + [o], k.Submission()) == SumSeq(trace, k.Submission()) + k.Submission()(o)
    ensures SumSeq(trace + [o], k.Cost()) == SumSeq(trace, k.Cost()) + k.Cost()(o)
  {
    SumAppend(trace, o, k.Submission());
    SumAppend(trace, o, k.Cost());
  }

  lemma ExitKeepsLedger(w: World, pid: Pid, normal: bool, restarted: Option<Pid>, k: Weights)
    requires k.Balanced() && Ledger(w, k) && pid in w.pool.workers && |w.pool.workers| <= w.pool.size
    requires pid in w.pool.processing ==> GoodAttempt(w.pool.processing[pid])
    ensures Ledger(Step(w, WorkerExit(pid, normal, restarted)), k)
  {
    var after := Step(w, WorkerExit(pid, normal, restarted));
    ExitEffect(w.pool, pid, normal, restarted);
    assert w.trace + [] == w.trace && w.lost + [] == w.lost;
    if pid !in w.pool.processing {
      assert w.pool.processing - {pid} == w.pool.processing;
      SameLedger(w, after, k);
    } else {
      SumMapRemove(w.pool.processing, pid, k.Carried());
      if w.pool.workers != {pid} && WillRetry(w.pool, pid, normal) {
        RetryKeepsLedger(w, after, w.pool.processing[pid], k);
      } else {
        LossKeepsLedger(w, after, w.pool.processing[pid], k);
      }
    }
  }

  lemma LossKeepsLedger(w: World, after: World, task: Task, k: Weights)
    requires Ledger(w, k) && after.pool.tasks == w.pool.tasks
    requires after.trace == w.trace || after.trace == w.trace + [Abandoned(task)]
    requires after.lost == w.lost + [task]
    requires SumMap(w.pool.processing, k.Carried()) ==
             k.Carried()(task) + SumMap(after.pool.processing, k.Carried())
    ensures Ledger(after, k)
  {
    SumAppend(w.lost, task, k.Carried());
    AppendOutput(w.trace, Abandoned(task), k);
  }

  lemma RetryKeepsLedger(w: World, after: World, task: Task, k: Weights)
    requires Ledger(w, k) && k.Balanced() && 1 <= task.attempt < MAX_ATTEMPTS
    requires after.pool.tasks == w.pool.tasks + [Task(task.payload, task.attempt + 1)]
    requires after.trace == w.trace + [Retried(Task(task.payload, task.attempt + 1))]
    requires after.lost == w.lost
    requires SumMap(w.pool.processing, k.Carried()) ==
             k.Carried()(task) + SumMap(after.pool.processing, k.Carried())
    ensures Ledger(after, k)
  {
    var retried := Task(task.payload, task.attempt + 1);
    assert k.Carried()(task) == k.queued(task) - k.dispatch(task) == k.queued(retried);
    SumAppend(w.pool.tasks, retried, k.queued);
    AppendOutput(w.trace, Retried(retried), k);
  }

  lemma {:induction false} RunKeepsLedger(w: World, ms: seq<Message>, k: Weights)
    requires Inv(w) && Legal(w, ms) && k.Balanced() && Ledger(w, k)
    ensures Ledger(Run(w, ms), k)
    decreases |ms|
  {
    if ms != [] {
      StepKeepsInv(w, ms[0]);
      StepKeepsLedger(w, ms[0], k);
      RunKeepsLedger(Step(w, ms[0]), ms[1..], k);
    }
  }

  // ---------------------------------------------------------------- conservation and retry bound

  function Is(p: Payload): Task -> int {
    (t: Task) => if t.payload == p then 1 else 0
  }

  /** How often `p` was accepted into the queue by a submission. */
  function Accepted(w: World, p: Payload): int {
    SumSeq(w.trace, (o: Output) => if o.Submitted? && o.task.payload == p then 1 else 0)
  }

  /** How often `p` was sent to a worker. */
  function Sent(w: World, p: Payload): int {
    SumSeq(w.trace, (o: Output) => if o.Dispatched? && o.task.payload == p then 1 else 0)
  }

  ghost function OnWorkers(w: World, p: Payload): int {
    SumMap(w.pool.processing, Is(p))
  }

  lemma {:induction false} MapSumEqual(m: map<Pid, Task>, v: Task -> int, w: Task -> int)
    requires forall t :: v(t) == w(t)
    ensures SumMap(m, v) == SumMap(m, w)
    decreases |m|
  {
    if m != map[] {
      var k :| k in m;
      SumMapRemove(m, k, v);
      SumMapRemove(m, k, w);
      MapSumEqual(m - {k}, v, w);
    }
  }

  lemma EmptyLedger(size: PoolSize, k: Weights)
    ensures Inv(Init(size)) && Ledger(Init(size), k)
  {
  }

  /** How often `p` is queued or assigned in the state, be it the current or the last one. */
  ghost function Held(w: World, p: Payload): int {
    SumSeq(w.pool.tasks, Is(p)) + OnWorkers(w, p)
  }

  /** How often the server still has `p`: after a shutdown or a crash there is no server. */
  ghost function Alive(w: World, p: Payload): int {
    if w.verdict == Continue then Held(w, p) else 0
  }

  /** How often `p` was lost because its worker exited. */
  function LostByExit(w: World, p: Payload): int {
    SumSeq(w.lost, Is(p))
  }

  /** How often `p` went down with the server. */
  ghost function GoneWithServer(w: World, p: Payload): int {
    if w.verdict == Continue then 0 else Held(w, p)
  }

  /**
   Conservation: however the pool runs, every accepted payload is still with the server, or was lost
   by an exit, or went down with the server, with the right multiplicity. There is no fourth place:
   nothing ever takes a task off as done.
   */
  lemma TasksAreConserved(size: PoolSize, ms: seq<Message>, p: Payload)
    requires Legal(Init(size), ms)
    ensures var w := Run(Init(size), ms);
      Accepted(w, p) == Alive(w, p) + LostByExit(w, p) + GoneWithServer(w, p)
  {
    var k := Weights(Is(p), (t: Task) => 0);
    var w := Run(Init(size), ms);
    EmptyLedger(size, k);
    RunKeepsLedger(Init(size), ms, k);
    SumEqual(w.trace, k.Submission(), (o: Output) => if o.Submitted? && o.task.payload == p then 1 else 0);
    SumEqual(w.trace, k.Cost(), (o: Output) => 0);
    ZeroSum(w.trace);
    MapSumEqual(w.pool.processing, k.Carried(), Is(p));
    SumEqual(w.lost, k.Carried(), Is(p));
  }

  lemma {:induction false} ZeroSum(trace: seq<Output>)
    ensures SumSeq(trace, (o: Output) => 0) == 0
  {
    SumNonNegative(trace, (o: Output) => 0);
    if trace != [] { ZeroSum(trace[..|trace| - 1]); }
  }

  /** One unit per dispatch, four less the attempt number for a queued task. */
  function AttemptWeights(p: Payload): Weights {
    Weights((t: Task) => if t.payload == p then 4 - t.attempt else 0, Is(p))
  }

  /**
   Retry potential: for each payload, the dispatches made and the dispatches still allowed to
   tasks queued, assigned or lost by an exit always add up to three per submission. In a server that
   has ended, the allowance of what it last held is forgone.
   */
  lemma RetryPotential(size: PoolSize, ms: seq<Message>, p: Payload)
    requires Legal(Init(size), ms)
    ensures var w := Run(Init(size), ms); var k := AttemptWeights(p);
      3 * Accepted(w, p) == Sent(w, p) + SumSeq(w.pool.tasks, k.queued)
                            + SumMap(w.pool.processing, k.Carried()) + SumSeq(w.lost, k.Carried())
  {
    var k := AttemptWeights(p);
    var w := Run(Init(size), ms);
    EmptyLedger(size, k);
    RunKeepsLedger(Init(size), ms, k);
    SumEqual(w.trace, k.Cost(), (o: Output) => if o.Dispatched? && o.task.payload == p then 1 else 0);
    RunKeepsInv(Init(size), ms);
    SumScaled(w.trace, k.Submission(),
      (o: Output) => if o.Submitted? && o.task.payload == p then 1 else 0, MAX_ATTEMPTS);
  }

  /** No payload is ever sent to workers more than three times per submission. */
  lemma AtMostThreeDispatches(size: PoolSize, ms: seq<Message>, p: Payload)
    requires Legal(Init(size), ms)
    ensures Sent(Run(Init(size), ms), p) <= 3 * Accepted(Run(Init(size), ms), p)
  {
    var w := Run(Init(size), ms);
    var k := AttemptWeights(p);
    RetryPotential(size, ms, p);
    RunKeepsInv(Init(size), ms);
    SumNonNegative(w.pool.tasks, k.queued);
    SumMapNonNegative(w.pool.processing, k.Carried());
    SumNonNegative(w.lost, k.Carried());
  }

  // ---------------------------------------------------------------- losses

  /** Messages after which the server is gone: a completion, and the exit of the last worker. */
  predicate EndsServer(pool: Pool, m: Message) {
    m.TaskComplete? || (m.WorkerExit? && pool.workers == {m.pid})
  }

  /** The exiting worker had a task of this payload, and it does not come back. */
  predicate DropsTask(pool: Pool, m: Message, p: Payload) {
    && m.WorkerExit? && m.pid in pool.processing && pool.processing[m.pid].payload == p
    && (m.normal || pool.processing[m.pid].attempt == 3)
  }

  predicate Holds(pool: Pool, p: Payload) {
    || (exists t | t in pool.tasks :: t.payload == p)
    || (exists pid | pid in pool.processing :: pool.processing[pid].payload == p)
  }

  /** All that was accepted and will not be processed, by whatever cause. */
  ghost function Lost(w: World, p: Payload): int {
    LostByExit(w, p) + GoneWithServer(w, p)
  }

  lemma HeldIsCounted(w: World, p: Payload)
    ensures 0 <= Held(w, p) && (0 < Held(w, p) <==> Holds(w.pool, p))
  {
    SumNonNegative(w.pool.tasks, Is(p));
    SumMapNonNegative(w.pool.processing, Is(p));
    if t :| t in w.pool.tasks && t.payload == p {
      var i :| 0 <= i < |w.pool.tasks| && w.pool.tasks[i] == t;
      SumAtLeast(w.pool.tasks, i, Is(p));
    } else if pid :| pid in w.pool.processing && w.pool.processing[pid].payload == p {
      SumMapRemove(w.pool.processing, pid, Is(p));
      SumMapNonNegative(w.pool.processing - {pid}, Is(p));
    } else {
      NothingHeld(w, p);
    }
  }

  lemma NothingHeld(w: World, p: Payload)
    requires !Holds(w.pool, p)
    ensures Held(w, p) == 0
  {
    SumScaled(w.pool.tasks, Is(p), Is(p), 0);
    NoneOnWorkers(w.pool.processing, p);
  }

  lemma {:induction false} NoneOnWorkers(processing: map<Pid, Task>, p: Payload)
    requires forall pid | pid in processing :: processing[pid].payload != p
    ensures SumMap(processing, Is(p)) == 0
    decreases |processing|
  {
    if processing != map[] {
      var pid :| pid in processing;
      SumMapRemove(processing, pid, Is(p));
      NoneOnWorkers(processing - {pid}, p);
    }
  }

  /** What an exit does to the loss count and to what the state holds. */
  lemma ExitLoss(w: World, pid: Pid, normal: bool, restarted: Option<Pid>, p: Payload)
    requires Inv(w) && Enabled(w, WorkerExit(pid, normal, restarted))
    ensures var m := WorkerExit(pid, normal, restarted); var after := Step(w, m);
      if w.pool.workers == {pid} then
        LostByExit(after, p) + Held(after, p) == LostByExit(w, p) + Held(w, p)
      else
        LostByExit(after, p) == LostByExit(w, p) + if DropsTask(w.pool, m, p) then 1 else 0
  {
    var after := Step(w, WorkerExit(pid, normal, restarted));
    ExitEffect(w.pool, pid, normal, restarted);
    assert w.lost + [] == w.lost;
    if pid in w.pool.processing {
      SumMapRemove(w.pool.processing, pid, Is(p));
      SumAppend(w.lost, w.pool.processing[pid], Is(p));
    } else {
      assert w.pool.processing - {pid} == w.pool.processing;
    }
  }

  /**
   When accepted tasks are lost, and how many: a message that ends the server loses everything the
   server still has, queued or assigned. Any other message loses at most one task, the one of an
   exiting worker, exactly when the exit was normal or the attempt was the last one.
   */
  lemma LostExactlyWhen(w: World, m: Message, p: Payload)
    requires Inv(w) && Enabled(w, m)
    ensures Step(w, m).verdict != Continue <==> EndsServer(w.pool, m)
    ensures Lost(Step(w, m), p) - Lost(w, p) ==
      if EndsServer(w.pool, m) then Held(w, p) else if DropsTask(w.pool, m, p) then 1 else 0
    ensures Lost(Step(w, m), p) != Lost(w, p) <==>
      (EndsServer(w.pool, m) && Holds(w.pool, p)) || (!EndsServer(w.pool, m) && DropsTask(w.pool, m, p))
  {
    HeldIsCounted(w, p);
    match m
    case WorkerExit(pid, normal, restarted) =>
      ExitEffect(w.pool, pid, normal, restarted);
      ExitLoss(w, pid, normal, restarted, p);
    case SubmitTask(payload, found) => assert w.lost + [] == w.lost;
    case StartWorkers(started) => assert w.lost + [] == w.lost;
    case TaskComplete(pid) => assert w.lost + [] == w.lost;
  }

  /**
   Telemetry names a loss in one case alone: an abnormal exit on the last attempt, beside other
   workers. Every other loss is silent.
   */
  lemma LossIsReportedExactlyWhen(w: World, m: Message, p: Payload)
    requires Inv(w) && Enabled(w, m)
    ensures (exists o | o in Handle(w.pool, m).outputs :: o.Abandoned? && o.task.payload == p) <==>
      DropsTask(w.pool, m, p) && !m.normal && !EndsServer(w.pool, m)
  {
    if m.WorkerExit? {
      ExitEffect(w.pool, m.pid, m.normal, m.restarted);
      var out := Handle(w.pool, m).outputs;
      assert out != [] ==> out[0] in out;
    }
  }

  // ---------------------------------------------------------------- queue order

  /** Tasks in the order they entered the queue, first submissions and retries alike. */
  function Enqueued(trace: seq<Output>): seq<Task> {
    if trace == [] then [] else
      var o := trace[|trace| - 1];
      Enqueued(trace[..|trace| - 1]) + if o.Submitted? || o.Retried? then [o.task] else []
  }

  /** Tasks in the order they were sent to workers. */
  function DispatchOrder(trace: seq<Output>): seq<Task> {
    if trace == [] then [] else
      var o := trace[|trace| - 1];
      DispatchOrder(trace[..|trace| - 1]) + if o.Dispatched? then [o.task] else []
  }

  ghost predicate FifoAt(w: World) {
    DispatchOrder(w.trace) + w.pool.tasks == Enqueued(w.trace)
  }

  lemma Append(trace: seq<Output>, o: Output)
    ensures Enqueued(trace + [o]) == Enqueued(trace) + if o.Submitted? || o.Retried? then [o.task] else []
    ensures DispatchOrder(trace + [o]) == DispatchOrder(trace) + if o.Dispatched? then [o.task] else []
  {
    assert (trace + [o])[..|trace|] == trace;
  }

  lemma StepKeepsFifo(w: World, m: Message)
    requires Inv(w) && Enabled(w, m) && FifoAt(w)
    ensures FifoAt(Step(w, m))
  {
    match m
    case SubmitTask(payload, found) =>
      if ValidTask(payload) { SubmitKeepsFifo(w, payload, found); } else { assert w.trace + [] == w.trace; }
    case StartWorkers(started) =>
      StartAllKeepsShape(w.pool, started, w.known);
      assert w.trace + [] == w.trace;
    case WorkerExit(pid, normal, restarted) => ExitKeepsFifo(w, pid, normal, restarted);
    case TaskComplete(pid) => assert w.trace + [] == w.trace;
  }

  lemma ExitKeepsFifo(w: World, pid: Pid, normal: bool, restarted: Option<Pid>)
    requires FifoAt(w) && pid in w.pool.workers && |w.pool.workers| <= w.pool.size
    ensures FifoAt(Step(w, WorkerExit(pid, normal, restarted)))
  {
    ExitEffect(w.pool, pid, normal, restarted);
    OutputKeepsFifo(w, Step(w, WorkerExit(pid, normal, restarted)),
                    HandleWorkerExit(pid, normal, w.pool, restarted).outputs);
  }

  /** A retry enters trace and queue together; an abandoned task, or no output, leaves both orders. */
  lemma OutputKeepsFifo(w: World, after: World, out: seq<Output>)
    requires FifoAt(w) && after.trace == w.trace + out
    requires
      || (out == [] && after.pool.tasks == w.pool.tasks)
      || (|out| == 1 && out[0].Abandoned? && after.pool.tasks == w.pool.tasks)
      || (|out| == 1 && out[0].Retried? && after.pool.tasks == w.pool.tasks + [out[0].task])
    ensures FifoAt(after)
  {
    if out == [] {
      assert w.trace + [] == w.trace;
    } else {
      Append(w.trace, out[0]);
      assert out == [out[0]];
    }
  }

  lemma SubmitKeepsFifo(w: World, payload: Payload, found: Option<Pid>)
    requires FifoAt(w) && ValidTask(payload)
    ensures FifoAt(Step(w, SubmitTask(payload, found)))
  {
    var task := Task(payload, 1);
    var queue := w.pool.tasks + [task];
    SubmitEffect(w, payload, found);
    Append(w.trace, Submitted(task));
    assert Enqueued(w.trace + [Submitted(task)]) == DispatchOrder(w.trace) + queue;
    if found.Some? {
      Append(w.trace + [Submitted(task)], Dispatched(found.value, queue[0]));
      assert queue == [queue[0]] + queue[1..];
    }
  }

  /** First in, first out: what was sent, followed by what is queued, is what was enqueued. */
  lemma {:induction false} RunIsFifo(w: World, ms: seq<Message>)
    requires Inv(w) && Legal(w, ms) && FifoAt(w)
    ensures FifoAt(Run(w, ms))
    decreases |ms|
  {
    if ms != [] {
      StepKeepsInv(w, ms[0]);
      StepKeepsFifo(w, ms[0]);
      RunIsFifo(Step(w, ms[0]), ms[1..]);
    }
  }

  /** From start-up: the k-th task sent is the k-th task enqueued, and the queue holds the rest in order. */
  lemma FirstInFirstOut(size: PoolSize, ms: seq<Message>)
    requires Legal(Init(size), ms)
    ensures var w := Run(Init(size), ms);
      DispatchOrder(w.trace) + w.pool.tasks == Enqueued(w.trace)
  {
    RunIsFifo(Init(size), ms);
  }

  /** From start-up: only live workers are busy, and the pool never outgrows its size. */
  lemma PoolStaysWellFormed(size: PoolSize, ms: seq<Message>)
    requires Legal(Init(size), ms)
    ensures var p := Run(Init(size), ms).pool;
      p.processing.Keys <= p.workers && |p.processing| <= |p.workers| <= size
  {
    var p := Run(Init(size), ms).pool;
    RunKeepsInv(Init(size), ms);
    SizeIsFixed(Init(size), ms);
    Subset(p.processing.Keys, p.workers);
    assert |p.processing.Keys| == |p.processing|;
  }

  lemma {:induction false} SizeIsFixed(w: World, ms: seq<Message>)
    requires Inv(w) && Legal(w, ms)
    ensures Run(w, ms).pool.size == w.pool.size
    decreases |ms|
  {
    if ms != [] {
      var m := ms[0];
      if m.StartWorkers? { StartAllKeepsShape(w.pool, m.started, w.known); }
      StepKeepsInv(w, m);
      SizeIsFixed(Step(w, m), ms[1..]);
    }
  }

  lemma {:induction false} Subset(a: set<Pid>, b: set<Pid>)
    requires a <= b
    ensures |a| <= |b|
  {
    if a != {} {
      var x :| x in a;
      Subset(a - {x}, b - {x});
    }
  }

  // ---------------------------------------------------------------- where the queue is served

  function Submissions(w: World): int {
    SumSeq(w.trace, (o: Output) => if o.Submitted? then 1 else 0)
  }

  function Retries(w: World): int {
    SumSeq(w.trace, (o: Output) => if o.Retried? then 1 else 0)
  }

  function Dispatches(w: World): int {
    SumSeq(w.trace, (o: Output) => if o.Dispatched? then 1 else 0)
  }

  ghost predicate ServedAt(w: World) {
    Dispatches(w) <= Submissions(w) && |w.pool.tasks| == Submissions(w) + Retries(w) - Dispatches(w)
  }

  lemma CountAppended(w: World, w': World, o: Output)
    requires w'.trace == w.trace + [o]
    ensures Submissions(w') == Submissions(w) + if o.Submitted? then 1 else 0
    ensures Retries(w') == Retries(w) + if o.Retried? then 1 else 0
    ensures Dispatches(w') == Dispatches(w) + if o.Dispatched? then 1 else 0
  {
    SumAppend(w.trace, o, (o: Output) => if o.Submitted? then 1 else 0);
    SumAppend(w.trace, o, (o: Output) => if o.Retried? then 1 else 0);
    SumAppend(w.trace, o, (o: Output) => if o.Dispatched? then 1 else 0);
  }

  lemma StepKeepsService(w: World, m: Message)
    requires Inv(w) && Enabled(w, m) && ServedAt(w)
    ensures ServedAt(Step(w, m))
  {
    var after := Step(w, m);
    var out := Handle(w.pool, m).outputs;
    assert w.trace + [] == w.trace;
    match m
    case StartWorkers(started) => StartAllKeepsShape(w.pool, started, w.known);
    case SubmitTask(payload, found) =>
      if ValidTask(payload) {
        var between := w.(trace := w.trace + [out[0]]);
        CountAppended(w, between, out[0]);
        if found.Some? {
          assert after.trace == between.trace + [out[1]];
          CountAppended(between, after, out[1]);
        } else {
          assert after.trace == between.trace;
        }
      }
    case WorkerExit(pid, normal, restarted) =>
      ExitEffect(w.pool, pid, normal, restarted);
      if out != [] { CountAppended(w, after, out[0]); }
    case TaskComplete(pid) =>
  }

  lemma {:induction false} RunKeepsService(w: World, ms: seq<Message>)
    requires Inv(w) && Legal(w, ms) && ServedAt(w)
    ensures ServedAt(Run(w, ms))
    decreases |ms|
  {
    if ms != [] {
      StepKeepsInv(w, ms[0]);
      StepKeepsService(w, ms[0]);
      RunKeepsService(Step(w, ms[0]), ms[1..]);
    }
  }

  /**
   Retries are only served by later submissions: a pool never makes more dispatches than it has
   accepted submissions, so every retry ever made lengthens the queue by one, up to the server's end.
   */
  lemma RetriesNeverDrain(size: PoolSize, ms: seq<Message>)
    requires Legal(Init(size), ms)
    ensures var w := Run(Init(size), ms);
      Dispatches(w) <= Submissions(w) && Retries(w) <= |w.pool.tasks|
  {
    RunKeepsService(Init(size), ms);
  }

  /** No worker is idle while a task is queued. */
  predicate WorkConserving(pool: Pool) {
    pool.tasks == [] || IdleWorkers(pool) == {}
  }

  /** Which messages leave an idle worker beside a queued task, decided before they are handled. */
  predicate LeavesWorkWaiting(pool: Pool, m: Message) {
    match m
    case SubmitTask(_, _) => false
    case StartWorkers(started) => pool.tasks != [] && exists r | r in started :: r.Some?
    case WorkerExit(pid, normal, restarted) =>
      && pool.workers != {pid}
      && (pool.tasks != [] || WillRetry(pool, pid, normal))
      && (restarted.Some? || IdleWorkers(pool) - {pid} != {})
    case TaskComplete(_) => false
  }

  lemma {:induction false} StartAllAdds(pool: Pool, started: seq<Option<Pid>>, known: set<Pid>)
    requires AllFresh(started, known) && pool.workers <= known
    ensures StartAll(pool, started).workers != pool.workers <==> exists r | r in started :: r.Some?
    decreases |started|
  {
    if started != [] {
      var next := AddWorker(pool, started[0]);
      StartAllAdds(next, started[1..], Learn(known, started[0]));
      StartAllKeepsShape(next, started[1..], Learn(known, started[0]));
      assert started == [started[0]] + started[1..];
      assert started[0].Some? ==> started[0].value in next.workers;
    }
  }

  /** The pool stays work conserving across a message exactly when that message is harmless. */
  lemma StaysBusyExactlyWhen(w: World, m: Message)
    requires Inv(w) && Enabled(w, m) && WorkConserving(w.pool)
    ensures WorkConserving(Step(w, m).pool) <==> !LeavesWorkWaiting(w.pool, m)
  {
    match m
    case StartWorkers(started) =>
      StartAllKeepsShape(w.pool, started, w.known);
      StartAllAdds(w.pool, started, w.known);
    case SubmitTask(payload, found) =>
    case TaskComplete(pid) =>
    case WorkerExit(pid, normal, restarted) => ExitLeavesIdle(w, pid, normal, restarted);
  }

  lemma ExitLeavesIdle(w: World, pid: Pid, normal: bool, restarted: Option<Pid>)
    requires Inv(w) && Enabled(w, WorkerExit(pid, normal, restarted)) && WorkConserving(w.pool)
    ensures var m := WorkerExit(pid, normal, restarted);
      WorkConserving(Step(w, m).pool) <==> !LeavesWorkWaiting(w.pool, m)
  {
    var after := HandleWorkerExit(pid, normal, w.pool, restarted).pool;
    ExitEffect(w.pool, pid, normal, restarted);
    IdleAfterExit(w, pid, restarted, after);
    if w.pool.workers == {pid} {
      assert IdleWorkers(after) == {};
    }
  }

  lemma IdleAfterExit(w: World, pid: Pid, restarted: Option<Pid>, after: Pool)
    requires Inv(w) && pid in w.pool.workers && Fresh(restarted, w.known)
    requires after.processing == w.pool.processing - {pid}
    requires after.workers == w.pool.workers - {pid} +
             (if w.pool.workers != {pid} && restarted.Some? then {restarted.value} else {})
    ensures IdleWorkers(after) == {} <==>
      w.pool.workers == {pid} || (restarted.None? && IdleWorkers(w.pool) - {pid} == {})
  {
    assert forall p | p in IdleWorkers(w.pool) - {pid} :: p in IdleWorkers(after);
    if restarted.Some? && w.pool.workers != {pid} {
      assert restarted.value in IdleWorkers(after);
    }
  }

  /** Work conservation does fail: a task that arrives before the workers start waits beside them. */
  lemma IdleWorkerBesideBacklog(p: Payload)
    requires ValidTask(p)
    ensures var ms := [SubmitTask(p, None), StartWorkers([Some(7)])];
      Legal(Init(1), ms) && !WorkConserving(Run(Init(1), ms).pool)
  {
    var m0 := SubmitTask(p, None);
    var m1 := StartWorkers([Some(7)]);
    var w1 := Step(Init(1), m0);
    assert w1.pool.tasks == [Task(p, 1)];
    assert AllFresh([Some(7)], w1.known) by { assert [Some(7)][1..] == []; }
    var w2 := Step(w1, m1);
    assert [Some(7)][1..] == [];
    assert 7 in IdleWorkers(w2.pool);
    assert [m0, m1][1..] == [m1] && [m1][1..] == [];
    assert Legal(w2, []);
    assert Legal(w1, [m1]);
    assert Run(w1, [m1]) == w2;
  }
}
