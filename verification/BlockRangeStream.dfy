/**
 The Ethereum service's GetBlockRange: one spawner and one goroutine per block, joined by a
 semaphore channel with ten slots, a wait group, and an error channel with one slot.

 The protocol is a transition system whose actions are the atomic steps of the goroutines; the
 class below performs the same steps on mutable fields and runs them under any scheduler.
 */
module BlockRangeStream {
  import opened Outcomes
  import opened Sums

  const SLOTS := 10
  const MAX_INT64 := 0x7FFF_FFFF_FFFF_FFFF
  const MIN_INT64 := -0x8000_0000_0000_0000

  type Int64 = x: int | MIN_INT64 <= x <= MAX_INT64

  type Error = string

  /** Go's `blockNum++`: the largest value wraps to the smallest. */
  function Increment(x: Int64): Int64 {
    if x == MAX_INT64 then MIN_INT64 else x + 1
  }

  /** Where a worker stands; the last two steps are the deferred `<-sem` and `wg.Done()`. */
  datatype Phase = Fetching | Sending | Reporting(error: Error) | Releasing | Signalling | Gone

  /** What became of the worker's block, kept as history. */
  datatype Fate = Undecided | Delivered | Failed(error: Error)

  datatype Worker = Worker(num: Int64, phase: Phase, fate: Fate)

  datatype Spawner = AtLoop | AtAdd | AtGo | AtWait | AtClose | AtSelect | Returned(result: Option<Error>)

  datatype State = State(
    first: Int64, last: Int64, next: Int64, pc: Spawner,
    sem: int, semClosed: bool, wg: int, errCh: Option<Error>,
    workers: seq<Worker>, sent: seq<Int64>)

  /** One step of the spawner, or of worker `i`; a fetch or a send may fail with `fault`. */
  datatype Action = Spawn | Work(i: nat, fault: Option<Error>)

  function Start(first: Int64, last: Int64): State {
    State(first, last, first, AtLoop, 0, false, 0, None, [], [])
  }

  predicate Enabled(s: State, a: Action) {
    match a
    case Spawn => SpawnerCanStep(s)
    case Work(i, _) => i < |s.workers| && WorkerCanStep(s, s.workers[i])
  }

  /** The spawner blocks on a full semaphore and on a wait group that is not zero. */
  predicate SpawnerCanStep(s: State) {
    match s.pc
    case AtLoop => s.next > s.last || s.sem < SLOTS
    case AtWait => s.wg == 0
    case Returned(_) => false
    case _ => true
  }

  /** A worker blocks only on receiving from an empty, open semaphore. */
  predicate WorkerCanStep(s: State, w: Worker) {
    match w.phase
    case Releasing => s.sem > 0 || s.semClosed
    case Gone => false
    case _ => true
  }

  function Step(s: State, a: Action): State
    requires Enabled(s, a)
  {
    match a
    case Spawn => SpawnerStep(s)
    case Work(i, fault) => WorkerStep(s, i, fault)
  }

  function SpawnerStep(s: State): State
    requires SpawnerCanStep(s)
  {
    match s.pc
    case AtLoop =>
      if s.next <= s.last then s.(sem := s.sem + 1, pc := AtAdd) else s.(pc := AtWait)
    case AtAdd => s.(wg := s.wg + 1, pc := AtGo)
    case AtGo =>
      s.(workers := s.workers + [Worker(s.next, Fetching, Undecided)],
         next := Increment(s.next), pc := AtLoop)
    case AtWait => s.(pc := AtClose)
    case AtClose => s.(semClosed := true, pc := AtSelect)
    case AtSelect => s.(errCh := None, pc := Returned(s.errCh))
  }

  function WorkerStep(s: State, i: nat, fault: Option<Error>): State
    requires i < |s.workers| && WorkerCanStep(s, s.workers[i])
  {
    var w := s.workers[i];
    match w.phase
    case Fetching =>
      if fault.None? then s.(workers := s.workers[i := w.(phase := Sending)])
      else s.(workers := s.workers[i := w.(phase := Reporting(fault.value), fate := Failed(fault.value))])
    case Sending =>
      if fault.None? then
        s.(workers := s.workers[i := w.(phase := Releasing, fate := Delivered)], sent := s.sent + [w.num])
      else s.(workers := s.workers[i := w.(phase := Reporting(fault.value), fate := Failed(fault.value))])
    case Reporting(e) =>
      s.(workers := s.workers[i := w.(phase := Releasing)],
         errCh := if s.errCh.None? then Some(e) else s.errCh)
    case Releasing =>
      s.(workers := s.workers[i := w.(phase := Signalling)], sem := if s.sem > 0 then s.sem - 1 else s.sem)
    case Signalling => s.(workers := s.workers[i := w.(phase := Gone)], wg := s.wg - 1)
  }

  predicate Legal(s: State, actions: seq<Action>)
    decreases |actions|
  {
    actions == [] || (Enabled(s, actions[0]) && Legal(Step(s, actions[0]), actions[1..]))
  }

  function Run(s: State, actions: seq<Action>): State
    requires Legal(s, actions)
    decreases |actions|
  {
    if actions == [] then s else Run(Step(s, actions[0]), actions[1..])
  }

  // ---------------------------------------------------------------- invariant

  predicate HoldsSlot(w: Worker) {
    w.phase != Signalling && w.phase != Gone
  }

  function Slot(): Worker -> int {
    (w: Worker) => if HoldsSlot(w) then 1 else 0
  }

  function Live(): Worker -> int {
    (w: Worker) => if w.phase == Gone then 0 else 1
  }

  function SpawnerSlot(pc: Spawner): int {
    if pc == AtAdd || pc == AtGo then 1 else 0
  }

  function SpawnerWait(pc: Spawner): int {
    if pc == AtGo then 1 else 0
  }

  predicate Looping(pc: Spawner) {
    pc.AtLoop? || pc.AtAdd? || pc.AtGo?
  }

  /** The two counters are exactly what the goroutines hold, and no more than ten slots are held. */
  ghost predicate Counted(s: State) {
    && s.sem == SumSeq(s.workers, Slot()) + SpawnerSlot(s.pc)
    && s.wg == SumSeq(s.workers, Live()) + SpawnerWait(s.pc)
    && s.sem <= SLOTS
  }

  /** Blocks are handed out in order, one worker each, and the spawner leaves the loop only at the end. */
  ghost predicate HandedOut(s: State) {
    && s.first <= s.next && (s.first <= s.last ==> s.next <= s.last + 1) && (s.first > s.last ==> s.next == s.first)
    && |s.workers| == s.next - s.first
    && (forall i | 0 <= i < |s.workers| :: s.workers[i].num == s.first + i)
    && (s.pc.AtAdd? || s.pc.AtGo? ==> s.next <= s.last)
    && (!Looping(s.pc) ==> s.next > s.last)
    && (s.semClosed <==> s.pc.AtSelect? || s.pc.Returned?)
    && (s.pc.AtClose? || s.semClosed ==> forall w | w in s.workers :: w.phase == Gone)
  }

  predicate Consistent(w: Worker) {
    match w.phase
    case Fetching => w.fate == Undecided
    case Sending => w.fate == Undecided
    case Reporting(e) => w.fate == Failed(e)
    case _ => w.fate != Undecided
  }

  /** What was sent is what workers delivered, once each. */
  ghost predicate Recorded(s: State) {
    && (forall w | w in s.workers :: Consistent(w))
    && (forall n | n in s.sent :: s.first <= n < s.next)
    && (forall i | 0 <= i < |s.workers| :: s.workers[i].fate == Delivered <==> s.workers[i].num in s.sent)
    && (forall i, j | 0 <= i < j < |s.sent| :: s.sent[i] != s.sent[j])
  }

  /** The error that is, or was, in the one-slot channel. */
  function Kept(s: State): Option<Error> {
    if s.pc.Returned? then s.pc.result else s.errCh
  }

  predicate Reported(w: Worker) {
    w.fate.Failed? && !w.phase.Reporting?
  }

  /** The channel is empty until a worker reports, and then holds an error that a worker reported. */
  ghost predicate ErrorKept(s: State) {
    match Kept(s)
    case None => forall w | w in s.workers :: !Reported(w)
    case Some(e) => exists w | w in s.workers :: Reported(w) && w.fate == Failed(e)
  }

  ghost predicate Inv(s: State) {
    s.last < MAX_INT64 && Counted(s) && HandedOut(s) && Recorded(s) && ErrorKept(s)
  }

  lemma StartIsGood(first: Int64, last: Int64)
    requires last < MAX_INT64
    ensures Inv(Start(first, last))
  {
  }

  lemma StepKeepsCounted(s: State, a: Action)
    requires Inv(s) && Enabled(s, a)
    ensures Counted(Step(s, a))
  {
    match a
    case Spawn => SpawnKeepsCounted(s);
    case Work(i, fault) => WorkKeepsCounted(s, i, fault);
  }

  lemma SpawnKeepsCounted(s: State)
    requires Counted(s) && HandedOut(s) && SpawnerCanStep(s)
    ensures Counted(SpawnerStep(s))
  {
    SumAppend(s.workers, Worker(s.next, Fetching, Undecided), Slot());
    SumAppend(s.workers, Worker(s.next, Fetching, Undecided), Live());
  }

  lemma WorkKeepsCounted(s: State, i: nat, fault: Option<Error>)
    requires Counted(s) && i < |s.workers| && WorkerCanStep(s, s.workers[i])
    ensures Counted(WorkerStep(s, i, fault))
  {
    var w := WorkerStep(s, i, fault).workers[i];
    SumUpdate(s.workers, i, w, Slot());
    SumUpdate(s.workers, i, w, Live());
    SumAtLeast(s.workers, i, Slot());
  }

  lemma NobodyLive(workers: seq<Worker>)
    requires SumSeq(workers, Live()) <= 0
    ensures forall w | w in workers :: w.phase == Gone
  {
    forall w | w in workers ensures w.phase == Gone {
      var i :| 0 <= i < |workers| && workers[i] == w;
      SumAtLeast(workers, i, Live());
    }
  }

  lemma SpawnKeepsHandedOut(s: State)
    requires s.last < MAX_INT64 && Counted(s) && HandedOut(s) && SpawnerCanStep(s)
    ensures HandedOut(SpawnerStep(s))
  {
    if s.pc.AtWait? { NobodyLive(s.workers); }
  }

  lemma WorkKeepsHandedOut(s: State, i: nat, fault: Option<Error>)
    requires HandedOut(s) && i < |s.workers| && WorkerCanStep(s, s.workers[i])
    ensures HandedOut(WorkerStep(s, i, fault))
  {
    assert s.workers[i] in s.workers;
  }

  lemma StepKeepsHandedOut(s: State, a: Action)
    requires Inv(s) && Enabled(s, a)
    ensures HandedOut(Step(s, a))
  {
    match a
    case Spawn => SpawnKeepsHandedOut(s);
    case Work(i, fault) => WorkKeepsHandedOut(s, i, fault);
  }

  lemma SpawnKeepsRecorded(s: State)
    requires s.last < MAX_INT64 && HandedOut(s) && Recorded(s) && SpawnerCanStep(s)
    ensures Recorded(SpawnerStep(s))
  {
  }

  lemma WorkKeepsRecorded(s: State, i: nat, fault: Option<Error>)
    requires HandedOut(s) && Recorded(s) && i < |s.workers| && WorkerCanStep(s, s.workers[i])
    ensures Recorded(WorkerStep(s, i, fault))
  {
    var w := s.workers[i];
    var t := WorkerStep(s, i, fault);
    assert w in s.workers && Consistent(w);
    if w.phase.Sending? && fault.None? {
      assert w.num !in s.sent;
      assert forall n :: n in t.sent <==> n in s.sent || n == w.num;
    }
  }

  lemma StepKeepsRecorded(s: State, a: Action)
    requires Inv(s) && Enabled(s, a)
    ensures Recorded(Step(s, a))
  {
    match a
    case Spawn => SpawnKeepsRecorded(s);
    case Work(i, fault) => WorkKeepsRecorded(s, i, fault);
  }

  lemma SpawnKeepsError(s: State)
    requires ErrorKept(s) && SpawnerCanStep(s)
    ensures ErrorKept(SpawnerStep(s))
  {
    if s.pc.AtGo? && s.errCh.Some? {
      var w :| w in s.workers && Reported(w) && w.fate == Failed(s.errCh.value);
      assert w in SpawnerStep(s).workers;
    }
  }

  lemma WorkKeepsError(s: State, i: nat, fault: Option<Error>)
    requires HandedOut(s) && Recorded(s) && ErrorKept(s) && i < |s.workers| && WorkerCanStep(s, s.workers[i])
    ensures ErrorKept(WorkerStep(s, i, fault))
  {
    var t := WorkerStep(s, i, fault);
    assert s.workers[i] in s.workers && Consistent(s.workers[i]);
    if Kept(s).Some? {
      var j :| 0 <= j < |s.workers| && Reported(s.workers[j]) && s.workers[j].fate == Failed(Kept(s).value);
      assert t.workers[j] in t.workers && Reported(t.workers[j]);
    } else {
      assert t.workers[i] in t.workers;
    }
  }

  lemma StepKeepsError(s: State, a: Action)
    requires Inv(s) && Enabled(s, a)
    ensures ErrorKept(Step(s, a))
  {
    match a
    case Spawn => SpawnKeepsError(s);
    case Work(i, fault) => WorkKeepsError(s, i, fault);
  }

  lemma StepKeepsInv(s: State, a: Action)
    requires Inv(s) && Enabled(s, a)
    ensures Inv(Step(s, a))
  {
    StepKeepsCounted(s, a);
    StepKeepsHandedOut(s, a);
    StepKeepsRecorded(s, a);
    StepKeepsError(s, a);
  }

  lemma {:induction false} RunKeepsInv(s: State, actions: seq<Action>)
    requires Inv(s) && Legal(s, actions)
    ensures Inv(Run(s, actions))
    decreases |actions|
  {
    if actions != [] {
      StepKeepsInv(s, actions[0]);
      RunKeepsInv(Step(s, actions[0]), actions[1..]);
    }
  }

  // ---------------------------------------------------------------- the actions of a run

  lemma {:induction false} RunThenStep(s: State, actions: seq<Action>, a: Action)
    requires Legal(s, actions) && Enabled(Run(s, actions), a)
    ensures Legal(s, actions + [a]) && Run(s, actions + [a]) == Step(Run(s, actions), a)
    decreases |actions|
  {
    if actions == [] {
      assert [a][1..] == [];
      assert Legal(Step(s, a), []);
    } else {
      RunThenStep(Step(s, actions[0]), actions[1..], a);
      assert (actions + [a])[1..] == actions[1..] + [a];
    }
  }

  lemma {:induction false} LastStep(s: State, actions: seq<Action>)
    requires Legal(s, actions) && actions != []
    ensures var n := |actions| - 1;
      Legal(s, actions[..n]) && Enabled(Run(s, actions[..n]), actions[n])
      && Run(s, actions) == Step(Run(s, actions[..n]), actions[n])
    decreases |actions|
  {
    var n := |actions| - 1;
    if n > 0 {
      LastStep(Step(s, actions[0]), actions[1..]);
      assert actions[1..][..n - 1] == actions[..n][1..];
    }
  }

  /**
   What worker `i` met on its steps, in order. Its first step is the fetch and, if that went well,
   its second is the send; what the others are offered has no meaning.
   */
  function Faults(actions: seq<Action>, i: nat): seq<Option<Error>> {
    if actions == [] then []
    else
      var a := actions[|actions| - 1];
      Faults(actions[..|actions| - 1], i) + if a.Work? && a.i == i then [a.fault] else []
  }

  /** The error a worker met on its fetch or on its send. */
  function Met(faults: seq<Option<Error>>): Option<Error> {
    if faults == [] then None
    else if faults[0].Some? || |faults| == 1 then faults[0]
    else faults[1]
  }

  /** The worker has fetched and sent its block. */
  predicate HasSent(faults: seq<Option<Error>>) {
    |faults| >= 2 && faults[0].None? && faults[1].None?
  }

  /** The blocks in the order of the steps that sent them. */
  function Sends(first: int, actions: seq<Action>): seq<int> {
    if actions == [] then []
    else
      var n := |actions| - 1;
      var a := actions[n];
      Sends(first, actions[..n]) +
      if a.Work? && a.fault.None? && Faults(actions[..n], a.i) == [None] then [first + a.i] else []
  }

  /** What the next step of a worker reports: the error it met on the step before. */
  function Report(faults: seq<Option<Error>>): Option<Error> {
    if |faults| == 1 || (|faults| == 2 && faults[0].None?) then faults[|faults| - 1] else None
  }

  /** The earliest error that a worker reported. */
  function FirstReport(actions: seq<Action>): Option<Error> {
    if actions == [] then None
    else
      var n := |actions| - 1;
      var earlier := FirstReport(actions[..n]);
      if earlier.None? && actions[n].Work? then Report(Faults(actions[..n], actions[n].i)) else earlier
  }

  /** A worker's phase once it has `left` steps behind it since its report or its send. */
  function PhaseAtEnd(done: nat): Phase {
    if done == 0 then Releasing else if done == 1 then Signalling else Gone
  }

  /** A worker after the steps on which it met `faults`. */
  ghost predicate Lived(w: Worker, faults: seq<Option<Error>>) {
    var n := |faults|;
    if n == 0 then w.phase == Fetching && w.fate == Undecided
    else if faults[0].Some? then
      && w.fate == Failed(faults[0].value)
      && w.phase == if n == 1 then Reporting(faults[0].value) else PhaseAtEnd(n - 2)
    else if n == 1 then w.phase == Sending && w.fate == Undecided
    else if faults[1].Some? then
      && w.fate == Failed(faults[1].value)
      && w.phase == if n == 2 then Reporting(faults[1].value) else PhaseAtEnd(n - 3)
    else w.fate == Delivered && w.phase == PhaseAtEnd(n - 2)
  }

  /** The state is what the actions make it. */
  ghost predicate Follows(s: State, actions: seq<Action>) {
    && (forall i: nat | i < |s.workers| :: Lived(s.workers[i], Faults(actions, i)))
    && (forall i: nat | i >= |s.workers| :: Faults(actions, i) == [])
    && s.sent == Sends(s.first, actions)
    && Kept(s) == FirstReport(actions)
  }

  lemma FaultsAppend(actions: seq<Action>, a: Action, i: nat)
    ensures Faults(actions + [a], i) == Faults(actions, i) + if a.Work? && a.i == i then [a.fault] else []
  {
    assert (actions + [a])[..|actions|] == actions;
  }

  lemma SpawnFollows(s: State, actions: seq<Action>)
    requires Follows(s, actions) && SpawnerCanStep(s)
    ensures Follows(SpawnerStep(s), actions + [Spawn])
  {
    var t := SpawnerStep(s);
    assert (actions + [Spawn])[..|actions|] == actions;
    forall i: nat ensures Faults(actions + [Spawn], i) == Faults(actions, i) { FaultsAppend(actions, Spawn, i); }
    forall i: nat | i < |t.workers| ensures Lived(t.workers[i], Faults(actions, i)) {
      assert i < |s.workers| ==> t.workers[i] == s.workers[i];
    }
  }

  lemma WorkerLives(s: State, i: nat, fault: Option<Error>, faults: seq<Option<Error>>)
    requires i < |s.workers| && WorkerCanStep(s, s.workers[i]) && Lived(s.workers[i], faults)
    ensures Lived(WorkerStep(s, i, fault).workers[i], faults + [fault])
  {
  }

  lemma WorkFollows(s: State, actions: seq<Action>, i: nat, fault: Option<Error>)
    requires HandedOut(s) && Follows(s, actions) && i < |s.workers| && WorkerCanStep(s, s.workers[i])
    ensures Follows(WorkerStep(s, i, fault), actions + [Work(i, fault)])
  {
    var a := Work(i, fault);
    var t := WorkerStep(s, i, fault);
    assert (actions + [a])[..|actions|] == actions;
    forall j: nat
      ensures Faults(actions + [a], j) == Faults(actions, j) + if j == i then [fault] else []
    {
      FaultsAppend(actions, a, j);
    }
    WorkerLives(s, i, fault, Faults(actions, i));
    assert s.workers[i] in s.workers;
    forall j: nat | j < |t.workers| ensures Lived(t.workers[j], Faults(actions + [a], j)) {
      if j != i { assert t.workers[j] == s.workers[j]; }
    }
  }

  lemma {:induction false} RunFollows(s: State, actions: seq<Action>)
    requires Inv(s) && s.workers == [] && s.sent == [] && Kept(s).None? && Legal(s, actions)
    ensures Follows(Run(s, actions), actions)
    decreases |actions|
  {
    if actions != [] {
      var n := |actions| - 1;
      LastStep(s, actions);
      RunFollows(s, actions[..n]);
      RunKeepsInv(s, actions[..n]);
      assert actions == actions[..n] + [actions[n]];
      match actions[n]
      case Spawn => SpawnFollows(Run(s, actions[..n]), actions[..n]);
      case Work(i, fault) => WorkFollows(Run(s, actions[..n]), actions[..n], i, fault);
    }
  }

  /**
   At any time, in terms of the actions alone: what has been sent, in order, is what the steps that
   sent it say, a block being sent exactly when its worker's fetch and send met no error; and the
   error kept for the caller is the earliest one reported.
   */
  lemma OutcomesDecide(first: Int64, last: Int64, actions: seq<Action>)
    requires last < MAX_INT64 && Legal(Start(first, last), actions)
    ensures var s := Run(Start(first, last), actions);
      && s.sent == Sends(first, actions)
      && (forall i: nat | i < |s.workers| :: s.workers[i].num in s.sent <==> HasSent(Faults(actions, i)))
      && Kept(s) == FirstReport(actions)
  {
    var s := Run(Start(first, last), actions);
    StartIsGood(first, last);
    RunKeepsInv(Start(first, last), actions);
    RunFollows(Start(first, last), actions);
    BoundsAreFixed(Start(first, last), actions);
    forall i: nat | i < |s.workers| ensures s.workers[i].num in s.sent <==> HasSent(Faults(actions, i)) {
      assert Lived(s.workers[i], Faults(actions, i));
    }
  }

  // ---------------------------------------------------------------- what a call returns

  /** `sent` holds every block of [first, last] exactly once, in some order, and nothing else. */
  ghost predicate SentExactlyOnce(sent: seq<Int64>, first: Int64, last: Int64) {
    && (forall n: Int64 :: n in sent <==> first <= n <= last)
    && (forall i, j | 0 <= i < j < |sent| :: sent[i] != sent[j])
  }

  /** Every block of [first, last] had its own worker, and all of them are finished. */
  ghost predicate AllAttempted(workers: seq<Worker>, first: Int64, last: Int64) {
    && |workers| == (if first <= last then last - first + 1 else 0)
    && (forall i | 0 <= i < |workers| :: workers[i].num == first + i && workers[i].phase == Gone)
  }

  /** Nil exactly when no fetch and no send met an error; else the error is one that was met. */
  ghost predicate Truthful(result: Option<Error>, blocks: nat, actions: seq<Action>) {
    && (result.None? <==> forall i: nat | i < blocks :: Met(Faults(actions, i)).None?)
    && (result.Some? ==> exists i: nat | i < blocks :: Met(Faults(actions, i)) == result)
    && result == FirstReport(actions)
  }

  function Blocks(first: int, last: int): nat {
    if first <= last then last - first + 1 else 0
  }

  /** A block was sent exactly when its worker met no error. */
  ghost predicate SentUnlessFailed(sent: seq<int>, first: int, last: int, actions: seq<Action>) {
    forall i: nat | i < Blocks(first, last) :: first + i in sent <==> Met(Faults(actions, i)).None?
  }

  /**
   Whatever the schedule: a call that returns has tried every block; it returns nil exactly when
   every fetch and send succeeded, and then each block was sent exactly once; otherwise it returns
   the error that was reported first, and what was sent is what the other workers delivered.
   */
  lemma ReturnTellsTheTruth(first: Int64, last: Int64, actions: seq<Action>)
    requires last < MAX_INT64 && Legal(Start(first, last), actions)
    requires Run(Start(first, last), actions).pc.Returned?
    ensures var s := Run(Start(first, last), actions);
      && AllAttempted(s.workers, first, last)
      && Truthful(s.pc.result, Blocks(first, last), actions)
      && s.sent == Sends(first, actions)
      && (s.pc.result.None? <==> SentExactlyOnce(s.sent, first, last))
      && SentUnlessFailed(s.sent, first, last, actions)
  {
    StartIsGood(first, last);
    RunKeepsInv(Start(first, last), actions);
    RunFollows(Start(first, last), actions);
    BoundsAreFixed(Start(first, last), actions);
    ReturnedState(Run(Start(first, last), actions), actions);
  }

  lemma ReturnedState(s: State, actions: seq<Action>)
    requires Inv(s) && s.pc.Returned? && Follows(s, actions)
    ensures AllAttempted(s.workers, s.first, s.last)
    ensures Truthful(s.pc.result, Blocks(s.first, s.last), actions)
    ensures s.sent == Sends(s.first, actions)
    ensures s.pc.result.None? <==> SentExactlyOnce(s.sent, s.first, s.last)
    ensures SentUnlessFailed(s.sent, s.first, s.last, actions)
  {
    FatesDecide(s);
    ResultIsTruthful(s, actions);
    BlocksAreSentOrFailed(s, actions);
  }

  /** At return each worker's fate is decided, and together they decide what is returned and sent. */
  lemma FatesDecide(s: State)
    requires Inv(s) && s.pc.Returned?
    ensures AllAttempted(s.workers, s.first, s.last)
    ensures s.pc.result.None? <==> forall w | w in s.workers :: w.fate == Delivered
    ensures s.pc.result.None? <==> SentExactlyOnce(s.sent, s.first, s.last)
    ensures s.pc.result.Some? ==> exists w | w in s.workers :: w.fate == Failed(s.pc.result.value)
  {
    forall w | w in s.workers ensures w.phase == Gone && (w.fate == Delivered || w.fate.Failed?) {
      assert Consistent(w);
    }
    if s.pc.result.Some? {
      var i :| 0 <= i < |s.workers| && s.workers[i].fate == Failed(s.pc.result.value);
      assert s.workers[i].num !in s.sent;
    } else {
      forall n: Int64 | s.first <= n <= s.last ensures n in s.sent {
        assert s.workers[n - s.first] in s.workers;
      }
    }
  }

  /** A worker that is gone has met an error exactly if it failed, and then that one. */
  lemma MetIsFate(s: State, actions: seq<Action>, i: nat)
    requires Follows(s, actions) && i < |s.workers| && s.workers[i].phase == Gone
    ensures Met(Faults(actions, i)) == (if s.workers[i].fate.Failed? then Some(s.workers[i].fate.error) else None)
    ensures s.workers[i].fate != Undecided
  {
    assert Lived(s.workers[i], Faults(actions, i));
  }

  lemma BlocksAreSentOrFailed(s: State, actions: seq<Action>)
    requires HandedOut(s) && Recorded(s) && s.pc.Returned? && Follows(s, actions)
    ensures SentUnlessFailed(s.sent, s.first, s.last, actions)
  {
    forall i: nat | i < Blocks(s.first, s.last)
      ensures s.first + i in s.sent <==> Met(Faults(actions, i)).None?
    {
      assert s.workers[i] in s.workers;
      MetIsFate(s, actions, i);
    }
  }

  lemma ResultIsTruthful(s: State, actions: seq<Action>)
    requires Inv(s) && s.pc.Returned? && Follows(s, actions) && |s.workers| == Blocks(s.first, s.last)
    requires s.pc.result.None? <==> forall w | w in s.workers :: w.fate == Delivered
    requires s.pc.result.Some? ==> exists w | w in s.workers :: w.fate == Failed(s.pc.result.value)
    ensures Truthful(s.pc.result, Blocks(s.first, s.last), actions)
  {
    forall i: nat | i < |s.workers|
      ensures Met(Faults(actions, i)) == (if s.workers[i].fate.Failed? then Some(s.workers[i].fate.error) else None)
      ensures s.workers[i].fate != Undecided
    {
      assert s.workers[i] in s.workers;
      MetIsFate(s, actions, i);
    }
    if s.pc.result.Some? {
      var i :| 0 <= i < |s.workers| && s.workers[i].fate == Failed(s.pc.result.value);
      assert Met(Faults(actions, i)) == s.pc.result;
    } else {
      forall i: nat | i < |s.workers| ensures Met(Faults(actions, i)).None? {
        assert s.workers[i] in s.workers;
      }
    }
  }

  lemma {:induction false} BoundsAreFixed(s: State, actions: seq<Action>)
    requires Legal(s, actions)
    ensures Run(s, actions).first == s.first && Run(s, actions).last == s.last
    decreases |actions|
  {
    if actions != [] { BoundsAreFixed(Step(s, actions[0]), actions[1..]); }
  }

  /** Later errors are discarded: the first one reported is the one the call will return. */
  lemma {:induction false} FirstErrorWins(s: State, actions: seq<Action>)
    requires Inv(s) && Legal(s, actions) && Kept(s).Some?
    ensures Kept(Run(s, actions)) == Kept(s)
    decreases |actions|
  {
    if actions != [] {
      StepKeepsInv(s, actions[0]);
      FirstErrorWins(Step(s, actions[0]), actions[1..]);
    }
  }

  // ---------------------------------------------------------------- bounds, deadlock, termination

  /**
   In every reachable state at most ten workers hold a slot and the loop waits exactly while ten do,
   a release never blocks, the wait group is never negative, and nothing is sent on the semaphore
   after it is closed.
   */
  lemma ResourcesAreSafe(first: Int64, last: Int64, actions: seq<Action>)
    requires last < MAX_INT64 && Legal(Start(first, last), actions)
    ensures var s := Run(Start(first, last), actions);
      && SumSeq(s.workers, Slot()) <= 10
      && (s.pc.AtLoop? ==> (SpawnerCanStep(s) <==> s.next > last || SumSeq(s.workers, Slot()) < 10))
      && (forall i | 0 <= i < |s.workers| && s.workers[i].phase == Releasing :: s.sem > 0)
      && 0 <= s.wg && (forall w | w in s.workers && w.phase == Signalling :: s.wg > 0)
      && (s.semClosed ==> !Looping(s.pc) && forall w | w in s.workers :: w.phase == Gone)
  {
    var s := Run(Start(first, last), actions);
    StartIsGood(first, last);
    RunKeepsInv(Start(first, last), actions);
    BoundsAreFixed(Start(first, last), actions);
    SumNonNegative(s.workers, Live());
    forall i | 0 <= i < |s.workers| && s.workers[i].phase == Releasing ensures s.sem > 0 {
      SumAtLeast(s.workers, i, Slot());
    }
    forall w | w in s.workers && w.phase == Signalling ensures s.wg > 0 {
      var i :| 0 <= i < |s.workers| && s.workers[i] == w;
      SumAtLeast(s.workers, i, Live());
    }
  }

  /** A worker that is not gone can step: releasing finds the token it put in. */
  lemma WorkerNeverBlocks(s: State, i: nat)
    requires Counted(s) && i < |s.workers| && s.workers[i].phase != Gone
    ensures WorkerCanStep(s, s.workers[i])
  {
    SumAtLeast(s.workers, i, Slot());
  }

  /** No deadlock: until the call returns, the spawner can step, or else some worker can. */
  lemma NeverStuck(s: State) returns (a: Action)
    requires Inv(s) && !s.pc.Returned?
    ensures Enabled(s, a)
    ensures a.Spawn? <==> SpawnerCanStep(s)
  {
    a := Spawn;
    if !SpawnerCanStep(s) {
      var i: nat;
      if s.pc.AtLoop? {
        i := SumPositive(s.workers, Slot());
      } else {
        SumNonNegative(s.workers, Live());
        i := SumPositive(s.workers, Live());
      }
      WorkerNeverBlocks(s, i);
      a := Work(i, None);
    }
  }

  /** Steps a worker may still take. */
  function Remaining(): Worker -> int {
    (w: Worker) =>
      match w.phase
      case Fetching => 5
      case Sending => 4
      case Reporting(_) => 3
      case Releasing => 2
      case Signalling => 1
      case Gone => 0
  }

  function SpawnerRemaining(s: State): int {
    var blocks := if s.next <= s.last then s.last - s.next + 1 else 0;
    match s.pc
    case AtLoop => 8 * blocks + 4
    case AtAdd => 8 * blocks + 3
    case AtGo => 8 * blocks + 2
    case AtWait => 3
    case AtClose => 2
    case AtSelect => 1
    case Returned(_) => 0
  }

  function Measure(s: State): int {
    SpawnerRemaining(s) + SumSeq(s.workers, Remaining())
  }

  lemma MeasureIsNatural(s: State)
    ensures 0 <= Measure(s)
  {
    SumNonNegative(s.workers, Remaining());
  }

  lemma StepDecreases(s: State, a: Action)
    requires Inv(s) && Enabled(s, a)
    ensures Measure(Step(s, a)) < Measure(s)
  {
    match a
    case Spawn => SpawnDecreases(s);
    case Work(i, fault) => WorkDecreases(s, i, fault);
  }

  lemma SpawnDecreases(s: State)
    requires s.last < MAX_INT64 && HandedOut(s) && SpawnerCanStep(s)
    ensures Measure(SpawnerStep(s)) < Measure(s)
  {
    SumAppend(s.workers, Worker(s.next, Fetching, Undecided), Remaining());
  }

  lemma WorkDecreases(s: State, i: nat, fault: Option<Error>)
    requires i < |s.workers| && WorkerCanStep(s, s.workers[i])
    ensures Measure(WorkerStep(s, i, fault)) < Measure(s)
  {
    var w := WorkerStep(s, i, fault).workers[i];
    SumUpdate(s.workers, i, w, Remaining());
    assert Remaining()(w) < Remaining()(s.workers[i]);
  }

  lemma {:induction false} RunIsBounded(s: State, actions: seq<Action>)
    requires Inv(s) && Legal(s, actions)
    ensures |actions| <= Measure(s)
    decreases |actions|
  {
    MeasureIsNatural(s);
    if actions != [] {
      StepKeepsInv(s, actions[0]);
      StepDecreases(s, actions[0]);
      RunIsBounded(Step(s, actions[0]), actions[1..]);
    }
  }

  /** Every schedule ends: no run of a call takes more than eight steps per block and four more. */
  lemma EveryScheduleEnds(first: Int64, last: Int64, actions: seq<Action>)
    requires last < MAX_INT64 && Legal(Start(first, last), actions)
    ensures |actions| <= 8 * (if first <= last then last - first + 1 else 0) + 4
  {
    StartIsGood(first, last);
    RunIsBounded(Start(first, last), actions);
  }

  /** Any state that keeps the invariant can be run on to the return of the call. */
  lemma {:induction false} CanFinish(s: State) returns (actions: seq<Action>)
    requires Inv(s)
    ensures Legal(s, actions) && Run(s, actions).pc.Returned?
    decreases Measure(s)
  {
    MeasureIsNatural(s);
    if s.pc.Returned? {
      actions := [];
    } else {
      var a := NeverStuck(s);
      StepKeepsInv(s, a);
      StepDecreases(s, a);
      MeasureIsNatural(Step(s, a));
      var rest := CanFinish(Step(s, a));
      actions := [a] + rest;
      assert actions[1..] == rest;
    }
  }

  lemma {:induction false} LoopsForever(s: State, actions: seq<Action>)
    requires s.last == MAX_INT64 && Looping(s.pc) && Legal(s, actions)
    ensures Looping(Run(s, actions).pc)
    decreases |actions|
  {
    if actions != [] { LoopsForever(Step(s, actions[0]), actions[1..]); }
  }

  lemma ReturnedIsBelowMax(first: Int64, last: Int64, actions: seq<Action>)
    requires Legal(Start(first, last), actions) && Run(Start(first, last), actions).pc.Returned?
    ensures last < MAX_INT64
  {
    if last == MAX_INT64 { LoopsForever(Start(first, last), actions); }
  }

  /**
   A call can return exactly when its last block is below the largest int64; at the largest one the
   loop counter wraps around and the spawner never leaves its loop.
   */
  lemma ReturnsExactlyWhen(first: Int64, last: Int64)
    ensures last < MAX_INT64 <==>
      exists actions :: Legal(Start(first, last), actions) && Run(Start(first, last), actions).pc.Returned?
  {
    if last < MAX_INT64 {
      StartIsGood(first, last);
      var actions := CanFinish(Start(first, last));
    }
    forall actions | Legal(Start(first, last), actions) && Run(Start(first, last), actions).pc.Returned?
      ensures last < MAX_INT64
    {
      ReturnedIsBelowMax(first, last, actions);
    }
  }

  // ---------------------------------------------------------------- the call on mutable state

  /** The channels, counters and goroutines of one call, updated in place by each atomic step. */
  class Call {
    const first: Int64
    const last: Int64
    var blockNum: Int64
    var pc: Spawner
    var sem: int
    var semClosed: bool
    var wg: int
    var errCh: Option<Error>
    var workers: seq<Worker>
    var sent: seq<Int64>

    ghost function View(): State
      reads this
    {
      State(first, last, blockNum, pc, sem, semClosed, wg, errCh, workers, sent)
    }

    constructor (first: Int64, last: Int64)
      ensures View() == Start(first, last) && this.last == last
    {
      this.first, this.last, blockNum, pc := first, last, first, AtLoop;
      sem, semClosed, wg, errCh := 0, false, 0, None;
      workers, sent := [], [];
    }

    method StepSpawner()
      requires SpawnerCanStep(View())
      modifies this
      ensures View() == SpawnerStep(old(View()))
    {
      match pc
      case AtLoop =>
        if blockNum <= last {
          sem := sem + 1;
          pc := AtAdd;
        } else {
          pc := AtWait;
        }
      case AtAdd =>
        wg := wg + 1;
        pc := AtGo;
      case AtGo =>
        workers := workers + [Worker(blockNum, Fetching, Undecided)];
        blockNum := Increment(blockNum);
        pc := AtLoop;
      case AtWait => pc := AtClose;
      case AtClose =>
        semClosed := true;
        pc := AtSelect;
      case AtSelect =>
        var result := errCh;
        errCh := None;
        pc := Returned(result);
    }

    method StepWorker(i: nat, fault: Option<Error>)
      requires i < |workers| && WorkerCanStep(View(), workers[i])
      modifies this
      ensures View() == WorkerStep(old(View()), i, fault)
    {
      var w := workers[i];
      match w.phase {
        case Fetching =>
          if fault.None? {
            w := w.(phase := Sending);
          } else {
            w := w.(phase := Reporting(fault.value), fate := Failed(fault.value));
          }
        case Sending =>
          if fault.None? {
            sent := sent + [w.num];
            w := w.(phase := Releasing, fate := Delivered);
          } else {
            w := w.(phase := Reporting(fault.value), fate := Failed(fault.value));
          }
        case Reporting(e) =>
          if errCh.None? {
            errCh := Some(e);
          }
          w := w.(phase := Releasing);
        case Releasing =>
          if sem > 0 {
            sem := sem - 1;
          }
          w := w.(phase := Signalling);
        case Signalling =>
          wg := wg - 1;
          w := w.(phase := Gone);
      }
      workers := workers[i := w];
    }

    /**
     Runs the call under `scheduler`, which sees the whole state and the number of steps so far and
     picks any enabled step and any outcome of a fetch or send; `history` is what it picked.
     */
    method Serve(scheduler: (nat, State) -> Action)
      returns (result: Option<Error>, ghost history: seq<Action>)
      requires last < MAX_INT64 && View() == Start(first, last)
      requires forall k: nat, s: State {:trigger scheduler(k, s)} ::
                 Inv(s) && !s.pc.Returned? ==> Enabled(s, scheduler(k, s))
      modifies this
      ensures pc == Returned(result)
      ensures Legal(Start(first, last), history) && View() == Run(Start(first, last), history)
      ensures AllAttempted(workers, first, last)
      ensures Truthful(result, Blocks(first, last), history)
      ensures sent == Sends(first, history)
      ensures result.None? <==> SentExactlyOnce(sent, first, last)
    {
      history := [];
      var k: nat := 0;
      StartIsGood(first, last);
      while !pc.Returned?
        invariant Inv(View())
        invariant Legal(Start(first, last), history) && View() == Run(Start(first, last), history)
        decreases Measure(View())
      {
        MeasureIsNatural(View());
        var now := State(first, last, blockNum, pc, sem, semClosed, wg, errCh, workers, sent);
        var a := scheduler(k, now);
        StepKeepsInv(now, a);
        StepDecreases(now, a);
        MeasureIsNatural(Step(now, a));
        RunThenStep(Start(first, last), history, a);
        match a {
          case Spawn => StepSpawner();
          case Work(i, fault) => StepWorker(i, fault);
        }
        history := history + [a];
        k := k + 1;
      }
      ReturnTellsTheTruth(first, last, history);
      result := pc.result;
    }
  }
}
