/**
 The backward-walking historical sync of one chain: calculate a range at the current block, split
 it, fetch and submit the parts, and on success step to the block before the range start.
 */
module HistoricalSync {
  import opened Outcomes
  import opened BlockRanges
  import opened BlockSubmission
  import opened ChainSyncStatus
  import opened Changesets
  import Server = BlockRangeStream
  import Pool = WorkerPool

  /** What fetching one part brings: an error, a stream, or the exit of the task that handled it. */
  datatype Fetch = FetchError(reason: Reason) | Stream(elements: seq<Element>) | TaskExit(reason: Reason)

  datatype Round = Round(range: Range, parts: seq<Range>, fetches: seq<Fetch>, result: Result<(), Reason>)

  /** The arguments of the loop, and the rounds made so far. */
  datatype Loop = Loop(current: int, target: int, rounds: seq<Round>)

  // ---------------------------------------------------------------- operations

  function ProcessBlockRange(f: Fetch): Submission {
    match f
    case Stream(elements) => ProcessBlockStream(elements)
    case FetchError(reason) => Submission(Err(reason), [])
    case TaskExit(reason) => Submission(Err(reason), [])
  }

  /** The ordered, early-halting reduce over the results of the parts. */
  function RoundResult(fetches: seq<Fetch>): Result<(), Reason> {
    if fetches == [] then Ok(())
    else
      var s := ProcessBlockRange(fetches[0]);
      if s.result.Err? then s.result else RoundResult(fetches[1..])
  }

  function StartHistoricalSync(row: Row): Loop {
    Loop(row.earliest - 1, row.safe, [])
  }

  /** No clause of the loop accepts a negative block, so the loop ends there. */
  predicate Enabled(l: Loop, fetches: seq<Fetch>) {
    0 <= l.current &&
    match CalculateNextRange(l.current, l.target)
    case Ok((range, batch)) => |fetches| == |SplitRange(range, batch)|
    case Err(_) => true
  }

  /** One turn of the loop, on what the fetches bring; an error waits and tries the same block again. */
  function Iterate(l: Loop, fetches: seq<Fetch>): Loop {
    match CalculateNextRange(l.current, l.target)
    case Ok((range, batch)) =>
      var parts := SplitRange(range, batch);
      var result := RoundResult(fetches);
      Loop(if result.Ok? then range.first - 1 else l.current, l.target,
           l.rounds + [Round(range, parts, fetches, result)])
    case Err(_) => l
  }

  predicate Legal(l: Loop, turns: seq<seq<Fetch>>)
    decreases |turns|
  {
    turns == [] || (Enabled(l, turns[0]) && Legal(Iterate(l, turns[0]), turns[1..]))
  }

  function Run(l: Loop, turns: seq<seq<Fetch>>): Loop
    requires Legal(l, turns)
    decreases |turns|
  {
    if turns == [] then l else Run(Iterate(l, turns[0]), turns[1..])
  }

  // ---------------------------------------------------------------- invariant

  /** The first blocks of the successful rounds, in the order they were made. */
  function Done(rounds: seq<Round>): seq<int> {
    if rounds == [] then [] else
      var last := rounds[|rounds| - 1];
      Done(rounds[..|rounds| - 1]) + if last.result.Ok? then [last.range.first] else []
  }

  predicate Proper(r: Round, target: int) {
    && 0 <= r.range.first < target
    && CalculateNextRange(r.range.first, target) == Ok((r.range, 500))
    && r.parts == SplitRange(r.range, 500)
    && |r.fetches| == |r.parts|
    && r.result == RoundResult(r.fetches)
  }

  /** Successful rounds started at top, top - 1, ..., current + 1: one block back each time. */
  ghost predicate Inv(l: Loop, top: int) {
    && -1 <= l.current <= top < l.target
    && (forall r | r in l.rounds :: Proper(r, l.target) && l.current <= r.range.first <= top)
    && |Done(l.rounds)| == top - l.current
    && (forall i | 0 <= i < top - l.current :: Done(l.rounds)[i] == top - i)
  }

  /**
   A turn never finds "no new blocks": its range starts at the current block. Success moves back by
   exactly one block, failure stays.
   */
  lemma TurnMovesOneBlock(l: Loop, fetches: seq<Fetch>, top: int)
    requires Inv(l, top) && Enabled(l, fetches)
    ensures Inv(Iterate(l, fetches), top)
    ensures CalculateNextRange(l.current, l.target).Ok?
    ensures Iterate(l, fetches).current == if RoundResult(fetches).Ok? then l.current - 1 else l.current
  {
    CalculatedRange(l.current, l.target);
    var next := Iterate(l, fetches);
    assert next.rounds[..|l.rounds|] == l.rounds;
  }

  lemma {:induction false} RunKeepsInv(l: Loop, turns: seq<seq<Fetch>>, top: int)
    requires Inv(l, top) && Legal(l, turns)
    ensures Inv(Run(l, turns), top) && Run(l, turns).target == l.target
    decreases |turns|
  {
    if turns != [] {
      TurnMovesOneBlock(l, turns[0], top);
      RunKeepsInv(Iterate(l, turns[0]), turns[1..], top);
    }
  }

  /** A stored row lets the loop take a turn exactly when its earliest block is at least one. */
  lemma LoopStartsExactlyWhen(row: Row)
    requires Stored(row)
    ensures 1 <= row.earliest <==> exists turn :: Enabled(StartHistoricalSync(row), turn)
    ensures 1 <= row.earliest ==> Inv(StartHistoricalSync(row), row.earliest - 1)
  {
    StoredExactlyWhen(row);
    if 1 <= row.earliest {
      var l := StartHistoricalSync(row);
      CalculatedRange(l.current, l.target);
      var parts := SplitRange(CalculateNextRange(l.current, l.target).value.0, 500);
      var turn := seq(|parts|, i => FetchError(""));
      assert Enabled(l, turn);
    }
  }

  // ---------------------------------------------------------------- coverage

  lemma {:induction false} DoneRound(rounds: seq<Round>, i: nat) returns (r: Round)
    requires i < |Done(rounds)|
    ensures r in rounds && r.result.Ok? && r.range.first == Done(rounds)[i]
  {
    var n := |rounds| - 1;
    if i < |Done(rounds[..n])| {
      r := DoneRound(rounds[..n], i);
    } else {
      r := rounds[n];
    }
  }

  lemma {:induction false} RoundIsDone(rounds: seq<Round>, r: Round)
    requires r in rounds && r.result.Ok?
    ensures r.range.first in Done(rounds)
  {
    var n := |rounds| - 1;
    if r != rounds[n] {
      assert rounds == rounds[..n] + [rounds[n]];
      RoundIsDone(rounds[..n], r);
    }
  }

  /** `b` has been in a successful round. */
  ghost predicate Covered(l: Loop, b: int) {
    exists r | r in l.rounds && r.result.Ok? :: r.range.Has(b)
  }

  lemma CoveredAboveCurrent(l: Loop, top: int, b: int)
    requires Inv(l, top)
    ensures l.current < b <= top ==> Covered(l, b)
    ensures Covered(l, b) ==> l.current < b <= l.target
  {
    if l.current < b <= top {
      var r := DoneRound(l.rounds, top - b);
      CalculatedRange(r.range.first, l.target);
    }
    if Covered(l, b) {
      var r :| r in l.rounds && r.result.Ok? && r.range.Has(b);
      CalculatedRange(r.range.first, l.target);
      RoundIsDone(l.rounds, r);
      var i :| 0 <= i < |Done(l.rounds)| && Done(l.rounds)[i] == r.range.first;
    }
  }

  /**
   Coverage: when the loop is down to block c, every block from c + 1 up to just below the earliest
   stored one has been in a successful round, and no successful round went past c or the target.
   The number of successful rounds is the number of blocks walked back.
   */
  lemma WalkedBlocksAreCovered(row: Row, turns: seq<seq<Fetch>>, b: int)
    requires Stored(row) && 1 <= row.earliest && Legal(StartHistoricalSync(row), turns)
    ensures var l := Run(StartHistoricalSync(row), turns);
      && (l.current < b < row.earliest ==> Covered(l, b))
      && (Covered(l, b) ==> l.current < b <= row.safe)
      && |Done(l.rounds)| == row.earliest - 1 - l.current
      && -1 <= l.current
  {
    LoopStartsExactlyWhen(row);
    RunKeepsInv(StartHistoricalSync(row), turns, row.earliest - 1);
    CoveredAboveCurrent(Run(StartHistoricalSync(row), turns), row.earliest - 1, b);
  }

  /**
   A chain seen for the first time starts from its latest block. Once one round has succeeded, what
   has been covered is exactly everything above the current block, up to and including that block.
   */
  lemma FreshChainIsCovered(chain: string, latest: int, hash: string, turns: seq<seq<Fetch>>, b: int)
    requires !Blank(chain) && !Blank(hash) && 1 <= latest
    requires Changeset(InitialAttrs(chain, latest, hash)).Some? ==>
               Legal(StartHistoricalSync(Changeset(InitialAttrs(chain, latest, hash)).value), turns)
    ensures Changeset(InitialAttrs(chain, latest, hash)).Some?
    ensures var l := Run(StartHistoricalSync(Changeset(InitialAttrs(chain, latest, hash)).value), turns);
      l.current < latest - 1 ==> (Covered(l, b) <==> l.current < b <= latest)
  {
    InitialRow(chain, latest, hash);
    var row := Changeset(InitialAttrs(chain, latest, hash)).value;
    var l := Run(StartHistoricalSync(row), turns);
    WalkedBlocksAreCovered(row, turns, b);
    LoopStartsExactlyWhen(row);
    RunKeepsInv(StartHistoricalSync(row), turns, latest - 1);
    if l.current < latest - 1 {
      var r := DoneRound(l.rounds, 0);
      CalculatedRange(latest - 1, latest);
      assert r.range.Has(latest);
    }
  }

  // ---------------------------------------------------------------- from the chain service to the pool

  /** The client reads the blocks the service sent, then the error it returned, if any. */
  ghost predicate Received(elements: seq<Element>, sent: seq<Server.Int64>, result: Option<Server.Error>) {
    && |elements| == |sent| + (if result.Some? then 1 else 0)
    && (forall i | 0 <= i < |sent| :: elements[i].Block? && elements[i].number == sent[i])
    && (result.Some? ==> elements[|sent|].StreamError?)
  }

  /** A fetched stream is what some schedule of the service's range call produced for that part. */
  ghost predicate Served(f: Fetch, part: Range) {
    f.Stream? ==>
      && Server.MIN_INT64 <= part.first && part.last <= Server.MAX_INT64 && part.first <= part.last
      && exists actions :: Server.Legal(Server.Start(part.first, part.last), actions)
           && var s := Server.Run(Server.Start(part.first, part.last), actions);
           s.pc.Returned? && Received(f.elements, s.sent, s.pc.result)
  }

  /** A part that was processed without error had every one of its blocks accepted by the pool. */
  lemma CleanPartIsComplete(f: Fetch, part: Range, b: int)
    requires Served(f, part) && ProcessBlockRange(f).result.Ok? && part.Has(b)
    ensures b in ProcessBlockRange(f).accepted
  {
    var actions :| Server.Legal(Server.Start(part.first, part.last), actions)
      && var s := Server.Run(Server.Start(part.first, part.last), actions);
         s.pc.Returned? && Received(f.elements, s.sent, s.pc.result);
    var s := Server.Run(Server.Start(part.first, part.last), actions);
    Server.ReturnedIsBelowMax(part.first, part.last, actions);
    Server.ReturnTellsTheTruth(part.first, part.last, actions);
    StreamSubmitsGoodPrefix(f.elements);
    var accepted := ProcessBlockRange(f).accepted;
    assert |accepted| == |f.elements|;
    assert forall i | 0 <= i < |f.elements| :: Good(f.elements[i]) && !f.elements[i].StreamError?;
    assert s.pc.result.None?;
    assert b in s.sent;
    var i :| 0 <= i < |s.sent| && s.sent[i] == b;
    assert accepted[i] == b;
  }

  /** A round succeeds exactly when all its parts do, and fails with the reason of the first that does not. */
  lemma {:induction false} RoundResultExactly(fetches: seq<Fetch>)
    ensures RoundResult(fetches).Ok? <==> forall f | f in fetches :: ProcessBlockRange(f).result.Ok?
    ensures RoundResult(fetches).Err? ==>
      exists i | 0 <= i < |fetches| ::
        && ProcessBlockRange(fetches[i]).result == RoundResult(fetches)
        && forall j | 0 <= j < i :: ProcessBlockRange(fetches[j]).result.Ok?
  {
    if fetches != [] {
      var rest := fetches[1..];
      assert fetches == [fetches[0]] + rest;
      RoundResultExactly(rest);
      if ProcessBlockRange(fetches[0]).result.Err? {
        assert ProcessBlockRange(fetches[0]).result == RoundResult(fetches);
      } else if RoundResult(rest).Err? {
        var i :| 0 <= i < |rest| && ProcessBlockRange(rest[i]).result == RoundResult(rest)
          && forall j | 0 <= j < i :: ProcessBlockRange(rest[j]).result.Ok?;
        assert fetches[i + 1] == rest[i];
        forall j | 0 <= j < i + 1 ensures ProcessBlockRange(fetches[j]).result.Ok? {
          if j > 0 { assert fetches[j] == rest[j - 1]; }
        }
      }
    }
  }

  /** The task the syncer submits for a block; its data is a map, made from the block. */
  function SyncPayload(number: int): Pool.Payload {
    Pool.Payload("ethereum", "block", Pool.MapTerm(number))
  }

  /** In this run of the pool, the submission of the block got this answer. */
  ghost predicate AnsweredIn(number: int, reply: Result<(), Reason>, size: Pool.PoolSize, ms: seq<Pool.Message>) {
    && Pool.Legal(Pool.Init(size), ms)
    && exists i: nat | i < |ms| && ms[i].SubmitTask? && ms[i].payload == SyncPayload(number) ::
         Pool.ReplyAt(Pool.Init(size), ms, i) == Some(reply)
  }

  /**
   Every block that is submitted is answered by the pool, in one of its lives: the pool may have
   ended and been started again in between. Nothing is submitted after the first refusal or error.
   */
  ghost predicate Answered(f: Fetch, size: Pool.PoolSize, lives: seq<seq<Pool.Message>>) {
    f.Stream? ==>
      forall k | 0 <= k < |f.elements| && k <= |ProcessBlockStream(f.elements).accepted| && f.elements[k].Block? ::
        exists life | life in lives :: AnsweredIn(f.elements[k].number, f.elements[k].reply, size, life)
  }

  /** The pool has accepted the block: the submission is in its trace. */
  ghost predicate InPool(number: int, size: Pool.PoolSize, lives: seq<seq<Pool.Message>>) {
    exists life | life in lives && Pool.Legal(Pool.Init(size), life) ::
      Pool.Submitted(Pool.Task(SyncPayload(number), 1)) in Pool.Run(Pool.Init(size), life).trace
  }

  /** The pool never refuses a block of the syncer, so the answer is always success. */
  lemma PoolTakesBlocks(number: int, reply: Result<(), Reason>, size: Pool.PoolSize, ms: seq<Pool.Message>)
    requires AnsweredIn(number, reply, size, ms)
    ensures reply == Ok(())
    ensures Pool.Submitted(Pool.Task(SyncPayload(number), 1)) in Pool.Run(Pool.Init(size), ms).trace
  {
    var i: nat :| i < |ms| && ms[i].SubmitTask? && ms[i].payload == SyncPayload(number)
      && Pool.ReplyAt(Pool.Init(size), ms, i) == Some(reply);
    Pool.AnsweredSubmissions(Pool.Init(size), ms, i);
  }

  /** A part is processed without error exactly when its stream arrived without one: the pool is no obstacle. */
  lemma PartFailsOnlyUpstream(f: Fetch, size: Pool.PoolSize, lives: seq<seq<Pool.Message>>)
    requires Answered(f, size, lives)
    ensures ProcessBlockRange(f).result.Ok? <==> Arrived(f)
  {
    if f.Stream? {
      var s := ProcessBlockStream(f.elements);
      var k := |s.accepted|;
      StreamSubmitsGoodPrefix(f.elements);
      if k < |f.elements| && f.elements[k].Block? {
        var life :| life in lives && AnsweredIn(f.elements[k].number, f.elements[k].reply, size, life);
        PoolTakesBlocks(f.elements[k].number, f.elements[k].reply, size, life);
      }
      assert forall i | 0 <= i < k :: Good(f.elements[i]) && f.elements[i].Block?;
    }
  }

  /** The whole stream of a part came, without an error in it. */
  predicate Arrived(f: Fetch) {
    f.Stream? && forall e | e in f.elements :: e.Block?
  }

  /** The turns on which every stream arrived. */
  function CleanTurns(turns: seq<seq<Fetch>>): nat
    decreases |turns|
  {
    if turns == [] then 0
    else (if forall f | f in turns[0] :: Arrived(f) then 1 else 0) + CleanTurns(turns[1..])
  }

  ghost predicate AllAnswered(turns: seq<seq<Fetch>>, size: Pool.PoolSize, lives: seq<seq<Pool.Message>>) {
    forall k | 0 <= k < |turns| :: forall f | f in turns[k] :: Answered(f, size, lives)
  }

  /** A turn goes one block back exactly when all of its streams arrive; otherwise it stays. */
  lemma TurnMovesExactlyWhen(
    l: Loop, turn: seq<Fetch>, top: int, size: Pool.PoolSize, lives: seq<seq<Pool.Message>>)
    requires Inv(l, top) && Enabled(l, turn) && forall f | f in turn :: Answered(f, size, lives)
    ensures Iterate(l, turn).current == if forall f | f in turn :: Arrived(f) then l.current - 1 else l.current
  {
    TurnMovesOneBlock(l, turn, top);
    RoundResultExactly(turn);
    forall f | f in turn ensures ProcessBlockRange(f).result.Ok? <==> Arrived(f) {
      PartFailsOnlyUpstream(f, size, lives);
    }
  }

  lemma {:induction false} RunMoves(
    l: Loop, turns: seq<seq<Fetch>>, top: int, size: Pool.PoolSize, lives: seq<seq<Pool.Message>>)
    requires Inv(l, top) && Legal(l, turns) && AllAnswered(turns, size, lives)
    ensures Run(l, turns).current == l.current - CleanTurns(turns)
    decreases |turns|
  {
    if turns != [] {
      TurnMovesOneBlock(l, turns[0], top);
      TurnMovesExactlyWhen(l, turns[0], top, size, lives);
      RunMoves(Iterate(l, turns[0]), turns[1..], top, size, lives);
    }
  }

  /**
   Progress: with the pool's own answers, the loop has moved back by exactly the number of turns on
   which all streams arrived, from the block before the earliest stored one.
   */
  lemma ProgressIsExact(row: Row, turns: seq<seq<Fetch>>, size: Pool.PoolSize, lives: seq<seq<Pool.Message>>)
    requires Stored(row) && 1 <= row.earliest && Legal(StartHistoricalSync(row), turns)
    requires AllAnswered(turns, size, lives)
    ensures Run(StartHistoricalSync(row), turns).current == row.earliest - 1 - CleanTurns(turns)
  {
    LoopStartsExactlyWhen(row);
    RunMoves(StartHistoricalSync(row), turns, row.earliest - 1, size, lives);
  }

  /** Whatever a part's submission lists as accepted is in the pool's trace. */
  lemma AcceptedIsInPool(f: Fetch, size: Pool.PoolSize, lives: seq<seq<Pool.Message>>, b: int)
    requires Answered(f, size, lives) && b in ProcessBlockRange(f).accepted
    ensures InPool(b, size, lives)
  {
    var accepted := ProcessBlockRange(f).accepted;
    StreamSubmitsGoodPrefix(f.elements);
    var k :| 0 <= k < |accepted| && accepted[k] == b;
    assert Good(f.elements[k]) && f.elements[k].number == b;
    var life :| life in lives && AnsweredIn(b, f.elements[k].reply, size, life);
    PoolTakesBlocks(b, f.elements[k].reply, size, life);
  }

  /**
   End to end: if every stream came from the chain service's range call, under whatever schedule,
   and every submission was answered by the worker pool, in whatever legal run, then every block
   the loop has walked past is among the submissions the pool has accepted.
   */
  lemma WalkedBlocksReachThePool(
    row: Row, turns: seq<seq<Fetch>>, b: int, size: Pool.PoolSize, lives: seq<seq<Pool.Message>>)
    returns (r: Round, i: nat)
    requires Stored(row) && 1 <= row.earliest && Legal(StartHistoricalSync(row), turns)
    requires var l := Run(StartHistoricalSync(row), turns);
      && (forall r | r in l.rounds ::
            forall i | 0 <= i < |r.parts| && i < |r.fetches| ::
              Served(r.fetches[i], r.parts[i]) && Answered(r.fetches[i], size, lives))
      && l.current < b < row.earliest
    ensures r in Run(StartHistoricalSync(row), turns).rounds
    ensures i < |r.fetches| && b in ProcessBlockRange(r.fetches[i]).accepted
    ensures InPool(b, size, lives)
  {
    var l := Run(StartHistoricalSync(row), turns);
    var top := row.earliest - 1;
    LoopStartsExactlyWhen(row);
    RunKeepsInv(StartHistoricalSync(row), turns, top);
    r := DoneRound(l.rounds, top - b);
    CalculatedRange(r.range.first, l.target);
    TilesCoverOnce(r.parts, r.range, b);
    i :| 0 <= i < |r.parts| && r.parts[i].Has(b);
    RoundResultExactly(r.fetches);
    assert r.fetches[i] in r.fetches;
    assert Served(r.fetches[i], r.parts[i]);
    CleanPartIsComplete(r.fetches[i], r.parts[i], b);
    AcceptedIsInPool(r.fetches[i], size, lives, b);
  }

  // ---------------------------------------------------------------- how often a block is requested

  /** How many rounds asked for block `b`. */
  function Requests(rounds: seq<Round>, b: int): nat {
    if rounds == [] then 0
    else Requests(rounds[..|rounds| - 1], b) + if rounds[|rounds| - 1].range.Has(b) then 1 else 0
  }

  /** How many of the start blocks lo..hi lie at most 999 below `b`. */
  function Overlap(lo: int, hi: int, b: int): nat {
    var from := if lo < b - 999 then b - 999 else lo;
    var upto := if hi < b then hi else b;
    if from <= upto then upto - from + 1 else 0
  }

  /** A run without faults: round i starts at top - i. */
  ghost predicate FaultFree(rounds: seq<Round>, top: int, target: int) {
    && |rounds| <= top + 1 && top < target
    && forall i | 0 <= i < |rounds| ::
         CalculateNextRange(top - i, target) == Ok((rounds[i].range, 500))
  }

  lemma {:induction false} RequestsAreOverlaps(rounds: seq<Round>, top: int, target: int, b: int)
    requires FaultFree(rounds, top, target)
    ensures Requests(rounds, b) <= Overlap(top - |rounds| + 1, top, b)
    ensures b < target - 1000 ==> Requests(rounds, b) == Overlap(top - |rounds| + 1, top, b)
  {
    if rounds != [] {
      var n := |rounds| - 1;
      RequestsAreOverlaps(rounds[..n], top, target, b);
      CalculatedRange(top - n, target);
    }
  }

  lemma {:induction false} CleanRunIsFaultFree(rounds: seq<Round>, i: nat)
    requires forall r | r in rounds :: r.result.Ok?
    requires i < |rounds|
    ensures |Done(rounds)| == |rounds| && Done(rounds)[i] == rounds[i].range.first
  {
    var n := |rounds| - 1;
    if n > 0 { CleanRunIsFaultFree(rounds[..n], if i < n then i else 0); }
  }

  lemma CleanWalk(l: Loop, top: int)
    requires Inv(l, top) && forall r | r in l.rounds :: r.result.Ok?
    ensures FaultFree(l.rounds, top, l.target) && |l.rounds| == top - l.current
  {
    forall i | 0 <= i < |l.rounds|
      ensures CalculateNextRange(top - i, l.target) == Ok((l.rounds[i].range, 500)) && |Done(l.rounds)| == |l.rounds|
    {
      CleanRunIsFaultFree(l.rounds, i);
      assert Proper(l.rounds[i], l.target);
    }
    if l.rounds == [] { assert Done(l.rounds) == []; }
  }

  lemma CleanWalkRequests(l: Loop, top: int, b: int)
    requires Inv(l, top) && forall r | r in l.rounds :: r.result.Ok?
    ensures Requests(l.rounds, b) <= 1000
    ensures l.current + 1000 <= b <= top && b < l.target - 1000 ==> Requests(l.rounds, b) == 1000
  {
    CleanWalk(l, top);
    RequestsAreOverlaps(l.rounds, top, l.target, b);
  }

  /**
   The cost of stepping back one block at a time: in a run without faults no block is requested
   more than a thousand times, and each block that lies 999 above the walk's end, and more than a
   thousand below the target, is requested exactly a thousand times.
   */
  lemma RequestedAThousandTimes(row: Row, turns: seq<seq<Fetch>>, b: int)
    requires Stored(row) && 1 <= row.earliest && Legal(StartHistoricalSync(row), turns)
    requires forall r | r in Run(StartHistoricalSync(row), turns).rounds :: r.result.Ok?
    ensures var l := Run(StartHistoricalSync(row), turns);
      && Requests(l.rounds, b) <= 1000
      && (l.current + 1000 <= b < row.earliest && b < row.safe - 1000 ==> Requests(l.rounds, b) == 1000)
  {
    var l := Run(StartHistoricalSync(row), turns);
    LoopStartsExactlyWhen(row);
    RunKeepsInv(StartHistoricalSync(row), turns, row.earliest - 1);
    CleanWalkRequests(l, row.earliest - 1, b);
  }
}
