/**
 The Solana client's round-robin failover over a shared index: a lone call, and any number of
 interleaved callers.
 */
module Failover {
  import opened Outcomes
  import opened Arithmetic
  import opened Sums

  type Error = string

  /** What the operation answers on the given attempt, at the given client. */
  type Operation<!T> = (nat, nat) -> Result<T, Error>

  class MultiClient {
    const count: nat
    var current: nat

    ghost predicate Valid()
      reads this
    {
      current < count
    }

    constructor (count: nat)
      requires 0 < count
      ensures Valid() && this.count == count && current == 0
    {
      this.count := count;
      current := 0;
    }

    method CurrentClient() returns (client: nat)
      requires Valid()
      ensures client == current
    {
      client := current;
    }

    method NextClient() returns (client: nat)
      requires Valid()
      modifies this`current
      ensures Valid() && client == current == After(old(current), count)
    {
      Small(current, count);
      AfterIsResidue(current, count);
      current := (current + 1) % count;
      client := current;
    }

    /**
     Tries the clients in cyclic order from the current one, each at most once. The answer is that
     of the first client to succeed, where the index then stays; after every client has failed, it
     is the last one's error.
     */
    method ExecuteWithFailover<T>(operation: Operation<T>) returns (r: Result<T, Error>, ghost tried: seq<nat>)
      requires Valid()
      modifies this`current
      ensures Valid()
      ensures 0 < |tried| <= count && tried[|tried| - 1] == current
      ensures forall k {:trigger tried[k]} | 0 <= k < |tried| :: tried[k] == Cyclic(old(current), k, count)
      ensures forall k | 0 <= k < |tried| - 1 :: operation(k, tried[k]).Err?
      ensures r == operation(|tried| - 1, tried[|tried| - 1])
      ensures r.Err? ==> |tried| == count
      ensures r.Err? ==> forall client: nat | client < count :: FailedOnce(operation, tried, client)
    {
      var attempts := 0;
      var maxAttempts := count;
      tried := [];
      Small(current, count);
      while true
        invariant Valid() && attempts == |tried| < maxAttempts == count
        invariant forall k {:trigger tried[k]} | 0 <= k < attempts :: tried[k] == Cyclic(old(current), k, count)
        invariant forall k | 0 <= k < attempts :: operation(k, tried[k]).Err?
        invariant current == Cyclic(old(current), if attempts == 0 then 0 else attempts - 1, count)
        decreases maxAttempts - attempts
      {
        var client;
        if attempts == 0 {
          client := CurrentClient();
        } else {
          client := NextClient();
        }
        tried := tried + [client];
        match operation(attempts, client) {
          case Ok(result) =>
            return Ok(result), tried;
          case Err(e) =>
            attempts := attempts + 1;
            if attempts >= maxAttempts {
              LoneErrorMeansAllFailed(operation, old(current), count, tried);
              return Err(e), tried;
            }
        }
      }
    }
  }

  /** A client per endpoint, starting at the first; an empty list is refused. */
  method NewMultiClient(endpoints: seq<string>) returns (r: Result<MultiClient, Error>)
    ensures r.Err? <==> endpoints == []
    ensures r.Ok? ==> fresh(r.value) && r.value.Valid() && r.value.count == |endpoints| && r.value.current == 0
  {
    if endpoints == [] {
      return Err("no rpc endpoints provided");
    }
    var client := new MultiClient(|endpoints|);
    r := Ok(client);
  }

  /** The client was tried, just once, and its answer was an error. */
  ghost predicate FailedOnce<T>(operation: Operation<T>, tried: seq<nat>, client: nat) {
    exists k | 0 <= k < |tried| ::
      && tried[k] == client && operation(k, client).Err?
      && forall l | 0 <= l < |tried| && tried[l] == client :: l == k
  }

  /** A full round of failed attempts in cyclic order leaves no client out and meets none twice. */
  lemma LoneErrorMeansAllFailed<T>(operation: Operation<T>, start: nat, n: nat, tried: seq<nat>)
    requires 0 < n && |tried| == n
    requires forall k {:trigger tried[k]} | 0 <= k < n :: tried[k] == Cyclic(start, k, n) && operation(k, tried[k]).Err?
    ensures forall client: nat | client < n :: FailedOnce(operation, tried, client)
  {
    forall client: nat | client < n ensures FailedOnce(operation, tried, client) {
      var k := RoundCoversOnce(start, n, client);
      assert tried[k] == client;
    }
  }

  // ---------------------------------------------------------------- interleaved callers

  /** A caller's loop: how often it failed, whom it tried, and whether it has returned. */
  datatype Caller = Caller(attempts: nat, tried: seq<nat>, pending: bool, done: Option<bool>)

  /** All callers share the index; `advances` counts the writes to it. */
  datatype Shared = Shared(n: nat, start: nat, current: nat, advances: nat, callers: seq<Caller>)

  /** Caller `who` takes a client from the shared index, or hears the operation's answer. */
  datatype Step = Take(who: nat) | Answer(who: nat, ok: bool)

  function Fresh(): Caller {
    Caller(0, [], false, None)
  }

  predicate Enabled(s: Shared, step: Step) {
    && step.who < |s.callers|
    && s.callers[step.who].done.None?
    && (step.Take? <==> !s.callers[step.who].pending)
  }

  /** The first take reads the index; every later one advances it under the write lock. */
  function Apply(s: Shared, step: Step): Shared
    requires 0 < s.n && Enabled(s, step)
  {
    var c := s.callers[step.who];
    match step
    case Take(who) =>
      var next := if c.attempts == 0 then s.current else (s.current + 1) % s.n;
      s.(current := next,
         advances := if c.attempts == 0 then s.advances else s.advances + 1,
         callers := s.callers[who := c.(tried := c.tried + [next], pending := true)])
    case Answer(who, ok) =>
      var after :=
        if ok then c.(pending := false, done := Some(true))
        else if c.attempts + 1 >= s.n then c.(attempts := c.attempts + 1, pending := false, done := Some(false))
        else c.(attempts := c.attempts + 1, pending := false);
      s.(callers := s.callers[who := after])
  }

  predicate Legal(s: Shared, steps: seq<Step>)
    requires 0 < s.n
    decreases |steps|
  {
    steps == [] || (Enabled(s, steps[0]) && Legal(Apply(s, steps[0]), steps[1..]))
  }

  function Run(s: Shared, steps: seq<Step>): Shared
    requires 0 < s.n && Legal(s, steps)
    decreases |steps|
  {
    if steps == [] then s else Run(Apply(s, steps[0]), steps[1..])
  }

  function Begin(n: nat, start: nat, callers: nat): Shared {
    Shared(n, start, start, 0, seq(callers, i => Fresh()))
  }

  /** The advances a caller has made: one for each client it took after its first. */
  function Advances(): Caller -> int {
    (c: Caller) => if c.tried == [] then 0 else |c.tried| - 1
  }

  predicate GoodCaller(c: Caller, n: nat) {
    && |c.tried| == c.attempts + (if c.pending || c.done == Some(true) then 1 else 0) <= n
    && (c.done == Some(false) <==> c.attempts == n)
    && (c.done.Some? ==> !c.pending)
    && (forall client | client in c.tried :: client < n)
  }

  ghost predicate Inv(s: Shared) {
    && 0 < s.n && s.start < s.n
    && s.current == Cyclic(s.start, s.advances, s.n)
    && s.advances == SumSeq(s.callers, Advances())
    && (forall c | c in s.callers :: GoodCaller(c, s.n))
  }

  lemma NextClientIsAfter(s: Shared)
    requires s.current < s.n
    ensures (s.current + 1) % s.n == After(s.current, s.n)
  {
    Small(s.current, s.n);
    AfterIsResidue(s.current, s.n);
  }

  lemma StepKeepsInv(s: Shared, step: Step)
    requires Inv(s) && Enabled(s, step)
    ensures Inv(Apply(s, step))
  {
    var c := s.callers[step.who];
    assert c in s.callers;
    var after := Apply(s, step);
    SumUpdate(s.callers, step.who, after.callers[step.who], Advances());
    if step.Take? && c.attempts > 0 {
      NextClientIsAfter(s);
    }
  }

  lemma {:induction false} RunKeepsInv(s: Shared, steps: seq<Step>)
    requires Inv(s) && Legal(s, steps)
    ensures Inv(Run(s, steps))
    ensures Run(s, steps).n == s.n && Run(s, steps).start == s.start && |Run(s, steps).callers| == |s.callers|
    decreases |steps|
  {
    if steps != [] {
      StepKeepsInv(s, steps[0]);
      RunKeepsInv(Apply(s, steps[0]), steps[1..]);
    }
  }

  lemma {:induction false} NobodyAdvanced(callers: seq<Caller>)
    requires forall k | 0 <= k < |callers| :: callers[k].tried == []
    ensures SumSeq(callers, Advances()) == 0
  {
    if callers != [] {
      NobodyAdvanced(callers[..|callers| - 1]);
    }
  }

  lemma BeginIsGood(n: nat, start: nat, callers: nat)
    requires start < n
    ensures Inv(Begin(n, start, callers))
  {
    Small(start, n);
    NobodyAdvanced(Begin(n, start, callers).callers);
  }

  /**
   However many calls interleave: the index is always a client's, and is the start plus all advances
   modulo the number of clients; each caller makes at most as many attempts as there are clients,
   and returns an error exactly after that many failures.
   */
  lemma SharedIndexIsExact(n: nat, start: nat, callers: nat, steps: seq<Step>)
    requires start < n && Legal(Begin(n, start, callers), steps)
    ensures var s := Run(Begin(n, start, callers), steps);
      && s.current == Cyclic(start, s.advances, n) < n
      && s.advances == SumSeq(s.callers, Advances())
      && forall c | c in s.callers :: |c.tried| <= n && (c.done == Some(false) <==> c.attempts == n)
  {
    BeginIsGood(n, start, callers);
    RunKeepsInv(Begin(n, start, callers), steps);
  }

  // ---------------------------------------------------------------- callers by the steps of a run

  lemma {:induction false} LastStep(s: Shared, steps: seq<Step>)
    requires 0 < s.n && Legal(s, steps) && steps != []
    ensures var k := |steps| - 1;
      Legal(s, steps[..k]) && Run(s, steps[..k]).n == s.n && Enabled(Run(s, steps[..k]), steps[k])
      && Run(s, steps) == Apply(Run(s, steps[..k]), steps[k])
    decreases |steps|
  {
    var k := |steps| - 1;
    if k > 0 {
      LastStep(Apply(s, steps[0]), steps[1..]);
      assert steps[1..][..k - 1] == steps[..k][1..];
    }
  }

  /** How many answers of this kind the caller has heard. */
  function Heard(steps: seq<Step>, who: nat, ok: bool): nat {
    if steps == [] then 0
    else
      var k := |steps| - 1;
      Heard(steps[..k], who, ok) + if steps[k] == Answer(who, ok) then 1 else 0
  }

  /** How many clients the caller has taken. */
  function Taken(steps: seq<Step>, who: nat): nat {
    if steps == [] then 0
    else
      var k := |steps| - 1;
      Taken(steps[..k], who) + if steps[k] == Take(who) then 1 else 0
  }

  /** How often the index was advanced: by each take that is not its caller's first. */
  function Moves(steps: seq<Step>): nat {
    if steps == [] then 0
    else
      var k := |steps| - 1;
      Moves(steps[..k]) + if steps[k].Take? && Taken(steps[..k], steps[k].who) > 0 then 1 else 0
  }

  /** The clients the caller has taken: each is where the index was after all advances up to then. */
  function TakenClients(steps: seq<Step>, who: nat, start: nat, n: nat): seq<nat>
    requires 0 < n
  {
    if steps == [] then []
    else
      var k := |steps| - 1;
      TakenClients(steps[..k], who, start, n) + if steps[k] == Take(who) then [Cyclic(start, Moves(steps), n)] else []
  }

  lemma {:induction false} TakenClientsCount(steps: seq<Step>, who: nat, start: nat, n: nat)
    requires 0 < n
    ensures |TakenClients(steps, who, start, n)| == Taken(steps, who)
  {
    if steps != [] { TakenClientsCount(steps[..|steps| - 1], who, start, n); }
  }

  /** The caller is what the steps make it. */
  ghost predicate Follows(c: Caller, steps: seq<Step>, who: nat, start: nat, n: nat)
    requires 0 < n
  {
    && c.tried == TakenClients(steps, who, start, n)
    && c.attempts == Heard(steps, who, false)
    && c.done == (if Heard(steps, who, true) > 0 then Some(true)
                  else if Heard(steps, who, false) == n then Some(false) else None)
    && (c.done != Some(false) ==> Heard(steps, who, false) < n)
  }

  lemma TakeFollows(s: Shared, steps: seq<Step>, who: nat)
    requires Inv(s) && Enabled(s, Take(who)) && s.advances == Moves(steps)
    requires Follows(s.callers[who], steps, who, s.start, s.n)
    ensures var next := steps + [Take(who)];
      && Follows(Apply(s, Take(who)).callers[who], next, who, s.start, s.n)
      && Apply(s, Take(who)).advances == Moves(next)
  {
    var next := steps + [Take(who)];
    assert next[..|steps|] == steps;
    assert s.callers[who] in s.callers;
    TakenClientsCount(steps, who, s.start, s.n);
    NextClientIsAfter(s);
  }

  lemma AnswerFollows(s: Shared, steps: seq<Step>, who: nat, ok: bool)
    requires 0 < s.n && Enabled(s, Answer(who, ok)) && Follows(s.callers[who], steps, who, s.start, s.n)
    ensures Follows(Apply(s, Answer(who, ok)).callers[who], steps + [Answer(who, ok)], who, s.start, s.n)
  {
    assert (steps + [Answer(who, ok)])[..|steps|] == steps;
  }

  /** A step concerns its own caller, and the count of advances. */
  lemma StepFollows(s: Shared, steps: seq<Step>, step: Step, who: nat)
    requires Inv(s) && Enabled(s, step) && s.advances == Moves(steps)
    requires Follows(s.callers[step.who], steps, step.who, s.start, s.n)
    requires who < |s.callers| && Follows(s.callers[who], steps, who, s.start, s.n)
    ensures Follows(Apply(s, step).callers[who], steps + [step], who, s.start, s.n)
    ensures Apply(s, step).advances == Moves(steps + [step])
  {
    assert (steps + [step])[..|steps|] == steps;
    match step
    case Take(w) => TakeFollows(s, steps, w);
    case Answer(w, ok) => AnswerFollows(s, steps, w, ok);
  }

  lemma {:induction false} RunFollows(n: nat, start: nat, callers: nat, steps: seq<Step>, who: nat)
    requires start < n && who < callers && Legal(Begin(n, start, callers), steps)
    ensures var s := Run(Begin(n, start, callers), steps);
      && s.n == n && s.start == start && |s.callers| == callers && s.advances == Moves(steps)
      && Follows(s.callers[who], steps, who, start, n)
    decreases |steps|
  {
    if steps != [] {
      var k := |steps| - 1;
      LastStep(Begin(n, start, callers), steps);
      var s := Run(Begin(n, start, callers), steps[..k]);
      BeginIsGood(n, start, callers);
      RunKeepsInv(Begin(n, start, callers), steps[..k]);
      RunFollows(n, start, callers, steps[..k], who);
      RunFollows(n, start, callers, steps[..k], steps[k].who);
      assert steps == steps[..k] + [steps[k]];
      StepFollows(s, steps[..k], steps[k], who);
    }
  }

  /**
   A caller in terms of the steps alone, however many calls interleave: it succeeds exactly when it
   is answered with success, and errs exactly when it has been answered with as many failures as
   there are clients; the clients it takes are where all callers' advances have moved the index.
   */
  lemma CallersFollowSteps(n: nat, start: nat, callers: nat, steps: seq<Step>, who: nat)
    requires start < n && who < callers && Legal(Begin(n, start, callers), steps)
    ensures var s := Run(Begin(n, start, callers), steps);
      && who < |s.callers|
      && (s.callers[who].done == Some(true) <==> Answer(who, true) in steps)
      && (s.callers[who].done == Some(false) <==> Heard(steps, who, false) == n)
      && s.callers[who].tried == TakenClients(steps, who, start, n)
      && s.current == Cyclic(start, Moves(steps), n)
  {
    RunFollows(n, start, callers, steps, who);
    BeginIsGood(n, start, callers);
    RunKeepsInv(Begin(n, start, callers), steps);
    HeardExactlyWhen(steps, who, true);
  }

  lemma {:induction false} HeardExactlyWhen(steps: seq<Step>, who: nat, ok: bool)
    ensures Heard(steps, who, ok) > 0 <==> Answer(who, ok) in steps
  {
    if steps != [] {
      var k := |steps| - 1;
      HeardExactlyWhen(steps[..k], who, ok);
      assert steps == steps[..k] + [steps[k]];
    }
  }

  // ---------------------------------------------------------------- what an error means

  /** Whoever returned an error had tried every client. */
  ghost predicate ErrorsMeanAllTried(s: Shared) {
    forall c, client: nat | c in s.callers && c.done == Some(false) && client < s.n :: client in c.tried
  }

  /** The step writes the index: the caller takes a client after its first one. */
  predicate AdvancesIndex(s: Shared, step: Step)
    requires step.who < |s.callers|
  {
    step.Take? && s.callers[step.who].attempts > 0
  }

  predicate Underway(c: Caller) {
    c.tried != [] && c.done.None?
  }

  /** Between the first attempt of `who` and its return, nobody else advances the index. */
  predicate Uninterrupted(s: Shared, steps: seq<Step>, who: nat)
    requires 0 < s.n && Legal(s, steps) && who < |s.callers|
    decreases |steps|
  {
    steps == [] ||
    (&& (steps[0].who != who && Underway(s.callers[who]) ==> !AdvancesIndex(s, steps[0]))
     && Uninterrupted(Apply(s, steps[0]), steps[1..], who))
  }

  /** The caller has taken clients in cyclic order, and while it is under way the index is at its last one. */
  ghost predicate OnCourse(s: Shared, who: nat) {
    && 0 < s.n && who < |s.callers|
    && var c := s.callers[who];
    c.tried != [] ==>
      && (forall k {:trigger c.tried[k]} | 0 <= k < |c.tried| :: c.tried[k] == Cyclic(c.tried[0], k, s.n))
      && (c.done.None? ==> s.current == c.tried[|c.tried| - 1])
  }

  lemma TakeKeepsCourse(s: Shared, who: nat)
    requires Inv(s) && Enabled(s, Take(who)) && OnCourse(s, who)
    ensures OnCourse(Apply(s, Take(who)), who)
  {
    var c := s.callers[who];
    assert c in s.callers;
    var tried := Apply(s, Take(who)).callers[who].tried;
    NextClientIsAfter(s);
    Small(s.current, s.n);
    forall k | 0 <= k < |tried| ensures tried[k] == Cyclic(tried[0], k, s.n) {
      if 0 < k == |c.tried| {
        assert c.tried[k - 1] == Cyclic(tried[0], k - 1, s.n);
      }
    }
  }

  lemma StepKeepsCourse(s: Shared, step: Step, who: nat)
    requires Inv(s) && Enabled(s, step) && OnCourse(s, who)
    requires step.who != who && Underway(s.callers[who]) ==> !AdvancesIndex(s, step)
    ensures OnCourse(Apply(s, step), who)
  {
    if step == Take(who) { TakeKeepsCourse(s, who); }
  }

  lemma {:induction false} UninterruptedStaysOnCourse(s: Shared, steps: seq<Step>, who: nat)
    requires Inv(s) && OnCourse(s, who) && Legal(s, steps) && Uninterrupted(s, steps, who)
    ensures OnCourse(Run(s, steps), who)
    decreases |steps|
  {
    if steps != [] {
      StepKeepsInv(s, steps[0]);
      StepKeepsCourse(s, steps[0], who);
      UninterruptedStaysOnCourse(Apply(s, steps[0]), steps[1..], who);
    }
  }

  /**
   Among any number of callers, one during whose call nobody else advances the index returns an
   error only after it has tried every client.
   */
  lemma UninterruptedErrorMeansAllTried(n: nat, start: nat, callers: nat, steps: seq<Step>, who: nat, client: nat)
    requires start < n && who < callers && client < n && Legal(Begin(n, start, callers), steps)
    requires Uninterrupted(Begin(n, start, callers), steps, who)
    ensures var s := Run(Begin(n, start, callers), steps);
      && who < |s.callers|
      && (s.callers[who].done == Some(false) ==> client in s.callers[who].tried)
  {
    var s := Run(Begin(n, start, callers), steps);
    BeginIsGood(n, start, callers);
    RunKeepsInv(Begin(n, start, callers), steps);
    UninterruptedStaysOnCourse(Begin(n, start, callers), steps, who);
    var c := s.callers[who];
    assert c in s.callers;
    if c.done == Some(false) {
      var k := RoundCoversOnce(c.tried[0], n, client);
      assert c.tried[k] == client;
    }
  }

  lemma {:induction false} LoneIsUninterrupted(s: Shared, steps: seq<Step>)
    requires 0 < s.n && |s.callers| == 1 && Legal(s, steps)
    ensures Uninterrupted(s, steps, 0)
    decreases |steps|
  {
    if steps != [] { LoneIsUninterrupted(Apply(s, steps[0]), steps[1..]); }
  }

  /** One caller on its own: an error means that all clients were tried, and so does a single client. */
  lemma LawHolds(n: nat, start: nat, callers: nat, steps: seq<Step>)
    requires start < n && (callers <= 1 || n == 1) && Legal(Begin(n, start, callers), steps)
    ensures ErrorsMeanAllTried(Run(Begin(n, start, callers), steps))
  {
    var s := Run(Begin(n, start, callers), steps);
    BeginIsGood(n, start, callers);
    RunKeepsInv(Begin(n, start, callers), steps);
    forall c, client: nat | c in s.callers && c.done == Some(false) && client < n ensures client in c.tried {
      if n == 1 {
        assert c.tried[0] in c.tried;
      } else {
        LoneIsUninterrupted(Begin(n, start, callers), steps);
        UninterruptedErrorMeansAllTried(n, start, callers, steps, 0, client);
        assert c == s.callers[0];
      }
    }
  }

  lemma Chain(s: Shared, step: Step, rest: seq<Step>)
    requires 0 < s.n && Enabled(s, step) && Legal(Apply(s, step), rest)
    ensures Legal(s, [step] + rest) && Run(s, [step] + rest) == Run(Apply(s, step), rest)
  {
    assert ([step] + rest)[1..] == rest;
  }

  /** Caller 1 has passed over the client after the start, and waits for the answer of a later one. */
  ghost predicate Skipping(s: Shared) {
    && 2 <= s.n && 2 <= |s.callers| && s.start < s.n
    && var c := s.callers[1];
    && c.pending && c.done.None? && 2 <= |c.tried| == c.attempts + 1 <= s.n
    && s.current == Cyclic(s.start, |c.tried|, s.n)
    && c.tried[0] == s.start
    && forall k {:trigger c.tried[k]} | 1 <= k < |c.tried| :: c.tried[k] == Cyclic(s.start, k + 1, s.n)
  }

  lemma SkippedIsNotTried(s: Shared)
    requires Skipping(s)
    ensures Cyclic(s.start, 1, s.n) !in s.callers[1].tried
  {
    var c := s.callers[1];
    Small(s.start, s.n);
    assert Cyclic(s.start, 0, s.n) == s.start;
    forall k | 0 <= k < |c.tried| ensures c.tried[k] != Cyclic(s.start, 1, s.n) {
      if c.tried[k] == Cyclic(s.start, 1, s.n) {
        CyclicInjective(s.start, if k == 0 then 0 else k + 1, 1, s.n);
      }
    }
  }

  /** From there, caller 1 may fail on everything it still tries, and never meets the client it passed. */
  lemma {:induction false} FinishSkipping(s: Shared) returns (steps: seq<Step>)
    requires Skipping(s)
    ensures Legal(s, steps)
    ensures var t := Run(s, steps);
      && |t.callers| == |s.callers| && t.n == s.n && t.callers[1].done == Some(false)
      && Cyclic(s.start, 1, s.n) !in t.callers[1].tried
    decreases s.n - |s.callers[1].tried|
  {
    var c := s.callers[1];
    var fail := Answer(1, false);
    var s1 := Apply(s, fail);
    SkippedIsNotTried(s);
    if c.attempts + 1 == s.n {
      Chain(s, fail, []);
      steps := [fail];
      assert [fail] + [] == [fail];
    } else {
      var s2 := Apply(s1, Take(1));
      NextClientIsAfter(s1);
      var rest := FinishSkipping(s2);
      Chain(s1, Take(1), rest);
      Chain(s, fail, [Take(1)] + rest);
      steps := [fail] + ([Take(1)] + rest);
    }
  }

  /** Both callers have failed once at the client the index stands at. */
  ghost predicate BothFailedOnce(s: Shared) {
    && 2 <= s.n && 2 <= |s.callers| && s.current == s.start < s.n
    && s.callers[0] == Caller(1, [s.start], false, None)
    && s.callers[1] == Caller(1, [s.start], false, None)
  }

  /** The index advances once for each of them, and the second one is past a client it never tried. */
  lemma SecondPassesOne(s: Shared) returns (steps: seq<Step>)
    requires BothFailedOnce(s)
    ensures Legal(s, steps)
    ensures var t := Run(s, steps);
      && |t.callers| == |s.callers| && t.n == s.n && t.callers[1].done == Some(false)
      && Cyclic(s.start, 1, s.n) !in t.callers[1].tried
  {
    var s1 := Apply(s, Take(0));
    var s2 := Apply(s1, Take(1));
    Small(s.start, s.n);
    NextClientIsAfter(s);
    assert s1.current == Cyclic(s.start, 1, s.n);
    NextClientIsAfter(s1);
    assert s2.current == Cyclic(s.start, 2, s.n);
    assert s2.callers[1].tried == [s.start, s2.current];
    var rest := FinishSkipping(s2);
    Chain(s1, Take(1), rest);
    Chain(s, Take(0), [Take(1)] + rest);
    steps := [Take(0)] + ([Take(1)] + rest);
  }

  /** Two callers and two clients are enough to let an error arise although some client never failed. */
  lemma LawFails(n: nat, start: nat, callers: nat) returns (steps: seq<Step>)
    requires start < n && 2 <= callers && 2 <= n
    ensures Legal(Begin(n, start, callers), steps)
    ensures !ErrorsMeanAllTried(Run(Begin(n, start, callers), steps))
  {
    var s0 := Begin(n, start, callers);
    var s1 := Apply(s0, Take(0));
    var s2 := Apply(s1, Take(1));
    var s3 := Apply(s2, Answer(0, false));
    var s4 := Apply(s3, Answer(1, false));
    var rest := SecondPassesOne(s4);
    var r3 := [Answer(1, false)] + rest;
    var r2 := [Answer(0, false)] + r3;
    var r1 := [Take(1)] + r2;
    steps := [Take(0)] + r1;
    Chain(s3, Answer(1, false), rest);
    Chain(s2, Answer(0, false), r3);
    Chain(s1, Take(1), r2);
    Chain(s0, Take(0), r1);
    var t := Run(s0, steps);
    assert t == Run(s4, rest);
    assert t.callers[1] in t.callers;
  }

  /**
   The promise of failover, that an error means every client was tried, holds for every run exactly
   when there is at most one caller in the whole run or only one client.
   */
  lemma ErrorsMeanAllTriedExactlyWhen(n: nat, start: nat, callers: nat)
    requires start < n
    ensures callers <= 1 || n == 1 <==>
      forall steps | Legal(Begin(n, start, callers), steps) ::
        ErrorsMeanAllTried(Run(Begin(n, start, callers), steps))
  {
    if callers <= 1 || n == 1 {
      forall steps | Legal(Begin(n, start, callers), steps)
        ensures ErrorsMeanAllTried(Run(Begin(n, start, callers), steps))
      {
        LawHolds(n, start, callers, steps);
      }
    } else {
      var steps := LawFails(n, start, callers);
    }
  }
}
