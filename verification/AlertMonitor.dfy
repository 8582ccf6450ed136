/** The processor monitor's alerts: what a health check raises, and the events for what changed. */
module AlertMonitor {

  /** The alerts the checks can raise; a chain alert's name is built from the chain's. */
  datatype Alert =
    | NoWorkers
    | HighWorkerUtilization
    | QueueBacklog
    | HighErrorRate(chain: string)
    | ProcessingDelay(chain: string)

  // ---------------------------------------------------------------- list operations of Elixir

  /** Enum.uniq: later repetitions are dropped. */
  function Uniq(xs: seq<Alert>): (r: seq<Alert>)
    ensures Distinct(r)
    ensures forall x :: x in r <==> x in xs
  {
    if xs == [] then []
    else
      var n := |xs| - 1;
      assert xs == xs[..n] + [xs[n]];
      var init := Uniq(xs[..n]);
      if xs[n] in init then init else init + [xs[n]]
  }

  /** The first occurrence of `x` is removed. */
  function DeleteFirst(xs: seq<Alert>, x: Alert): seq<Alert> {
    if xs == [] then [] else if xs[0] == x then xs[1..] else [xs[0]] + DeleteFirst(xs[1..], x)
  }

  /** The `--` operator: one occurrence is removed for each element on the right. */
  function Minus(xs: seq<Alert>, ys: seq<Alert>): seq<Alert>
    decreases |ys|
  {
    if ys == [] then xs else Minus(DeleteFirst(xs, ys[0]), ys[1..])
  }

  ghost predicate Distinct(xs: seq<Alert>) {
    forall i, j | 0 <= i < j < |xs| :: xs[i] != xs[j]
  }

  lemma {:induction false} DeleteFromDistinct(xs: seq<Alert>, x: Alert)
    requires Distinct(xs)
    ensures Distinct(DeleteFirst(xs, x))
    ensures forall y :: y in DeleteFirst(xs, x) <==> y in xs && y != x
  {
    if xs != [] {
      var rest := xs[1..];
      assert xs == [xs[0]] + rest;
      assert xs[0] !in rest;
      DeleteFromDistinct(rest, x);
    }
  }

  /** On lists without repetition, `--` is set difference. */
  lemma {:induction false} MinusOfDistinct(xs: seq<Alert>, ys: seq<Alert>)
    requires Distinct(xs)
    ensures Distinct(Minus(xs, ys))
    ensures forall y :: y in Minus(xs, ys) <==> y in xs && y !in ys
    decreases |ys|
  {
    if ys != [] {
      assert ys == [ys[0]] + ys[1..];
      DeleteFromDistinct(xs, ys[0]);
      MinusOfDistinct(DeleteFirst(xs, ys[0]), ys[1..]);
    }
  }

  // ---------------------------------------------------------------- alert changes

  datatype Event = Triggered(alert: Alert) | Resolved(alert: Alert)

  function TriggerAll(alerts: seq<Alert>): seq<Event> {
    seq(|alerts|, i requires 0 <= i < |alerts| => Triggered(alerts[i]))
  }

  function ResolveAll(alerts: seq<Alert>): seq<Event> {
    seq(|alerts|, i requires 0 <= i < |alerts| => Resolved(alerts[i]))
  }

  function HandleAlertChanges(previous: seq<Alert>, next: seq<Alert>): seq<Event> {
    TriggerAll(Minus(next, previous)) + ResolveAll(Minus(previous, next))
  }

  datatype Monitor = Monitor(alerts: seq<Alert>, events: seq<Event>)

  /** One health check: `raised` is the list the checks built up, before repetitions are removed. */
  function CheckHealth(m: Monitor, raised: seq<Alert>): Monitor {
    var alerts := Uniq(raised);
    Monitor(alerts, m.events + HandleAlertChanges(m.alerts, alerts))
  }

  function Run(checks: seq<seq<Alert>>): Monitor {
    if checks == [] then Monitor([], [])
    else CheckHealth(Run(checks[..|checks| - 1]), checks[|checks| - 1])
  }

  // ---------------------------------------------------------------- alternation

  /** The events of one alert, in order: true for triggered, false for resolved. */
  function History(events: seq<Event>, a: Alert): seq<bool> {
    if events == [] then []
    else
      var e := events[|events| - 1];
      History(events[..|events| - 1], a) + if e.alert == a then [e.Triggered?] else []
  }

  lemma {:induction false} HistoryConcat(xs: seq<Event>, ys: seq<Event>, a: Alert)
    ensures History(xs + ys, a) == History(xs, a) + History(ys, a)
  {
    if ys == [] {
      assert xs + ys == xs;
    } else {
      var n := |ys| - 1;
      assert (xs + ys)[..|xs + ys| - 1] == xs + ys[..n];
      HistoryConcat(xs, ys[..n], a);
    }
  }

  lemma HistoryAppend(events: seq<Event>, e: Event, a: Alert)
    ensures History(events + [e], a) == History(events, a) + if e.alert == a then [e.Triggered?] else []
  {
    assert (events + [e])[..|events|] == events;
  }

  /** Events about distinct alerts mention a given alert once or not at all. */
  lemma {:induction false} HistoryOfTriggers(alerts: seq<Alert>, a: Alert)
    requires Distinct(alerts)
    ensures History(TriggerAll(alerts), a) == if a in alerts then [true] else []
  {
    if alerts != [] {
      var n := |alerts| - 1;
      HistoryOfTriggers(alerts[..n], a);
      assert TriggerAll(alerts) == TriggerAll(alerts[..n]) + [Triggered(alerts[n])];
      HistoryAppend(TriggerAll(alerts[..n]), Triggered(alerts[n]), a);
      assert alerts == alerts[..n] + [alerts[n]];
      assert alerts[n] !in alerts[..n];
    }
  }

  lemma {:induction false} HistoryOfResolves(alerts: seq<Alert>, a: Alert)
    requires Distinct(alerts)
    ensures History(ResolveAll(alerts), a) == if a in alerts then [false] else []
  {
    if alerts != [] {
      var n := |alerts| - 1;
      HistoryOfResolves(alerts[..n], a);
      assert ResolveAll(alerts) == ResolveAll(alerts[..n]) + [Resolved(alerts[n])];
      HistoryAppend(ResolveAll(alerts[..n]), Resolved(alerts[n]), a);
      assert alerts == alerts[..n] + [alerts[n]];
      assert alerts[n] !in alerts[..n];
    }
  }

  /** The events of one change: exactly what is new and what is gone, once each, triggers first. */
  lemma ChangesAreExact(previous: seq<Alert>, next: seq<Alert>, a: Alert)
    requires Distinct(previous) && Distinct(next)
    ensures var events := HandleAlertChanges(previous, next);
      && (Triggered(a) in events <==> a in next && a !in previous)
      && (Resolved(a) in events <==> a in previous && a !in next)
      && (forall i, j | 0 <= i < j < |events| ::
            events[i] != events[j] && (events[j].Triggered? ==> events[i].Triggered?))
  {
    var triggered, resolved := Minus(next, previous), Minus(previous, next);
    MinusOfDistinct(next, previous);
    MinusOfDistinct(previous, next);
    assert forall i | 0 <= i < |triggered| :: TriggerAll(triggered)[i] == Triggered(triggered[i]);
    assert forall i | 0 <= i < |resolved| :: ResolveAll(resolved)[i] == Resolved(resolved[i]);
    assert a in triggered ==> Triggered(a) in TriggerAll(triggered) by {
      if i :| 0 <= i < |triggered| && triggered[i] == a { assert TriggerAll(triggered)[i] == Triggered(a); }
    }
    assert a in resolved ==> Resolved(a) in ResolveAll(resolved) by {
      if i :| 0 <= i < |resolved| && resolved[i] == a { assert ResolveAll(resolved)[i] == Resolved(a); }
    }
  }

  /** Strict alternation, beginning with a trigger. */
  ghost predicate Alternates(history: seq<bool>) {
    forall i | 0 <= i < |history| :: history[i] <==> i % 2 == 0
  }

  /** What one change of lists adds to the history of an alert. */
  lemma ChangeHistory(before: seq<Alert>, after: seq<Alert>, a: Alert)
    requires Distinct(before) && Distinct(after)
    ensures History(HandleAlertChanges(before, after), a) ==
      (if a in after && a !in before then [true] else if a in before && a !in after then [false] else [])
  {
    var triggered, resolved := Minus(after, before), Minus(before, after);
    MinusOfDistinct(after, before);
    MinusOfDistinct(before, after);
    HistoryOfTriggers(triggered, a);
    HistoryOfResolves(resolved, a);
    HistoryConcat(TriggerAll(triggered), ResolveAll(resolved), a);
  }

  lemma NextEvent(history: seq<bool>, was: bool, now: bool)
    requires Alternates(history) && (was <==> |history| % 2 == 1)
    ensures var next := history + (if now && !was then [true] else if was && !now then [false] else []);
      Alternates(next) && (now <==> |next| % 2 == 1)
  {
  }

  lemma AlertsAreDistinct(checks: seq<seq<Alert>>)
    ensures Distinct(Run(checks).alerts)
    ensures checks != [] ==> forall a :: a in Run(checks).alerts <==> a in checks[|checks| - 1]
  {
  }

  /**
   Over any health checks, the events of each alert alternate, starting with triggered, and the
   alert is current exactly when it has been triggered once more than resolved; it is current
   exactly when the last check raised it.
   */
  lemma {:induction false} EventsAlternate(checks: seq<seq<Alert>>, a: Alert)
    ensures var m := Run(checks); var history := History(m.events, a);
      && Alternates(history)
      && (a in m.alerts <==> |history| % 2 == 1)
      && (a in m.alerts <==> checks != [] && a in checks[|checks| - 1])
  {
    if checks != [] {
      var earlier := checks[..|checks| - 1];
      EventsAlternate(earlier, a);
      AlertsAreDistinct(earlier);
      AlertsAreDistinct(checks);
      OneCheck(Run(earlier), checks[|checks| - 1], a);
    }
  }

  lemma OneCheck(m: Monitor, raised: seq<Alert>, a: Alert)
    requires Distinct(m.alerts) && Alternates(History(m.events, a))
    requires a in m.alerts <==> |History(m.events, a)| % 2 == 1
    ensures var after := CheckHealth(m, raised); var history := History(after.events, a);
      Alternates(history) && (a in after.alerts <==> |history| % 2 == 1)
  {
    var after := CheckHealth(m, raised);
    ChangeHistory(m.alerts, after.alerts, a);
    HistoryConcat(m.events, HandleAlertChanges(m.alerts, after.alerts), a);
    NextEvent(History(m.events, a), a in m.alerts, a in after.alerts);
  }

  // ---------------------------------------------------------------- what a check raises

  datatype PoolStats = PoolStats(workerCount: nat, queueSize: nat, processingCount: nat)

  datatype ChainStats = ChainStats(chain: string, failedCount: nat, processingCount: nat, processingDelay: int)

  predicate Overloaded(stats: PoolStats) {
    stats.workerCount > 0 && stats.processingCount as real / stats.workerCount as real > 0.9
  }

  function CheckWorkerCount(alerts: seq<Alert>, stats: PoolStats): seq<Alert> {
    if stats.workerCount == 0 then [NoWorkers] + alerts
    else if Overloaded(stats) then [HighWorkerUtilization] + alerts
    else alerts
  }

  function CheckQueueSize(alerts: seq<Alert>, stats: PoolStats): seq<Alert> {
    if stats.queueSize > 1000 then [QueueBacklog] + alerts else alerts
  }

  predicate Failing(c: ChainStats) {
    c.failedCount as real / (if c.processingCount > 1 then c.processingCount else 1) as real > 0.1
  }

  predicate Delayed(c: ChainStats) { c.processingDelay > 5000 }

  function CheckErrorRates(alerts: seq<Alert>, chains: seq<ChainStats>): seq<Alert>
    decreases |chains|
  {
    if chains == [] then alerts
    else
      CheckErrorRates(
        if Failing(chains[0]) then [HighErrorRate(chains[0].chain)] + alerts else alerts, chains[1..])
  }

  function CheckProcessingDelays(alerts: seq<Alert>, chains: seq<ChainStats>): seq<Alert>
    decreases |chains|
  {
    if chains == [] then alerts
    else
      CheckProcessingDelays(
        if Delayed(chains[0]) then [ProcessingDelay(chains[0].chain)] + alerts else alerts, chains[1..])
  }

  /** The list a check builds up, before Enum.uniq. */
  function Raised(pool: PoolStats, chains: seq<ChainStats>): seq<Alert> {
    CheckProcessingDelays(
      CheckErrorRates(CheckQueueSize(CheckWorkerCount([], pool), pool), chains),
      chains)
  }

  /** The chains come from the keys of a map. */
  ghost predicate DistinctChains(chains: seq<ChainStats>) {
    forall i, j | 0 <= i < j < |chains| :: chains[i].chain != chains[j].chain
  }

  lemma {:induction false} ErrorRatesAdd(alerts: seq<Alert>, chains: seq<ChainStats>)
    requires Distinct(alerts) && DistinctChains(chains)
    requires forall c | c in chains :: HighErrorRate(c.chain) !in alerts
    ensures Distinct(CheckErrorRates(alerts, chains))
    ensures forall a :: a in CheckErrorRates(alerts, chains) <==>
                        a in alerts || exists c | c in chains && Failing(c) :: a == HighErrorRate(c.chain)
    decreases |chains|
  {
    if chains != [] {
      var next := if Failing(chains[0]) then [HighErrorRate(chains[0].chain)] + alerts else alerts;
      assert chains == [chains[0]] + chains[1..];
      ErrorRatesAdd(next, chains[1..]);
    }
  }

  lemma {:induction false} DelaysAdd(alerts: seq<Alert>, chains: seq<ChainStats>)
    requires Distinct(alerts) && DistinctChains(chains)
    requires forall c | c in chains :: ProcessingDelay(c.chain) !in alerts
    ensures Distinct(CheckProcessingDelays(alerts, chains))
    ensures forall a :: a in CheckProcessingDelays(alerts, chains) <==>
                        a in alerts || exists c | c in chains && Delayed(c) :: a == ProcessingDelay(c.chain)
    decreases |chains|
  {
    if chains != [] {
      var next := if Delayed(chains[0]) then [ProcessingDelay(chains[0].chain)] + alerts else alerts;
      assert chains == [chains[0]] + chains[1..];
      DelaysAdd(next, chains[1..]);
    }
  }

  lemma {:induction false} UniqOfDistinct(xs: seq<Alert>)
    requires Distinct(xs)
    ensures Uniq(xs) == xs
  {
    if xs != [] { UniqOfDistinct(xs[..|xs| - 1]); }
  }

  /** When an alert is due: over nine tenths of the workers busy, over a tenth of the tasks failed, and so on. */
  predicate Deserved(a: Alert, pool: PoolStats, chains: seq<ChainStats>) {
    match a
    case NoWorkers => pool.workerCount == 0
    case HighWorkerUtilization => pool.workerCount > 0 && 10 * pool.processingCount > 9 * pool.workerCount
    case QueueBacklog => pool.queueSize > 1000
    case HighErrorRate(name) =>
      exists c | c in chains && c.failedCount > 0 && 10 * c.failedCount > c.processingCount :: c.chain == name
    case ProcessingDelay(name) => exists c | c in chains && c.processingDelay > 5000 :: c.chain == name
  }

  lemma RatiosAsIntegers(pool: PoolStats, c: ChainStats)
    ensures Overloaded(pool) <==> pool.workerCount > 0 && 10 * pool.processingCount > 9 * pool.workerCount
    ensures Failing(c) <==> c.failedCount > 0 && 10 * c.failedCount > c.processingCount
  {
    if pool.workerCount > 0 { RatioAbove(pool.processingCount, pool.workerCount, 9); }
    RatioAbove(c.failedCount, if c.processingCount > 1 then c.processingCount else 1, 1);
  }

  /** The checks' quotients and the conditions on whole numbers agree. */
  lemma DeservedAsChecked(a: Alert, pool: PoolStats, chains: seq<ChainStats>)
    ensures Deserved(a, pool, chains) <==>
      match a
      case NoWorkers => pool.workerCount == 0
      case HighWorkerUtilization => Overloaded(pool)
      case QueueBacklog => pool.queueSize > 1000
      case HighErrorRate(name) => exists c | c in chains && Failing(c) :: c.chain == name
      case ProcessingDelay(name) => exists c | c in chains && Delayed(c) :: c.chain == name
  {
    if a.HighErrorRate? {
      forall c | c in chains ensures Failing(c) <==> c.failedCount > 0 && 10 * c.failedCount > c.processingCount {
        RatiosAsIntegers(pool, c);
      }
    } else if a.HighWorkerUtilization? {
      RatiosAsIntegers(pool, ChainStats("", 0, 0, 0));
    } else if a.ProcessingDelay? {
      assert forall c | c in chains :: Delayed(c) <==> c.processingDelay > 5000;
    }
  }

  lemma RatioAbove(a: nat, b: nat, tenths: nat)
    requires b > 0
    ensures a as real / b as real > tenths as real / 10.0 <==> 10 * a > tenths * b
  {
    var x, y := a as real, b as real;
    assert x == x / y * y;
    if 10 * a > tenths * b {
      assert 10.0 * x > tenths as real * y;
    }
  }

  lemma PoolAlerts(pool: PoolStats, a: Alert)
    ensures var base := CheckQueueSize(CheckWorkerCount([], pool), pool);
      && Distinct(base)
      && (a in base <==>
            (a == NoWorkers && pool.workerCount == 0) || (a == HighWorkerUtilization && Overloaded(pool))
            || (a == QueueBacklog && pool.queueSize > 1000))
  {
    assert CheckWorkerCount([], pool) ==
      if pool.workerCount == 0 then [NoWorkers] else if Overloaded(pool) then [HighWorkerUtilization] else [];
  }

  lemma ChainAlerts(base: seq<Alert>, chains: seq<ChainStats>, a: Alert)
    requires Distinct(base) && DistinctChains(chains)
    requires forall x | x in base :: !x.HighErrorRate? && !x.ProcessingDelay?
    ensures var all := CheckProcessingDelays(CheckErrorRates(base, chains), chains);
      && Distinct(all)
      && (a in all <==>
            a in base
            || (exists c | c in chains && Failing(c) :: a == HighErrorRate(c.chain))
            || (exists c | c in chains && Delayed(c) :: a == ProcessingDelay(c.chain)))
  {
    ErrorRatesAdd(base, chains);
    DelaysAdd(CheckErrorRates(base, chains), chains);
  }

  /**
   A check raises exactly the alerts whose condition holds, none of them twice: on what the checks
   build up today, Enum.uniq changes nothing.
   */
  lemma ChecksRaiseEachOnce(pool: PoolStats, chains: seq<ChainStats>, a: Alert)
    requires DistinctChains(chains)
    ensures Uniq(Raised(pool, chains)) == Raised(pool, chains)
    ensures a in Raised(pool, chains) <==> Deserved(a, pool, chains)
  {
    var base := CheckQueueSize(CheckWorkerCount([], pool), pool);
    forall x | x in base ensures !x.HighErrorRate? && !x.ProcessingDelay? { PoolAlerts(pool, x); }
    PoolAlerts(pool, a);
    ChainAlerts(base, chains, a);
    UniqOfDistinct(Raised(pool, chains));
    DeservedAsChecked(a, pool, chains);
    match a {
      case HighErrorRate(name) => assert forall c | c in chains :: a == HighErrorRate(c.chain) <==> c.chain == name;
      case ProcessingDelay(name) => assert forall c | c in chains :: a == ProcessingDelay(c.chain) <==> c.chain == name;
      case _ =>
    }
  }

  /** Without Enum.uniq it would fail: a repeated alert is triggered again although it is already there. */
  lemma RepetitionTriggersAgain(a: Alert)
    ensures Minus([a, a], [a]) == [a]
    ensures HandleAlertChanges([a], [a, a]) == [Triggered(a)]
  {
    assert DeleteFirst([a, a], a) == [a];
    assert [a][1..] == [] && [a, a][1..] == [a];
    assert Minus([a, a], [a]) == Minus([a], []);
    assert DeleteFirst([a], a) == [];
    assert Minus([a], [a, a]) == Minus([], [a]) == Minus([], []);
  }
}
