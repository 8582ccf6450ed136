/**
 The Ethereum RPC client's choice among its endpoints: a cyclic scan from a shared index, bounded by
 the number of healthy clients (not of clients), with a fallback to the first healthy one.
 */
module HealthyClients {
  import opened Outcomes
  import opened Arithmetic

  const MAX_INT32 := 0x7FFF_FFFF

  type Health = seq<bool>

  // ---------------------------------------------------------------- independent definitions

  /** The indices of the healthy clients, ascending. */
  function Candidates(health: Health): (indices: seq<nat>)
    ensures forall j | 0 <= j < |indices| :: indices[j] < |health| && health[indices[j]]
    ensures forall j, k | 0 <= j < k < |indices| :: indices[j] < indices[k]
    ensures forall i | 0 <= i < |health| && health[i] :: i in indices
    ensures |indices| <= |health|
  {
    if health == [] then []
    else
      var last := |health| - 1;
      Candidates(health[..last]) + if health[last] then [last] else []
  }

  predicate SomeHealthy(health: Health) {
    exists i | 0 <= i < |health| :: health[i]
  }

  /** `i` is the first healthy client on the walk from `cur`, met after `d` steps. */
  ghost predicate FirstFrom(health: Health, cur: nat, d: nat, i: nat) {
    && d < |health| && i == Cyclic(cur, d, |health|)
    && health[i]
    && forall e: nat | e < d :: !health[Cyclic(cur, e, |health|)]
  }

  /** `chosen` and the index stored afterwards, by the distance of the first healthy client from `cur`. */
  ghost predicate Chosen(health: Health, cur: nat, chosen: nat, stored: int) {
    && chosen < |health| && health[chosen]
    && forall d: nat, i: nat | FirstFrom(health, cur, d, i) ::
         if d < |Candidates(health)| then chosen == stored == i
         else chosen == Candidates(health)[0] && stored == cur
  }

  /** The walk from `cur` meets nobody healthy in its first `k` steps. */
  ghost predicate NoneWithin(health: Health, cur: nat, k: nat)
    requires health != []
  {
    forall e: nat | e < k :: !health[Cyclic(cur, e, |health|)]
  }

  lemma NoneExtends(health: Health, cur: nat, k: nat)
    requires health != [] && NoneWithin(health, cur, k) && !health[Cyclic(cur, k, |health|)]
    ensures NoneWithin(health, cur, k + 1)
  {
  }

  lemma ScanFinds(health: Health, cur: nat, d: nat, i: nat)
    requires d < |Candidates(health)| && NoneWithin(health, cur, d)
    requires i == Cyclic(cur, d, |health|) && health[i]
    ensures Chosen(health, cur, i, i)
  {
    assert FirstFrom(health, cur, d, i);
    forall d': nat, i': nat | FirstFrom(health, cur, d', i') ensures d' == d && i' == i {
      FirstIsUnique(health, cur, d, i, d', i');
    }
  }

  lemma ScanGivesUp(health: Health, cur: nat)
    requires 0 < |Candidates(health)| && NoneWithin(health, cur, |Candidates(health)|)
    ensures Chosen(health, cur, Candidates(health)[0], cur)
  {
  }

  lemma FirstIsUnique(health: Health, cur: nat, d: nat, i: nat, d': nat, i': nat)
    requires FirstFrom(health, cur, d, i) && FirstFrom(health, cur, d', i')
    ensures d == d' && i == i'
  {
  }

  // ---------------------------------------------------------------- the client

  class Client {
    var isHealthy: Health
    var current: int

    constructor (isHealthy: Health)
      ensures this.isHealthy == isHealthy && current == 0
    {
      this.isHealthy := isHealthy;
      current := 0;
    }

    /** An atomic add on an int32, which wraps around. */
    method NextClient()
      requires -MAX_INT32 - 1 <= current <= MAX_INT32
      modifies this`current
      ensures current == if old(current) == MAX_INT32 then -MAX_INT32 - 1 else old(current) + 1
    {
      current := if current == MAX_INT32 then -MAX_INT32 - 1 else current + 1;
    }

    /**
     Fails exactly when nobody is healthy. Otherwise, if the first healthy client from `current` is
     fewer steps away than there are healthy clients, that client is returned and its index stored;
     if not, the first healthy client of the list is returned and the index stays.
     */
    method GetHealthyClient() returns (r: Result<nat, string>)
      requires 0 <= current && |isHealthy| <= MAX_INT32
      modifies this`current
      ensures r.Err? <==> !SomeHealthy(isHealthy)
      ensures r.Err? ==> current == old(current)
      ensures r.Ok? ==> Chosen(isHealthy, old(current), r.value, current)
    {
      var n := |isHealthy|;
      var candidates: seq<nat> := [];
      for i := 0 to n
        invariant candidates == Candidates(isHealthy[..i])
      {
        assert isHealthy[..i + 1][..i] == isHealthy[..i];
        if isHealthy[i] {
          candidates := candidates + [i];
        }
      }
      assert isHealthy[..n] == isHealthy;
      if |candidates| == 0 {
        return Err("no healthy clients available");
      }
      assert isHealthy[candidates[0]];
      var cur := current;
      for offset := 0 to |candidates|
        invariant current == old(current) == cur
        invariant NoneWithin(isHealthy, cur, offset)
      {
        var idx := (cur + offset) % n;
        CyclicIsResidue(cur, offset, n);
        if isHealthy[idx] {
          current := idx;
          ScanFinds(isHealthy, cur, offset, idx);
          return Ok(idx);
        }
        NoneExtends(isHealthy, cur, offset);
      }
      ScanGivesUp(isHealthy, cur);
      return Ok(candidates[0]);
    }

    /**
     CurrentClient and NextClient in turn, `count` times unless nobody is healthy. The index stays
     within twice the number of clients, so it never wraps around. Any window of as many calls as
     there are clients picks each healthy client, and with a healthy majority any window of as many
     calls as there are healthy clients picks each exactly once.
     */
    method AlternateClients(count: nat) returns (calls: seq<Call>)
      requires 2 * |isHealthy| <= MAX_INT32 && InReach(isHealthy, current)
      modifies this`current
      ensures |calls| == if SomeHealthy(isHealthy) then count else 0
      ensures Alternated(isHealthy, old(current), calls, current)
      ensures EachPicked(isHealthy, calls)
      ensures Majority(isHealthy) ==> EachPickedOnce(isHealthy, calls)
    {
      calls := [];
      while |calls| < count
        invariant |calls| <= count && Alternated(isHealthy, old(current), calls, current)
        invariant calls != [] ==> SomeHealthy(isHealthy)
      {
        var index := current;
        var r := GetHealthyClient();
        if r.Err? {
          break;
        }
        var call := Call(index, r.value, current);
        AlternatedExtends(isHealthy, old(current), calls, call);
        calls := calls + [call];
        NextClient();
      }
      AlternatingPicksEach(isHealthy, calls);
    }
  }

  // ---------------------------------------------------------------- when the scan must succeed

  function CountHealthy(health: Health): nat {
    if health == [] then 0 else CountHealthy(health[..|health| - 1]) + if health[|health| - 1] then 1 else 0
  }

  lemma {:induction false} CountsCandidates(health: Health)
    ensures |Candidates(health)| == CountHealthy(health)
  {
    if health != [] { CountsCandidates(health[..|health| - 1]); }
  }

  lemma {:induction false} CountSplit(a: Health, b: Health)
    ensures CountHealthy(a + b) == CountHealthy(a) + CountHealthy(b)
  {
    if b == [] {
      assert a + b == a;
    } else {
      assert (a + b)[..|a + b| - 1] == a + b[..|b| - 1];
      CountSplit(a, b[..|b| - 1]);
    }
  }

  lemma {:induction false} CountAtMostLength(health: Health)
    ensures CountHealthy(health) <= |health|
    ensures (forall i | 0 <= i < |health| :: !health[i]) ==> CountHealthy(health) == 0
  {
    if health != [] { CountAtMostLength(health[..|health| - 1]); }
  }

  /** The list as the cyclic walk from `cur` meets it. */
  function Rotated(health: Health, cur: nat): (r: Health)
    requires health != []
    ensures |r| == |health|
  {
    health[cur % |health|..] + health[..cur % |health|]
  }

  lemma SplitWalk(cur: nat, d: nat, n: nat)
    requires d < n
    ensures var c := cur % n; c < n && Cyclic(cur, d, n) == if c + d < n then c + d else c + d - n
  {
    var c := cur % n;
    CyclicIsResidue(cur, d, n);
    AddReduced(cur, d, n);
    if c + d < n { Small(c + d, n); } else { WrapOnce(c + d, n); }
  }

  lemma RotatedAt(health: Health, cur: nat, d: nat)
    requires d < |health|
    ensures Rotated(health, cur)[d] == health[Cyclic(cur, d, |health|)]
  {
    var n := |health|;
    SplitWalk(cur, d, n);
  }

  lemma RotatedCount(health: Health, cur: nat)
    requires health != []
    ensures CountHealthy(Rotated(health, cur)) == CountHealthy(health)
  {
    var c := cur % |health|;
    CountSplit(health[c..], health[..c]);
    CountSplit(health[..c], health[c..]);
    assert health[..c] + health[c..] == health;
  }

  lemma {:induction false} LeastTrue(walk: Health) returns (d: nat)
    requires SomeHealthy(walk)
    ensures d < |walk| && walk[d] && forall e | 0 <= e < d :: !walk[e]
    decreases |walk|
  {
    if walk[0] {
      d := 0;
    } else {
      var i :| 0 <= i < |walk| && walk[i];
      assert walk[1..][i - 1];
      d := LeastTrue(walk[1..]);
      d := d + 1;
      forall e | 0 <= e < d ensures !walk[e] {
        if e > 0 { assert walk[e] == walk[1..][e - 1]; }
      }
    }
  }

  lemma FirstExists(health: Health, cur: nat) returns (d: nat, i: nat)
    requires SomeHealthy(health)
    ensures FirstFrom(health, cur, d, i)
  {
    var n := |health|;
    var walk := Rotated(health, cur);
    forall e: nat | e < n ensures walk[e] == health[Cyclic(cur, e, n)] { RotatedAt(health, cur, e); }
    CountAtMostLength(walk);
    RotatedCount(health, cur);
    HealthyCounts(health);
    assert SomeHealthy(walk);
    d := LeastTrue(walk);
    i := Cyclic(cur, d, n);
  }

  lemma {:induction false} HealthyCounts(health: Health)
    requires SomeHealthy(health)
    ensures 0 < CountHealthy(health)
  {
    var last := |health| - 1;
    if !health[last] {
      var i :| 0 <= i < |health| && health[i];
      assert health[..last][i];
      HealthyCounts(health[..last]);
    }
  }

  /** A walk that begins with as many unhealthy clients as there are healthy ones is twice as long. */
  lemma UnhealthyPrefix(walk: Health, h: nat)
    requires h == CountHealthy(walk) && h <= |walk|
    requires forall e | 0 <= e < h :: !walk[e]
    ensures 2 * h <= |walk|
  {
    assert walk == walk[..h] + walk[h..];
    CountSplit(walk[..h], walk[h..]);
    CountAtMostLength(walk[..h]);
    CountAtMostLength(walk[h..]);
  }

  /**
   Pigeonhole: with more than half of the clients healthy, the truncated scan always reaches the
   first healthy client, so the fallback is unreachable.
   */
  lemma MajorityAlwaysScans(health: Health, cur: nat, d: nat, i: nat)
    requires 2 * |Candidates(health)| > |health| && FirstFrom(health, cur, d, i)
    ensures d < |Candidates(health)|
  {
    var h, walk := |Candidates(health)|, Rotated(health, cur);
    CountsCandidates(health);
    RotatedCount(health, cur);
    if d >= h {
      forall e: nat | e < h ensures !walk[e] { RotatedAt(health, cur, e); }
      UnhealthyPrefix(walk, h);
    }
  }

  /** The first `h` clients are healthy, the others are not. */
  function HealthyFirst(n: nat, h: nat): Health {
    seq(n, i => i < h)
  }

  lemma {:induction false} HealthyFirstCounts(n: nat, h: nat)
    requires h <= n
    ensures CountHealthy(HealthyFirst(n, h)) == h
    decreases n
  {
    if n > 0 {
      var less := if h < n then h else n - 1;
      HealthyFirstCounts(n - 1, less);
      assert HealthyFirst(n, h)[..n - 1] == HealthyFirst(n - 1, less);
    }
  }

  /** From the first unhealthy client, the walk first passes all the unhealthy ones. */
  lemma HealthyFirstWalk(n: nat, h: nat)
    requires 0 < h < n
    ensures |Candidates(HealthyFirst(n, h))| == h && FirstFrom(HealthyFirst(n, h), h, n - h, 0)
  {
    var health := HealthyFirst(n, h);
    CountsCandidates(health);
    HealthyFirstCounts(n, h);
    WrappedWalk(h, n - h, n);
    forall e: nat | e < n - h ensures !health[Cyclic(h, e, n)] { PlainWalk(h, e, n); }
  }

  /**
   In numbers of clients: the truncated scan is sure to reach the first healthy client, whichever
   clients are healthy and wherever it starts, exactly with a strict healthy majority. With half of
   them or fewer, some start makes it give up.
   */
  lemma ScanSufficesExactlyWhen(n: nat, h: nat)
    requires 0 < h <= n
    ensures 2 * h > n <==>
      forall health: Health, cur: nat, d: nat, i: nat
        | |health| == n && |Candidates(health)| == h && FirstFrom(health, cur, d, i) :: d < h
  {
    if 2 * h > n {
      forall health: Health, cur: nat, d: nat, i: nat
        | |health| == n && |Candidates(health)| == h && FirstFrom(health, cur, d, i)
        ensures d < h
      {
        MajorityAlwaysScans(health, cur, d, i);
      }
    } else {
      HealthyFirstWalk(n, h);
    }
  }

  // ---------------------------------------------------------------- fairness of alternating calls

  /** One call of CurrentClient: the index it found, the client it returned, the index it left. */
  datatype Call = Call(index: nat, pick: nat, stored: int)

  /** CurrentClient and NextClient called in turn, while no health flag changes. */
  ghost predicate Alternating(health: Health, calls: seq<Call>) {
    && (forall k | 0 <= k < |calls| ::
          Chosen(health, calls[k].index, calls[k].pick, calls[k].stored))
    && (forall k | 0 < k < |calls| :: calls[k].index == calls[k - 1].stored + 1)
  }

  /** Going on from the index, the first healthy client is met before twice the number of clients. */
  ghost predicate InReach(health: Health, cur: int) {
    && 0 <= cur
    && (SomeHealthy(health) ==> exists d: nat, i: nat :: FirstFrom(health, cur, d, i) && cur + d < 2 * |health|)
  }

  /** Client `i` is picked by one of the `size` calls from the `w`-th on. */
  ghost predicate Picked(calls: seq<Call>, w: nat, size: nat, i: nat)
    requires w + size <= |calls|
  {
    exists k | w <= k < w + size :: calls[k].pick == i
  }

  ghost predicate PickedOnce(calls: seq<Call>, w: nat, size: nat, i: nat)
    requires w + size <= |calls|
  {
    exists k | w <= k < w + size ::
      calls[k].pick == i && (forall l | w <= l < w + size && calls[l].pick == i :: l == k)
  }

  /** Each healthy client is picked in any window of as many calls as there are clients. */
  ghost predicate EachPicked(health: Health, calls: seq<Call>) {
    forall w: nat, i: nat | w + |health| <= |calls| && i < |health| && health[i] ::
      Picked(calls, w, |health|, i)
  }

  /** Each healthy client is picked just once in any window of as many calls as there are healthy ones. */
  ghost predicate EachPickedOnce(health: Health, calls: seq<Call>) {
    forall w: nat, i: nat | w + |Candidates(health)| <= |calls| && i < |health| && health[i] ::
      PickedOnce(calls, w, |Candidates(health)|, i)
  }

  /** Every index up to the number of clients is in reach, in particular the initial one. */
  lemma NearIsInReach(health: Health, cur: nat)
    requires cur <= |health|
    ensures InReach(health, cur)
  {
    if SomeHealthy(health) { var d, i := FirstExists(health, cur); }
  }

  /** A call and a step on keep the index in reach, whether the scan succeeded or fell back. */
  lemma ReachIsKept(health: Health, c: Call)
    requires Chosen(health, c.index, c.pick, c.stored) && InReach(health, c.index)
    ensures c.index < 2 * |health| && 0 <= c.stored < 2 * |health| && InReach(health, c.stored + 1)
  {
    var d: nat, i: nat :| FirstFrom(health, c.index, d, i) && c.index + d < 2 * |health|;
    CallOutcome(health, c, d, i);
    if d < |Candidates(health)| {
      NearIsInReach(health, i + 1);
    } else {
      FirstFromNext(health, c.index, d, i);
    }
  }

  /** A scan stores the first healthy client; a fallback stays, on an unhealthy one. */
  lemma CallOutcome(health: Health, c: Call, d: nat, i: nat)
    requires Chosen(health, c.index, c.pick, c.stored) && FirstFrom(health, c.index, d, i)
    ensures if d < |Candidates(health)| then c.pick == c.stored == i else 0 < d && c.stored == c.index
  {
    CandidateExists(health, i);
  }

  lemma CandidateExists(health: Health, i: nat)
    requires i < |health| && health[i]
    ensures 0 < |Candidates(health)|
  {
    assert i in Candidates(health);
  }

  /** One step on from an unhealthy client, the first healthy one is one step nearer. */
  lemma FirstFromNext(health: Health, cur: nat, d: nat, i: nat)
    requires FirstFrom(health, cur, d, i) && 0 < d
    ensures FirstFrom(health, cur + 1, d - 1, i)
  {
    var n, next := |health|, cur + 1;
    CyclicShift(cur, 1, d - 1, n);
    forall e: nat | e < d - 1 ensures !health[Cyclic(next, e, n)] {
      CyclicShift(cur, 1, e, n);
      assert !health[Cyclic(cur, e + 1, n)];
    }
  }

  /** Starting just after the place reached in `d` steps is walking `d + 1` steps further. */
  lemma {:induction false} Resume(cur: nat, d: nat, k: nat, n: nat)
    requires 0 < n
    ensures Cyclic(Cyclic(cur, d, n) + 1, k, n) == Cyclic(cur, d + 1 + k, n)
    decreases k
  {
    if k == 0 {
      Small(Cyclic(cur, d, n), n);
      AfterIsResidue(Cyclic(cur, d, n), n);
    } else {
      Resume(cur, d, k - 1, n);
    }
  }

  /**
   A call towards a healthy client `far` steps ahead picks it, or leaves it fewer steps ahead of the
   next index: a successful scan passes only unhealthy clients, a fallback steps over one of them.
   */
  lemma CallApproaches(health: Health, c: Call, far: nat, i: nat) returns (left: nat)
    requires Chosen(health, c.index, c.pick, c.stored)
    requires i < |health| && health[i] && Cyclic(c.index, far, |health|) == i
    ensures c.pick == i || (left < far && 0 <= c.stored && Cyclic(c.stored + 1, left, |health|) == i)
  {
    left := 0;
    var d, first := FirstExists(health, c.index);
    CallOutcome(health, c, d, first);
    if d >= |Candidates(health)| {
      left := far - 1;
      CyclicShift(c.index, 1, left, |health|);
    } else if d < far {
      left := far - d - 1;
      Resume(c.index, d, left, |health|);
    }
  }

  /** A healthy client `far` steps ahead of the index is picked within `far + 1` calls. */
  lemma {:induction false} PickedAhead(health: Health, calls: seq<Call>, k: nat, far: nat, i: nat) returns (l: nat)
    requires Alternating(health, calls) && k + far < |calls|
    requires i < |health| && health[i] && Cyclic(calls[k].index, far, |health|) == i
    ensures k <= l <= k + far && calls[l].pick == i
    decreases far
  {
    l := k;
    var left := CallApproaches(health, calls[k], far, i);
    if calls[k].pick != i {
      assert calls[k + 1].index == calls[k].stored + 1;
      l := PickedAhead(health, calls, k + 1, left, i);
    }
  }

  /** No healthy client is starved: a window of as many calls as there are clients picks each of them. */
  lemma NobodyStarves(health: Health, calls: seq<Call>, w: nat, i: nat)
    requires Alternating(health, calls) && w + |health| <= |calls| && i < |health| && health[i]
    ensures Picked(calls, w, |health|, i)
  {
    var far := RoundCoversOnce(calls[w].index, |health|, i);
    var k := PickedAhead(health, calls, w, far, i);
  }

  lemma AlternatingPicksEach(health: Health, calls: seq<Call>)
    requires Alternating(health, calls)
    ensures EachPicked(health, calls)
    ensures Majority(health) ==> EachPickedOnce(health, calls)
  {
    forall w: nat, i: nat | w + |health| <= |calls| && i < |health| && health[i]
      ensures Picked(calls, w, |health|, i)
    {
      NobodyStarves(health, calls, w, i);
    }
    if Majority(health) {
      forall w: nat, i: nat | w + |Candidates(health)| <= |calls| && i < |health| && health[i]
        ensures PickedOnce(calls, w, |Candidates(health)|, i)
      {
        var k := EachOncePerRound(health, calls, w, i);
      }
    }
  }

  /** The calls of an alternation from index `start` that leaves index `cur`, none from outside the reach. */
  ghost predicate Alternated(health: Health, start: int, calls: seq<Call>, cur: int) {
    && Alternating(health, calls) && InReach(health, cur)
    && (if calls == [] then cur == start else calls[0].index == start && cur == calls[|calls| - 1].stored + 1)
    && (forall k | 0 <= k < |calls| :: calls[k].index < 2 * |health|)
  }

  lemma AlternatedExtends(health: Health, start: int, calls: seq<Call>, c: Call)
    requires Alternated(health, start, calls, c.index)
    requires Chosen(health, c.index, c.pick, c.stored)
    ensures 0 <= c.stored < 2 * |health|
    ensures Alternated(health, start, calls + [c], c.stored + 1)
  {
    ReachIsKept(health, c);
    AlternatingExtends(health, calls, c);
  }

  lemma AlternatingExtends(health: Health, calls: seq<Call>, c: Call)
    requires Alternating(health, calls) && Chosen(health, c.index, c.pick, c.stored)
    requires calls != [] ==> c.index == calls[|calls| - 1].stored + 1
    ensures Alternating(health, calls + [c])
  {
  }

  /** From a start within the list, the index stays below twice the number of clients. */
  lemma {:induction false} IndexIsBounded(health: Health, calls: seq<Call>, k: nat)
    requires Alternating(health, calls) && k < |calls| && calls[0].index <= |health|
    ensures calls[k].index < 2 * |health| && InReach(health, calls[k].index)
  {
    if k == 0 {
      NearIsInReach(health, calls[0].index);
    } else {
      IndexIsBounded(health, calls, k - 1);
      ReachIsKept(health, calls[k - 1]);
    }
    ReachIsKept(health, calls[k]);
  }

  /** Nothing healthy lies before the first candidate, after the last, or between two neighbours. */
  lemma GapIsUnhealthy(health: Health, x: nat)
    requires x < |health| && Candidates(health) != []
    ensures var h := Candidates(health);
      && (x < h[0] || h[|h| - 1] < x ==> !health[x])
      && (forall j | 0 <= j < |h| - 1 && h[j] < x < h[j + 1] :: !health[x])
  {
    var h := Candidates(health);
    if health[x] {
      var q :| 0 <= q < |h| && h[q] == x;
      InOrder(h, 0, q);
      InOrder(h, q, |h| - 1);
      forall j | 0 <= j < |h| - 1 ensures !(h[j] < x < h[j + 1]) {
        if q <= j { InOrder(h, q, j); } else { InOrder(h, j + 1, q); }
      }
    }
  }

  lemma InOrder(h: seq<nat>, j: nat, k: nat)
    requires j <= k < |h| && forall j, k | 0 <= j < k < |h| :: h[j] < h[k]
    ensures h[j] <= h[k]
  {
  }

  /** From just after one healthy client, the walk first meets the next one in the list, cyclically. */
  lemma NextHealthy(health: Health, j: nat) returns (d: nat)
    requires j < |Candidates(health)|
    ensures var h := Candidates(health);
      FirstFrom(health, h[j] + 1, d, h[After(j, |h|)])
  {
    var h := Candidates(health);
    if j + 1 < |h| {
      d := NextAbove(health, j);
    } else {
      d := NextAround(health);
    }
  }

  lemma NextAbove(health: Health, j: nat) returns (d: nat)
    requires j + 1 < |Candidates(health)|
    ensures FirstFrom(health, Candidates(health)[j] + 1, d, Candidates(health)[j + 1])
  {
    var h, n := Candidates(health), |health|;
    var a := h[j] + 1;
    d := h[j + 1] - a;
    PlainWalk(a, d, n);
    forall e: nat | e < d ensures !health[Cyclic(a, e, n)] {
      PlainWalk(a, e, n);
      GapIsUnhealthy(health, a + e);
    }
  }

  lemma PlainWalk(a: nat, e: nat, n: nat)
    requires a + e < n
    ensures Cyclic(a, e, n) == a + e
  {
    CyclicIsResidue(a, e, n);
    Small(a + e, n);
  }

  lemma WrappedWalk(a: nat, e: nat, n: nat)
    requires 0 < n <= a + e < 2 * n
    ensures Cyclic(a, e, n) == a + e - n
  {
    CyclicIsResidue(a, e, n);
    WrapOnce(a + e, n);
  }

  lemma NextAround(health: Health) returns (d: nat)
    requires Candidates(health) != []
    ensures var h := Candidates(health); FirstFrom(health, h[|h| - 1] + 1, d, h[0])
  {
    var h, n := Candidates(health), |health|;
    var a := h[|h| - 1] + 1;
    InOrder(h, 0, |h| - 1);
    d := n - a + h[0];
    WrappedWalk(a, d, n);
    forall e: nat | e < d ensures !health[Cyclic(a, e, n)] {
      if a + e < n {
        PlainWalk(a, e, n);
        GapIsUnhealthy(health, a + e);
      } else {
        WrappedWalk(a, e, n);
        GapIsUnhealthy(health, a + e - n);
      }
    }
  }

  predicate Majority(health: Health) {
    2 * |Candidates(health)| > |health|
  }

  lemma MajorityCall(health: Health, c: Call, d: nat, i: nat)
    requires Majority(health) && Chosen(health, c.index, c.pick, c.stored) && FirstFrom(health, c.index, d, i)
    ensures c.pick == c.stored == i
  {
    MajorityAlwaysScans(health, c.index, d, i);
  }

  lemma {:induction false} Visits(health: Health, calls: seq<Call>, start: nat, k: nat)
    requires Majority(health) && Alternating(health, calls) && k < |calls|
    requires start < |Candidates(health)| && calls[0].pick == Candidates(health)[start]
    ensures var h := Candidates(health);
      calls[k].pick == calls[k].stored == h[Cyclic(start, k, |h|)]
    ensures k > 0 ==> calls[k].index <= |health|
  {
    var h := Candidates(health);
    if k == 0 {
      Small(start, |h|);
      assert health[h[start]];
      var d, i := FirstExists(health, calls[0].index);
      MajorityCall(health, calls[0], d, i);
    } else {
      Visits(health, calls, start, k - 1);
      var j := Cyclic(start, k - 1, |h|);
      var d := NextHealthy(health, j);
      MajorityCall(health, calls[k], d, h[After(j, |h|)]);
    }
  }

  /**
   Fairness: with a healthy majority, alternating calls go round the healthy clients in list order,
   and the shared index never exceeds the number of clients.
   */
  lemma VisitsInOrder(health: Health, calls: seq<Call>, k: nat) returns (start: nat)
    requires Majority(health) && Alternating(health, calls) && k < |calls|
    ensures var h := Candidates(health);
      start < |h| && calls[0].pick == h[start] && calls[k].pick == h[Cyclic(start, k, |h|)]
    ensures calls[k].stored == calls[k].pick
    ensures k > 0 ==> calls[k].index <= |health|
  {
    var h := Candidates(health);
    start :| 0 <= start < |h| && h[start] == calls[0].pick;
    Visits(health, calls, start, k);
  }

  /** Within one round of turns every place comes up exactly once. */
  lemma TurnsCoverOnce(start: nat, w: nat, m: nat, j: nat) returns (k: nat)
    requires j < m
    ensures w <= k < w + m && Cyclic(start, k, m) == j
    ensures forall l: nat | w <= l < w + m && Cyclic(start, l, m) == j :: l == k
  {
    var d := RoundCoversOnce(start + w, m, j);
    k := w + d;
    CyclicShift(start, w, d, m);
    forall l: nat | w <= l < w + m && Cyclic(start, l, m) == j ensures l == k {
      CyclicInjective(start, k, l, m);
    }
  }

  /** Any window of as many calls as there are healthy clients visits each of them exactly once. */
  lemma EachOncePerRound(health: Health, calls: seq<Call>, w: nat, i: nat) returns (k: nat)
    requires Majority(health) && Alternating(health, calls)
    requires w + |Candidates(health)| <= |calls| && i < |health| && health[i]
    ensures w <= k < w + |Candidates(health)| && calls[k].pick == i
    ensures forall l | w <= l < w + |Candidates(health)| && calls[l].pick == i :: l == k
  {
    var h := Candidates(health);
    var start :| 0 <= start < |h| && h[start] == calls[0].pick;
    var j :| 0 <= j < |h| && h[j] == i;
    k := TurnsCoverOnce(start, w, |h|, j);
    Visits(health, calls, start, k);
    forall l: nat | w <= l < w + |h| && calls[l].pick == i ensures l == k {
      Visits(health, calls, start, l);
      assert h[Cyclic(start, l, |h|)] == h[j];
    }
  }
}
