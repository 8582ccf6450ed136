/** The reconnect loop of the Solana slot subscription: endpoint rotation and capped doubling delay. */
module Reconnect {
  import opened Arithmetic

  const MAX_DELAY := 60

  /**
   What one turn of the loop runs into: no connection, no subscription (in both cases the error is
   sent to a receiver that may be gone), or a subscription that ends with its stream or by shutdown.
   */
  datatype Turn =
    | ConnectFailed(receiverOpen: bool)
    | SubscribeFailed(receiverOpen: bool)
    | StreamEnded
    | ShutDown

  // ---------------------------------------------------------------- closed forms

  /** min(2^k, 60). */
  function Capped(k: nat): nat {
    if Pow2(k) > 60 then 60 else Pow2(k)
  }

  /** How many reconnects, counting the one after turn `i`, were made since the last subscription. */
  function Streak(turns: seq<Turn>, i: nat): nat
    requires i < |turns|
  {
    if turns[i].StreamEnded? || i == 0 then 1 else Streak(turns, i - 1) + 1
  }

  /** Up to turn `i`, a subscription was last held on turn `j`, or never and `j` is the first turn. */
  predicate LastReset(turns: seq<Turn>, j: nat, i: nat)
    requires j <= i < |turns|
  {
    (j == 0 || turns[j] == StreamEnded) && forall m | j < m <= i :: turns[m] != StreamEnded
  }

  /** The streak is counted from the last ended stream, or from the first turn. */
  lemma {:induction false} StreakIsCounted(turns: seq<Turn>, j: nat, i: nat)
    requires j <= i < |turns| && LastReset(turns, j, i)
    ensures Streak(turns, i) == i - j + 1
  {
    if j < i {
      assert turns[i] != StreamEnded;
      StreakIsCounted(turns, j, i - 1);
    }
  }

  function Doubled(delay: nat): nat {
    if delay * 2 > 60 then 60 else delay * 2
  }

  /** Doubling and cutting off again gives the next capped power. */
  lemma CappedDoubles(k: nat)
    ensures Doubled(Capped(k)) == Capped(k + 1)
  {
  }

  // ---------------------------------------------------------------- the loop

  /** Moves to the next endpoint, doubles the delay up to the cap, and sleeps that long. */
  method HandleReconnect(currentEndpoint: nat, endpoints: nat, reconnectDelay: nat)
    returns (nextEndpoint: nat, nextDelay: nat)
    requires currentEndpoint < endpoints
    ensures nextEndpoint == After(currentEndpoint, endpoints) && nextDelay == Doubled(reconnectDelay)
  {
    nextEndpoint := (currentEndpoint + 1) % endpoints;
    Small(currentEndpoint, endpoints);
    AfterIsResidue(currentEndpoint, endpoints);
    var seconds := reconnectDelay * 2;
    nextDelay := if seconds > MAX_DELAY then MAX_DELAY else seconds;
  }

  /**
   Runs the loop on a script of turns. It reconnects after each turn up to the first that finds the
   receiver gone or is a shutdown; an ended stream never ends it. The i-th turn uses endpoint i modulo
   their number, and the k-th reconnect since the last subscription sleeps min(2^k, 60) seconds.
   */
  method RunSlotSubscription(endpoints: nat, turns: seq<Turn>)
    returns (sleeps: seq<nat>, visited: seq<nat>, currentEndpoint: nat)
    requires 0 < endpoints
    ensures |sleeps| <= |turns| && currentEndpoint == Cyclic(0, |sleeps|, endpoints)
    ensures forall i | 0 <= i < |sleeps| :: turns[i] !in {ConnectFailed(false), SubscribeFailed(false), ShutDown}
    ensures |sleeps| < |turns| ==> turns[|sleeps|] in {ConnectFailed(false), SubscribeFailed(false), ShutDown}
    ensures forall i: nat, j: nat | j <= i < |sleeps| && LastReset(turns, j, i) ::
              sleeps[i] == if Pow2(i - j + 1) > 60 then 60 else Pow2(i - j + 1)
    ensures |visited| == if |sleeps| < |turns| then |sleeps| + 1 else |sleeps|
    ensures forall i {:trigger visited[i]} | 0 <= i < |visited| :: visited[i] == Cyclic(0, i, endpoints)
  {
    currentEndpoint := 0;
    var reconnectDelay: nat := 1;
    sleeps, visited := [], [];
    Small(0, endpoints);
    var i := 0;
    ghost var streak: nat := 0;
    while i < |turns|
      invariant i == |sleeps| == |visited| <= |turns|
      invariant forall j | 0 <= j < i :: turns[j] !in {ConnectFailed(false), SubscribeFailed(false), ShutDown}
      invariant currentEndpoint == Cyclic(0, i, endpoints)
      invariant streak == if i == 0 then 0 else Streak(turns, i - 1)
      invariant reconnectDelay == Capped(streak)
      invariant forall j {:trigger sleeps[j]} | 0 <= j < i :: sleeps[j] == Capped(Streak(turns, j))
      invariant forall j {:trigger visited[j]} | 0 <= j < i :: visited[j] == Cyclic(0, j, endpoints)
    {
      visited := visited + [currentEndpoint];
      match turns[i] {
        case ConnectFailed(open) =>
          if !open {
            break;
          }
        case SubscribeFailed(open) =>
          if !open {
            break;
          }
        case StreamEnded =>
          reconnectDelay := 1;
          assert Capped(0) == 1;
        case ShutDown =>
          break;
      }
      streak := Streak(turns, i) - 1;
      CappedDoubles(streak);
      currentEndpoint, reconnectDelay := HandleReconnect(currentEndpoint, endpoints, reconnectDelay);
      streak := streak + 1;
      sleeps := sleeps + [reconnectDelay];
      i := i + 1;
    }
    forall i: nat, j: nat | j <= i < |sleeps| && LastReset(turns, j, i)
      ensures sleeps[i] == if Pow2(i - j + 1) > 60 then 60 else Pow2(i - j + 1)
    {
      StreakIsCounted(turns, j, i);
    }
  }
}
