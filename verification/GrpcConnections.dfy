/**
 gRPC clients and the connection registry they report to. A client's status casts travel in order
 to the registry, with no order between clients; everything else about timing is left open.
 */
module GrpcConnections {
  import opened Arithmetic
  import opened Outcomes

  type Key = string

  const DEFAULT_BACKOFF := 1000
  const MAX_BACKOFF := 30_000

  datatype Status = Disconnected | Connecting | Connected

  /** The registry's entry; `seen` says whether last_connected has been set. */
  datatype Connection = Connection(endpoint: string, status: Status, seen: bool, reconnectAttempts: nat)

  type Registry = map<Key, Connection>

  datatype Client = Client(
    endpoint: string, hasChannel: bool, status: Status, retryCount: nat, maxRetries: nat, backoff: nat, timer: bool)

  // ---------------------------------------------------------------- registry handlers

  function Register(connections: Registry, key: Key, endpoint: string): Result<Registry, string> {
    if key in connections then Err("already_registered")
    else Ok(connections[key := Connection(endpoint, Disconnected, false, 0)])
  }

  function Updated(c: Connection, status: Status): Connection {
    c.(status := status,
       seen := status == Connected || c.seen,
       reconnectAttempts := if status == Connecting then c.reconnectAttempts + 1 else 0)
  }

  function UpdateStatus(connections: Registry, key: Key, status: Status): Registry {
    if key in connections then connections[key := Updated(connections[key], status)] else connections
  }

  // ---------------------------------------------------------------- client handlers

  /** A handled connect: the new state, the status cast to the registry, and a timer that was set. */
  datatype Reaction = Reaction(client: Client, cast: Status, timer: Option<nat>)

  function InitialClient(endpoint: string, maxRetries: nat): Client {
    Client(endpoint, false, Disconnected, 0, maxRetries, DEFAULT_BACKOFF, false)
  }

  function HandleConnect(c: Client, connected: bool): Reaction {
    if connected then
      Reaction(
        c.(hasChannel := true, status := Connected, retryCount := 0, backoff := DEFAULT_BACKOFF, timer := false),
        Connected, None)
    else if c.retryCount < c.maxRetries then
      var next := if c.backoff * 2 < MAX_BACKOFF then c.backoff * 2 else MAX_BACKOFF;
      Reaction(
        c.(status := Connecting, retryCount := c.retryCount + 1, backoff := next, timer := true),
        Connecting, Some(c.backoff))
    else
      Reaction(c.(status := Disconnected, timer := false), Disconnected, None)
  }

  // ---------------------------------------------------------------- the system

  /**
   A client process with its surroundings: connect messages or timers outstanding, status casts
   under way to the registry, and the history of attempts and timer delays.
   */
  datatype Node = Node(client: Client, connects: nat, casts: seq<Status>, attempts: nat, delays: seq<nat>)

  datatype System = System(nodes: map<Key, Node>, registry: Registry)

  datatype Event =
    | StartClient(key: Key, endpoint: string, maxRetries: nat)
    | Connect(key: Key, connected: bool)
    | Deliver(key: Key)

  predicate Enabled(s: System, e: Event) {
    match e
    case StartClient(_, _, _) => true
    case Connect(key, _) => key in s.nodes && s.nodes[key].connects > 0
    case Deliver(key) => key in s.nodes && s.nodes[key].casts != []
  }

  function ConnectNode(node: Node, connected: bool): Node
    requires node.connects > 0
  {
    var r := HandleConnect(node.client, connected);
    Node(
      r.client,
      node.connects - 1 + (if r.timer.Some? then 1 else 0),
      node.casts + [r.cast],
      node.attempts + 1,
      node.delays + if r.timer.Some? then [r.timer.value] else [])
  }

  /** A client whose key is registered already fails to start and changes nothing. */
  function Step(s: System, e: Event): System
    requires Enabled(s, e)
  {
    match e
    case StartClient(key, endpoint, maxRetries) =>
      (match Register(s.registry, key, endpoint)
       case Err(_) => s
       case Ok(registry) =>
         System(s.nodes[key := Node(InitialClient(endpoint, maxRetries), 1, [], 0, [])], registry))
    case Connect(key, connected) => s.(nodes := s.nodes[key := ConnectNode(s.nodes[key], connected)])
    case Deliver(key) =>
      var node := s.nodes[key];
      System(s.nodes[key := node.(casts := node.casts[1..])], UpdateStatus(s.registry, key, node.casts[0]))
  }

  predicate Legal(s: System, es: seq<Event>)
    decreases |es|
  {
    es == [] || (Enabled(s, es[0]) && Legal(Step(s, es[0]), es[1..]))
  }

  function Run(s: System, es: seq<Event>): System
    requires Legal(s, es)
    decreases |es|
  {
    if es == [] then s else Run(Step(s, es[0]), es[1..])
  }

  // ---------------------------------------------------------------- invariant

  /** The entry once every cast under way has arrived. */
  function Settled(c: Connection, casts: seq<Status>): Connection {
    if casts == [] then c else Updated(Settled(c, casts[..|casts| - 1]), casts[|casts| - 1])
  }

  lemma {:induction false} SettledFromFront(c: Connection, casts: seq<Status>)
    requires casts != []
    ensures Settled(c, casts) == Settled(Updated(c, casts[0]), casts[1..])
    decreases |casts|
  {
    var init := casts[..|casts| - 1];
    if init != [] {
      SettledFromFront(c, init);
      assert casts[1..][..|casts| - 2] == init[1..];
    } else {
      assert Settled(c, init) == c;
    }
  }

  /** The delay before retry `k`, counted from 0: min(1000 * 2^k, 30000) milliseconds. */
  function Delay(k: nat): nat {
    if 1000 * Pow2(k) < 30_000 then 1000 * Pow2(k) else 30_000
  }

  lemma DelayDoubles(k: nat)
    ensures Delay(k + 1) == if Delay(k) * 2 < MAX_BACKOFF then Delay(k) * 2 else MAX_BACKOFF
  {
  }

  /** What the registry will say agrees with the client. */
  ghost predicate Agrees(node: Node, entry: Connection) {
    var settled := Settled(entry, node.casts);
    && settled.endpoint == node.client.endpoint
    && settled.status == node.client.status
    && settled.seen == node.client.hasChannel
    && settled.reconnectAttempts == (if node.client.status == Connecting then node.client.retryCount else 0)
  }

  /** Where a client stands in its sequence of attempts, by its status. */
  ghost predicate Scheduled(node: Node) {
    var c := node.client;
    && c.backoff == Delay(c.retryCount) && c.retryCount <= c.maxRetries
    && (forall i | 0 <= i < |node.delays| :: node.delays[i] == Delay(i))
    && (c.hasChannel <==> c.status == Connected)
    && (c.timer <==> c.status == Connecting)
    && match c.status
       case Connecting => node.connects == 1 && node.attempts == |node.delays| == c.retryCount > 0
       case Connected => node.connects == 0 && node.attempts == |node.delays| + 1 <= c.maxRetries + 1
       case Disconnected =>
         if node.attempts == 0 then node.connects == 1 && c.retryCount == |node.delays| == 0
         else node.connects == 0 && node.attempts == |node.delays| + 1 == c.maxRetries + 1
  }

  ghost predicate Inv(s: System) {
    && s.nodes.Keys == s.registry.Keys
    && forall key | key in s.nodes :: Agrees(s.nodes[key], s.registry[key]) && Scheduled(s.nodes[key])
  }

  lemma StartIsGood(endpoint: string, maxRetries: nat)
    ensures var node := Node(InitialClient(endpoint, maxRetries), 1, [], 0, []);
      Agrees(node, Connection(endpoint, Disconnected, false, 0)) && Scheduled(node)
  {
    assert Pow2(0) == 1;
  }

  lemma ConnectKeepsNode(node: Node, entry: Connection, connected: bool)
    requires Agrees(node, entry) && Scheduled(node) && node.connects > 0
    ensures Agrees(ConnectNode(node, connected), entry) && Scheduled(ConnectNode(node, connected))
  {
    var r := HandleConnect(node.client, connected);
    assert (node.casts + [r.cast])[..|node.casts|] == node.casts;
    DelayDoubles(node.client.retryCount);
    assert Pow2(0) == 1;
  }

  lemma DeliverKeepsNode(node: Node, entry: Connection)
    requires Agrees(node, entry) && Scheduled(node) && node.casts != []
    ensures var after := node.(casts := node.casts[1..]);
      Agrees(after, Updated(entry, node.casts[0])) && Scheduled(after)
  {
    SettledFromFront(entry, node.casts);
  }

  /** Changing one key's node and entry concerns that key alone. */
  lemma OneKeyChanges(s: System, t: System, key: Key)
    requires Inv(s) && key in t.nodes && key in t.registry
    requires t.nodes == s.nodes[key := t.nodes[key]] && t.registry == s.registry[key := t.registry[key]]
    requires Agrees(t.nodes[key], t.registry[key]) && Scheduled(t.nodes[key])
    ensures Inv(t)
  {
  }

  lemma StartKeepsInv(s: System, key: Key, endpoint: string, maxRetries: nat)
    requires Inv(s)
    ensures Inv(Step(s, StartClient(key, endpoint, maxRetries)))
  {
    if key !in s.registry {
      StartIsGood(endpoint, maxRetries);
      OneKeyChanges(s, Step(s, StartClient(key, endpoint, maxRetries)), key);
    }
  }

  lemma DeliverKeepsInv(s: System, key: Key)
    requires Inv(s) && Enabled(s, Deliver(key))
    ensures Inv(Step(s, Deliver(key)))
  {
    DeliverKeepsNode(s.nodes[key], s.registry[key]);
    OneKeyChanges(s, Step(s, Deliver(key)), key);
  }

  lemma ConnectKeepsInv(s: System, key: Key, connected: bool)
    requires Inv(s) && Enabled(s, Connect(key, connected))
    ensures Inv(Step(s, Connect(key, connected)))
  {
    ConnectKeepsNode(s.nodes[key], s.registry[key], connected);
    OneKeyChanges(s, Step(s, Connect(key, connected)), key);
  }

  lemma StepKeepsInv(s: System, e: Event)
    requires Inv(s) && Enabled(s, e)
    ensures Inv(Step(s, e))
  {
    match e
    case StartClient(key, endpoint, maxRetries) => StartKeepsInv(s, key, endpoint, maxRetries);
    case Connect(key, connected) => ConnectKeepsInv(s, key, connected);
    case Deliver(key) => DeliverKeepsInv(s, key);
  }

  lemma {:induction false} RunKeepsInv(s: System, es: seq<Event>)
    requires Inv(s) && Legal(s, es)
    ensures Inv(Run(s, es))
    decreases |es|
  {
    if es != [] {
      StepKeepsInv(s, es[0]);
      RunKeepsInv(Step(s, es[0]), es[1..]);
    }
  }

  // ---------------------------------------------------------------- clients by the events of a run

  lemma {:induction false} LastStep(s: System, es: seq<Event>)
    requires Legal(s, es) && es != []
    ensures var k := |es| - 1;
      Legal(s, es[..k]) && Enabled(Run(s, es[..k]), es[k]) && Run(s, es) == Step(Run(s, es[..k]), es[k])
    decreases |es|
  {
    var k := |es| - 1;
    if k > 0 {
      LastStep(Step(s, es[0]), es[1..]);
      assert es[1..][..k - 1] == es[..k][1..];
    }
  }

  /** How the client's connects went, in order. */
  function ConnectResults(es: seq<Event>, key: Key): seq<bool> {
    if es == [] then []
    else
      var e := es[|es| - 1];
      ConnectResults(es[..|es| - 1], key) + if e.Connect? && e.key == key then [e.connected] else []
  }

  /** The first start of the key, the one that registers it. */
  function FirstStart(es: seq<Event>, key: Key): Option<Event> {
    if es == [] then None
    else
      var e := es[|es| - 1];
      var earlier := FirstStart(es[..|es| - 1], key);
      if earlier.None? && e.StartClient? && e.key == key then Some(e) else earlier
  }

  /** How many of the client's casts have been delivered. */
  function Deliveries(es: seq<Event>, key: Key): nat {
    if es == [] then 0
    else Deliveries(es[..|es| - 1], key) + if es[|es| - 1] == Deliver(key) then 1 else 0
  }

  /** The status after connects with these results. */
  function StatusAfter(outcomes: seq<bool>, maxRetries: nat): Status {
    if outcomes == [] then Disconnected
    else if outcomes[|outcomes| - 1] then Connected
    else if |outcomes| <= maxRetries then Connecting
    else Disconnected
  }

  /** The registry's entry once it has heard of connects with these results. */
  function EntryAfter(endpoint: string, outcomes: seq<bool>, maxRetries: nat): Connection {
    var status := StatusAfter(outcomes, maxRetries);
    Connection(endpoint, status, status == Connected, if status == Connecting then |outcomes| else 0)
  }

  /** Only the last of a client's connects can have succeeded. */
  ghost predicate FailedUntilLast(outcomes: seq<bool>) {
    forall i | 0 <= i < |outcomes| - 1 :: !outcomes[i]
  }

  /** The client is what its start and its connects' outcomes make it. */
  ghost predicate Follows(node: Node, outcomes: seq<bool>, start: Option<Event>) {
    var c := node.client;
    && start.Some? && start.value.StartClient?
    && c.endpoint == start.value.endpoint && c.maxRetries == start.value.maxRetries
    && FailedUntilLast(outcomes)
    && node.attempts == |outcomes|
    && (c.status == Connected <==> outcomes != [] && outcomes[|outcomes| - 1])
    && (c.status == Connecting ==> outcomes != [])
  }

  /** The statuses after each of the connects, in order. */
  function Statuses(outcomes: seq<bool>, maxRetries: nat): (r: seq<Status>)
    ensures |r| == |outcomes|
  {
    if outcomes == [] then []
    else Statuses(outcomes[..|outcomes| - 1], maxRetries) + [StatusAfter(outcomes, maxRetries)]
  }

  lemma {:induction false} StatusesAt(outcomes: seq<bool>, maxRetries: nat, i: nat)
    requires i < |outcomes|
    ensures Statuses(outcomes, maxRetries)[i] == StatusAfter(outcomes[..i + 1], maxRetries)
  {
    var init := outcomes[..|outcomes| - 1];
    if i < |init| {
      StatusesAt(init, maxRetries, i);
      assert init[..i + 1] == outcomes[..i + 1];
    } else {
      assert outcomes[..i + 1] == outcomes;
    }
  }

  /** The entry is as of the delivered casts, and the casts under way tell the rest in order. */
  ghost predicate Lags(node: Node, entry: Connection, outcomes: seq<bool>, delivered: nat) {
    var c := node.client;
    && delivered <= |outcomes|
    && entry == EntryAfter(c.endpoint, outcomes[..delivered], c.maxRetries)
    && node.casts == Statuses(outcomes, c.maxRetries)[delivered..]
  }

  lemma ConnectLags(node: Node, entry: Connection, outcomes: seq<bool>, delivered: nat, connected: bool)
    requires Scheduled(node) && node.connects > 0 && node.attempts == |outcomes|
    requires Lags(node, entry, outcomes, delivered)
    ensures Lags(ConnectNode(node, connected), entry, outcomes + [connected], delivered)
  {
    var next := outcomes + [connected];
    assert next[..delivered] == outcomes[..delivered] && next[..|outcomes|] == outcomes;
  }

  lemma DeliverLags(node: Node, entry: Connection, outcomes: seq<bool>, delivered: nat)
    requires FailedUntilLast(outcomes) && node.casts != [] && Lags(node, entry, outcomes, delivered)
    ensures Lags(node.(casts := node.casts[1..]), Updated(entry, node.casts[0]), outcomes, delivered + 1)
  {
    StatusesAt(outcomes, node.client.maxRetries, delivered);
    assert outcomes[..delivered + 1][..delivered] == outcomes[..delivered];
  }

  lemma ConnectFollows(node: Node, outcomes: seq<bool>, start: Option<Event>, connected: bool)
    requires Scheduled(node) && node.connects > 0 && Follows(node, outcomes, start)
    ensures Follows(ConnectNode(node, connected), outcomes + [connected], start)
  {
  }

  ghost predicate NodeFollows(node: Node, entry: Connection, es: seq<Event>, key: Key) {
    && Follows(node, ConnectResults(es, key), FirstStart(es, key))
    && Lags(node, entry, ConnectResults(es, key), Deliveries(es, key))
  }

  ghost predicate KeyFollows(s: System, es: seq<Event>, key: Key) {
    if key in s.nodes && key in s.registry then NodeFollows(s.nodes[key], s.registry[key], es, key)
    else ConnectResults(es, key) == [] && FirstStart(es, key).None? && Deliveries(es, key) == 0
  }

  lemma AppendEvent(es: seq<Event>, e: Event, key: Key)
    ensures ConnectResults(es + [e], key) ==
      if e.Connect? && e.key == key then ConnectResults(es, key) + [e.connected] else ConnectResults(es, key)
    ensures FirstStart(es + [e], key) ==
      if FirstStart(es, key).None? && e.StartClient? && e.key == key then Some(e) else FirstStart(es, key)
    ensures Deliveries(es + [e], key) == Deliveries(es, key) + if e == Deliver(key) then 1 else 0
  {
    assert (es + [e])[..|es|] == es;
  }

  lemma ConnectKeepsKey(node: Node, entry: Connection, es: seq<Event>, key: Key, connected: bool)
    requires Scheduled(node) && node.connects > 0 && NodeFollows(node, entry, es, key)
    ensures NodeFollows(ConnectNode(node, connected), entry, es + [Connect(key, connected)], key)
  {
    AppendEvent(es, Connect(key, connected), key);
    ConnectFollows(node, ConnectResults(es, key), FirstStart(es, key), connected);
    ConnectLags(node, entry, ConnectResults(es, key), Deliveries(es, key), connected);
  }

  lemma DeliverKeepsKey(node: Node, entry: Connection, es: seq<Event>, key: Key)
    requires node.casts != [] && NodeFollows(node, entry, es, key)
    ensures NodeFollows(node.(casts := node.casts[1..]), Updated(entry, node.casts[0]), es + [Deliver(key)], key)
  {
    AppendEvent(es, Deliver(key), key);
    DeliverLags(node, entry, ConnectResults(es, key), Deliveries(es, key));
  }

  lemma StartKeepsKey(s: System, es: seq<Event>, e: Event, key: Key)
    requires s.nodes.Keys == s.registry.Keys && e.StartClient? && e.key == key && KeyFollows(s, es, key)
    ensures KeyFollows(Step(s, e), es + [e], key)
  {
    AppendEvent(es, e, key);
  }

  lemma StepFollows(s: System, es: seq<Event>, e: Event, key: Key)
    requires s.nodes.Keys == s.registry.Keys && (key in s.nodes ==> Scheduled(s.nodes[key]))
    requires Enabled(s, e) && KeyFollows(s, es, key)
    ensures KeyFollows(Step(s, e), es + [e], key)
  {
    if e.key != key {
      AppendEvent(es, e, key);
    } else {
      match e
      case StartClient(_, _, _) => StartKeepsKey(s, es, e, key);
      case Connect(_, connected) => ConnectKeepsKey(s.nodes[key], s.registry[key], es, key, connected);
      case Deliver(_) => DeliverKeepsKey(s.nodes[key], s.registry[key], es, key);
    }
  }

  lemma KeyIsScheduled(es: seq<Event>, key: Key)
    requires Legal(System(map[], map[]), es)
    ensures var s := Run(System(map[], map[]), es);
      s.nodes.Keys == s.registry.Keys && (key in s.nodes ==> Scheduled(s.nodes[key]))
  {
    RunKeepsInv(System(map[], map[]), es);
  }

  lemma {:induction false} RunFollows(es: seq<Event>, key: Key)
    requires Legal(System(map[], map[]), es)
    ensures KeyFollows(Run(System(map[], map[]), es), es, key)
    decreases |es|
  {
    if es != [] {
      var k := |es| - 1;
      LastStep(System(map[], map[]), es);
      RunFollows(es[..k], key);
      KeyIsScheduled(es[..k], key);
      assert es == es[..k] + [es[k]];
      StepFollows(Run(System(map[], map[]), es[..k]), es[..k], es[k], key);
    }
  }

  // ---------------------------------------------------------------- main results

  /**
   Agreement: in every reachable state, each client's registry entry with the casts under way
   applied in order shows the client's status, counts its retries while it is connecting, and has
   seen a connection exactly when the client holds one. Nothing under way means agreement now.
   */
  lemma RegistryAgrees(es: seq<Event>, key: Key)
    requires Legal(System(map[], map[]), es) && key in Run(System(map[], map[]), es).nodes
    ensures var s := Run(System(map[], map[]), es);
      && key in s.registry
      && Agrees(s.nodes[key], s.registry[key])
      && (s.nodes[key].casts == [] ==> s.registry[key].status == s.nodes[key].client.status)
  {
    RunKeepsInv(System(map[], map[]), es);
  }

  /**
   Attempts: at most one connect is outstanding, and a client is finished exactly when it is
   connected or has failed max_retries + 1 times; the i-th retry waited min(1000 * 2^i, 30000) ms.
   */
  lemma AttemptsAreExact(es: seq<Event>, key: Key)
    requires Legal(System(map[], map[]), es) && key in Run(System(map[], map[]), es).nodes
    ensures var node := Run(System(map[], map[]), es).nodes[key]; var c := node.client;
      && node.connects <= 1 && node.attempts <= c.maxRetries + 1
      && (node.connects == 0 <==> c.status == Connected || node.attempts == c.maxRetries + 1)
      && (node.connects == 0 && c.status != Connected ==>
            node.attempts == c.maxRetries + 1 && |node.delays| == c.maxRetries)
      && (forall i | 0 <= i < |node.delays| :: node.delays[i] == Delay(i))
  {
    RunKeepsInv(System(map[], map[]), es);
  }

  /**
   In terms of the events alone: a client is connected, and holds a channel, exactly when its last
   connect succeeded, and then it makes no more; while it keeps failing it is retried; it is given up
   exactly when max_retries + 1 connects have failed and none has succeeded. Its endpoint and
   max_retries are those of the start that registered it.
   */
  lemma OutcomesDecide(es: seq<Event>, key: Key)
    requires Legal(System(map[], map[]), es) && key in Run(System(map[], map[]), es).nodes
    ensures var s := Run(System(map[], map[]), es); var node := s.nodes[key]; var c := node.client;
      var outcomes := ConnectResults(es, key); var start := FirstStart(es, key); var n := |outcomes|;
      && start.Some? && start.value == StartClient(key, c.endpoint, c.maxRetries)
      && n <= c.maxRetries + 1 && (forall i | 0 <= i < n - 1 :: !outcomes[i])
      && (c.status == Connected <==> n > 0 && outcomes[n - 1])
      && (c.hasChannel <==> n > 0 && outcomes[n - 1])
      && (c.status == Connecting <==> 0 < n <= c.maxRetries && true !in outcomes)
      && (node.connects == 0 && !c.hasChannel <==> n == c.maxRetries + 1 && true !in outcomes)
      && (node.connects > 0 <==> n <= c.maxRetries && true !in outcomes)
      && |node.delays| == (if true in outcomes || n > c.maxRetries then n - 1 else n)
  {
    RunKeepsInv(System(map[], map[]), es);
    RunFollows(es, key);
    StartsAreOfKey(es, key);
    NodeDecided(Run(System(map[], map[]), es).nodes[key], ConnectResults(es, key), FirstStart(es, key));
  }

  lemma NodeDecided(node: Node, outcomes: seq<bool>, start: Option<Event>)
    requires Scheduled(node) && Follows(node, outcomes, start)
    ensures var c := node.client; var n := |outcomes|;
      && n <= c.maxRetries + 1
      && (c.status == Connected <==> true in outcomes)
      && (c.hasChannel <==> n > 0 && outcomes[n - 1])
      && (c.status == Connecting <==> 0 < n <= c.maxRetries && true !in outcomes)
      && (node.connects == 0 && !c.hasChannel <==> n == c.maxRetries + 1 && true !in outcomes)
      && (node.connects > 0 <==> n <= c.maxRetries && true !in outcomes)
      && |node.delays| == (if true in outcomes || n > c.maxRetries then n - 1 else n)
  {
    assert outcomes != [] ==> outcomes[|outcomes| - 1] in outcomes;
    if true in outcomes {
      var i :| 0 <= i < |outcomes| && outcomes[i];
      assert i == |outcomes| - 1;
    }
  }

  lemma {:induction false} StartsAreOfKey(es: seq<Event>, key: Key)
    ensures FirstStart(es, key).Some? ==> FirstStart(es, key).value.StartClient? && FirstStart(es, key).value.key == key
  {
    if es != [] { StartsAreOfKey(es[..|es| - 1], key); }
  }

  /**
   The registry in terms of the events alone: it lags behind the client by exactly the casts not yet
   delivered. After d deliveries its entry is the one that the first d connects of the client lead to.
   */
  lemma RegistryLags(es: seq<Event>, key: Key)
    requires Legal(System(map[], map[]), es) && key in Run(System(map[], map[]), es).nodes
    ensures var s := Run(System(map[], map[]), es); var c := s.nodes[key].client;
      var outcomes := ConnectResults(es, key); var d := Deliveries(es, key);
      && key in s.registry && d <= |outcomes|
      && s.nodes[key].casts == Statuses(outcomes, c.maxRetries)[d..]
      && s.registry[key] == EntryAfter(c.endpoint, outcomes[..d], c.maxRetries)
  {
    RunKeepsInv(System(map[], map[]), es);
    RunFollows(es, key);
  }
}
