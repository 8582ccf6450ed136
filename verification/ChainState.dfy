/** The chain-state server: latest and safe block per chain, moved by marks and reorg checks. */
module ChainState {
  import opened Outcomes
  import Status = ChainSyncStatus

  datatype Chain = Ethereum | Solana

  datatype View = View(latest: int, safe: int, status: string)

  datatype State = State(ethereum: View, solana: View) {
    function Get(chain: Chain): View {
      if chain == Ethereum then ethereum else solana
    }

    function Put(chain: Chain, view: View): State {
      if chain == Ethereum then this.(ethereum := view) else this.(solana := view)
    }
  }

  /** The stored blocks: no row, or a row whose hash may be missing. */
  type Store = map<(Chain, int), Option<string>>

  datatype Message =
    | MarkProcessed(chain: Chain, number: int)
    | DetectReorg(chain: Chain, number: int, hash: string)
    | UpdateStatus(chain: Chain, latest: int, blockHash: string, safe: int, status: string)

  datatype Reply = NoReply | Reorg(detected: bool) | Updated | InvalidStatusUpdate

  // ---------------------------------------------------------------- handlers

  function StoredHash(store: Store, chain: Chain, number: int): Option<string> {
    if (chain, number) in store then store[(chain, number)] else None
  }

  function DoMarkProcessed(chain: Chain, number: int, s: State): State {
    var view := s.Get(chain);
    if number > view.latest then s.Put(chain, view.(latest := number)) else s
  }

  function DetectChainReorg(store: Store, chain: Chain, number: int, hash: string, s: State): (Reply, State) {
    match StoredHash(store, chain, number)
    case None => (Reorg(false), s)
    case Some(stored) =>
      if stored == hash then (Reorg(false), s) else HandleReorgDetected(chain, number, s)
  }

  function HandleReorgDetected(chain: Chain, number: int, s: State): (Reply, State) {
    var view := s.Get(chain);
    (Reorg(true), s.Put(chain, view.(safe := if number - 1 < view.safe then number - 1 else view.safe)))
  }

  function ChainName(chain: Chain): string {
    if chain == Ethereum then "ethereum" else "solana"
  }

  /** The changeset is given no earliest block number. */
  function UpdateChainStatus(chain: Chain, latest: int, blockHash: string, safe: int, status: string, s: State)
    : (Reply, State)
  {
    var attrs := Status.Attrs(
      Some(ChainName(chain)), Some(latest), Some(blockHash), None, Some(safe), Some(status), None);
    if Status.Changeset(attrs).Some? then (Updated, s.Put(chain, View(latest, safe, status)))
    else (InvalidStatusUpdate, s)
  }

  function Handle(store: Store, m: Message, s: State): (Reply, State) {
    match m
    case MarkProcessed(chain, number) => (NoReply, DoMarkProcessed(chain, number, s))
    case DetectReorg(chain, number, hash) => DetectChainReorg(store, chain, number, hash, s)
    case UpdateStatus(chain, latest, blockHash, safe, status) =>
      UpdateChainStatus(chain, latest, blockHash, safe, status, s)
  }

  function Run(store: Store, s: State, ms: seq<Message>): State {
    if ms == [] then s else Handle(store, ms[|ms| - 1], Run(store, s, ms[..|ms| - 1])).1
  }

  // ---------------------------------------------------------------- closed form

  /** Every status update is refused and changes nothing, because the row's earliest block is required. */
  lemma UpdatesAreRefused(store: Store, m: Message, s: State)
    requires m.UpdateStatus?
    ensures Handle(store, m, s) == (InvalidStatusUpdate, s)
  {
  }

  /** A check that finds another hash stored under its number. */
  predicate Mismatch(store: Store, m: Message) {
    m.DetectReorg? && (m.chain, m.number) in store
    && store[(m.chain, m.number)].Some? && store[(m.chain, m.number)].value != m.hash
  }

  /** A reorg is reported exactly when another hash is stored; without a row, or a hash in it, nothing happens. */
  lemma ReorgExactlyOnMismatch(store: Store, chain: Chain, number: int, hash: string, s: State)
    ensures var (reply, after) := Handle(store, DetectReorg(chain, number, hash), s);
      && reply.Reorg?
      && (reply.detected <==>
            exists other :: (chain, number) in store && store[(chain, number)] == Some(other) && other != hash)
      && (!reply.detected ==> after == s)
  {
  }

  /** `x` is the greatest of `initial` and the blocks marked for `chain`. */
  ghost predicate IsLatest(x: int, initial: int, ms: seq<Message>, chain: Chain) {
    && initial <= x
    && (forall m | m in ms && m.MarkProcessed? && m.chain == chain :: m.number <= x)
    && (x == initial || MarkProcessed(chain, x) in ms)
  }

  /** `x` is the least of `initial` and the blocks just below a mismatch on `chain`. */
  ghost predicate IsSafe(x: int, initial: int, store: Store, ms: seq<Message>, chain: Chain) {
    && x <= initial
    && (forall m | m in ms && Mismatch(store, m) && m.chain == chain :: x <= m.number - 1)
    && (x == initial || exists m | m in ms && Mismatch(store, m) && m.chain == chain :: x == m.number - 1)
  }

  /** The latest block after one more message. */
  lemma LatestStep(store: Store, s: State, m: Message, chain: Chain)
    ensures Handle(store, m, s).1.Get(chain).latest ==
      if m.MarkProcessed? && m.chain == chain && m.number > s.Get(chain).latest
      then m.number else s.Get(chain).latest
  {
  }

  lemma LatestExtends(initial: int, ms: seq<Message>, m: Message, chain: Chain, x: int)
    requires IsLatest(x, initial, ms, chain)
    ensures IsLatest(
      if m.MarkProcessed? && m.chain == chain && m.number > x then m.number else x, initial, ms + [m], chain)
  {
    assert forall o :: o in ms + [m] <==> o in ms || o == m;
  }

  lemma {:induction false} LatestIsMaximum(store: Store, s: State, ms: seq<Message>, chain: Chain)
    ensures IsLatest(Run(store, s, ms).Get(chain).latest, s.Get(chain).latest, ms, chain)
  {
    if ms != [] {
      var n := |ms| - 1;
      var before := Run(store, s, ms[..n]);
      LatestIsMaximum(store, s, ms[..n], chain);
      LatestStep(store, before, ms[n], chain);
      LatestExtends(s.Get(chain).latest, ms[..n], ms[n], chain, before.Get(chain).latest);
      assert ms == ms[..n] + [ms[n]];
    }
  }

  /** The safe block after one more message. */
  lemma SafeStep(store: Store, s: State, m: Message, chain: Chain)
    ensures Handle(store, m, s).1.Get(chain).safe ==
      if Mismatch(store, m) && m.chain == chain && m.number - 1 < s.Get(chain).safe
      then m.number - 1 else s.Get(chain).safe
  {
  }

  lemma {:induction false} SafeIsMinimum(store: Store, s: State, ms: seq<Message>, chain: Chain)
    ensures IsSafe(Run(store, s, ms).Get(chain).safe, s.Get(chain).safe, store, ms, chain)
  {
    if ms != [] {
      var n := |ms| - 1;
      var before := Run(store, s, ms[..n]);
      SafeIsMinimum(store, s, ms[..n], chain);
      SafeStep(store, before, ms[n], chain);
      SafeExtends(s.Get(chain).safe, store, ms[..n], ms[n], chain, before.Get(chain).safe);
      assert ms == ms[..n] + [ms[n]];
    }
  }

  lemma SafeExtends(initial: int, store: Store, ms: seq<Message>, m: Message, chain: Chain, x: int)
    requires IsSafe(x, initial, store, ms, chain)
    ensures IsSafe(
      if Mismatch(store, m) && m.chain == chain && m.number - 1 < x then m.number - 1 else x,
      initial, store, ms + [m], chain)
  {
    assert forall o :: o in ms + [m] <==> o in ms || o == m;
  }

  lemma {:induction false} StatusIsFixed(store: Store, s: State, ms: seq<Message>, chain: Chain)
    ensures Run(store, s, ms).Get(chain).status == s.Get(chain).status
  {
    if ms != [] { StatusIsFixed(store, s, ms[..|ms| - 1], chain); }
  }

  /** After any messages, latest and safe are these two extremes, and the status is what it was. */
  lemma RunIsExtreme(store: Store, s: State, ms: seq<Message>, chain: Chain)
    ensures var view := Run(store, s, ms).Get(chain);
      && IsLatest(view.latest, s.Get(chain).latest, ms, chain)
      && IsSafe(view.safe, s.Get(chain).safe, store, ms, chain)
      && view.status == s.Get(chain).status
  {
    LatestIsMaximum(store, s, ms, chain);
    SafeIsMinimum(store, s, ms, chain);
    StatusIsFixed(store, s, ms, chain);
  }

  lemma SameView(store: Store, s: State, ms: seq<Message>, ns: seq<Message>, chain: Chain)
    requires forall m :: m in ms <==> m in ns
    ensures Run(store, s, ms).Get(chain) == Run(store, s, ns).Get(chain)
  {
    RunIsExtreme(store, s, ms, chain);
    RunIsExtreme(store, s, ns, chain);
  }

  /** The order, and the repetition, of messages does not matter. */
  lemma OrderDoesNotMatter(store: Store, s: State, ms: seq<Message>, ns: seq<Message>)
    requires forall m :: m in ms <==> m in ns
    ensures Run(store, s, ms) == Run(store, s, ns)
  {
    SameView(store, s, ms, ns, Ethereum);
    SameView(store, s, ms, ns, Solana);
  }

  /** Safe never passes latest, if it did not at the start. */
  lemma {:induction false} SafeStaysBelowLatest(store: Store, s: State, ms: seq<Message>, chain: Chain)
    requires s.Get(chain).safe <= s.Get(chain).latest
    ensures Run(store, s, ms).Get(chain).safe <= Run(store, s, ms).Get(chain).latest
  {
    RunIsExtreme(store, s, ms, chain);
  }

  /** Safe can become negative: it stays a block number exactly when no mismatch was at block 0 or below. */
  lemma {:induction false} SafeStaysNaturalExactlyWhen(store: Store, s: State, ms: seq<Message>, chain: Chain)
    requires 0 <= s.Get(chain).safe
    ensures 0 <= Run(store, s, ms).Get(chain).safe <==>
      forall m | m in ms && m.DetectReorg? && m.chain == chain && (chain, m.number) in store
        && store[(chain, m.number)].Some? && store[(chain, m.number)].value != m.hash :: 1 <= m.number
  {
    RunIsExtreme(store, s, ms, chain);
  }

  /** It does become negative: another hash is stored for block 0. */
  lemma SafeGoesNegative(s: State)
    requires 0 <= s.ethereum.safe
    ensures var store: Store := map[(Ethereum, 0) := Some("a")];
      Run(store, s, [DetectReorg(Ethereum, 0, "b")]).Get(Ethereum).safe == -1
  {
    var m := DetectReorg(Ethereum, 0, "b");
    assert [m][..0] == [];
    assert "a"[0] != "b"[0];
  }
}
