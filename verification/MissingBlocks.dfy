/** The ledger of missing blocks: a table row per block, read and overwritten by each failure. */
module MissingBlocks {
  import opened Outcomes
  import opened Changesets

  datatype Status = Pending | Retrying | Resolved | Failed

  datatype Row = Row(errorType: string, attempts: int, status: Status, priority: int)

  datatype Key = Key(chain: string, number: int)

  type Table = map<Key, Row>

  datatype Error = NotFound | InvalidChangeset

  // ---------------------------------------------------------------- operations on values

  /** The validations a change of a row has to pass. */
  predicate ValidChange(key: Key, errorType: Option<string>, attempts: int, priority: int) {
    key.chain in {"ethereum", "solana"} && Present(errorType) && attempts >= 1 && 0 <= priority <= 10
  }

  function Recorded(rows: Table, key: Key, errorType: Option<string>, priority: Option<int>): Result<Row, Error> {
    var p := if priority.Some? then priority.value else 0;
    if key !in rows then
      if ValidChange(key, errorType, 1, p) then Ok(Row(errorType.value, 1, Pending, p)) else Err(InvalidChangeset)
    else
      var existing := rows[key];
      var attempts := existing.attempts + 1;
      var status := if existing.attempts >= 5 then Failed else Pending;
      if ValidChange(key, errorType, attempts, p) then Ok(Row(errorType.value, attempts, status, p))
      else Err(InvalidChangeset)
  }

  function Resolution(rows: Table, key: Key): Result<Row, Error> {
    if key !in rows then Err(NotFound) else Ok(rows[key].(status := Resolved))
  }

  function Written(rows: Table, key: Key, r: Result<Row, Error>): Table {
    if r.Ok? then rows[key := r.value] else rows
  }

  // ---------------------------------------------------------------- the table

  class Ledger {
    var rows: Table

    constructor ()
      ensures rows == map[]
    {
      rows := map[];
    }

    method RecordFailure(chain: string, number: int, errorType: Option<string>, priority: Option<int>)
      returns (r: Result<Row, Error>)
      modifies this
      ensures r == Recorded(old(rows), Key(chain, number), errorType, priority)
      ensures rows == Written(old(rows), Key(chain, number), r)
    {
      var key := Key(chain, number);
      var p := if priority.Some? then priority.value else 0;
      if key !in rows {
        if !ValidChange(key, errorType, 1, p) {
          return Err(InvalidChangeset);
        }
        r := Ok(Row(errorType.value, 1, Pending, p));
      } else {
        var existing := rows[key];
        var attempts := existing.attempts + 1;
        if !ValidChange(key, errorType, attempts, p) {
          return Err(InvalidChangeset);
        }
        r := Ok(Row(errorType.value, attempts, if existing.attempts >= 5 then Failed else Pending, p));
      }
      rows := rows[key := r.value];
    }

    method MarkResolved(chain: string, number: int) returns (r: Result<Row, Error>)
      modifies this
      ensures r == Resolution(old(rows), Key(chain, number))
      ensures rows == Written(old(rows), Key(chain, number), r)
    {
      var key := Key(chain, number);
      if key !in rows {
        return Err(NotFound);
      }
      r := Ok(rows[key].(status := Resolved));
      rows := rows[key := r.value];
    }
  }

  // ---------------------------------------------------------------- histories

  datatype Op = Failure(key: Key, errorType: Option<string>, priority: Option<int>) | Resolve(key: Key)

  function Apply(rows: Table, op: Op): Table {
    match op
    case Failure(key, errorType, priority) => Written(rows, key, Recorded(rows, key, errorType, priority))
    case Resolve(key) => Written(rows, key, Resolution(rows, key))
  }

  function Run(ops: seq<Op>): Table {
    if ops == [] then map[] else Apply(Run(ops[..|ops| - 1]), ops[|ops| - 1])
  }

  /** A failure report that the validations accept, judged without looking at the table. */
  predicate Accepted(op: Op) {
    && op.Failure? && op.key.chain in {"ethereum", "solana"} && Present(op.errorType)
    && (op.priority.Some? ==> 0 <= op.priority.value <= 10)
  }

  /** The accepted failures of one block. */
  function Failures(ops: seq<Op>, key: Key): nat {
    if ops == [] then 0
    else
      var op := ops[|ops| - 1];
      Failures(ops[..|ops| - 1], key) + if Accepted(op) && op.key == key then 1 else 0
  }

  /** The last accepted failure of one block. */
  function LastFailure(ops: seq<Op>, key: Key): Option<Op> {
    if ops == [] then None
    else
      var op := ops[|ops| - 1];
      if Accepted(op) && op.key == key then Some(op) else LastFailure(ops[..|ops| - 1], key)
  }

  /** The block was resolved after its last accepted failure. */
  predicate ResolvedLast(ops: seq<Op>, key: Key) {
    ops != [] &&
    var op := ops[|ops| - 1];
    if op.key == key && op.Resolve? then true
    else if op.key == key && Accepted(op) then false
    else ResolvedLast(ops[..|ops| - 1], key)
  }

  /**
   After any history a block has a row exactly when it has failed; the row counts its failures, and
   unless it was resolved since, it is pending up to the fifth failure and failed from the sixth on.
   Error type and priority are those of the last failure, the priority being 0 if none was given.
   */
  lemma {:induction false} LedgerIsExact(ops: seq<Op>, key: Key)
    ensures var rows := Run(ops); var n := Failures(ops, key); var last := LastFailure(ops, key);
      && (key in rows <==> n > 0)
      && (n > 0 <==> last.Some?)
      && (last.Some? ==> Accepted(last.value))
      && (key in rows ==>
            && rows[key].attempts == n
            && rows[key].status == (if ResolvedLast(ops, key) then Resolved else if n <= 5 then Pending else Failed)
            && rows[key].errorType == last.value.errorType.value
            && rows[key].priority == (if last.value.priority.Some? then last.value.priority.value else 0))
  {
    if ops != [] { LedgerIsExact(ops[..|ops| - 1], key); }
  }

  lemma {:induction false} FailuresGrow(ops: seq<Op>, more: seq<Op>, key: Key)
    ensures Failures(ops, key) <= Failures(ops + more, key)
  {
    if more == [] {
      assert ops + more == ops;
    } else {
      assert (ops + more)[..|ops + more| - 1] == ops + more[..|more| - 1];
      FailuresGrow(ops, more[..|more| - 1], key);
    }
  }

  /** Once a block has failed six times it is never offered for retry again. */
  lemma NeverPendingAgain(ops: seq<Op>, more: seq<Op>, key: Key)
    requires Failures(ops, key) >= 6
    ensures key in Run(ops + more) && Run(ops + more)[key].status in {Resolved, Failed}
  {
    FailuresGrow(ops, more, key);
    LedgerIsExact(ops + more, key);
  }

  // ---------------------------------------------------------------- pending blocks

  /** A row as the query orders it. */
  datatype Entry = Entry(number: int, priority: int, attempts: int)

  /** Priority descending, then attempts, then block number. */
  predicate Before(a: Entry, b: Entry) {
    || a.priority > b.priority
    || (a.priority == b.priority && a.attempts < b.attempts)
    || (a.priority == b.priority && a.attempts == b.attempts && a.number < b.number)
  }

  function Eligible(rows: Table, chain: string): set<Entry> {
    set k | k in rows && k.chain == chain && rows[k].status in {Pending, Retrying}
      :: Entry(k.number, rows[k].priority, rows[k].attempts)
  }

  ghost predicate IsLeast(e: Entry, entries: set<Entry>) {
    e in entries && forall o | o in entries && o != e :: Before(e, o)
  }

  lemma {:induction false} LeastExists(entries: set<Entry>)
    requires entries != {}
    ensures exists e :: IsLeast(e, entries)
    decreases |entries|
  {
    var e :| e in entries;
    var rest := entries - {e};
    if rest == {} {
      assert entries == {e};
      assert IsLeast(e, entries);
    } else {
      LeastExists(rest);
      var m :| IsLeast(m, rest);
      var least := if Before(e, m) then e else m;
      forall o | o in entries && o != least ensures Before(least, o) {
        if o != e && o != m {
          assert o in rest && Before(m, o);
        }
      }
      assert IsLeast(least, entries);
    }
  }

  /** Order by, then limit. */
  ghost function Page(entries: set<Entry>, limit: nat): seq<Entry>
    decreases limit
  {
    if limit == 0 || entries == {} then []
    else
      LeastExists(entries);
      var e :| IsLeast(e, entries);
      [e] + Page(entries - {e}, limit - 1)
  }

  ghost function GetPendingBlocks(rows: Table, chain: string, limit: nat): seq<Entry> {
    Page(Eligible(rows, chain), limit)
  }

  /** In order, no more than `limit`, nothing but entries, and nothing left out that comes before one kept. */
  ghost predicate IsPage(page: seq<Entry>, entries: set<Entry>, limit: nat) {
    && |page| == (if |entries| < limit then |entries| else limit)
    && (forall i, j | 0 <= i < j < |page| :: Before(page[i], page[j]))
    && (forall i | 0 <= i < |page| :: page[i] in entries)
    && (forall i, o | 0 <= i < |page| && o in entries && o !in page :: Before(page[i], o))
  }

  lemma {:induction false} PageIsPage(entries: set<Entry>, limit: nat)
    ensures IsPage(Page(entries, limit), entries, limit)
    decreases limit
  {
    if limit > 0 && entries != {} {
      var page := Page(entries, limit);
      var e := page[0];
      assert IsLeast(e, entries) && page == [e] + Page(entries - {e}, limit - 1) by { LeastExists(entries); }
      PageIsPage(entries - {e}, limit - 1);
    }
  }

  lemma {:induction false} PageIsUnique(p: seq<Entry>, q: seq<Entry>, entries: set<Entry>, limit: nat)
    requires IsPage(p, entries, limit) && IsPage(q, entries, limit)
    ensures p == q
    decreases limit
  {
    if p != [] {
      assert p[0] == q[0];
      var rest := entries - {p[0]};
      assert IsPage(p[1..], rest, limit - 1);
      assert IsPage(q[1..], rest, limit - 1);
      PageIsUnique(p[1..], q[1..], rest, limit - 1);
      assert p == [p[0]] + p[1..] && q == [q[0]] + q[1..];
    }
  }

  /** Higher priority first; among equals fewer attempts first; among those the lower block first. */
  lemma PageOrder(entries: set<Entry>, limit: nat, i: nat, j: nat)
    requires i < j < |Page(entries, limit)|
    ensures var a, b := Page(entries, limit)[i], Page(entries, limit)[j];
      && a.priority >= b.priority
      && (a.priority == b.priority ==> a.attempts <= b.attempts)
      && (a.priority == b.priority && a.attempts == b.attempts ==> a.number < b.number)
  {
    PageIsPage(entries, limit);
  }

  /** By the history: the block failed one to five times, and was not resolved since. */
  predicate Owed(ops: seq<Op>, chain: string, e: Entry) {
    var key := Key(chain, e.number);
    && 1 <= Failures(ops, key) <= 5 && !ResolvedLast(ops, key)
    && e.attempts == Failures(ops, key)
    && match LastFailure(ops, key)
       case Some(Failure(_, _, priority)) => e.priority == if priority.Some? then priority.value else 0
       case _ => false
  }

  /** The query selects exactly the blocks that are owed a retry by the history. */
  lemma EligibleExactlyWhen(ops: seq<Op>, chain: string, e: Entry)
    ensures e in Eligible(Run(ops), chain) <==> Owed(ops, chain, e)
  {
    LedgerIsExact(ops, Key(chain, e.number));
  }

  /**
   What is offered for retry: of the blocks of the chain that have failed one to five times and were
   not resolved since, the first `limit` in order. `owed` is the set of those blocks.
   */
  lemma PendingBlocksAreTheLeast(ops: seq<Op>, chain: string, limit: nat, page: seq<Entry>, owed: set<Entry>)
    requires forall e :: e in owed <==> Owed(ops, chain, e)
    ensures IsPage(page, owed, limit) <==> page == GetPendingBlocks(Run(ops), chain, limit)
    ensures forall number :: 1 <= Failures(ops, Key(chain, number)) <= 5 && !ResolvedLast(ops, Key(chain, number)) <==>
                             exists e | e in owed :: e.number == number
  {
    var entries := Eligible(Run(ops), chain);
    forall e ensures e in entries <==> e in owed { EligibleExactlyWhen(ops, chain, e); }
    assert entries == owed;
    PageIsPage(entries, limit);
    if IsPage(page, entries, limit) {
      PageIsUnique(page, GetPendingBlocks(Run(ops), chain, limit), entries, limit);
    }
    forall number
      ensures 1 <= Failures(ops, Key(chain, number)) <= 5 && !ResolvedLast(ops, Key(chain, number)) ==>
              exists e | e in owed :: e.number == number
    {
      LedgerIsExact(ops, Key(chain, number));
      if 1 <= Failures(ops, Key(chain, number)) <= 5 && !ResolvedLast(ops, Key(chain, number)) {
        var last := LastFailure(ops, Key(chain, number)).value.priority;
        assert Owed(ops, chain, Entry(number, if last.Some? then last.value else 0, Failures(ops, Key(chain, number))));
      }
    }
  }
}
