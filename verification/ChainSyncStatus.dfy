/** The sync-status row and the changeset that every write of it has to pass. */
module ChainSyncStatus {
  import opened Changesets
  import opened Outcomes

  datatype SyncRange = SyncRange(startBlock: int, endBlock: int)

  /** Attributes given to the changeset; a missing key is None. */
  datatype Attrs = Attrs(
    chainName: Option<string>,
    latest: Option<int>, latestHash: Option<string>,
    earliest: Option<int>, safe: Option<int>,
    syncStatus: Option<string>,
    syncingRanges: Option<seq<SyncRange>>)

  datatype Row = Row(chainName: string, latest: int, earliest: int, safe: int, syncStatus: string)

  predicate RequiredFields(a: Attrs) {
    && Present(a.chainName) && a.latest.Some? && Present(a.latestHash)
    && a.earliest.Some? && a.safe.Some? && Present(a.syncStatus)
  }

  predicate OrderedBlockNumbers(a: Attrs) {
    && a.earliest.Some? && a.safe.Some? && a.latest.Some?
    && a.earliest.value <= a.safe.value <= a.latest.value
  }

  predicate ValidSyncingRanges(a: Attrs) {
    a.syncingRanges.Some? ==> forall r | r in a.syncingRanges.value :: r.startBlock <= r.endBlock
  }

  /** The row a fresh struct becomes, or None when some validation adds an error. */
  function Changeset(a: Attrs): Option<Row> {
    if RequiredFields(a) && a.syncStatus.value in {"syncing", "synced", "error"}
       && OrderedBlockNumbers(a) && ValidSyncingRanges(a)
    then Some(Row(a.chainName.value, a.latest.value, a.earliest.value, a.safe.value, a.syncStatus.value))
    else None
  }

  /** The row written when a chain is first seen: all three block numbers are the chain's latest. */
  function InitialAttrs(chain: string, latest: int, hash: string): Attrs {
    Attrs(Some(chain), Some(latest), Some(hash), Some(latest), Some(latest), Some("syncing"), None)
  }

  /** Any row that got through the changeset is ordered, whoever wrote it. */
  ghost predicate Stored(row: Row) {
    exists a :: Changeset(a) == Some(row)
  }

  /** A row can be stored exactly when it is ordered, names its chain and has one of the three statuses. */
  lemma StoredExactlyWhen(row: Row)
    ensures Stored(row) <==>
      && row.earliest <= row.safe <= row.latest
      && row.syncStatus in {"syncing", "synced", "error"}
      && exists i :: 0 <= i < |row.chainName| && row.chainName[i] !in {' ', '\t', '\n', '\r'}
  {
    var a := Attrs(
      Some(row.chainName), Some(row.latest), Some("#"), Some(row.earliest), Some(row.safe), Some(row.syncStatus), None);
    assert "#"[0] == '#';
    BlankExactlyWhen("#");
    BlankExactlyWhen(row.chainName);
    if row.syncStatus in {"syncing", "synced", "error"} {
      assert "syncing"[0] == 's' && "synced"[0] == 's' && "error"[0] == 'e';
      BlankExactlyWhen(row.syncStatus);
    }
    assert OrderedBlockNumbers(a) <==> row.earliest <= row.safe <= row.latest;
    if OrderedBlockNumbers(a) && Present(a.chainName) && row.syncStatus in {"syncing", "synced", "error"} {
      assert RequiredFields(a) && ValidSyncingRanges(a);
      assert Changeset(a) == Some(row);
    }
  }

  /** A chain seen first is stored exactly when its name and hash are not blank, all numbers being the latest. */
  lemma InitialRow(chain: string, latest: int, hash: string)
    ensures Changeset(InitialAttrs(chain, latest, hash)) ==
      if Blank(chain) || Blank(hash) then None else Some(Row(chain, latest, latest, latest, "syncing"))
  {
    assert "syncing"[0] == 's' && 's' in "syncing";
  }
}
