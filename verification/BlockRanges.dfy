/** Range calculation, splitting and validation for the block syncer. */
module BlockRanges {
  import opened Outcomes

  type BatchSize = n: int | 0 < n witness 1

  const DEFAULT_BATCH_SIZE: BatchSize := 500
  const MAX_BATCH_SIZE := 1000

  /** An inclusive range of block numbers. */
  datatype Range = Range(first: int, last: int) {
    predicate Has(block: int) { first <= block <= last }

    function Size(): int { last - first + 1 }
  }

  datatype RangeError = NoNewBlocks | InvalidStartBlock | InvalidRange | RangeTooLarge

  function Min(a: int, b: int): int { if a < b then a else b }

  // ---------------------------------------------------------------- operations

  function CalculateNextRange(current: int, target: int): Result<(Range, BatchSize), RangeError> {
    match DoCalculateRange(current, target, DEFAULT_BATCH_SIZE)
    case Ok(range) => Ok((range, DEFAULT_BATCH_SIZE))
    case Err(e) => Err(e)
  }

  function DoCalculateRange(current: int, target: int, batchSize: BatchSize): Result<Range, RangeError> {
    if current >= target then Err(NoNewBlocks)
    else if target - current > MAX_BATCH_SIZE then Ok(Range(current, current + MAX_BATCH_SIZE - 1))
    else Ok(Range(current, Min(current + batchSize - 1, target)))
  }

  function SplitRange(range: Range, chunkSize: BatchSize): seq<Range>
  {
    if range.last - range.first > chunkSize then Chunks(range.first, range.last, chunkSize)
    else [range]
  }

  /** The stream of chunk starts, taken while it does not pass the end, each cut off at the end. */
  function Chunks(start: int, last: int, chunkSize: BatchSize): seq<Range>
    decreases last - start
  {
    if start > last then []
    else [Range(start, Min(start + chunkSize - 1, last))] + Chunks(start + chunkSize, last, chunkSize)
  }

  function ValidateRange(range: Range): (r: Result<(), RangeError>)
    ensures r.Ok? <==> 0 <= range.first <= range.last <= range.first + 1000
  {
    if range.first < 0 then Err(InvalidStartBlock)
    else if range.last < range.first then Err(InvalidRange)
    else if range.last - range.first > MAX_BATCH_SIZE then Err(RangeTooLarge)
    else Ok(())
  }

  // ---------------------------------------------------------------- what a split is

  /** `parts` are non-empty, adjacent and in order, and together make up exactly `whole`. */
  ghost predicate Tiles(parts: seq<Range>, whole: Range) {
    && parts != [] && parts[0].first == whole.first && parts[|parts| - 1].last == whole.last
    && (forall i | 0 <= i < |parts| :: parts[i].first <= parts[i].last)
    && (forall i | 0 < i < |parts| :: parts[i].first == parts[i - 1].last + 1)
  }

  ghost predicate FullButLast(parts: seq<Range>, size: int) {
    forall i | 0 <= i < |parts| - 1 :: parts[i].Size() == size
  }

  lemma {:induction false} ChunksTile(start: int, last: int, chunkSize: BatchSize)
    requires start <= last
    ensures Tiles(Chunks(start, last, chunkSize), Range(start, last))
    ensures forall r | r in Chunks(start, last, chunkSize) :: r.Size() <= chunkSize
    ensures FullButLast(Chunks(start, last, chunkSize), chunkSize)
    decreases last - start
  {
    var parts, rest := Chunks(start, last, chunkSize), Chunks(start + chunkSize, last, chunkSize);
    if start + chunkSize <= last { ChunksTile(start + chunkSize, last, chunkSize); }
    assert parts == [Range(start, Min(start + chunkSize - 1, last))] + rest;
    assert start + chunkSize > last ==> rest == [];
    forall i | 0 <= i < |parts| - 1 ensures parts[i].Size() == chunkSize {
      if i > 0 { assert parts[i] == rest[i - 1]; }
    }
  }

  /**
   A split always tiles its range. Its pieces are at most `chunkSize` long, except that a range of
   exactly one block more is left whole; all but the last are just as long.
   */
  lemma SplitTiles(range: Range, chunkSize: BatchSize)
    requires range.first <= range.last
    ensures Tiles(SplitRange(range, chunkSize), range)
    ensures FullButLast(SplitRange(range, chunkSize), chunkSize)
    ensures forall r | r in SplitRange(range, chunkSize) :: r.Size() <= chunkSize + 1
    ensures (forall r | r in SplitRange(range, chunkSize) :: r.Size() <= chunkSize) <==>
            range.Size() != chunkSize + 1
  {
    if range.last - range.first > chunkSize {
      ChunksTile(range.first, range.last, chunkSize);
    } else {
      assert range in SplitRange(range, chunkSize);
    }
  }

  /** Tiling is exact cover: every block of the whole lies in one part and no other block lies in any. */
  lemma {:induction false} TilesCoverOnce(parts: seq<Range>, whole: Range, block: int)
    requires Tiles(parts, whole)
    ensures whole.Has(block) <==> exists i :: 0 <= i < |parts| && parts[i].Has(block)
    ensures forall i, j | 0 <= i < j < |parts| :: !(parts[i].Has(block) && parts[j].Has(block))
    decreases |parts|
  {
    if |parts| > 1 {
      var n := |parts| - 1;
      var rest := Range(whole.first, parts[n - 1].last);
      assert Tiles(parts[..n], rest);
      TilesCoverOnce(parts[..n], rest, block);
      TilesAreOrdered(parts[..n], rest);
      assert whole.Has(block) <==> rest.Has(block) || parts[n].Has(block);
      if rest.Has(block) {
        var i :| 0 <= i < n && parts[..n][i].Has(block);
        assert parts[i].Has(block);
      }
      forall i | 0 <= i < n && parts[i].Has(block) ensures rest.Has(block) {
        assert parts[..n][i].Has(block);
      }
      forall i, j | 0 <= i < j < |parts| ensures !(parts[i].Has(block) && parts[j].Has(block)) {
        if j < n {
          assert parts[i] == parts[..n][i] && parts[j] == parts[..n][j];
        } else {
          assert parts[i] == parts[..n][i];
        }
      }
    } else {
      assert parts[0] == whole;
    }
  }

  lemma {:induction false} TilesAreOrdered(parts: seq<Range>, whole: Range)
    requires Tiles(parts, whole)
    ensures whole.first <= whole.last
    decreases |parts|
  {
    var n := |parts| - 1;
    if n > 0 { TilesAreOrdered(parts[..n], Range(whole.first, parts[n - 1].last)); }
  }

  // ---------------------------------------------------------------- what a calculated range is

  /**
   There is a next range exactly when the current block is below the target. It starts at the
   current block, stays within the target, passes validation, and splits into one or two ranges of
   at most 500 blocks: two exactly when more than 1000 blocks are still ahead.
   */
  lemma CalculatedRange(current: int, target: int)
    requires 0 <= current
    ensures CalculateNextRange(current, target).Ok? <==> current < target
    ensures current < target ==>
      var (range, batch) := CalculateNextRange(current, target).value; var parts := SplitRange(range, batch);
      && range.first == current <= range.last <= target
      && ValidateRange(range) == Ok(())
      && Tiles(parts, range)
      && (forall r | r in parts :: r.Size() <= 500)
      && |parts| == (if target - current > 1000 then 2 else 1)
      && range.Size() == (if target - current > 1000 then 1000
                          else if target - current >= 500 then 500 else target - current + 1)
  {
    if current < target {
      var (range, batch) := CalculateNextRange(current, target).value;
      SplitTiles(range, batch);
      if target - current > MAX_BATCH_SIZE {
        assert Chunks(current, range.last, 500)
            == [Range(current, current + 499), Range(current + 500, current + 999)] by {
          assert Chunks(current + 1000, range.last, 500) == [];
          assert Chunks(current + 500, range.last, 500) == [Range(current + 500, current + 999)];
        }
      }
    }
  }
}
