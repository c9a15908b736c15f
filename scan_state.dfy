/**
 * The `tron_scan_state` table: a sequence of rows of which the first is the scanner's cursor.
 */
module ScanState {
  import opened Wrappers

  /**
   * A cursor row; the row id and `updatedAt` are not modelled. Both timestamp columns are
   * NOT NULL and default to the instant of the insert.
   */
  datatype ScanRow = ScanRow(
    lastProcessedBlockNumber: int,
    lastProcessedTimestamp: int,
    lastSuccessfulScan: int)

  /** `getTronScanState`: the first row, if the table has one. */
  function Cursor(rows: seq<ScanRow>): (r: Option<ScanRow>)
    ensures r.None? <==> rows == []
    ensures r.Some? ==> r.value == rows[0]
  {
    if |rows| > 0 then Some(rows[0]) else None
  }

  /**
   * `createTronScanState` with only a block number: a new row at the end of the table, whose
   * two timestamps take their default, the instant `now` of the insert.
   */
  function WithCreated(rows: seq<ScanRow>, block: int, now: int): (r: seq<ScanRow>)
    ensures |r| == |rows| + 1 && r[..|rows|] == rows
    ensures r[|rows|] == ScanRow(block, now, now)
  {
    rows + [ScanRow(block, now, now)]
  }

  /**
   * `updateTronScanStateWithTimestamp`: when a cursor exists it is overwritten with the block
   * number, the processed timestamp and the instant of the write; an empty table instead gets a
   * single new row with the block number and the default timestamps (the given timestamp is
   * dropped).
   */
  function WithUpdated(rows: seq<ScanRow>, block: int, timestamp: int, now: int): (r: seq<ScanRow>)
    ensures rows != [] ==> Cursor(r) == Some(ScanRow(block, timestamp, now))
    ensures rows != [] ==> |r| == |rows| && r[1..] == rows[1..]
    ensures rows == [] ==> r == [ScanRow(block, now, now)]
  {
    if |rows| > 0 then rows[0 := ScanRow(block, timestamp, now)]
    else WithCreated(rows, block, now)
  }

  /** Writing the cursor twice with the same values is the same as writing it once. */
  lemma UpdateIdempotent(rows: seq<ScanRow>, block: int, timestamp: int, now: int)
    requires rows != []
    ensures WithUpdated(WithUpdated(rows, block, timestamp, now), block, timestamp, now)
      == WithUpdated(rows, block, timestamp, now)
  {
  }

  /** The last write wins: a second update replaces everything the first one wrote. */
  lemma UpdateOverwrites(rows: seq<ScanRow>, b1: int, t1: int, n1: int, b2: int, t2: int, n2: int)
    requires rows != []
    ensures WithUpdated(WithUpdated(rows, b1, t1, n1), b2, t2, n2) == WithUpdated(rows, b2, t2, n2)
  {
  }
}
