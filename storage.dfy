/**
 * The storage layer's state-changing operations, as a class holding the tables in place.
 * The read-only queries are the functions of `DepositTable` and `ScanState` applied to the
 * fields.
 */
module Storage {
  import opened Wrappers
  import opened DepositTable
  import opened ScanState

  class Store {
    var deposits: map<Id, Deposit>
    var users: map<Id, Balances>
    var scanRows: seq<ScanRow>

    constructor(deposits: map<Id, Deposit>, users: map<Id, Balances>, scanRows: seq<ScanRow>)
      ensures this.deposits == deposits && this.users == users && this.scanRows == scanRows
    {
      this.deposits := deposits;
      this.users := users;
      this.scanRows := scanRows;
    }

    function Snapshot(): Tables
      reads this
    {
      Tables(deposits, users)
    }

    /** `getTronScanState`. */
    function GetTronScanState(): (r: Option<ScanRow>)
      reads this
      ensures r.None? <==> scanRows == []
      ensures r.Some? ==> r.value == scanRows[0]
    {
      Cursor(scanRows)
    }

    /** `expireOldDeposits`: one bulk update; the count is the number of rows it changed. */
    method ExpireOldDeposits(now: Time) returns (count: nat)
      modifies this
      ensures deposits == ExpireDue(old(deposits), now)
      ensures count == |DueIds(old(deposits), now)|
      ensures users == old(users) && scanRows == old(scanRows)
    {
      count := |DueIds(deposits, now)|;
      deposits := ExpireDue(deposits, now);
    }

    /**
     * `confirmDepositWithTransaction`: read the deposit, read its owner, then write both rows;
     * `commitFails` stands for a database error inside the transaction, which rolls it back.
     */
    method ConfirmDepositWithTransaction(depositId: Id, txHash: string, amount: int, now: Time, commitFails: bool)
      returns (ok: bool)
      modifies this
      ensures Settlement(ok, Snapshot()) == Confirm(old(Snapshot()), depositId, txHash, amount, now, commitFails)
      ensures scanRows == old(scanRows)
    {
      if depositId !in deposits {
        return false;
      }
      var deposit := deposits[depositId];
      if deposit.userId !in users {
        return false;
      }
      var user := users[deposit.userId];
      if commitFails {
        return false;
      }
      deposits := deposits[depositId := deposit.(status := Confirmed, txHash := Some(txHash),
                                                 confirmedAt := Some(now), amount := amount)];
      users := users[deposit.userId := user.(available := user.available + amount)];
      ok := true;
    }

    /** `createTronScanState` with only the block number set; the timestamps default to `now`. */
    method CreateTronScanState(block: int, now: Time)
      modifies this
      ensures scanRows == WithCreated(old(scanRows), block, now)
      ensures deposits == old(deposits) && users == old(users)
    {
      scanRows := scanRows + [ScanRow(block, now, now)];
    }

    /**
     * `updateTronScanStateWithTimestamp`: overwrite the cursor, or create a row with the block
     * number and default timestamps.
     */
    method UpdateTronScanStateWithTimestamp(block: int, timestamp: int, now: Time)
      modifies this
      ensures scanRows == WithUpdated(old(scanRows), block, timestamp, now)
      ensures deposits == old(deposits) && users == old(users)
    {
      var state := GetTronScanState();
      if state.Some? {
        scanRows := scanRows[0 := ScanRow(block, timestamp, now)];
      } else {
        CreateTronScanState(block, now);
      }
    }

    /** `createDeposit`: insert a row under a new id; an id already taken fails the insert. */
    method CreateDeposit(id: Id, deposit: Deposit) returns (ok: bool)
      modifies this
      ensures ok <==> id !in old(deposits)
      ensures deposits == if ok then old(deposits)[id := deposit] else old(deposits)
      ensures users == old(users) && scanRows == old(scanRows)
    {
      if id in deposits {
        return false;
      }
      deposits := deposits[id := deposit];
      ok := true;
    }
  }
}
