/**
 * The deposit expiry sweeper: a re-entrancy flag around the bulk expiry.
 */
module DepositExpiration {
  import opened DepositTable
  import opened Storage

  datatype Sweep = Sweep(count: nat, running: bool, deposits: map<Id, Deposit>)

  /**
   * `checkAndExpireDeposits` on its state. A call that finds the flag set reports 0 and leaves
   * everything, the flag included, as it was. Otherwise it runs the expiry (`dbFails` stands
   * for the database raising an error, which changes nothing and reports 0) and clears the
   * flag whatever happened.
   */
  function CheckAndExpire(running: bool, ds: map<Id, Deposit>, now: Time, dbFails: bool): Sweep {
    if running then Sweep(0, true, ds)
    else if dbFails then Sweep(0, false, ds)
    else Sweep(|DueIds(ds, now)|, false, ExpireDue(ds, now))
  }

  /** A sweep that was not skipped always leaves the flag clear, and a skipped one reports nothing. */
  lemma SweepFlag(running: bool, ds: map<Id, Deposit>, now: Time, dbFails: bool)
    ensures !running ==> !CheckAndExpire(running, ds, now, dbFails).running
    ensures running ==> CheckAndExpire(running, ds, now, dbFails) == Sweep(0, true, ds)
  {
  }

  /**
   * A sweep reports exactly the rows it expired: its count is the number of rows whose status
   * it changed, and it changes nothing else.
   */
  lemma SweepCountsChanges(running: bool, ds: map<Id, Deposit>, now: Time, dbFails: bool)
    ensures var s := CheckAndExpire(running, ds, now, dbFails);
      && s.deposits.Keys == ds.Keys
      && s.count == |set id | id in ds && s.deposits[id] != ds[id]|
      && forall id :: id in ds && s.deposits[id] != ds[id] ==> s.deposits[id] == ds[id].(status := Expired)
    ensures !running && dbFails ==> CheckAndExpire(running, ds, now, dbFails) == Sweep(0, false, ds)
  {
    var s := CheckAndExpire(running, ds, now, dbFails);
    if !running && !dbFails {
      ExpiryChangesExactlyDue(ds, now);
    } else {
      assert (set id | id in ds && s.deposits[id] != ds[id]) == {};
    }
  }

  /**
   * After a sweep that ran, a second one at the same instant expires nothing and reports 0,
   * whether or not its own query fails.
   */
  lemma SweepTwice(ds: map<Id, Deposit>, now: Time, dbFails: bool)
    ensures var first := CheckAndExpire(false, ds, now, false);
      var second := CheckAndExpire(first.running, first.deposits, now, dbFails);
      && second.count == 0 && second.deposits == first.deposits && !second.running
  {
    ExpiryIdempotent(ds, now);
  }

  class ExpirationService {
    var isRunning: bool
    const store: Store

    constructor(store: Store)
      ensures this.store == store && !isRunning
    {
      this.store := store;
      isRunning := false;
    }

    /** `checkAndExpireDeposits`: does what `CheckAndExpire` says, and touches nothing else. */
    method CheckAndExpireDeposits(now: Time, dbFails: bool) returns (count: nat)
      modifies this, store
      ensures Sweep(count, isRunning, store.deposits) == CheckAndExpire(old(isRunning), old(store.deposits), now, dbFails)
      ensures store.users == old(store.users) && store.scanRows == old(store.scanRows)
    {
      if isRunning {
        return 0;
      }
      isRunning := true;
      if dbFails {
        count := 0;
      } else {
        count := store.ExpireOldDeposits(now);
      }
      isRunning := false;
    }
  }
}
