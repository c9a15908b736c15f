/**
 * Deposit amount validation and the payable-amount allocator: a requested amount that another
 * active deposit already uses is nudged down by one 10^-8 unit at a time until it is free, so
 * that an incoming transfer's amount identifies one deposit.
 */
module DepositUniqueness {
  import opened Wrappers
  import opened ScaledDecimal
  import opened DepositTable
  import opened TronConfig

  const MIN_DEPOSIT_USDT: nat := 30
  const MAX_DEPOSIT_USDT: nat := 20000
  /** The distance bound on the downward search, in 10^-8 units; the attempt bound is reached first. */
  const MAX_DELTA: nat := 1000000
  const MAX_ATTEMPTS: nat := 100

  datatype Validation = Valid | BelowMinimum | AboveMaximum

  /** `validateDepositAmount` on a scaled amount; the minimum is checked first. */
  function ValidateDepositAmount(amount: int): (v: Validation)
    ensures v == BelowMinimum <==> amount < MIN_DEPOSIT_USDT * SCALE
    ensures v == AboveMaximum <==> MIN_DEPOSIT_USDT * SCALE <= amount && amount > MAX_DEPOSIT_USDT * SCALE
    ensures v == Valid <==> MIN_DEPOSIT_USDT * SCALE <= amount <= MAX_DEPOSIT_USDT * SCALE
  {
    if amount < MIN_DEPOSIT_USDT * SCALE then BelowMinimum
    else if amount > MAX_DEPOSIT_USDT * SCALE then AboveMaximum
    else Valid
  }

  /** The payable amounts in use: the non-null payable amounts of the active deposits. */
  function UsedAmounts(ds: map<Id, Deposit>, now: Time): (used: set<int>)
    ensures forall a :: a in used <==>
      exists id :: id in ActiveDeposits(ds, now) && ActiveDeposits(ds, now)[id].payableAmount == Some(a)
  {
    var active := ActiveDeposits(ds, now);
    set id | id in active && active[id].payableAmount.Some? :: active[id].payableAmount.value
  }

  /**
   * `generateUniquePayableAmount`, with `None` for the error it throws. A free request is
   * returned as it is; otherwise the result is the largest free amount among the 100 just
   * below the request, and there is none exactly when all 100 are taken.
   */
  method GenerateUniquePayableAmount(requested: int, used: set<int>) returns (r: Option<int>)
    ensures requested !in used ==> r == Some(requested)
    ensures r.Some? ==> r.value !in used
    ensures requested in used && r.Some? ==>
      requested - MAX_ATTEMPTS <= r.value < requested &&
      forall c :: r.value < c < requested ==> c in used
    ensures r.None? <==> requested in used && forall c :: requested - MAX_ATTEMPTS <= c < requested ==> c in used
  {
    if requested !in used {
      return Some(requested);
    }
    var delta := 1;
    var attempts := 0;
    while attempts < MAX_ATTEMPTS && delta <= MAX_DELTA
      invariant 0 <= attempts <= MAX_ATTEMPTS && delta == attempts + 1
      invariant forall c :: requested - delta < c < requested ==> c in used
    {
      var candidate := requested - delta;
      if candidate < requested - MAX_DELTA {
        break;
      }
      if candidate !in used {
        return Some(candidate);
      }
      delta := delta + 1;
      attempts := attempts + 1;
    }
    return None;
  }

  /** The worked case: with 50 and 49.99999999 in use, a request for 50 gets 49.99999998. */
  method AllocationExample() returns (r: Option<int>)
    ensures r == Some(50 * SCALE - 2)
  {
    var used := {50 * SCALE, 50 * SCALE - 1};
    r := GenerateUniquePayableAmount(50 * SCALE, used);
    assert 50 * SCALE - 2 !in used;
    assert r.value >= 50 * SCALE - 2;
  }

  /**
   * Allocation keeps payable amounts distinct: a new active deposit whose payable amount is not
   * in use joins a table in which no two active deposits share one, and none still do.
   */
  lemma AllocationKeepsDistinct(ds: map<Id, Deposit>, now: Time, id: Id, d: Deposit)
    requires DistinctPayable(ds, now)
    requires id !in ds
    requires d.payableAmount.Some? && d.payableAmount.value !in UsedAmounts(ds, now)
    ensures DistinctPayable(ds[id := d], now)
  {
    var ds' := ds[id := d];
    forall i, j | i in ds' && j in ds' && i != j && IsActive(ds'[i], now) && IsActive(ds'[j], now) && ds'[i].payableAmount.Some?
      ensures ds'[i].payableAmount != ds'[j].payableAmount
    {
      if j == id {
        assert ds[i].payableAmount.value in UsedAmounts(ds, now) by {
          assert i in ActiveDeposits(ds, now);
        }
      } else if i == id {
        if ds[j].payableAmount.Some? {
          assert ds[j].payableAmount.value in UsedAmounts(ds, now) by {
            assert j in ActiveDeposits(ds, now);
          }
        }
      }
    }
  }

  /**
   * Transfers carry whole micro-USDT, so in 10^-8 units every transfer amount is a multiple of
   * 100. A request that is itself a whole number of micro-USDT and is nudged down by 1 to 99
   * units therefore gets an amount no transfer can carry: only the hundredth candidate is payable.
   */
  lemma NudgedAmountIsUnpayable(requested: int, candidate: int, sun: nat)
    requires requested % 100 == 0 && requested - 100 < candidate < requested
    ensures ConvertFromSun(sun) != candidate
  {
    var q := requested / 100;
    assert requested == 100 * q;
    if sun >= q {
      assert ConvertFromSun(sun) >= requested;
    } else {
      assert ConvertFromSun(sun) <= requested - 100;
    }
  }
}
