/**
 * `createAutomatedDeposit`: check the request, allocate a unique payable amount and insert a
 * pending deposit that expires ten minutes later.
 */
module DepositCreation {
  import opened Wrappers
  import opened DepositTable
  import opened DepositUniqueness
  import opened TronConfig
  import opened Storage

  const DEPOSIT_EXPIRATION_MINUTES: nat := 10
  const DEPOSIT_LIFETIME_MS: nat := DEPOSIT_EXPIRATION_MINUTES * 60 * 1000

  /** The request body's amount after `parseFloat`, as a scaled integer when it is a number. */
  datatype RequestedAmount = Missing | NotANumber | Amount(scaled: int)

  datatype CreateError =
    | MissingField       // 400: no user id or no amount
    | AmountNotANumber   // 400
    | Invalid(reason: Validation)  // 400: below the minimum or above the maximum
    | NoUniqueAmount     // 500: the allocator found nothing free
    | BadWalletConfig    // 500: the configured master wallet is not a valid address
    | InsertFailed       // 500: the insert itself failed

  datatype CreateResult = Created(id: Id) | Failed(error: CreateError)

  /** The row the handler inserts for a valid request. */
  function NewDeposit(userId: Id, requested: int, payable: int, wallet: string, now: Time): (d: Deposit)
    ensures d.status == Pending && d.txHash == None && d.confirmedAt == None
    ensures d.expiresAt == Some(now + DEPOSIT_LIFETIME_MS) && d.createdAt == now
    ensures d.payableAmount == Some(payable) && d.amount == requested && d.requestedAmount == Some(requested)
  {
    Deposit(userId, requested, Some(requested), Some(payable), wallet, Pending, None,
            Some(now + DEPOSIT_LIFETIME_MS), now, None)
  }

  /** Every amount the allocator may hand out for `requested`, from `requested` down to `requested - 100`, is in use. */
  predicate AllTaken(requested: int, used: set<int>) {
    requested in used && forall c :: requested - MAX_ATTEMPTS <= c < requested ==> c in used
  }

  /**
   * The handler. Nothing is inserted unless every check passes; the payable amount is the
   * allocator's answer for the amounts in use at `now`. `newId` is the id the database assigns.
   */
  method CreateAutomatedDeposit(store: Store, userId: Option<Id>, requested: RequestedAmount,
                                configuredWallet: Option<string>, now: Time, newId: Id)
    returns (result: CreateResult)
    modifies store
    ensures store.users == old(store.users) && store.scanRows == old(store.scanRows)
    ensures result.Failed? ==> store.deposits == old(store.deposits)
    ensures userId.None? || requested.Missing? ==> result == Failed(MissingField)
    ensures userId.Some? && requested.NotANumber? ==> result == Failed(AmountNotANumber)
    ensures userId.Some? && requested.Amount? && ValidateDepositAmount(requested.scaled) != Valid ==>
      result == Failed(Invalid(ValidateDepositAmount(requested.scaled)))
    ensures userId.Some? && requested.Amount? && ValidateDepositAmount(requested.scaled) == Valid &&
      AllTaken(requested.scaled, UsedAmounts(old(store.deposits), now))
      ==> result == Failed(NoUniqueAmount)
    ensures (userId.Some? && requested.Amount? && ValidateDepositAmount(requested.scaled) == Valid &&
             !AllTaken(requested.scaled, UsedAmounts(old(store.deposits), now))) ==>
      && (MasterWalletAddress(configuredWallet).None? ==> result == Failed(BadWalletConfig))
      && (MasterWalletAddress(configuredWallet).Some? && newId in old(store.deposits) ==> result == Failed(InsertFailed))
      && (MasterWalletAddress(configuredWallet).Some? && newId !in old(store.deposits) ==> result == Created(newId))
    ensures result.Created? ==>
      && userId.Some? && requested.Amount? && ValidateDepositAmount(requested.scaled) == Valid
      && result.id == newId && newId !in old(store.deposits)
      && MasterWalletAddress(configuredWallet).Some?
      && newId in store.deposits
      && var d := store.deposits[newId];
      && store.deposits == old(store.deposits)[newId := d]
      && d.payableAmount.Some?
      && d == NewDeposit(userId.value, requested.scaled, d.payableAmount.value,
                         MasterWalletAddress(configuredWallet).value, now)
      && d.payableAmount.value !in UsedAmounts(old(store.deposits), now)
      && (requested.scaled !in UsedAmounts(old(store.deposits), now) ==> d.payableAmount.value == requested.scaled)
      && (requested.scaled in UsedAmounts(old(store.deposits), now) ==>
            && requested.scaled - MAX_ATTEMPTS <= d.payableAmount.value < requested.scaled
            && forall c :: d.payableAmount.value < c < requested.scaled ==> c in UsedAmounts(old(store.deposits), now))
  {
    if userId.None? || requested.Missing? {
      return Failed(MissingField);
    }
    if requested.NotANumber? {
      return Failed(AmountNotANumber);
    }
    var validation := ValidateDepositAmount(requested.scaled);
    if validation != Valid {
      return Failed(Invalid(validation));
    }
    var payable := GenerateUniquePayableAmount(requested.scaled, UsedAmounts(store.deposits, now));
    if payable.None? {
      return Failed(NoUniqueAmount);
    }
    var wallet := MasterWalletAddress(configuredWallet);
    if wallet.None? {
      return Failed(BadWalletConfig);
    }
    var ok := store.CreateDeposit(newId, NewDeposit(userId.value, requested.scaled, payable.value, wallet.value, now));
    if !ok {
      return Failed(InsertFailed);
    }
    return Created(newId);
  }

  /**
   * A freshly created deposit is what the matcher finds for its payable amount throughout its
   * ten minutes, and only while they last: before that, at any instant from `now` up to its
   * deadline, and never from the deadline on.
   */
  lemma NewDepositMatchesUntilDeadline(ds: map<Id, Deposit>, id: Id, userId: Id, requested: int,
                                       payable: int, wallet: string, now: Time, t: Time)
    requires id !in ds && DistinctPayable(ds, t) && payable !in UsedAmounts(ds, t)
    ensures now <= t < now + DEPOSIT_LIFETIME_MS ==>
      FindPendingByPayableAmount(ds[id := NewDeposit(userId, requested, payable, wallet, now)], payable, t) == Some(id)
    ensures t >= now + DEPOSIT_LIFETIME_MS ==>
      FindPendingByPayableAmount(ds[id := NewDeposit(userId, requested, payable, wallet, now)], payable, t) != Some(id)
  {
    var d := NewDeposit(userId, requested, payable, wallet, now);
    if now <= t < now + DEPOSIT_LIFETIME_MS {
      AllocationKeepsDistinct(ds, t, id, d);
      DistinctMatchIsUnique(ds[id := d], payable, t, id);
    }
  }
}
