/**
 * The deposits and users tables as values, and the meaning of the queries the storage layer
 * runs on them: the active set, bulk expiry, lookup by transaction hash, lookup of a pending
 * deposit by payable amount, and the confirm-and-credit transaction.
 */
module DepositTable {
  import opened Wrappers

  /** Row identifiers (the tables use generated ids). */
  type Id = nat
  /** Instants in milliseconds. */
  type Time = int

  datatype Status = Pending | AwaitingPayment | Confirmed | Rejected | Expired

  /** A row of `deposits`; every amount is a scaled integer (10^-8 units). */
  datatype Deposit = Deposit(
    userId: Id,
    amount: int,
    requestedAmount: Option<int>,
    payableAmount: Option<int>,
    walletAddress: string,
    status: Status,
    txHash: Option<string>,
    expiresAt: Option<Time>,
    createdAt: Time,
    confirmedAt: Option<Time>)

  /** The balance columns of a row of `users`, scaled. */
  datatype Balances = Balances(available: int, frozen: int)

  datatype Tables = Tables(deposits: map<Id, Deposit>, users: map<Id, Balances>)

  predicate IsOpen(d: Deposit) {
    d.status == Pending || d.status == AwaitingPayment
  }

  /** Open and not yet past its deadline; a row without a deadline stays active. */
  predicate IsActive(d: Deposit, now: Time) {
    IsOpen(d) && (d.expiresAt.None? || d.expiresAt.value > now)
  }

  /** `getActiveDeposits`: the rows that are open and whose deadline is unset or in the future. */
  function ActiveDeposits(ds: map<Id, Deposit>, now: Time): (r: map<Id, Deposit>)
    ensures forall id :: id in r <==>
      id in ds && (ds[id].status == Pending || ds[id].status == AwaitingPayment) &&
      (ds[id].expiresAt == None || ds[id].expiresAt.value > now)
    ensures forall id :: id in r ==> r[id] == ds[id]
  {
    map id | id in ds && IsActive(ds[id], now) :: ds[id]
  }

  /** Open with a deadline strictly before `now`; a row without a deadline is never due. */
  predicate IsDue(d: Deposit, now: Time) {
    IsOpen(d) && d.expiresAt.Some? && d.expiresAt.value < now
  }

  function DueIds(ds: map<Id, Deposit>, now: Time): set<Id> {
    set id | id in ds && IsDue(ds[id], now)
  }

  /** The table after `expireOldDeposits`: every due row gets status expired. */
  function ExpireDue(ds: map<Id, Deposit>, now: Time): (r: map<Id, Deposit>)
    ensures r.Keys == ds.Keys
  {
    map id | id in ds :: if IsDue(ds[id], now) then ds[id].(status := Expired) else ds[id]
  }

  // ------------------------------------------------------------------ expiry properties

  /**
   * Expiry changes exactly the due rows, each only in its status, which becomes expired;
   * every other row is left as it was. So the count it reports is the number of rows changed.
   */
  lemma ExpiryChangesExactlyDue(ds: map<Id, Deposit>, now: Time)
    ensures DueIds(ds, now) == set id | id in ds && ExpireDue(ds, now)[id] != ds[id]
    ensures forall id :: id in ds && id in DueIds(ds, now) ==>
      ExpireDue(ds, now)[id] == ds[id].(status := Expired)
    ensures forall id :: id in ds && id !in DueIds(ds, now) ==> ExpireDue(ds, now)[id] == ds[id]
  {
    var changed := set id | id in ds && ExpireDue(ds, now)[id] != ds[id];
    forall id | id in ds
      ensures id in DueIds(ds, now) <==> id in changed
    {
      if IsDue(ds[id], now) {
        assert ExpireDue(ds, now)[id].status == Expired != ds[id].status;
      }
    }
  }

  /** A second expiry at the same instant changes nothing and counts nothing. */
  lemma ExpiryIdempotent(ds: map<Id, Deposit>, now: Time)
    ensures DueIds(ExpireDue(ds, now), now) == {}
    ensures ExpireDue(ExpireDue(ds, now), now) == ExpireDue(ds, now)
  {
    var once := ExpireDue(ds, now);
    assert forall id :: id in once ==> !IsDue(once[id], now);
  }

  /** Expiry at `now` removes nothing from the set active at `now`. */
  lemma ExpiryKeepsActive(ds: map<Id, Deposit>, now: Time)
    ensures ActiveDeposits(ExpireDue(ds, now), now) == ActiveDeposits(ds, now)
  {
  }

  /** Once expired, a deposit is never active again and can never be matched, at any time. */
  lemma ExpiredStaysInactive(ds: map<Id, Deposit>, now: Time, id: Id, later: Time, amount: int)
    requires id in DueIds(ds, now)
    ensures id !in ActiveDeposits(ExpireDue(ds, now), later)
    ensures FindPendingByPayableAmount(ExpireDue(ds, now), amount, later) != Some(id)
  {
  }

  // ------------------------------------------------------------------ lookups

  /** The row order that `ORDER BY createdAt` gives, with the id breaking ties. */
  predicate Before(ds: map<Id, Deposit>, a: Id, b: Id)
    requires a in ds && b in ds
  {
    ds[a].createdAt < ds[b].createdAt || (ds[a].createdAt == ds[b].createdAt && a <= b)
  }

  predicate IsEarliest(ds: map<Id, Deposit>, s: set<Id>, a: Id)
    requires s <= ds.Keys
  {
    a in s && forall b :: b in s ==> Before(ds, a, b)
  }

  lemma {:induction false} EarliestExists(ds: map<Id, Deposit>, s: set<Id>)
    requires s != {} && s <= ds.Keys
    ensures exists a :: IsEarliest(ds, s, a)
  {
    var x :| x in s;
    var rest := s - {x};
    if rest == {} {
      EarliestOfOne(ds, s, x);
    } else {
      EarliestExists(ds, rest);
      var a :| IsEarliest(ds, rest, a);
      EarliestOfMore(ds, x, a, rest, s);
    }
  }

  lemma EarliestOfOne(ds: map<Id, Deposit>, s: set<Id>, x: Id)
    requires s <= ds.Keys && x in s && s - {x} == {}
    ensures IsEarliest(ds, s, x)
  {
    assert forall b :: b in s ==> b == x || b in s - {x};
  }

  lemma EarliestOfMore(ds: map<Id, Deposit>, x: Id, a: Id, rest: set<Id>, s: set<Id>)
    requires s <= ds.Keys && x in s && rest == s - {x} && IsEarliest(ds, rest, a)
    ensures IsEarliest(ds, s, if Before(ds, a, x) then a else x)
  {
    assert forall b :: b in s ==> b == x || b in rest;
  }

  /** The first row of `s` in creation order (the row a `LIMIT 1` query returns). */
  function Earliest(ds: map<Id, Deposit>, s: set<Id>): (a: Id)
    requires s != {} && s <= ds.Keys
    ensures a in s
    ensures forall b :: b in s ==> ds[a].createdAt <= ds[b].createdAt
  {
    EarliestExists(ds, s);
    var a :| IsEarliest(ds, s, a);
    a
  }

  function WithTxHash(ds: map<Id, Deposit>, txHash: string): set<Id> {
    set id | id in ds && ds[id].txHash == Some(txHash)
  }

  /** `getDepositByTxHash`: some row carrying this transaction hash, if there is one. */
  function DepositByTxHash(ds: map<Id, Deposit>, txHash: string): (r: Option<Id>)
    ensures r.None? <==> forall id :: id in ds ==> ds[id].txHash != Some(txHash)
    ensures r.Some? ==> r.value in ds && ds[r.value].txHash == Some(txHash)
  {
    var s := WithTxHash(ds, txHash);
    assert forall id :: id in ds && ds[id].txHash == Some(txHash) ==> id in s;
    if s == {} then None else Some(Earliest(ds, s))
  }

  /** Pending (not awaiting payment), payable exactly `amount`, deadline set and in the future. */
  predicate IsMatch(d: Deposit, amount: int, now: Time) {
    d.status == Pending && d.payableAmount == Some(amount) && d.expiresAt.Some? && d.expiresAt.value > now
  }

  function Matches(ds: map<Id, Deposit>, amount: int, now: Time): set<Id> {
    set id | id in ds && IsMatch(ds[id], amount, now)
  }

  /**
   * `findPendingDepositByPayableAmount`: among pending rows payable exactly `amount` whose
   * deadline is after `now`, the one created first; nothing when there is none.
   */
  function FindPendingByPayableAmount(ds: map<Id, Deposit>, amount: int, now: Time): (r: Option<Id>)
    ensures r.None? <==> forall id :: id in ds ==>
      !(ds[id].status == Pending && ds[id].payableAmount == Some(amount) &&
        ds[id].expiresAt.Some? && ds[id].expiresAt.value > now)
    ensures r.Some? ==>
      && r.value in ds && ds[r.value].status == Pending && ds[r.value].payableAmount == Some(amount)
      && ds[r.value].expiresAt.Some? && ds[r.value].expiresAt.value > now
    ensures r.Some? ==> forall id :: id in ds && IsMatch(ds[id], amount, now) ==>
      ds[r.value].createdAt <= ds[id].createdAt
  {
    var s := Matches(ds, amount, now);
    assert forall id :: id in ds && IsMatch(ds[id], amount, now) ==> id in s;
    if s == {} then None else Some(Earliest(ds, s))
  }

  // ------------------------------------------------------------------ settlement

  datatype Settlement = Settlement(ok: bool, tables: Tables)

  /**
   * `confirmDepositWithTransaction` as one all-or-nothing transaction. A missing deposit, a
   * missing owner or a failed commit leaves both tables as they were and reports false.
   * Otherwise the deposit becomes confirmed with the hash, the instant and the amount, and the
   * owner's available balance goes up by exactly that amount. The deposit's status is not
   * checked here: callers pass a deposit they just found pending.
   */
  function Confirm(t: Tables, depositId: Id, txHash: string, amount: int, now: Time, commitFails: bool): (s: Settlement)
    ensures !s.ok <==> depositId !in t.deposits || t.deposits[depositId].userId !in t.users || commitFails
    ensures !s.ok ==> s.tables == t
    ensures s.ok ==> s.tables.deposits == t.deposits[depositId := t.deposits[depositId].(
      status := Confirmed, txHash := Some(txHash), confirmedAt := Some(now), amount := amount)]
    ensures s.ok ==> var owner := t.deposits[depositId].userId;
      && s.tables.users.Keys == t.users.Keys
      && s.tables.users[owner].available == t.users[owner].available + amount
      && s.tables.users[owner].frozen == t.users[owner].frozen
      && forall u :: u in t.users && u != owner ==> s.tables.users[u] == t.users[u]
  {
    if depositId !in t.deposits then Settlement(false, t)
    else
      var d := t.deposits[depositId];
      if d.userId !in t.users || commitFails then Settlement(false, t)
      else
        var u := t.users[d.userId];
        var d' := d.(status := Confirmed, txHash := Some(txHash), confirmedAt := Some(now), amount := amount);
        var u' := u.(available := u.available + amount);
        Settlement(true, Tables(t.deposits[depositId := d'], t.users[d.userId := u']))
  }

  /**
   * After a successful settlement the hash is on record, so the idempotency gate will stop a
   * replay, and the settled deposit can match no further transfer.
   */
  lemma ConfirmRecordsHash(t: Tables, depositId: Id, txHash: string, amount: int, now: Time, later: Time, other: int)
    requires Confirm(t, depositId, txHash, amount, now, false).ok
    ensures var t' := Confirm(t, depositId, txHash, amount, now, false).tables;
      && DepositByTxHash(t'.deposits, txHash).Some?
      && FindPendingByPayableAmount(t'.deposits, other, later) != Some(depositId)
      && depositId !in ActiveDeposits(t'.deposits, later)
  {
    var t' := Confirm(t, depositId, txHash, amount, now, false).tables;
    assert t'.deposits[depositId].txHash == Some(txHash);
  }

  // ------------------------------------------------------------------ invariants

  /**
   * The disambiguation invariant: at `now`, no two distinct active deposits carry the same
   * payable amount.
   */
  ghost predicate DistinctPayable(ds: map<Id, Deposit>, now: Time) {
    forall i, j ::
      (i in ds && j in ds && i != j && IsActive(ds[i], now) && IsActive(ds[j], now) && ds[i].payableAmount.Some?)
      ==> ds[i].payableAmount != ds[j].payableAmount
  }

  /** Under the invariant the tie-break is never needed: at most one deposit matches an amount. */
  lemma DistinctMatchIsUnique(ds: map<Id, Deposit>, amount: int, now: Time, id: Id)
    requires DistinctPayable(ds, now)
    requires id in ds && IsMatch(ds[id], amount, now)
    ensures Matches(ds, amount, now) == {id}
    ensures FindPendingByPayableAmount(ds, amount, now) == Some(id)
  {
    forall j | j in Matches(ds, amount, now) ensures j == id {
      assert IsActive(ds[j], now) && IsActive(ds[id], now);
    }
  }

  /** The invariant survives the passage of time: deadlines only take deposits out of the active set. */
  lemma DistinctPayableLater(ds: map<Id, Deposit>, now: Time, later: Time)
    requires DistinctPayable(ds, now) && now <= later
    ensures DistinctPayable(ds, later)
  {
  }

  /** Expiry keeps the invariant. */
  lemma DistinctPayableAfterExpiry(ds: map<Id, Deposit>, now: Time)
    requires DistinctPayable(ds, now)
    ensures DistinctPayable(ExpireDue(ds, now), now)
  {
    var e := ExpireDue(ds, now);
    forall i, j | i in e && j in e && i != j && IsActive(e[i], now) && IsActive(e[j], now) && e[i].payableAmount.Some?
      ensures e[i].payableAmount != e[j].payableAmount
    {
      assert e[i] == ds[i] && e[j] == ds[j];
    }
  }

  /** Settlement keeps the invariant: it only takes the settled deposit out of the active set. */
  lemma DistinctPayableAfterConfirm(t: Tables, depositId: Id, txHash: string, amount: int, now: Time, commitFails: bool)
    requires DistinctPayable(t.deposits, now)
    ensures DistinctPayable(Confirm(t, depositId, txHash, amount, now, commitFails).tables.deposits, now)
  {
    var e := Confirm(t, depositId, txHash, amount, now, commitFails).tables.deposits;
    forall i, j | i in e && j in e && i != j && IsActive(e[i], now) && IsActive(e[j], now) && e[i].payableAmount.Some?
      ensures e[i].payableAmount != e[j].payableAmount
    {
      assert e[i] == t.deposits[i] && e[j] == t.deposits[j];
    }
  }

  /**
   * Confirmed rows are final: expiry leaves them as they are.
   */
  lemma ExpiryKeepsConfirmed(ds: map<Id, Deposit>, now: Time, id: Id)
    requires id in ds && ds[id].status == Confirmed
    ensures ExpireDue(ds, now)[id] == ds[id]
  {
  }
}
