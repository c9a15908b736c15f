/**
 * Properties of the scanner tick: the flag, seeding, the empty window, the all-or-nothing
 * cursor advance, and that reprocessing events already handled credits nothing.
 */
module ScanTick {
  import opened Wrappers
  import opened DepositTable
  import opened ScanState
  import opened TransferEvents

  // ------------------------------------------------------------------ flag and cursor

  /** A tick that finds the flag set changes nothing; any other tick ends with the flag clear. */
  lemma TickFlag(env: Env, chain: Chain, w: World)
    ensures w.scanning ==> Tick(env, chain, w) == w
    ensures !w.scanning ==> !Tick(env, chain, w).scanning
  {
  }

  /**
   * A missing cursor is seeded 40 blocks and two minutes behind the head, and that window is
   * scanned at once: the tick ends with one cursor row, at the head when every event of the
   * window succeeded and at the seed otherwise.
   */
  lemma TickSeedsCursor(env: Env, chain: Chain, w: World)
    requires !w.scanning && w.scanRows == [] && chain.head.Head?
    ensures var number := HeadNumber(chain.head);
      var ts := HeadTimestamp(env, chain.head);
      var fetched := Gather(env, chain.pages(ts - SCAN_WINDOW_MS, ts), 0);
      var advanced := fetched.Some? && ProcessAll(env, w.tables, fetched.value).allSuccessful;
      Tick(env, chain, w).scanRows ==
        if advanced then [ScanRow(number, ts, env.now)]
        else [ScanRow(number - SEED_BLOCK_LAG, ts - SCAN_WINDOW_MS, env.now)]
  {
  }

  /** When the head is no later than the cursor's timestamp, the tick does nothing. */
  lemma TickEmptyWindow(env: Env, chain: Chain, w: World)
    requires !w.scanning && w.scanRows != [] && chain.head.Head?
    requires HeadTimestamp(env, chain.head) <= WindowStart(w.scanRows, HeadTimestamp(env, chain.head))
    ensures Tick(env, chain, w) == w
  {
  }

  /**
   * The cursor is all-or-nothing, first half: an existing cursor moves only when the window's
   * events were all fetched and all processed successfully, and then exactly to the head block
   * and its timestamp. A failed fetch or any failed event leaves it where it was, so the window
   * is scanned again next time.
   */
  lemma TickCursorAllOrNothing(env: Env, chain: Chain, w: World)
    requires !w.scanning && w.scanRows != []
    ensures var w' := Tick(env, chain, w);
      w'.scanRows != w.scanRows ==>
        && chain.head.Head?
        && var ts := HeadTimestamp(env, chain.head);
        && var start := WindowStart(w.scanRows, ts);
        && start < ts
        && var fetched := Gather(env, chain.pages(start, ts), 0);
        && fetched.Some? && ProcessAll(env, w.tables, fetched.value).allSuccessful
        && w'.scanRows == w.scanRows[0 := ScanRow(HeadNumber(chain.head), ts, env.now)]
  {
  }

  /**
   * The cursor is all-or-nothing, second half: when the head is read, the window is not empty,
   * the fetch works and every event succeeds (zero events included), the cursor row becomes the
   * head block, its timestamp and the scan time.
   */
  lemma TickAdvancesOnSuccess(env: Env, chain: Chain, w: World)
    requires !w.scanning && chain.head.Head?
    requires var ts := HeadTimestamp(env, chain.head);
      var start := WindowStart(Seeded(env, w.scanRows, HeadNumber(chain.head), ts), ts);
      && start < ts
      && Gather(env, chain.pages(start, ts), 0).Some?
      && ProcessAll(env, w.tables, Gather(env, chain.pages(start, ts), 0).value).allSuccessful
    ensures var ts := HeadTimestamp(env, chain.head);
      var rows := Seeded(env, w.scanRows, HeadNumber(chain.head), ts);
      Tick(env, chain, w).scanRows == rows[0 := ScanRow(HeadNumber(chain.head), ts, env.now)]
    ensures Cursor(Tick(env, chain, w).scanRows) ==
      Some(ScanRow(HeadNumber(chain.head), HeadTimestamp(env, chain.head), env.now))
  {
  }

  /**
   * The tables change only by processing this tick's own window, and the failure list only
   * grows, by exactly the failures of that processing.
   */
  lemma TickTablesOnlyBySettlement(env: Env, chain: Chain, w: World)
    ensures var w' := Tick(env, chain, w);
      || (w'.tables == w.tables && w'.failed == w.failed)
      || (&& !w.scanning && chain.head.Head?
          && var ts := HeadTimestamp(env, chain.head);
          && var start := WindowStart(Seeded(env, w.scanRows, HeadNumber(chain.head), ts), ts);
          && start < ts
          && Gather(env, chain.pages(start, ts), 0).Some?
          && var run := ProcessAll(env, w.tables, Gather(env, chain.pages(start, ts), 0).value);
          && w'.tables == run.tables && w'.failed == w.failed + run.failures)
  {
  }

  /** After a tick that advanced the cursor, the next window starts where this one ended. */
  lemma NextWindowStartsAtHead(env: Env, chain: Chain, w: World, laterTs: int)
    requires !w.scanning && chain.head.Head? && HeadTimestamp(env, chain.head) != 0
    requires Cursor(Tick(env, chain, w).scanRows) ==
             Some(ScanRow(HeadNumber(chain.head), HeadTimestamp(env, chain.head), env.now))
    ensures WindowStart(Tick(env, chain, w).scanRows, laterTs) == HeadTimestamp(env, chain.head)
  {
  }

  // ------------------------------------------------------------------ invalid master wallet

  /** With an invalid wallet setting the fetch filter drops every event. */
  lemma {:induction false} NoEventsWithoutWallet(env: Env, pages: seq<Response>, i: nat)
    requires i < MAX_ITERATIONS && Master(env).None?
    requires Gather(env, pages, i).Some?
    ensures Gather(env, pages, i).value == []
  {
    GatheredAreRelevant(env, pages, i);
    var g := Gather(env, pages, i).value;
    assert |g| == 0 || IsRelevant(env, g[0]);
  }

  /**
   * With an invalid wallet setting a tick whose fetch works finds nothing to process and still
   * advances the cursor to the head: the window's transfers are never matched.
   */
  lemma WalletErrorSkipsWindow(env: Env, chain: Chain, w: World)
    requires !w.scanning && chain.head.Head? && Master(env).None?
    requires var ts := HeadTimestamp(env, chain.head);
      var start := WindowStart(Seeded(env, w.scanRows, HeadNumber(chain.head), ts), ts);
      start < ts && Gather(env, chain.pages(start, ts), 0).Some?
    ensures Tick(env, chain, w).tables == w.tables && Tick(env, chain, w).failed == w.failed
    ensures Cursor(Tick(env, chain, w).scanRows) ==
      Some(ScanRow(HeadNumber(chain.head), HeadTimestamp(env, chain.head), env.now))
  {
    var ts := HeadTimestamp(env, chain.head);
    var start := WindowStart(Seeded(env, w.scanRows, HeadNumber(chain.head), ts), ts);
    NoEventsWithoutWallet(env, chain.pages(start, ts), 0);
  }

  // ------------------------------------------------------------------ reprocessing

  /** Pending deposits carry no transaction hash (deposits are created with none). */
  ghost predicate PendingUnhashed(ds: map<Id, Deposit>) {
    forall id :: id in ds && ds[id].status == Pending ==> ds[id].txHash.None?
  }

  predicate Decodes(env: Env, e: RawEvent)
    requires !Incomplete(e)
  {
    env.fromHex(e.result.value.to.value).Some? && env.fromHex(e.result.value.from.value).Some?
  }

  /**
   * An event that has nothing left to do against the tables: it is skipped, not for the master
   * wallet, already on record, or no pending deposit is waiting for its amount.
   */
  predicate Settled(env: Env, t: Tables, e: RawEvent) {
    || Incomplete(e)
    || (&& Decodes(env, e)
        && Master(env).Some?
        && (|| env.fromHex(e.result.value.to.value) != Master(env)
            || DepositByTxHash(t.deposits, e.transactionId).Some?
            || FindPendingByPayableAmount(t.deposits, EventAmount(e), env.now).None?))
  }

  lemma SettledIsNoOp(env: Env, t: Tables, e: RawEvent)
    requires Settled(env, t, e)
    ensures ProcessEvent(env, t, e) == Step(true, t, None)
  {
  }

  /** An event processed successfully is settled in the tables it leaves. */
  lemma SuccessSettles(env: Env, t: Tables, e: RawEvent)
    requires ProcessEvent(env, t, e).success
    ensures Settled(env, ProcessEvent(env, t, e).tables, e)
  {
    if !Incomplete(e) && Decodes(env, e) && Master(env).Some? && env.fromHex(e.result.value.to.value) == Master(env)
       && DepositByTxHash(t.deposits, e.transactionId).None?
    {
      var m := FindPendingByPayableAmount(t.deposits, EventAmount(e), env.now);
      if m.Some? {
        ConfirmRecordsHash(t, m.value, e.transactionId, EventAmount(e), env.now, env.now, EventAmount(e));
      }
    }
  }

  /** Settling a pending deposit keeps every recorded hash and adds no match. */
  lemma ConfirmKeepsSettled(env: Env, t: Tables, m: Id, h: string, a: int, e: RawEvent)
    requires PendingUnhashed(t.deposits)
    requires m in t.deposits && t.deposits[m].status == Pending
    requires Settled(env, t, e)
    ensures Settled(env, Confirm(t, m, h, a, env.now, false).tables, e)
    ensures PendingUnhashed(Confirm(t, m, h, a, env.now, false).tables.deposits)
  {
    var t' := Confirm(t, m, h, a, env.now, false).tables;
    if !Incomplete(e) && Decodes(env, e) && Master(env).Some? && env.fromHex(e.result.value.to.value) == Master(env) {
      var found := DepositByTxHash(t.deposits, e.transactionId);
      if found.Some? {
        assert found.value != m;
        assert t'.deposits[found.value] == t.deposits[found.value];
      } else {
        var amount := EventAmount(e);
        forall id | id in t'.deposits
          ensures !IsMatch(t'.deposits[id], amount, env.now)
        {
          if id != m {
            assert t'.deposits[id] == t.deposits[id];
            assert !IsMatch(t.deposits[id], amount, env.now);
          }
        }
      }
    }
  }

  /** Later steps keep an event settled and pending deposits unhashed. */
  lemma StepKeepsSettled(env: Env, t: Tables, e: RawEvent, next: RawEvent)
    requires PendingUnhashed(t.deposits) && Settled(env, t, e)
    ensures Settled(env, ProcessEvent(env, t, next).tables, e)
    ensures PendingUnhashed(ProcessEvent(env, t, next).tables.deposits)
  {
    if ProcessEvent(env, t, next).tables != t {
      ProcessEventSettles(env, t, next);
      var m := FindPendingByPayableAmount(t.deposits, EventAmount(next), env.now);
      ConfirmKeepsSettled(env, t, m.value, next.transactionId, EventAmount(next), e);
    }
  }

  /** After a fully successful run every event of the run is settled. */
  lemma {:induction false} RunSettles(env: Env, t: Tables, events: seq<RawEvent>)
    requires PendingUnhashed(t.deposits)
    requires ProcessAll(env, t, events).allSuccessful
    ensures PendingUnhashed(ProcessAll(env, t, events).tables.deposits)
    ensures forall k :: 0 <= k < |events| ==> Settled(env, ProcessAll(env, t, events).tables, events[k])
  {
    if events != [] {
      var n := |events| - 1;
      var init, last := events[..n], events[n];
      assert events == init + [last];
      RunSettles(env, t, init);
      StepSettles(env, ProcessAll(env, t, init).tables, init, last);
    }
  }

  /** One more successful step keeps every earlier event settled and settles the new one. */
  lemma StepSettles(env: Env, t: Tables, init: seq<RawEvent>, last: RawEvent)
    requires PendingUnhashed(t.deposits)
    requires forall k :: 0 <= k < |init| ==> Settled(env, t, init[k])
    requires ProcessEvent(env, t, last).success
    ensures PendingUnhashed(ProcessEvent(env, t, last).tables.deposits)
    ensures forall k :: 0 <= k < |init + [last]| ==> Settled(env, ProcessEvent(env, t, last).tables, (init + [last])[k])
  {
    var t' := ProcessEvent(env, t, last).tables;
    forall k | 0 <= k < |init + [last]|
      ensures Settled(env, t', (init + [last])[k])
    {
      if k < |init| {
        StepKeepsSettled(env, t, init[k], last);
      } else {
        SuccessSettles(env, t, last);
      }
    }
    if t' != t {
      ProcessEventSettles(env, t, last);
      var m := FindPendingByPayableAmount(t.deposits, EventAmount(last), env.now);
      ConfirmUnhashed(t, m.value, last.transactionId, EventAmount(last), env.now);
    }
  }

  lemma ConfirmUnhashed(t: Tables, m: Id, h: string, a: int, now: Time)
    requires PendingUnhashed(t.deposits)
    ensures PendingUnhashed(Confirm(t, m, h, a, now, false).tables.deposits)
  {
  }

  /** A run of events that are all settled succeeds and changes nothing. */
  lemma {:induction false} SettledRunIsNoOp(env: Env, t: Tables, events: seq<RawEvent>)
    requires forall k :: 0 <= k < |events| ==> Settled(env, t, events[k])
    ensures ProcessAll(env, t, events) == Run(true, t, [])
  {
    if events != [] {
      var n := |events| - 1;
      SettledRunIsNoOp(env, t, events[..n]);
      SettledIsNoOp(env, t, events[n]);
    }
  }

  /**
   * Reprocessing a batch that was processed successfully changes nothing and records no
   * failure: consecutive windows share their boundary instant, and a transfer seen twice is
   * credited once.
   */
  lemma ReprocessingIsNoOp(env: Env, t: Tables, events: seq<RawEvent>)
    requires PendingUnhashed(t.deposits)
    requires ProcessAll(env, t, events).allSuccessful
    ensures var t' := ProcessAll(env, t, events).tables;
      ProcessAll(env, t', events) == Run(true, t', [])
  {
    RunSettles(env, t, events);
    SettledRunIsNoOp(env, ProcessAll(env, t, events).tables, events);
  }
}
