/**
 * The blockchain scanner as it runs: a single-flight flag and a list of failed settlements
 * kept between ticks, over the store it settles deposits in. Each method is proved to do what
 * the corresponding function of `TransferEvents` says.
 */
module BlockchainScanner {
  import opened Wrappers
  import opened DepositTable
  import opened ScanState
  import opened TronConfig
  import opened TransferEvents
  import opened Storage

  /**
   * `fetchEventsWithBlockRange`: the do-while page loop, over the chain's pages for the window.
   * `None` is the rethrown request error.
   */
  method FetchEventsWithBlockRange(env: Env, chain: Chain, minTimestamp: int, maxTimestamp: int)
    returns (events: Option<seq<RawEvent>>)
    ensures events == Gather(env, chain.pages(minTimestamp, maxTimestamp), 0)
  {
    var pages := chain.pages(minTimestamp, maxTimestamp);
    var allEvents: seq<RawEvent> := [];
    var fingerprint: Option<string> := None;
    var iterationCount := 0;
    PrependAssoc([], [], Gather(env, pages, 0));
    while true
      invariant 0 <= iterationCount < MAX_ITERATIONS
      invariant Gather(env, pages, 0) == Prepend(allEvents, Gather(env, pages, iterationCount))
      decreases MAX_ITERATIONS - iterationCount
    {
      // the request carries `fingerprint`; the answer to the n-th request is page n
      var response := PageAt(pages, iterationCount);
      GatherStep(env, pages, iterationCount, allEvents);
      if response.Threw? {
        return None;
      }
      if !response.success || |response.data| == 0 {
        return Some(allEvents);
      }
      var relevantEvents := Relevant(env, response.data);
      allEvents := allEvents + relevantEvents;
      fingerprint := NextFingerprint(response.data);
      if fingerprint.None? {
        return Some(allEvents);
      }
      iterationCount := iterationCount + 1;
      if iterationCount >= MAX_ITERATIONS {
        return Some(allEvents);
      }
    }
  }

  class Scanner {
    var isScanning: bool
    var failedDeposits: seq<FailedDeposit>
    const store: Store

    constructor(store: Store)
      ensures this.store == store && !isScanning && failedDeposits == []
    {
      this.store := store;
      isScanning := false;
      failedDeposits := [];
    }

    function State(): World
      reads this, store
    {
      World(isScanning, store.Snapshot(), store.scanRows, failedDeposits)
    }

    /** `getFailedDeposits`: a copy of the list. */
    method GetFailedDeposits() returns (r: seq<FailedDeposit>)
      ensures r == failedDeposits
    {
      r := failedDeposits;
    }

    /** `clearFailedDeposits`. */
    method ClearFailedDeposits()
      modifies this
      ensures failedDeposits == [] && isScanning == old(isScanning)
    {
      failedDeposits := [];
    }

    /** `processTransferEvent`: one event against the store, noting a failed settlement. */
    method ProcessTransferEvent(env: Env, event: RawEvent) returns (success: bool)
      modifies this, store
      ensures var s := ProcessEvent(env, old(store.Snapshot()), event);
        && success == s.success
        && store.Snapshot() == s.tables
        && failedDeposits == old(failedDeposits) + Record(s.failure)
      ensures store.scanRows == old(store.scanRows) && isScanning == old(isScanning)
    {
      if Incomplete(event) {
        return true;
      }
      var transfer := event.result.value;
      var toAddress := env.fromHex(transfer.to.value);
      var fromAddress := env.fromHex(transfer.from.value);
      if toAddress.None? || fromAddress.None? {
        return false;
      }
      var amount := ConvertFromSun(transfer.value.value);
      var master := MasterWalletAddress(env.configuredWallet);
      if master.None? {
        return false;
      }
      if toAddress.value != master.value {
        return true;
      }
      var existing := DepositByTxHash(store.deposits, event.transactionId);
      if existing.Some? {
        return true;
      }
      var matching := FindPendingByPayableAmount(store.deposits, amount, env.now);
      if matching.None? {
        return true;
      }
      var committed := store.ConfirmDepositWithTransaction(matching.value, event.transactionId, amount, env.now,
                                                           event.transactionId in env.failingTx);
      if committed {
        return true;
      }
      failedDeposits := failedDeposits + [FailedDeposit(matching.value, event.transactionId, amount,
                                                        CONFIRM_FAILED_ERROR, env.now)];
      return false;
    }

    /** The tick's loop over the fetched events, noting whether every one succeeded. */
    method ProcessEvents(env: Env, events: seq<RawEvent>) returns (allSuccessful: bool)
      modifies this, store
      ensures var run := ProcessAll(env, old(store.Snapshot()), events);
        && allSuccessful == run.allSuccessful
        && store.Snapshot() == run.tables
        && failedDeposits == old(failedDeposits) + run.failures
      ensures store.scanRows == old(store.scanRows) && isScanning == old(isScanning)
    {
      ghost var tables0 := store.Snapshot();
      ghost var failed0 := failedDeposits;
      allSuccessful := true;
      for i := 0 to |events|
        invariant var run := ProcessAll(env, tables0, events[..i]);
          && allSuccessful == run.allSuccessful
          && store.Snapshot() == run.tables
          && failedDeposits == failed0 + run.failures
        invariant store.scanRows == old(store.scanRows) && isScanning == old(isScanning)
      {
        ProcessAllSnoc(env, tables0, events, i);
        var result := ProcessTransferEvent(env, events[i]);
        if !result {
          allSuccessful := false;
        }
      }
      assert events[..|events|] == events;
    }

    /** `scanBlockchain`: one tick, which does what `Tick` says. */
    method ScanBlockchain(env: Env, chain: Chain)
      modifies this, store
      ensures State() == Tick(env, chain, old(State()))
    {
      if isScanning {
        return;
      }
      ghost var w := State();
      isScanning := true;
      if chain.head.HeadThrew? {
        isScanning := false;
        return;
      }
      var currentBlockNumber := HeadNumber(chain.head);
      var currentBlockTimestamp := HeadTimestamp(env, chain.head);
      var scanState := store.GetTronScanState();
      if scanState.None? {
        store.CreateTronScanState(currentBlockNumber - SEED_BLOCK_LAG, env.now);
        store.UpdateTronScanStateWithTimestamp(currentBlockNumber - SEED_BLOCK_LAG,
                                               currentBlockTimestamp - SCAN_WINDOW_MS, env.now);
        scanState := store.GetTronScanState();
        assert scanState.Some?;
      }
      ghost var rows := Seeded(env, w.scanRows, currentBlockNumber, currentBlockTimestamp);
      assert store.scanRows == rows && scanState == Some(rows[0]);
      assert store.Snapshot() == w.tables && failedDeposits == w.failed;
      var minTimestamp := OrElse(Some(scanState.value.lastProcessedTimestamp), currentBlockTimestamp - SCAN_WINDOW_MS);
      assert minTimestamp == WindowStart(rows, currentBlockTimestamp);
      var maxTimestamp := currentBlockTimestamp;
      if maxTimestamp <= minTimestamp {
        isScanning := false;
        return;
      }
      var fetched := FetchEventsWithBlockRange(env, chain, minTimestamp, maxTimestamp);
      if fetched.None? {
        isScanning := false;
        return;
      }
      var allSuccessful := ProcessEvents(env, fetched.value);
      if !allSuccessful {
        isScanning := false;
        return;
      }
      store.UpdateTronScanStateWithTimestamp(currentBlockNumber, currentBlockTimestamp, env.now);
      isScanning := false;
    }
  }
}
