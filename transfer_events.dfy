/**
 * What one scanner tick means, as functions over the chain's answers: paginating the transfer
 * events of a time window, processing each event against the tables, and the whole tick with
 * its single-flight flag and cursor.
 */
module TransferEvents {
  import opened Wrappers
  import opened DepositTable
  import opened ScanState
  import opened TronConfig

  const SCAN_WINDOW_MS: nat := 2 * 60 * 1000
  const MAX_ITERATIONS: nat := 50
  const SEED_BLOCK_LAG: nat := 40
  const CONFIRM_FAILED_ERROR: string := "Database transaction failed"

  /** The decoded `result` of a Transfer event: hex addresses and the raw amount in sun. */
  datatype Transfer = Transfer(to: Option<string>, from: Option<string>, value: Option<nat>)

  datatype RawEvent = RawEvent(transactionId: string, result: Option<Transfer>, fingerprint: Option<string>)

  /** One answer of the events endpoint: it threw, or it replied with a flag and a page of events. */
  datatype Response = Threw | Reply(success: bool, data: seq<RawEvent>)

  /** The chain as one tick sees it: the head block and the event pages of any time window. */
  datatype Head = HeadThrew | Head(number: Option<int>, timestamp: Option<int>)
  datatype Chain = Chain(head: Head, pages: (int, int) -> seq<Response>)

  /**
   * The rest of the tick's surroundings: the configured master-wallet setting, the address
   * decoder (`None` when it throws), the clock, and the transactions whose settlement the
   * database fails to commit.
   */
  datatype Env = Env(configuredWallet: Option<string>, fromHex: string -> Option<string>, now: Time, failingTx: set<string>)

  /** `getMasterWalletAddress()`: `None` when the configured address is invalid and the getter throws. */
  function Master(env: Env): Option<string> {
    MasterWalletAddress(env.configuredWallet)
  }

  datatype FailedDeposit = FailedDeposit(depositId: Id, txHash: string, amount: int, error: string, timestamp: Time)

  /** A JavaScript-truthy string: present and non-empty. */
  predicate Present(s: Option<string>) {
    s.Some? && s.value != ""
  }

  // ------------------------------------------------------------------ pagination

  /**
   * The filter applied to every page: events whose recipient decodes to the master wallet. A
   * throw from the decoder or from the wallet getter is caught and drops the event.
   */
  predicate IsRelevant(env: Env, e: RawEvent) {
    && e.result.Some? && Present(e.result.value.to)
    && Master(env).Some? && env.fromHex(e.result.value.to.value) == Master(env)
  }

  function Relevant(env: Env, data: seq<RawEvent>): (r: seq<RawEvent>)
    ensures |r| <= |data|
  {
    if data == [] then []
    else (if IsRelevant(env, data[0]) then [data[0]] else []) + Relevant(env, data[1..])
  }

  /**
   * The filter keeps exactly the master-addressed events of a page: everything it keeps is
   * addressed to the master wallet and comes from the page, and nothing so addressed is dropped.
   */
  lemma {:induction false} RelevantFilters(env: Env, data: seq<RawEvent>)
    ensures forall k :: 0 <= k < |Relevant(env, data)| ==>
      IsRelevant(env, Relevant(env, data)[k]) && Relevant(env, data)[k] in data
    ensures forall e :: e in data && IsRelevant(env, e) ==> e in Relevant(env, data)
  {
    if data != [] {
      RelevantFilters(env, data[1..]);
      var head := if IsRelevant(env, data[0]) then [data[0]] else [];
      var rest := Relevant(env, data[1..]);
      assert Relevant(env, data) == head + rest;
      forall k | 0 <= k < |head + rest|
        ensures IsRelevant(env, (head + rest)[k]) && (head + rest)[k] in data
      {
        if k >= |head| {
          assert (head + rest)[k] == rest[k - |head|];
          assert rest[k - |head|] in data[1..];
        }
      }
      forall e | e in data && IsRelevant(env, e)
        ensures e in head + rest
      {
        if e != data[0] {
          assert e in data[1..];
        }
      }
    }
  }

  /** The `i`-th answer; asking past the last page gets an empty page. */
  function PageAt(pages: seq<Response>, i: nat): Response {
    if i < |pages| then pages[i] else Reply(true, [])
  }

  predicate HasData(r: Response) {
    r.Reply? && r.success && |r.data| > 0
  }

  /** The last event's fingerprint, unless it is missing or empty. */
  function NextFingerprint(data: seq<RawEvent>): (f: Option<string>)
    requires |data| > 0
    ensures f.Some? <==> Present(data[|data| - 1].fingerprint)
  {
    if Present(data[|data| - 1].fingerprint) then data[|data| - 1].fingerprint else None
  }

  /** After fetching page `i`, the loop asks for page `i + 1`. */
  predicate Continues(pages: seq<Response>, i: nat) {
    HasData(PageAt(pages, i)) && NextFingerprint(PageAt(pages, i).data).Some? && i + 1 < MAX_ITERATIONS
  }

  function Prepend(prefix: seq<RawEvent>, rest: Option<seq<RawEvent>>): Option<seq<RawEvent>> {
    if rest.Some? then Some(prefix + rest.value) else None
  }

  lemma PrependAssoc(a: seq<RawEvent>, b: seq<RawEvent>, rest: Option<seq<RawEvent>>)
    ensures Prepend(a, Prepend(b, rest)) == Prepend(a + b, rest)
    ensures Prepend([], rest) == rest && Prepend(a, Some([])) == Some(a)
  {
    if rest.Some? {
      assert a + (b + rest.value) == (a + b) + rest.value;
      assert [] + rest.value == rest.value;
    }
    assert a + [] == a;
  }

  /**
   * The events the page loop collects from page `i` on: `None` when a request throws; a page
   * that is unsuccessful or empty ends the loop, as do a missing fingerprint and the fiftieth page.
   */
  function Gather(env: Env, pages: seq<Response>, i: nat): Option<seq<RawEvent>>
    requires i < MAX_ITERATIONS
    decreases MAX_ITERATIONS - i
  {
    var page := PageAt(pages, i);
    if page.Threw? then None
    else if !HasData(page) then Some([])
    else if !Continues(pages, i) then Some(Relevant(env, page.data))
    else Prepend(Relevant(env, page.data), Gather(env, pages, i + 1))
  }

  /** One turn of the page loop, case by case. */
  lemma GatherStep(env: Env, pages: seq<Response>, i: nat, collected: seq<RawEvent>)
    requires i < MAX_ITERATIONS
    ensures PageAt(pages, i).Threw? ==> Prepend(collected, Gather(env, pages, i)) == None
    ensures !PageAt(pages, i).Threw? && !HasData(PageAt(pages, i)) ==>
      Prepend(collected, Gather(env, pages, i)) == Some(collected)
    ensures HasData(PageAt(pages, i)) && !Continues(pages, i) ==>
      Prepend(collected, Gather(env, pages, i)) == Some(collected + Relevant(env, PageAt(pages, i).data))
    ensures Continues(pages, i) ==>
      Prepend(collected, Gather(env, pages, i)) ==
      Prepend(collected + Relevant(env, PageAt(pages, i).data), Gather(env, pages, i + 1))
  {
    PrependAssoc(collected, [], Some([]));
    if Continues(pages, i) {
      PrependAssoc(collected, Relevant(env, PageAt(pages, i).data), Gather(env, pages, i + 1));
    } else if HasData(PageAt(pages, i)) {
      PrependAssoc(collected, Relevant(env, PageAt(pages, i).data), Some([]));
    }
  }

  /** How many requests the loop makes from page `i` on; never more than the fifty allowed. */
  function PagesRead(pages: seq<Response>, i: nat): (n: nat)
    requires i < MAX_ITERATIONS
    ensures 1 <= n <= MAX_ITERATIONS - i
    decreases MAX_ITERATIONS - i
  {
    if Continues(pages, i) then 1 + PagesRead(pages, i + 1) else 1
  }

  function PageEvents(env: Env, r: Response): seq<RawEvent> {
    if HasData(r) then Relevant(env, r.data) else []
  }

  /** The relevant events of pages `i` up to `j`, in page order. */
  function Collect(env: Env, pages: seq<Response>, i: nat, j: nat): seq<RawEvent>
    decreases j - i
  {
    if i >= j then [] else PageEvents(env, PageAt(pages, i)) + Collect(env, pages, i + 1, j)
  }

  /** The index of the last page the loop asks for, starting from page `i`. */
  function LastRead(pages: seq<Response>, i: nat): nat
    requires i < MAX_ITERATIONS
  {
    i + PagesRead(pages, i) - 1
  }

  /** Every request before the last returned a successful, non-empty page. */
  lemma {:induction false} ReadPagesHaveData(pages: seq<Response>, i: nat)
    requires i < MAX_ITERATIONS
    ensures forall k :: i <= k < LastRead(pages, i) ==> HasData(PageAt(pages, k))
    decreases MAX_ITERATIONS - i
  {
    if Continues(pages, i) {
      ReadPagesHaveData(pages, i + 1);
    }
  }

  /**
   * Pagination returns exactly the master-addressed events of the pages it fetched, in page
   * order, unless the last request it makes throws.
   */
  lemma {:induction false} GatherCollects(env: Env, pages: seq<Response>, i: nat)
    requires i < MAX_ITERATIONS
    ensures Gather(env, pages, i) == if PageAt(pages, LastRead(pages, i)).Threw? then None
                                     else Some(Collect(env, pages, i, LastRead(pages, i) + 1))
    decreases MAX_ITERATIONS - i
  {
    if Continues(pages, i) {
      GatherCollects(env, pages, i + 1);
      var last := LastRead(pages, i);
      assert last == LastRead(pages, i + 1);
      if !PageAt(pages, last).Threw? {
        assert Collect(env, pages, i, last + 1)
            == Relevant(env, PageAt(pages, i).data) + Collect(env, pages, i + 1, last + 1);
      }
    } else {
      assert PagesRead(pages, i) == 1;
      assert Collect(env, pages, i + 1, i + 1) == [];
      var page := PageAt(pages, i);
      if !page.Threw? {
        assert Collect(env, pages, i, i + 1) == PageEvents(env, page) + [];
        assert PageEvents(env, page) + [] == PageEvents(env, page);
      }
    }
  }

  predicate AllRelevant(env: Env, es: seq<RawEvent>) {
    forall k :: 0 <= k < |es| ==> IsRelevant(env, es[k])
  }

  lemma AllRelevantConcat(env: Env, a: seq<RawEvent>, b: seq<RawEvent>)
    requires AllRelevant(env, a) && AllRelevant(env, b)
    ensures AllRelevant(env, a + b)
  {
    assert forall k :: 0 <= k < |a + b| ==> (a + b)[k] == if k < |a| then a[k] else b[k - |a|];
  }

  /** Everything the scanner goes on to process was addressed to the master wallet. */
  lemma {:induction false} GatheredAreRelevant(env: Env, pages: seq<Response>, i: nat)
    requires i < MAX_ITERATIONS
    requires Gather(env, pages, i).Some?
    ensures AllRelevant(env, Gather(env, pages, i).value)
    decreases MAX_ITERATIONS - i
  {
    if HasData(PageAt(pages, i)) {
      RelevantFilters(env, PageAt(pages, i).data);
    }
    if Continues(pages, i) {
      GatheredAreRelevant(env, pages, i + 1);
      AllRelevantConcat(env, Relevant(env, PageAt(pages, i).data), Gather(env, pages, i + 1).value);
    }
  }

  // ------------------------------------------------------------------ one event

  datatype Step = Step(success: bool, tables: Tables, failure: Option<FailedDeposit>)

  /** An event without recipient, sender or value, which the handler acknowledges and skips. */
  predicate Incomplete(e: RawEvent) {
    e.result.None? || !Present(e.result.value.to) || !Present(e.result.value.from) || e.result.value.value.None?
  }

  /**
   * `processTransferEvent`. In order: skip an incomplete event; decode both addresses and the
   * amount (a decoder error is a failure); read the master wallet (an invalid setting throws,
   * which is a failure); skip a transfer to another wallet; skip a transaction
   * hash already on record; skip an amount no pending deposit is waiting for; otherwise settle,
   * recording the failure when the settlement does not commit.
   */
  function ProcessEvent(env: Env, t: Tables, e: RawEvent): Step {
    if Incomplete(e) then Step(true, t, None)
    else
      var transfer := e.result.value;
      var to := env.fromHex(transfer.to.value);
      var from := env.fromHex(transfer.from.value);
      if to.None? || from.None? then Step(false, t, None)
      else
        var amount := ConvertFromSun(transfer.value.value);
        var master := Master(env);
        if master.None? then Step(false, t, None)
        else if to.value != master.value then Step(true, t, None)
        else if DepositByTxHash(t.deposits, e.transactionId).Some? then Step(true, t, None)
        else
          var matching := FindPendingByPayableAmount(t.deposits, amount, env.now);
          if matching.None? then Step(true, t, None)
          else
            var s := Confirm(t, matching.value, e.transactionId, amount, env.now, e.transactionId in env.failingTx);
            if s.ok then Step(true, s.tables, None)
            else Step(false, t, Some(FailedDeposit(matching.value, e.transactionId, amount, CONFIRM_FAILED_ERROR, env.now)))
  }

  /** The amount an event carries, in 10^-8 units. */
  function EventAmount(e: RawEvent): int
    requires !Incomplete(e)
  {
    ConvertFromSun(e.result.value.value.value)
  }

  /** A failed event leaves the tables alone; only a settlement that did not commit leaves a record. */
  lemma ProcessEventFailure(env: Env, t: Tables, e: RawEvent)
    ensures var s := ProcessEvent(env, t, e);
      && (s.success ==> s.failure.None?)
      && (!s.success ==> s.tables == t)
      && (s.failure.Some? ==>
            && !Incomplete(e)
            && var m := FindPendingByPayableAmount(t.deposits, EventAmount(e), env.now);
            && m.Some?
            && !Confirm(t, m.value, e.transactionId, EventAmount(e), env.now, e.transactionId in env.failingTx).ok
            && s.failure.value == FailedDeposit(m.value, e.transactionId, EventAmount(e), CONFIRM_FAILED_ERROR, env.now))
  {
  }

  /**
   * The only way an event changes the tables: a new transaction hash whose amount a pending
   * deposit is waiting for, settled into the earliest such deposit.
   */
  lemma ProcessEventSettles(env: Env, t: Tables, e: RawEvent)
    requires ProcessEvent(env, t, e).tables != t
    ensures !Incomplete(e)
    ensures DepositByTxHash(t.deposits, e.transactionId).None?
    ensures var m := FindPendingByPayableAmount(t.deposits, EventAmount(e), env.now);
      && m.Some?
      && ProcessEvent(env, t, e) == Step(true, Confirm(t, m.value, e.transactionId, EventAmount(e), env.now, false).tables, None)
  {
  }

  /** A skipped event — incomplete, or not for the master wallet — changes nothing. */
  lemma SkippedEventIsNoOp(env: Env, t: Tables, e: RawEvent)
    requires Incomplete(e) || (env.fromHex(e.result.value.to.value).Some? && env.fromHex(e.result.value.from.value).Some? &&
                               Master(env).Some? && env.fromHex(e.result.value.to.value) != Master(env))
    ensures ProcessEvent(env, t, e) == Step(true, t, None)
  {
  }

  /** With an invalid wallet setting every complete event whose addresses decode fails, changing nothing. */
  lemma WalletErrorFailsEvent(env: Env, t: Tables, e: RawEvent)
    requires Master(env).None? && !Incomplete(e)
    requires env.fromHex(e.result.value.to.value).Some? && env.fromHex(e.result.value.from.value).Some?
    ensures ProcessEvent(env, t, e) == Step(false, t, None)
  {
  }

  /**
   * The converse of `ProcessEventFailure`: an event that reaches the settlement of its match
   * and whose settlement does not commit fails and leaves exactly one failure record.
   */
  lemma FailedCommitRecords(env: Env, t: Tables, e: RawEvent)
    requires !Incomplete(e)
    requires env.fromHex(e.result.value.to.value).Some? && env.fromHex(e.result.value.from.value).Some?
    requires Master(env).Some? && env.fromHex(e.result.value.to.value) == Master(env)
    requires DepositByTxHash(t.deposits, e.transactionId).None?
    requires FindPendingByPayableAmount(t.deposits, EventAmount(e), env.now).Some?
    requires var m := FindPendingByPayableAmount(t.deposits, EventAmount(e), env.now).value;
      !Confirm(t, m, e.transactionId, EventAmount(e), env.now, e.transactionId in env.failingTx).ok
    ensures var m := FindPendingByPayableAmount(t.deposits, EventAmount(e), env.now).value;
      ProcessEvent(env, t, e) ==
        Step(false, t, Some(FailedDeposit(m, e.transactionId, EventAmount(e), CONFIRM_FAILED_ERROR, env.now)))
  {
  }

  /**
   * The idempotency gate: an event whose transaction hash is already on record is a successful
   * no-op, whatever it carries, once its addresses decode and the wallet setting is valid (both
   * are read before the gate).
   */
  lemma KnownHashIsNoOp(env: Env, t: Tables, e: RawEvent)
    requires DepositByTxHash(t.deposits, e.transactionId).Some?
    requires !Incomplete(e) ==> env.fromHex(e.result.value.to.value).Some? && env.fromHex(e.result.value.from.value).Some?
    requires !Incomplete(e) ==> Master(env).Some?
    ensures ProcessEvent(env, t, e) == Step(true, t, None)
  {
  }

  /**
   * Replaying an event that was processed successfully changes nothing: in particular a
   * transfer that credited a deposit cannot credit again.
   */
  lemma ReplayIsNoOp(env: Env, t: Tables, e: RawEvent)
    requires ProcessEvent(env, t, e).success
    ensures var t' := ProcessEvent(env, t, e).tables;
      ProcessEvent(env, t', e) == Step(true, t', None)
  {
    var s := ProcessEvent(env, t, e);
    if s.tables != t {
      ProcessEventSettles(env, t, e);
      var m := FindPendingByPayableAmount(t.deposits, EventAmount(e), env.now);
      ConfirmRecordsHash(t, m.value, e.transactionId, EventAmount(e), env.now, env.now, EventAmount(e));
    }
  }

  // ------------------------------------------------------------------ a batch of events

  datatype Run = Run(allSuccessful: bool, tables: Tables, failures: seq<FailedDeposit>)

  function Record(f: Option<FailedDeposit>): seq<FailedDeposit> {
    if f.Some? then [f.value] else []
  }

  /** One more event on top of a run. */
  function Extend(env: Env, prev: Run, e: RawEvent): Run {
    var s := ProcessEvent(env, prev.tables, e);
    Run(prev.allSuccessful && s.success, s.tables, prev.failures + Record(s.failure))
  }

  /** The tick's `for` loop: the events in order, each against the tables the previous left. */
  function ProcessAll(env: Env, t: Tables, events: seq<RawEvent>): (run: Run)
    ensures |run.failures| <= |events|
    ensures run.failures != [] ==> !run.allSuccessful
  {
    if events == [] then Run(true, t, [])
    else
      var prev := ProcessAll(env, t, events[..|events| - 1]);
      ExtendRecordsFailure(env, prev, events[|events| - 1]);
      Extend(env, prev, events[|events| - 1])
  }

  /** An event adds at most one failure record, and a record makes the run unsuccessful. */
  lemma ExtendRecordsFailure(env: Env, prev: Run, e: RawEvent)
    ensures var r := Extend(env, prev, e);
      r.failures == prev.failures || (|r.failures| == |prev.failures| + 1 && !r.allSuccessful)
  {
  }

  lemma ProcessAllSnoc(env: Env, t: Tables, events: seq<RawEvent>, i: nat)
    requires i < |events|
    ensures ProcessAll(env, t, events[..i + 1]) == Extend(env, ProcessAll(env, t, events[..i]), events[i])
  {
    assert events[..i + 1][..i] == events[..i];
  }

  // ------------------------------------------------------------------ the tick

  /** Everything a tick reads and writes. */
  datatype World = World(scanning: bool, tables: Tables, scanRows: seq<ScanRow>, failed: seq<FailedDeposit>)

  /** JavaScript's `x || fallback` on a number that may be missing: zero also falls back. */
  function OrElse(x: Option<int>, fallback: int): int {
    if x.Some? && x.value != 0 then x.value else fallback
  }

  function HeadNumber(h: Head): int
    requires h.Head?
  {
    OrElse(h.number, 0)
  }

  function HeadTimestamp(env: Env, h: Head): int
    requires h.Head?
  {
    OrElse(h.timestamp, env.now)
  }

  /** The cursor table once a missing cursor has been seeded 40 blocks and two minutes back. */
  function Seeded(env: Env, rows: seq<ScanRow>, number: int, ts: int): (r: seq<ScanRow>)
    ensures r != []
    ensures rows != [] ==> r == rows
    ensures rows == [] ==> r == [ScanRow(number - SEED_BLOCK_LAG, ts - SCAN_WINDOW_MS, env.now)]
  {
    if Cursor(rows).Some? then rows
    else WithUpdated(WithCreated(rows, number - SEED_BLOCK_LAG, env.now), number - SEED_BLOCK_LAG, ts - SCAN_WINDOW_MS, env.now)
  }

  /** The start of the scan window: the cursor's timestamp, or two minutes before the head. */
  function WindowStart(rows: seq<ScanRow>, ts: int): int
    requires rows != []
  {
    OrElse(Some(rows[0].lastProcessedTimestamp), ts - SCAN_WINDOW_MS)
  }

  /**
   * `scanBlockchain`. A tick that finds the flag set does nothing. Otherwise it reads the head
   * (an error ends the tick), seeds a missing cursor, does nothing more when the window is
   * empty, fetches the window's events (an error ends the tick), processes them all, and moves
   * the cursor to the head only if every event succeeded. The flag is clear afterwards.
   */
  function Tick(env: Env, chain: Chain, w: World): World {
    if w.scanning then w
    else if chain.head.HeadThrew? then w
    else
      var number := HeadNumber(chain.head);
      var ts := HeadTimestamp(env, chain.head);
      var rows := Seeded(env, w.scanRows, number, ts);
      var start := WindowStart(rows, ts);
      if ts <= start then w.(scanRows := rows)
      else
        var fetched := Gather(env, chain.pages(start, ts), 0);
        if fetched.None? then w.(scanRows := rows)
        else
          var run := ProcessAll(env, w.tables, fetched.value);
          World(false, run.tables, if run.allSuccessful then WithUpdated(rows, number, ts, env.now) else rows,
                w.failed + run.failures)
  }
}
