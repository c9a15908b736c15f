# Deposit reconciliation, modelled in Dafny

This project models the part of the payment back end that matches on-chain USDT (TRC-20) transfers
to deposits that are waiting for payment, and then credits the buyer. The only link between a
transfer and a deposit is the amount. Each deposit therefore gets a *payable amount* that no other
active deposit is using.

The model covers six pieces:

- **Scaled-decimal parser** (`ScaledDecimal`). It reads a decimal string as an integer count of
  10^-8 units. It rounds half-up on the ninth fractional digit. A leading `-` negates the result.
  The module also has the 8-digit rendering used for the stored payable-amount column.
- **Tron configuration** (`TronConfig`):
  - the address check;
  - the master wallet fallback;
  - the string that `convertFromSun` builds from an on-chain integer.
- **Payable-amount allocator** (`DepositUniqueness`, `DepositCreation`):
  - the range check;
  - the bounded downward search for an unused amount;
  - the insertion of a pending deposit that expires ten minutes later.
- **Deposit table** (`DepositTable`, `ScanState`, `Storage`). Tables are maps. The module has the
  active set, the bulk expiry, the lookup by transaction hash, the lookup of the earliest pending
  deposit payable a given amount, the all-or-nothing confirm-and-credit transaction, and the
  scan-cursor row.
  - `Storage.Store` is a class. The state-changing queries update its fields in place.
- **Scanner tick** (`TransferEvents`, `BlockchainScanner`, `ScanTick`):
  - the paginated event fetch, as a loop over the pages;
  - per-event processing;
  - the event loop;
  - the tick itself in `BlockchainScanner.Scanner`, with its single-flight flag, the list of
    failed settlements, lazy cursor seeding, the empty-window no-op and an all-or-nothing
    cursor advance.
- **Expiry sweeper** (`DepositExpiration`). A re-entrancy flag wraps the bulk expiry.

`FetchEventsWithBlockRange`, `ProcessEvents`, `ScanBlockchain`, `CheckAndExpireDeposits` and the
`Store` methods other than `CreateDeposit` are each proved against a function, and lemmas then
prove the listed properties about those functions. `GenerateUniquePayableAmount`,
`CreateAutomatedDeposit` and `Store.CreateDeposit` state their results directly in their
postconditions; the last gives the new table as the old one with the row added under a free id.

Clocks, randomness and the network are parameters:

- `now` is passed in.
- The chain head and the event pages are a `Chain` value. A page is either a `Reply` or a throw.
- Address decoding (`tronWeb.address.fromHex`) is a function `string -> Option<string>` in `Env`.
  `None` means the decoder throws.
- The wallet setting is `Env.configuredWallet`. The master wallet is `MasterWalletAddress` of it,
  and `None` means `getMasterWalletAddress` throws. Then the fetch filter drops every event, and
  each complete event that reaches processing fails.
- Database failures are inputs. For a settlement, `failingTx` is the set of transaction hashes
  whose commit fails. For the sweeper, `dbFails` says the expiry throws.

Amounts are integers in 10^-8 USDT throughout. An on-chain USDT value (6 decimals) is therefore
`value * 100`.

The payable amount is a `numeric(18,8)` column (dist/index.js:79), and matching compares it as a
number. The model keeps the exact scaled integer that such a column holds. The insert writes the
amount as its 8-digit decimal string. `ScaledDecimal.ParseFormat8` and
`ScaledDecimal.Format8Injective` show that this string reads back as exactly that integer, and that
two amounts have the same string only when they are equal.

A request that is a whole number of on-chain units (micro-USDT) but collides with an amount in use
gets a nudged amount 1 to 100 units of 10^-8 below it. An amount 1 to 99 units below cannot be
paid exactly by any 6-decimal transfer, so such a deposit is never matched automatically
(`DepositUniqueness.NudgedAmountIsUnpayable`). Only `r-100`, handed out when `r-1 … r-99` are all
in use, is again a whole number of on-chain units and can be paid.

## Model

| member | source | states |
|---|---|---|
| ScaledDecimal.ParseExact | server/storage.ts:23-29 | With digit-only parts and at most 8 fractional digits, the result is integer part · 10^8 plus the fraction padded on the right with zeros. An empty integer part counts as 0. |
| ScaledDecimal.ParseInteger | server/storage.ts:23-29 | A string of digits with no dot parses to that number · 10^8. |
| ScaledDecimal.ParseRounded | server/storage.ts:31-46 | With more than 8 fractional digits, the result is the first 8 digits plus 1 exactly when the ninth digit is 5 or more. Later digits are ignored. |
| ScaledDecimal.ParseCarry | server/storage.ts:37-44 | A fraction of 8 nines followed by a digit of 5 or more carries: the result is (integer part + 1) · 10^8. |
| ScaledDecimal.ParseNegated | server/storage.ts:21-22 | With a leading minus sign, the result is the negation of the rest's result, and an error stays an error. |
| ScaledDecimal.ParseRejectsBadInteger | server/storage.ts:24-28 | The model rejects an integer part that is not plain digits: the parse gives an error. |
| ScaledDecimal.ParseFormat8 | dist/index.js:315-318 | The 8-fractional-digit rendering of a non-negative amount parses back to exactly that amount. |
| ScaledDecimal.Format8Injective | dist/index.js:315-318 | Two amounts have the same 8-digit rendering only if they are equal. |
| TronConfig.IsValidTronAddress | dist/index.js:280-292 | An address is valid iff it has 34 characters and starts with `T`. A valid address is therefore non-empty. |
| TronConfig.MasterWalletAddress | dist/index.js:267-273 | An unset or empty setting gives the built-in default. A non-empty valid setting is returned as is. A non-empty invalid setting gives `None`, standing for the throw. Any resolved wallet is valid. |
| TronConfig.DefaultMasterWalletIsValid | dist/index.js:267-273 | With nothing configured, the built-in default wallet is used, and it is valid. |
| TronConfig.ParseSunString | dist/index.js:306-311 | The string `whole.frac` (frac padded to 6 digits) built from an on-chain value `v` parses at 10^-8 to exactly `v · 100`. |
| TronConfig.ConvertFromSun | dist/index.js:306-314 | The scaled amount of an on-chain value `v` is `v · 100`. |
| DepositUniqueness.ValidateDepositAmount | dist/index.js:1522-1534 | Below 30 USDT gives the minimum error, above 20000 gives the maximum error, and everything in between is valid. Each case is an iff on the scaled amount. |
| DepositUniqueness.UsedAmounts | dist/index.js:1573-1576 | An amount is used iff some active deposit has it as its payable amount. |
| DepositUniqueness.GenerateUniquePayableAmount | dist/index.js:1577-1597 | An unused request is returned unchanged. Otherwise the result is the largest unused amount among `r-1 … r-100`: every amount between it and `r` is used. The result is never used, and the search fails exactly when `r` and all of `r-1 … r-100` are used. |
| DepositUniqueness.AllocationExample | dist/index.js:1580-1593 | With 50.00000000 and 49.99999999 in use, a request for 50 gets 49.99999998. |
| DepositUniqueness.AllocationKeepsDistinct | dist/index.js:1571-1598 | Inserting a deposit whose payable amount the allocator chose keeps the active payable amounts pairwise distinct. |
| DepositUniqueness.NudgedAmountIsUnpayable | dist/index.js:1580-1593 | When the request is a whole number of on-chain units, every amount 1 to 99 units below it differs from `v · 100` for every on-chain value `v`. A nudged deposit of such a request can never be paid exactly. |
| DepositCreation.NewDeposit | dist/index.js:1605-1633 | A new deposit is pending with no hash, expires 10 minutes after `now`, and carries the requested and payable amounts. |
| DepositCreation.CreateAutomatedDeposit | dist/index.js:1606-1652 | A missing field, a NaN or an out-of-range amount fails before allocation, and so does an exhausted search. Every failure leaves the tables unchanged. With a valid request and a free amount, an invalid wallet setting fails as `BadWalletConfig` and a taken id fails as `InsertFailed`; otherwise the deposit is created under the new id. On success, exactly one pending row is inserted. Its payable amount is the allocator's choice: the request when that is free, otherwise the largest free amount among `r-1 … r-100`. |
| DepositCreation.NewDepositMatchesUntilDeadline | dist/index.js:1605-1633 | The new deposit is what the matcher returns for its payable amount from creation until just before its deadline, and never from the deadline on. |
| DepositTable.ActiveDeposits | server/storage.ts:291-308 | A row is active iff it is pending or awaiting payment and its `expiresAt` is null or after `now`. An active row is returned unchanged. |
| DepositTable.ExpiryChangesExactlyDue | server/storage.ts:316-332 | Expiry changes exactly the open rows whose `expiresAt` is before `now`, by setting the status to expired. Every other row is unchanged. |
| DepositTable.ExpiryIdempotent | server/storage.ts:316-332 | After one expiry nothing is due at the same `now`, and a second expiry changes nothing. |
| DepositTable.ExpiryKeepsActive | server/storage.ts:291-332 | Expiry does not change the active set at the same instant. |
| DepositTable.ExpiredStaysInactive | server/storage.ts:316-358 | An expired row is never active again, and the matcher never returns it. |
| DepositTable.ExpiryKeepsConfirmed | server/storage.ts:316-332 | A confirmed row is never expired. |
| DepositTable.EarliestExists | server/storage.ts:348-358 | Every non-empty set of rows has an earliest row by `createdAt`. |
| DepositTable.Earliest | server/storage.ts:348-358 | The chosen row belongs to the set, and no row of the set was created earlier. |
| DepositTable.DepositByTxHash | server/storage.ts:334-340 | The result is nothing iff no row carries the hash, and a returned row carries it. |
| DepositTable.FindPendingByPayableAmount | server/storage.ts:342-367 | The result is nothing iff no row is pending with this payable amount and a deadline after `now`. A returned row meets those conditions and was created no later than any other that does. |
| DepositTable.Confirm | server/storage.ts:369-424 | Committing fails iff the deposit or its owner is missing or the commit fails, and then nothing changes. On success the deposit is confirmed with the hash, time and amount, the owner's available balance rises by exactly the amount, and the frozen balance and every other user are unchanged. |
| DepositTable.ConfirmRecordsHash | server/storage.ts:369-424 | After a confirm, the hash lookup finds a row for the hash, and the confirmed deposit is neither active nor matchable again. |
| DepositTable.DistinctMatchIsUnique | server/storage.ts:342-367 | When active payable amounts are distinct, at most one deposit matches an amount, and the matcher returns it. |
| DepositTable.DistinctPayableLater | server/storage.ts:291-308 | Distinct active payable amounts stay distinct as time passes. |
| DepositTable.DistinctPayableAfterExpiry | server/storage.ts:316-332 | Expiry keeps the active payable amounts distinct. |
| DepositTable.DistinctPayableAfterConfirm | server/storage.ts:369-424 | A confirm keeps the active payable amounts distinct. |
| ScanState.Cursor | server/storage.ts:427-439 | The cursor is absent iff there are no rows, and otherwise it is the first row. |
| ScanState.WithCreated | server/storage.ts:442-455 | A new row is appended with the block number and both timestamps set to `now`, as the NOT NULL defaults give. Existing rows are unchanged. |
| ScanState.WithUpdated | server/storage.ts:485-506 | When a row exists, the cursor row gets the block number, the timestamp and the scan time, and the other rows are unchanged. Otherwise the only row is the block number with both timestamps `now`. |
| ScanState.UpdateIdempotent | server/storage.ts:485-506 | On a non-empty table, repeating an update changes nothing. |
| ScanState.UpdateOverwrites | server/storage.ts:485-506 | On a non-empty table, an update overwrites the previous one entirely. |
| Storage.Store.GetTronScanState | server/storage.ts:427-439 | The result is absent iff there are no rows, and otherwise it is the first row. |
| Storage.Store.ExpireOldDeposits | server/storage.ts:316-332 | The table becomes its expiry, the count is the number of due rows, and users and scan state are unchanged. |
| Storage.Store.ConfirmDepositWithTransaction | server/storage.ts:369-424 | The result and new tables are exactly those of the all-or-nothing `Confirm`. The scan state is unchanged. |
| Storage.Store.CreateTronScanState | server/storage.ts:442-455 | A state row with the block number and both timestamps `now` is appended, and nothing else changes. |
| Storage.Store.UpdateTronScanStateWithTimestamp | server/storage.ts:485-506 | The rows become `WithUpdated` of the old rows: the cursor row takes the block, timestamp and scan time, or an empty table gets the row `(block, now, now)`. Nothing else changes. |
| Storage.Store.CreateDeposit | server/storage.ts:259-262 | The insert succeeds iff the id is free, adds exactly that row, and changes nothing else. |
| TransferEvents.RelevantFilters | server/services/blockchainScanner.ts:116-129 | The kept events are exactly the page's events whose recipient decodes to the master wallet. With an invalid wallet setting no event is kept. |
| TransferEvents.NextFingerprint | server/services/blockchainScanner.ts:131-136 | Paging continues iff the last event has a non-empty fingerprint. |
| TransferEvents.GatherStep | server/services/blockchainScanner.ts:87-144 | One iteration of the do-while. A throw aborts the fetch, an unsuccessful or empty page ends it, and a page with data contributes its relevant events. The loop moves on only with a fingerprint and fewer than 50 pages read. |
| TransferEvents.PagesRead | server/services/blockchainScanner.ts:87-144 | A fetch reads between 1 and 50 pages, so it always terminates. |
| TransferEvents.ReadPagesHaveData | server/services/blockchainScanner.ts:112-142 | Every page the fetch moved past was successful and non-empty. |
| TransferEvents.GatherCollects | server/services/blockchainScanner.ts:87-151 | The fetched events are the relevant events of the pages read, concatenated in page order, unless the last page read threw. |
| TransferEvents.GatheredAreRelevant | server/services/blockchainScanner.ts:116-129 | Every fetched event is addressed to the master wallet. |
| TransferEvents.ProcessEventFailure | server/services/blockchainScanner.ts:52-80 | A failed event leaves the tables unchanged. A failure record appears only when the matched deposit's settlement did not commit, and it is exactly `{depositId, txHash, amount, "Database transaction failed", now}`. |
| TransferEvents.ProcessEventSettles | server/services/blockchainScanner.ts:40-74 | Tables change only for a complete event with an unknown hash and a match, and only by a committed `Confirm` of the earliest match. |
| TransferEvents.SkippedEventIsNoOp | server/services/blockchainScanner.ts:28-38 | An event lacking `to`, `from` or `value`, or addressed to another wallet, is a success that changes nothing. |
| TransferEvents.WalletErrorFailsEvent | server/services/blockchainScanner.ts:32-80 | With an invalid wallet setting, a complete event whose addresses decode fails, with no record and no change to the tables. |
| TransferEvents.FailedCommitRecords | server/services/blockchainScanner.ts:45-80 | A complete event for the master wallet with an unknown hash and a match, whose settlement does not commit, fails with exactly the record `{depositId, txHash, amount, "Database transaction failed", now}`. |
| TransferEvents.KnownHashIsNoOp | server/services/blockchainScanner.ts:36-43 | An event whose hash is already on a deposit is a success that changes nothing, provided an incomplete event or a valid wallet setting lets it reach the hash check. |
| TransferEvents.ReplayIsNoOp | server/services/blockchainScanner.ts:24-81 | Processing a successful event a second time is a success that changes nothing, so a transfer is never credited twice. |
| TransferEvents.ProcessAll | server/services/blockchainScanner.ts:201-212 | There is at most one failure record per event, and any failure record means the run was not fully successful. |
| TransferEvents.ProcessAllSnoc | server/services/blockchainScanner.ts:201-212 | The run over one more event extends the previous run by that event's step. |
| TransferEvents.Seeded | server/services/blockchainScanner.ts:166-183 | A missing cursor is seeded at block `head-40`, with timestamp `head-120000` ms and the scan time. An existing cursor is kept. |
| BlockchainScanner.FetchEventsWithBlockRange | server/services/blockchainScanner.ts:83-151 | The paging loop returns exactly the events `Gather` describes, or nothing when a page request throws. |
| BlockchainScanner.Scanner.GetFailedDeposits | server/services/blockchainScanner.ts:274-276 | Returns the recorded failures. |
| BlockchainScanner.Scanner.ClearFailedDeposits | server/services/blockchainScanner.ts:278-281 | Empties the recorded failures and leaves the flag unchanged. |
| BlockchainScanner.Scanner.ProcessTransferEvent | server/services/blockchainScanner.ts:24-81 | The result, the new tables and the appended failure record are those of `ProcessEvent`. |
| BlockchainScanner.Scanner.ProcessEvents | server/services/blockchainScanner.ts:201-212 | The loop's result, tables and failure list are those of `ProcessAll`. |
| BlockchainScanner.Scanner.ScanBlockchain | server/services/blockchainScanner.ts:153-241 | The new flag, tables, scan rows and failure list are exactly the `Tick` of the old ones. |
| ScanTick.TickFlag | server/services/blockchainScanner.ts:154-159 | A tick while scanning changes nothing. Any other tick leaves the flag clear. |
| ScanTick.TickSeedsCursor | server/services/blockchainScanner.ts:166-237 | Starting without a cursor, the tick ends with one row. It holds the head's block, the head's timestamp and the scan time when the whole window succeeds, and otherwise the seed `head-40`, `ts-120000` and the scan time. |
| ScanTick.TickEmptyWindow | server/services/blockchainScanner.ts:185-193 | With a cursor present and an empty window, the tick changes nothing. |
| ScanTick.TickCursorAllOrNothing | server/services/blockchainScanner.ts:197-237 | With a cursor present, the scan rows change only after a non-empty window, a working fetch and a run where every event succeeded, and then the cursor row becomes the head's block, the head's timestamp and the scan time. `TickAdvancesOnSuccess` is the converse. |
| ScanTick.TickAdvancesOnSuccess | server/services/blockchainScanner.ts:214-229 | When the window is non-empty, the fetch works and every event succeeds, the cursor row becomes the head's block, the head's timestamp and the scan time. |
| ScanTick.TickTablesOnlyBySettlement | server/services/blockchainScanner.ts:185-226 | A tick either leaves tables and failures unchanged, or applies the event run of this tick's own window, fetched from the seeded cursor's timestamp to the head's. |
| ScanTick.NextWindowStartsAtHead | server/services/blockchainScanner.ts:185-228 | After an advance, the next window starts at the timestamp of the previous head. |
| ScanTick.NoEventsWithoutWallet | server/services/blockchainScanner.ts:116-129 | With an invalid wallet setting, a fetch that works returns no event. |
| ScanTick.WalletErrorSkipsWindow | server/services/blockchainScanner.ts:185-229 | With an invalid wallet setting and a working fetch, a tick changes no table, records no failure and moves the cursor to the head, so the window's transfers are never credited by the scanner. |
| ScanTick.SettledIsNoOp | server/services/blockchainScanner.ts:28-50 | An event that takes one of the early-return paths is a success that changes nothing. |
| ScanTick.SuccessSettles | server/services/blockchainScanner.ts:24-81 | After an event succeeds, it takes an early-return path. |
| ScanTick.StepKeepsSettled | server/services/blockchainScanner.ts:40-74 | While pending rows carry no hash, processing another event keeps a settled event settled. |
| ScanTick.StepSettles | server/services/blockchainScanner.ts:201-212 | While pending rows carry no hash, one more successful event keeps that true and leaves every earlier settled event settled, with the new one settled too. |
| ScanTick.RunSettles | server/services/blockchainScanner.ts:201-212 | After a fully successful run, every event of the run is settled. |
| ScanTick.SettledRunIsNoOp | server/services/blockchainScanner.ts:201-212 | A run of settled events succeeds and changes nothing. |
| ScanTick.ReprocessingIsNoOp | server/services/blockchainScanner.ts:197-212 | While pending rows carry no hash, re-processing a fully successful window changes nothing and records no failure. |
| DepositExpiration.SweepFlag | server/services/depositExpiration.ts:10-30 | A sweep that is not skipped leaves the flag clear. A skipped sweep returns 0 and changes nothing. |
| DepositExpiration.SweepCountsChanges | server/services/depositExpiration.ts:18-27 | The count is the number of rows the sweep changed, and each changed row only became expired. A failed expiry counts 0 and changes nothing. |
| DepositExpiration.SweepTwice | server/services/depositExpiration.ts:9-31 | A second sweep at the same instant after a successful one counts 0. |
| DepositExpiration.ExpirationService.CheckAndExpireDeposits | server/services/depositExpiration.ts:9-31 | The count, flag and table are exactly those of `CheckAndExpire`. Users and scan state are unchanged. |

## Left out

- SweepFlag, TickFlag: a skipped call leaves the flag *set*, not cleared. The early return comes
  before the `try`/`finally`, and the flag was already true (server/services/depositExpiration.ts:10-13,
  server/services/blockchainScanner.ts:154-157). On every other path the flag ends false.
- DepositTable.DepositByTxHash: the query has no ordering, so with several rows carrying one hash
  the database may return any of them. The model picks the earliest by (`createdAt`, id), the same
  tie-break as the matcher.
- DepositTable.FindPendingByPayableAmount: ties on `createdAt` are broken by the smaller id. The
  database's order among equal timestamps is unspecified.
- DepositTable.Confirm: it does not check the deposit's status, and neither does the source. Only
  the caller's matcher ensures the deposit is pending.
- ScanTick.ReprocessingIsNoOp: it needs every pending row to carry no transaction hash. Rows created
  by the allocator satisfy this, but a row edited elsewhere might not.
- ScaledDecimal.Parse: the model gives `None` for every integer or fraction part that is not
  plain digits. `BigInt`, which reads both parts, also accepts surrounding whitespace, a sign and
  radix prefixes such as `0x`. So `"1.-5"` reads as 95000000 and `"1. 5"` as 105000000 in the
  server, but both are `None` in the model.
- ScaledDecimal.ParseRejectsBadInteger: for the same reason it is weaker than `BigInt`, which
  accepts a signed, space-padded or prefixed integer part that the model rejects.
- Number-valued input to the parser (`toLocaleString`) is not modelled.
- Floating point is not modelled:
  - `parseFloat`/`toFixed` in `convertFromSun` and `formatUsdtBalance`;
  - `bigIntToDecimal`;
  - the `parseFloat` of the requested amount in `createAutomatedDeposit`.

  Every amount is an exact scaled integer. The requested amount arrives already scaled, or as
  missing or NaN.
- TronConfig.ConvertFromSun: it takes a `nat`. A value that `BigInt` cannot read is not modelled.
- Ids are natural numbers, and the caller supplies the new deposit's id and `createdAt`. The
  source generates them as UUIDs and database defaults.
- Database faults are modelled in three places only:
  - a settlement commit (`failingTx`);
  - the bulk expiry (`dbFails`);
  - the deposit insert, which fails on a taken id (`Store.CreateDeposit`, giving `InsertFailed`).

  Errors thrown by the other queries are not modelled. Inside a tick these include the
  scan-state reads and writes, the hash lookup and the match lookup; in deposit creation, the
  read of the active deposits that the allocator searches.
- DepositCreation.CreateAutomatedDeposit: the notification insert that follows the deposit insert
  (dist/index.js:1634-1638) is not modelled. If it throws, the server answers 500 (dist/index.js:1648-1651)
  with the pending row already inserted. The model's "every failure leaves the tables unchanged"
  holds only because that path is absent from it.
- TronConfig.IsValidTronAddress: the server's `address.length` counts UTF-16 code units, and the
  model's `|address|` counts Unicode scalar values. A setting containing a character outside the
  Basic Multilingual Plane can therefore be valid in the server and invalid in the model, or the
  reverse.
- The `Failed to create scan state` error cannot happen, because seeding always yields a row.
  `Tick` has no branch for it.
- Each tick uses a single clock value (`Env.now`) for the seed, the cursor's scan time and the
  failure timestamp.
- The page size of the event request (200) is a request parameter only; each page is an input.
- The network calls are inputs: the chain head (`getCurrentBlock`) and the event pages
  (`getEventsByContractAddress`).
- Interval scheduling, concurrency between scanner ticks, sweeps and deposit creation, logging,
  and notification messages are not modelled. The model is sequential.
- HTTP handlers, the manual admin confirm, operator statistics, the exchange-rate service,
  Telegram bots and authentication are not part of this model.
