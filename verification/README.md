# Kusama balance-transfer indexer, modelled in Dafny

This project models the batch handler of a Subsquid processor that indexes
`Balances.Transfer` events on Kusama. For each batch of blocks the handler:

1. **Extracts.** It walks the blocks in order, and each block's items in
   order. It keeps the items named `Balances.Transfer` and turns each one
   into a flat `TransferEventData` record. The record holds the event id, the
   block height, the block timestamp, the optional extrinsic hash, the
   optional call name, the two SS58-encoded endpoints and the amount.
2. **Decodes across runtime versions.** `getTransfer` tries the layouts
   V1020, V1050 and V9130, in that order, and uses the first that applies.
   The two older layouts are positional `(from, to, amount)` tuples and are
   normalised into a `{from, to, amount}` record. The newest layout already
   has that shape. When no layout applies, the handler throws
   `UknownVersionError` and the batch writes nothing.
3. **Accumulates.** `saveTransfers` gathers the distinct endpoint addresses.
   It looks up the accounts the store already has for them. The get-or-create
   `getAccount` then resolves every endpoint to one account per address, and
   one `Transfer` is built per record. Finally every account is upserted and
   the transfers are inserted.

Modules (one file each):

- `Wrappers` (`wrappers.dfy`): `Option` for TypeScript's `?.`, and `Result`
  for the thrown error.
- `Versions` (`versions.dfy`): the layouts, the ordered rule list
  `Registry`, the generic first-match scan `FirstMatch`, and `GetTransfer`.
- `Extraction` (`extraction.dfy`): blocks, items and events. `Flatten`
  lists every item in block order then item order. `Wanted` filters that
  list by name. `Collect` is a functional reference for the records of a
  batch. `Extract` and `ExtractBlock` are the nested loops of the handler.
- `Accounts` (`accounts.dfy`): `Account` and `Transfer`, the endpoint set,
  the store lookup, `getAccount`, and `saveTransfers`.
- `Handler` (`handler.dfy`): the whole callback. It returns the write handed
  to the store, or the version error.

Abstractions:

- **`encodeId`.** This is the SS58 encoding, a library call. It is the
  parameter `encode: Bytes -> string` and is otherwise uninterpreted.
- **The `isV…` / `asV…` accessors.** These are generated code and do the
  byte decoding. Each one is an optional field of `RawTransferEvent`:
  `Some(p)` means the predicate holds and the accessor returns `p`. Several
  fields may be present at once, so the first-match order is observable.
- **The store.** It is a map from account id to account row.
  `findBy(Account, {id: In(ids)})` is that map restricted to `ids`. The
  `upsert` and `insert` calls are replaced by the returned `Write`: a map of
  accounts to upsert (its values are `[...accounts.values()]`) and the
  ordered transfers to insert.
- **The block timestamp.** It is a number of milliseconds, `null` or
  `undefined`, as the header may hold it. `new Date(...)` is modelled by
  `Extraction.ToDate`. A number within ±8.64e15 ms becomes `At(ms)`. `null`
  becomes the epoch, `At(0)`. `undefined` or a number out of that range
  becomes `InvalidDate`.

Behaviours of the code worth knowing, each modelled as written:

- **No timestamp check.** A block without a timestamp is not rejected
  (src/main.ts:18). `Extraction.MissingTimestampKept` shows that its
  transfer is still recorded, dated at the epoch for `null` and with an
  invalid date for `undefined`.
- **The call name is not stored.** It is copied into `TransferEventData`
  (src/main.ts:20) but never passed to `new Transfer` (src/main.ts:56,
  62-70). `Transfer` here has no `call` field.
- **Layout selection.** The layout is chosen by the generated `isV…` type
  checks, taking the first that holds (src/main.ts:99-108). The error keeps
  the code's spelling, `UknownVersionError`, and its message
  `"Uknown verson"` (src/main.ts:112-115).
- **Plain insert.** Transfers are written with a plain `insert`
  (src/main.ts:75), so re-running a batch writes the same ids again. What
  the store does with a duplicate id is outside the model.

## Model

| member | source | states |
|---|---|---|
| Versions.FirstMatch | src/main.ts:99-108 | Finds the rule list's first layout whose `isV…` predicate holds. The result is absent exactly when no rule applies. When present it is an applicable rule, and every rule before it does not apply. |
| Versions.GetTransfer | src/main.ts:94-110 | Fails with `UknownVersionError` if and only if none of the three layouts applies. Otherwise it decodes with the first applicable layout in the order V1020, V1050, V9130. |
| Versions.GetTransferDispatch | src/main.ts:99-108 | Gives the source's if-chain case by case. V1020 wins whenever it applies; V1050 is used when only later layouts apply; V9130 is returned as is; none applying is the error. Tuple positions 0, 1 and 2 become `from`, `to` and `amount`. |
| Versions.SoleLayoutDecides | src/main.ts:99-106 | An event for which exactly one layout applies is decoded by that layout, whatever its position in the order. |
| Extraction.ToDate | src/main.ts:18 | `new Date(timestamp)` never rejects. A timestamp yields `Invalid Date` if and only if it is `undefined` or a number beyond ±8.64e15 ms. A number in range keeps its value, and `null` gives the epoch. |
| Extraction.Collect | src/main.ts:11-27 | The functional reference for the extraction loop. When it succeeds it yields as many records as the batch has `Balances.Transfer` items. |
| Extraction.CollectSpec | src/main.ts:11-27 | Collecting a batch fails exactly when some `Balances.Transfer` item does not decode. On success there is one record per kept item, in order. Each record carries the item's event id, block height and timestamp, its extrinsic hash and call name (absent exactly when there is no extrinsic or call), the encoded endpoints and the amount. |
| Extraction.Extract | src/main.ts:9-27 | The nested loop over blocks and items. It fails if and only if some kept item does not decode. On success it returns one record per kept item of `Flatten(blocks)`, in order, each describing its item as in `CollectSpec`. |
| Extraction.ExtractBlock | src/main.ts:12-26 | The inner loop over one block's items extends the records of everything before the block by that block's records, or aborts at its first undecodable transfer. |
| Extraction.FlattenIndex | src/main.ts:11-12 | Item `i` of block `b` sits at position (number of items in earlier blocks) + `i` of the walk. Blocks are therefore visited in order, and each block's items in order. |
| Extraction.FlattenAppend | src/main.ts:11-12 | Walking two runs of blocks one after the other visits the items of the first run, then those of the second. |
| Extraction.WantedAppend | src/main.ts:11-13 | Filtering by name commutes with concatenation. Kept items of earlier blocks precede those of later blocks, and relative order is preserved. |
| Extraction.WantedMultiplicity | src/main.ts:13-25 | Each item named `Balances.Transfer` is kept exactly as often as it occurs, and every other item is dropped. |
| Extraction.AbortPersists | src/main.ts:14 | Once an undecodable transfer has thrown, no later item changes the outcome: the batch fails as a whole. |
| Extraction.MissingTimestampKept | src/main.ts:18 | A decodable transfer in a block whose timestamp is `null` or `undefined` is still recorded: dated at the epoch for `null`, with an invalid date for `undefined`. |
| Extraction.OneTransferExample | src/main.ts:11-24 | Worked example: a block at height 1000 with one V1020 transfer of 500 from key `a` to key `b` yields exactly one record. It has id `E1`, height 1000, the block's date, no hash or call, endpoints `encode(a)` and `encode(b)`, and amount 500. |
| Accounts.CollectAccountIds | src/main.ts:44-48 | The first loop of `saveTransfers` yields the set of `from` and `to` addresses over all records. An address is in it if and only if some record names it as an endpoint, and it appears once however many records do. |
| Accounts.FindBy | src/main.ts:50-52 | The bulk lookup returns exactly the stored accounts whose id was asked for, unchanged. |
| Accounts.GetAccount | src/main.ts:78-86 | Get-or-create. The returned account is the entry now filed under `id`. The key set grows by `id` alone. An existing entry is returned as is. A missing one is created with that id. Every previous entry keeps its value. |
| Accounts.GetAccountTwice | src/main.ts:78-86 | A second call with the same id returns the same account and leaves the map unchanged. |
| Accounts.GetAccountKeyed | src/main.ts:78-86 | Get-or-create keeps every account filed under its own id, and the account it returns has the requested id. |
| Accounts.Resolve | src/main.ts:55-71 | One round of the second loop. Exactly the record's two endpoints are added to the map, and nothing already in it changes. The transfer copies the record's scalar fields and takes its endpoints from the map. |
| Accounts.BuildTransfers | src/main.ts:54-72 | The second loop of `saveTransfers`. The final keys are the pre-found keys plus all endpoint addresses, and pre-found accounts are unchanged. There is one transfer per record, in order. Each copies `id`, `blockNumber`, `timestamp`, `extrinsicHash` and `amount`, and its `from`/`to` are the map's accounts for the record's addresses. |
| Accounts.CreatedCount | src/main.ts:44-59 | The addresses of a batch that the bulk lookup does not find, and that `getAccount` therefore creates, number the size of the endpoint set minus the number of accounts found. |
| Accounts.SaveTransfers | src/main.ts:43-76 | The upserted map's keys are exactly the batch's endpoint addresses, each filed once under its own id. Accounts already in the store are kept unchanged. The number of newly created accounts is the number of endpoints minus the number found in the store. Transfers match the records one to one and in order, and refer to the upserted accounts. |
| Handler.RecordStored | src/main.ts:56-70 | A transfer built from the record of a kept item stores that item's event id, height, date, extrinsic hash, encoded endpoints and amount. |
| Handler.UpsertsAreEndpoints | src/main.ts:44-74 | The upserted accounts are exactly the endpoints of the inserted transfers, no more and no fewer. |
| Handler.HandleBatch | src/main.ts:8-30 | The whole callback. It fails if and only if some kept item does not decode, and then nothing is written. Otherwise it inserts one transfer per `Balances.Transfer` item, in block then item order, each storing that item. Every endpoint is among the upserted accounts. The upserted set is exactly the endpoint set. Stored accounts are reused unchanged. |

## Left out

- src/processor.ts: framework configuration (gateway, RPC endpoint from the environment, rate limit, event and field selection). It has no logic.
- `encodeId` (src/main.ts:88-90): the SS58 encoding of the `kusama` network is a library call. It appears only as the uninterpreted parameter `encode`; checksums and base58 are not modelled.
- `BalancesTransferEvent` and its `isV…`/`asV…` accessors (src/main.ts:98): generated byte-level decoding that is not part of this model. The predicates and payloads are inputs.
- Store I/O: the `findBy` query, `upsert` and `insert` (src/main.ts:50-52, 74-75) are a map restriction and returned values. Transactions, `async` behaviour, and the store's reaction to a duplicate transfer id on re-run are not modelled.
- Extraction.ToDate: only integer millisecond counts, `null` and `undefined` are modelled. Fractional numbers (truncated by `Date`), `NaN`, and other value types are not, and a valid date is kept as its millisecond count without calendar conversion.
- Integer widths: `blockNumber` (a JavaScript number) and `amount` (a `bigint` decoded from an unsigned balance) are modelled as unbounded `nat`s.
- TypeORM entity classes and object identity: an `Account` is a value carrying its id. "The same account object" becomes equality of values filed under the same key.
- The order of `[...accounts.values()]` handed to `upsert` is not modelled: the upserts are a map.
