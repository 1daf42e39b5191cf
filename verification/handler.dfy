/** The whole batch handler (the `processor.run` callback, src/main.ts:8-30):
    extract the transfer records of every block, then accumulate and hand
    them to the store. A thrown `UknownVersionError` becomes a `Failure` with
    nothing written. */
module Handler {
  import opened Wrappers
  import opened Versions
  import opened Extraction
  import opened Accounts

  /** What one batch hands to the store: the accounts to upsert, keyed by id,
      and the transfers to insert, in order. */
  datatype Write = Write(upserts: map<string, Account>, inserts: seq<Transfer>)

  /** The transfer stored for kept item `l`: its event id, block height and
      timestamp, extrinsic hash and the accounts of its encoded endpoints. */
  predicate Stores(t: Transfer, l: Located, encode: Bytes -> string) {
    var p := GetTransfer(l.item.event.payload);
    && p.Success?
    && t.id == l.item.event.id
    && t.blockNumber == l.header.height
    && t.timestamp == ToDate(l.header.timestamp)
    && t.extrinsicHash == HashOf(l.item.event.extrinsic)
    && t.from.id == encode(p.value.from)
    && t.to.id == encode(p.value.to)
    && t.amount == p.value.amount
  }

  /** A transfer copied from the record of a kept item stores that item. */
  lemma RecordStored(t: Transfer, d: TransferEventData, l: Located, encode: Bytes -> string)
    requires Describes(d, l, encode) && Copies(t, d)
    ensures Stores(t, l, encode)
  {
  }

  /** The accounts keyed by the batch's endpoint set are exactly the
      endpoints of its transfers. */
  lemma UpsertsAreEndpoints(accounts: map<string, Account>, data: seq<TransferEventData>, transfers: seq<Transfer>)
    requires accounts.Keys == AccountIdSet(data)
    requires |transfers| == |data|
    requires forall j :: 0 <= j < |data| ==> Copies(transfers[j], data[j])
    ensures forall a :: a in accounts <==>
      exists k :: 0 <= k < |transfers| && (transfers[k].from.id == a || transfers[k].to.id == a)
  {
  }

  /** One batch: the write it hands to the store, or the version error that
      aborts it. */
  method HandleBatch(blocks: seq<Block>, encode: Bytes -> string, store: map<string, Account>)
    returns (r: Result<Write, UknownVersionError>)
    requires KeyedById(store)
    ensures r.Failure? <==>
      exists k :: 0 <= k < |Flatten(blocks)| && IsTransfer(Flatten(blocks)[k]) && !Decodes(Flatten(blocks)[k])
    ensures r.Success? ==> |r.value.inserts| == |Wanted(Flatten(blocks))|
    ensures r.Success? ==>
      forall k :: 0 <= k < |r.value.inserts| ==> Stores(r.value.inserts[k], Wanted(Flatten(blocks))[k], encode)
    ensures r.Success? ==>
      forall k :: 0 <= k < |r.value.inserts| ==>
        r.value.inserts[k].from in r.value.upserts.Values && r.value.inserts[k].to in r.value.upserts.Values
    ensures r.Success? ==>
      forall a :: a in r.value.upserts <==>
        exists k :: 0 <= k < |r.value.inserts| && (r.value.inserts[k].from.id == a || r.value.inserts[k].to.id == a)
    ensures r.Success? ==> KeyedById(r.value.upserts)
    ensures r.Success? ==> forall a :: a in r.value.upserts && a in store ==> r.value.upserts[a] == store[a]
  {
    var extracted := Extract(blocks, encode);
    if extracted.Failure? {
      return Failure(extracted.error);
    }
    var data := extracted.value;
    ghost var wanted := Wanted(Flatten(blocks));
    var accounts, transfers := SaveTransfers(data, store);
    forall k | 0 <= k < |transfers|
      ensures Stores(transfers[k], wanted[k], encode)
    {
      RecordStored(transfers[k], data[k], wanted[k], encode);
    }
    UpsertsAreEndpoints(accounts, data, transfers);
    return Success(Write(accounts, transfers));
  }
}
