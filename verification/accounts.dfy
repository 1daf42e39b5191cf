/** Batch accumulation (`saveTransfers` and `getAccount`,
    src/main.ts:43-86): the distinct endpoint addresses, the accounts the
    store already holds for them, one new account per address it does not,
    and one `Transfer` entity per record.

    The store is a map from account id to account row; the bulk lookup
    `findBy(Account, {id: In(ids)})` is its restriction to `ids`, and the
    final `upsert`/`insert` calls become the method's results. */
module Accounts {
  import opened Wrappers
  import opened Extraction

  /** An account row: its id is the canonical address and nothing else. */
  datatype Account = Account(id: string)

  /** A transfer row. The record's `call` name has no place here: the
      handler never passes it on. */
  datatype Transfer = Transfer(
    id: string,
    blockNumber: nat,
    timestamp: Date,
    extrinsicHash: Option<string>,
    from: Account,
    to: Account,
    amount: nat)

  /** Every account in `m` is filed under its own id. */
  predicate KeyedById(m: map<string, Account>) {
    forall k :: k in m ==> m[k].id == k
  }

  /** The endpoint addresses of a batch, each once however many records
      mention it. */
  function AccountIdSet(data: seq<TransferEventData>): set<string> {
    (set k | 0 <= k < |data| :: data[k].from) + (set k | 0 <= k < |data| :: data[k].to)
  }

  /** `t` is the entity built from record `d`: the scalar fields copied
      verbatim and the endpoints resolved to accounts of those ids. */
  predicate Copies(t: Transfer, d: TransferEventData) {
    && t.id == d.id
    && t.blockNumber == d.blockNumber
    && t.timestamp == d.timestamp
    && t.extrinsicHash == d.extrinsicHash
    && t.amount == d.amount
    && t.from.id == d.from
    && t.to.id == d.to
  }

  lemma AccountIdSetStep(data: seq<TransferEventData>, i: nat)
    requires i < |data|
    ensures AccountIdSet(data[..i + 1]) == AccountIdSet(data[..i]) + {data[i].from, data[i].to}
  {
  }

  /** The first loop of `saveTransfers`: both endpoints of every record,
      gathered into a set. */
  method CollectAccountIds(data: seq<TransferEventData>) returns (ids: set<string>)
    ensures ids == AccountIdSet(data)
    ensures forall a :: a in ids <==> exists k :: 0 <= k < |data| && (data[k].from == a || data[k].to == a)
  {
    ids := {};
    var i := 0;
    while i < |data|
      invariant 0 <= i <= |data|
      invariant ids == AccountIdSet(data[..i])
    {
      AccountIdSetStep(data, i);
      ids := ids + {data[i].from, data[i].to};
      i := i + 1;
    }
    assert data[..|data|] == data;
  }

  /** The bulk lookup: the rows of the store whose id is in `ids`. */
  function FindBy(store: map<string, Account>, ids: set<string>): (found: map<string, Account>)
    ensures found.Keys == store.Keys * ids
    ensures forall k :: k in found ==> found[k] == store[k]
  {
    map k | k in store && k in ids :: store[k]
  }

  /** Get-or-create: the account filed under `id`, creating and filing a
      fresh one when there is none. */
  function GetAccount(m: map<string, Account>, id: string): (res: (map<string, Account>, Account))
    ensures res.0.Keys == m.Keys + {id}
    ensures res.0[id] == res.1
    ensures id in m ==> res.1 == m[id]
    ensures id !in m ==> res.1.id == id
    ensures forall k :: k in m ==> res.0[k] == m[k]
  {
    if id in m then (m, m[id]) else (m[id := Account(id)], Account(id))
  }

  /** Looking an id up a second time finds the account the first call
      returned, and changes nothing. */
  lemma GetAccountTwice(m: map<string, Account>, id: string)
    ensures GetAccount(GetAccount(m, id).0, id) == GetAccount(m, id)
  {
  }

  /** Get-or-create keeps a map filed by id, and the account it returns
      carries the requested id. */
  lemma GetAccountKeyed(m: map<string, Account>, id: string)
    requires KeyedById(m)
    ensures KeyedById(GetAccount(m, id).0)
    ensures GetAccount(m, id).1.id == id
  {
  }

  /** The addresses of a batch that get a new account are those the bulk
      lookup did not find, so there are as many as the batch has addresses
      less the accounts found. */
  lemma CreatedCount(data: seq<TransferEventData>, store: map<string, Account>)
    ensures var found := FindBy(store, AccountIdSet(data));
      |AccountIdSet(data) - found.Keys| == |AccountIdSet(data)| - |found.Keys|
  {
  }

  /** One round of the second loop of `saveTransfers`: both endpoints of a
      record resolved through get-or-create, and its transfer built. */
  function Resolve(m: map<string, Account>, d: TransferEventData): (res: (map<string, Account>, Transfer))
    requires KeyedById(m)
    ensures KeyedById(res.0)
    ensures res.0.Keys == m.Keys + {d.from, d.to}
    ensures forall k :: k in m ==> res.0[k] == m[k]
    ensures Copies(res.1, d)
    ensures res.1.from == res.0[d.from] && res.1.to == res.0[d.to]
  {
    GetAccountKeyed(m, d.from);
    var (afterFrom, from) := GetAccount(m, d.from);
    GetAccountKeyed(afterFrom, d.to);
    var (afterTo, to) := GetAccount(afterFrom, d.to);
    (afterTo, Transfer(d.id, d.blockNumber, d.timestamp, d.extrinsicHash, from, to, d.amount))
  }

  /** `transfers` are the entities of `data`, position by position, with
      their endpoints taken from `accounts`. */
  predicate Resolved(accounts: map<string, Account>, data: seq<TransferEventData>, transfers: seq<Transfer>) {
    && |transfers| == |data|
    && (forall j :: 0 <= j < |data| ==> Copies(transfers[j], data[j]))
    && (forall j :: 0 <= j < |data| ==> data[j].from in accounts && transfers[j].from == accounts[data[j].from])
    && (forall j :: 0 <= j < |data| ==> data[j].to in accounts && transfers[j].to == accounts[data[j].to])
  }

  lemma ResolvedStep(accounts: map<string, Account>, data: seq<TransferEventData>, transfers: seq<Transfer>,
                     next: map<string, Account>, d: TransferEventData, t: Transfer)
    requires Resolved(accounts, data, transfers)
    requires forall k :: k in accounts ==> k in next && next[k] == accounts[k]
    requires Copies(t, d)
    requires d.from in next && t.from == next[d.from] && d.to in next && t.to == next[d.to]
    ensures Resolved(next, data + [d], transfers + [t])
  {
  }

  /** The second loop of `saveTransfers`: resolve both endpoints of each
      record through get-or-create on the map of accounts found in the
      store, and build its transfer. */
  method BuildTransfers(data: seq<TransferEventData>, found: map<string, Account>)
    returns (accounts: map<string, Account>, transfers: seq<Transfer>)
    requires KeyedById(found)
    ensures accounts.Keys == found.Keys + AccountIdSet(data)
    ensures KeyedById(accounts)
    ensures forall k :: k in found ==> accounts[k] == found[k]
    ensures |transfers| == |data|
    ensures forall j :: 0 <= j < |data| ==> Copies(transfers[j], data[j])
    ensures forall j :: 0 <= j < |data| ==>
      transfers[j].from == accounts[data[j].from] && transfers[j].to == accounts[data[j].to]
  {
    accounts := found;
    transfers := [];
    var i := 0;
    while i < |data|
      invariant 0 <= i <= |data|
      invariant KeyedById(accounts)
      invariant accounts.Keys == found.Keys + AccountIdSet(data[..i])
      invariant forall k :: k in found ==> accounts[k] == found[k]
      invariant Resolved(accounts, data[..i], transfers)
    {
      AccountIdSetStep(data, i);
      var (next, transfer) := Resolve(accounts, data[i]);
      ResolvedStep(accounts, data[..i], transfers, next, data[i], transfer);
      assert data[..i + 1] == data[..i] + [data[i]];
      accounts := next;
      transfers := transfers + [transfer];
      i := i + 1;
    }
    assert data[..|data|] == data;
  }

  /** `saveTransfers`: the accounts to upsert, keyed by id, and the transfers
      to insert, in record order. */
  method SaveTransfers(data: seq<TransferEventData>, store: map<string, Account>)
    returns (accounts: map<string, Account>, transfers: seq<Transfer>)
    requires KeyedById(store)
    ensures accounts.Keys == AccountIdSet(data)
    ensures KeyedById(accounts)
    ensures forall k :: k in accounts && k in store ==> accounts[k] == store[k]
    ensures |accounts.Keys - store.Keys| == |AccountIdSet(data)| - |AccountIdSet(data) * store.Keys|
    ensures |transfers| == |data|
    ensures forall j :: 0 <= j < |data| ==> Copies(transfers[j], data[j])
    ensures forall j :: 0 <= j < |data| ==>
      transfers[j].from == accounts[data[j].from] && transfers[j].to == accounts[data[j].to]
  {
    var ids := CollectAccountIds(data);
    var found := FindBy(store, ids);
    accounts, transfers := BuildTransfers(data, found);
    CreatedCount(data, store);
  }
}
