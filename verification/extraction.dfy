/** The extraction loop of the batch handler (the `processor.run` callback,
    src/main.ts:8-30): blocks in order, each block's items in order, one
    `TransferEventData` record per `Balances.Transfer` item.

    The SS58 address encoding `encodeId` is a library call and enters the
    model as the parameter `encode`. */
module Extraction {
  import opened Wrappers
  import opened Versions

  /** The only item name the handler keeps. */
  const TransferEventName: string := "Balances.Transfer"

  /** A JavaScript `Date`: a valid time in milliseconds since the epoch,
      or `Invalid Date`. */
  datatype Date = At(millis: int) | InvalidDate

  /** The header's timestamp as JavaScript holds it: a number of
      milliseconds, `null`, or `undefined`. */
  datatype RawTimestamp = Millis(ms: int) | Null | Undefined

  /** The farthest a `Date` may lie from the epoch, in milliseconds. */
  const MaxTimeMillis: int := 8_640_000_000_000_000

  /** `new Date(block.header.timestamp)`: nothing is rejected. `null` is
      read as 0 and gives the epoch; `undefined` and a number beyond the
      range of `Date` give `Invalid Date`. */
  function ToDate(timestamp: RawTimestamp): (d: Date)
    ensures d.InvalidDate? <==>
      timestamp.Undefined? || (timestamp.Millis? && !(-MaxTimeMillis <= timestamp.ms <= MaxTimeMillis))
    ensures timestamp.Millis? && d.At? ==> d.millis == timestamp.ms
    ensures timestamp.Null? ==> d == At(0)
  {
    match timestamp
    case Millis(ms) => if -MaxTimeMillis <= ms <= MaxTimeMillis then At(ms) else InvalidDate
    case Null => At(0)
    case Undefined => InvalidDate
  }

  datatype Header = Header(height: nat, timestamp: RawTimestamp)
  datatype Extrinsic = Extrinsic(hash: string)
  datatype Call = Call(name: string)
  datatype Event = Event(id: string, extrinsic: Option<Extrinsic>, call: Option<Call>, payload: RawTransferEvent)
  datatype Item = Item(name: string, event: Event)
  datatype Block = Block(header: Header, items: seq<Item>)

  /** An item paired with the header of the block it was delivered in. */
  datatype Located = Located(header: Header, item: Item)

  /** The flat record the handler accumulates for each transfer. */
  datatype TransferEventData = TransferEventData(
    id: string,
    blockNumber: nat,
    timestamp: Date,
    extrinsicHash: Option<string>,
    call: Option<string>,
    from: string,
    to: string,
    amount: nat)

  /** The items of one block, each paired with the block's header. */
  function Locate(b: Block): seq<Located> {
    seq(|b.items|, i requires 0 <= i < |b.items| => Located(b.header, b.items[i]))
  }

  /** Every item of every block, in block order then item order. */
  function Flatten(blocks: seq<Block>): seq<Located> {
    if |blocks| == 0 then []
    else Flatten(blocks[..|blocks| - 1]) + Locate(blocks[|blocks| - 1])
  }

  predicate IsTransfer(l: Located) {
    l.item.name == TransferEventName
  }

  /** The items the handler keeps, in the order it meets them. */
  function Wanted(ls: seq<Located>): seq<Located> {
    if |ls| == 0 then []
    else Wanted(ls[..|ls| - 1]) + (if IsTransfer(ls[|ls| - 1]) then [ls[|ls| - 1]] else [])
  }

  /** Whether the item's event decodes under some known layout. */
  predicate Decodes(l: Located) {
    GetTransfer(l.item.event.payload).Success?
  }

  function HashOf(x: Option<Extrinsic>): Option<string> {
    match x
    case Some(ex) => Some(ex.hash)
    case None => None
  }

  function NameOf(c: Option<Call>): Option<string> {
    match c
    case Some(cl) => Some(cl.name)
    case None => None
  }

  /** The record pushed for a kept item whose event decoded to `p`. */
  function MakeRecord(l: Located, p: TransferPayload, encode: Bytes -> string): TransferEventData {
    TransferEventData(
      l.item.event.id,
      l.header.height,
      ToDate(l.header.timestamp),
      HashOf(l.item.event.extrinsic),
      NameOf(l.item.event.call),
      encode(p.from),
      encode(p.to),
      p.amount)
  }

  /** `d` is the record of the decodable item `l`: the event id, the block
      height, the block timestamp, the enclosing extrinsic's hash and call's
      name (each absent exactly when the enclosing object is), the encoded
      endpoints and the amount of the decoded event. */
  predicate Describes(d: TransferEventData, l: Located, encode: Bytes -> string) {
    var ev := l.item.event;
    && d.id == ev.id
    && d.blockNumber == l.header.height
    && d.timestamp == ToDate(l.header.timestamp)
    && (d.extrinsicHash.Some? <==> ev.extrinsic.Some?)
    && (ev.extrinsic.Some? ==> d.extrinsicHash.value == ev.extrinsic.value.hash)
    && (d.call.Some? <==> ev.call.Some?)
    && (ev.call.Some? ==> d.call.value == ev.call.value.name)
    && GetTransfer(ev.payload).Success?
    && d.from == encode(GetTransfer(ev.payload).value.from)
    && d.to == encode(GetTransfer(ev.payload).value.to)
    && d.amount == GetTransfer(ev.payload).value.amount
  }

  /** The records of a sequence of located items, or the error of the first
      kept item that does not decode. */
  function Collect(ls: seq<Located>, encode: Bytes -> string): (r: Result<seq<TransferEventData>, UknownVersionError>)
    ensures r.Success? ==> |r.value| == |Wanted(ls)|
  {
    if |ls| == 0 then Success([])
    else
      match Collect(ls[..|ls| - 1], encode)
      case Failure(err) => Failure(err)
      case Success(out) =>
        var last := ls[|ls| - 1];
        if !IsTransfer(last) then Success(out)
        else match GetTransfer(last.item.event.payload)
          case Failure(err) => Failure(err)
          case Success(p) => Success(out + [MakeRecord(last, p, encode)])
  }

  /** Collecting fails exactly when some kept item does not decode; when it
      succeeds there is one record per kept item, in order, describing it. */
  lemma {:induction false} CollectSpec(ls: seq<Located>, encode: Bytes -> string)
    ensures Collect(ls, encode).Failure? <==> exists k :: 0 <= k < |ls| && IsTransfer(ls[k]) && !Decodes(ls[k])
    ensures Collect(ls, encode).Success? ==> |Collect(ls, encode).value| == |Wanted(ls)|
    ensures Collect(ls, encode).Success? ==>
      forall k :: 0 <= k < |Wanted(ls)| ==> Describes(Collect(ls, encode).value[k], Wanted(ls)[k], encode)
    decreases |ls|
  {
    if |ls| > 0 {
      var init, last := ls[..|ls| - 1], ls[|ls| - 1];
      CollectSpec(init, encode);
      assert forall k :: 0 <= k < |init| ==> init[k] == ls[k];
    }
  }

  lemma {:induction false} FlattenAppend(a: seq<Block>, c: seq<Block>)
    ensures Flatten(a + c) == Flatten(a) + Flatten(c)
    decreases |c|
  {
    if |c| == 0 {
      assert a + c == a;
    } else {
      var c', x := c[..|c| - 1], c[|c| - 1];
      assert (a + c)[..|a + c| - 1] == a + c';
      assert c[..|c| - 1] == c';
      FlattenAppend(a, c');
    }
  }

  /** Order preservation across blocks: item `i` of block `b` sits after
      every item of the earlier blocks and after the earlier items of its own
      block. */
  lemma FlattenIndex(blocks: seq<Block>, b: nat, i: nat)
    requires b < |blocks| && i < |blocks[b].items|
    ensures |Flatten(blocks[..b])| + i < |Flatten(blocks)|
    ensures Flatten(blocks)[|Flatten(blocks[..b])| + i] == Located(blocks[b].header, blocks[b].items[i])
  {
    assert blocks == blocks[..b + 1] + blocks[b + 1..];
    FlattenAppend(blocks[..b + 1], blocks[b + 1..]);
    assert blocks[..b + 1][..b] == blocks[..b];
  }

  /** Filtering commutes with concatenation: the kept items of earlier
      blocks come before those of later ones. */
  lemma {:induction false} WantedAppend(a: seq<Located>, c: seq<Located>)
    ensures Wanted(a + c) == Wanted(a) + Wanted(c)
    decreases |c|
  {
    if |c| == 0 {
      assert a + c == a;
    } else {
      var c', x := c[..|c| - 1], c[|c| - 1];
      assert (a + c)[..|a + c| - 1] == a + c';
      WantedAppend(a, c');
    }
  }

  /** Exactly one kept entry per `Balances.Transfer` item, none for any
      other item. */
  lemma {:induction false} WantedMultiplicity(ls: seq<Located>, l: Located)
    ensures multiset(Wanted(ls))[l] == if IsTransfer(l) then multiset(ls)[l] else 0
    decreases |ls|
  {
    if |ls| > 0 {
      var init, last := ls[..|ls| - 1], ls[|ls| - 1];
      assert ls == init + [last];
      WantedMultiplicity(init, l);
    }
  }

  /** One step of the inner loop: the records of `prefix` extended by the
      next item. */
  lemma CollectStep(prefix: seq<Located>, l: Located, encode: Bytes -> string)
    ensures Collect(prefix + [l], encode) ==
      match Collect(prefix, encode)
      case Failure(err) => Failure(err)
      case Success(out) =>
        if !IsTransfer(l) then Success(out)
        else match GetTransfer(l.item.event.payload)
          case Failure(err) => Failure(err)
          case Success(p) => Success(out + [MakeRecord(l, p, encode)])
  {
  }

  /** A block without a timestamp is not rejected: its transfer is still
      recorded, stamped with the epoch for a `null` timestamp and with an
      invalid date for an `undefined` one. */
  lemma MissingTimestampKept(h: Header, it: Item, encode: Bytes -> string)
    requires h.timestamp.Null? || h.timestamp.Undefined?
    requires IsTransfer(Located(h, it)) && Decodes(Located(h, it))
    ensures Collect(Flatten([Block(h, [it])]), encode).Success?
    ensures Collect(Flatten([Block(h, [it])]), encode).value[0].timestamp ==
      if h.timestamp.Null? then At(0) else InvalidDate
  {
  }

  /** One block at height 1000 holding one transfer of 500 from key `a` to
      key `b` in the oldest layout gives one record with the encoded keys. */
  lemma OneTransferExample(a: Bytes, b: Bytes, t: int, encode: Bytes -> string)
    requires -MaxTimeMillis <= t <= MaxTimeMillis
    ensures
      var ev := Event("E1", None, None, RawTransferEvent(Some((a, b, 500)), None, None));
      var blocks := [Block(Header(1000, Millis(t)), [Item(TransferEventName, ev)])];
      Collect(Flatten(blocks), encode) ==
        Success([TransferEventData("E1", 1000, At(t), None, None, encode(a), encode(b), 500)])
  {
    var ev := Event("E1", None, None, RawTransferEvent(Some((a, b, 500)), None, None));
    var h := Header(1000, Millis(t));
    var blocks := [Block(h, [Item(TransferEventName, ev)])];
    GetTransferDispatch(ev.payload);
    assert blocks[..0] == [];
    var l := Located(h, Item(TransferEventName, ev));
    assert Flatten(blocks) == [l];
    var none: seq<Located> := [];
    CollectStep(none, l, encode);
    assert none + [l] == [l];
    assert IsTransfer(l);
    assert GetTransfer(l.item.event.payload) == Success(TransferPayload(a, b, 500));
    var rec := MakeRecord(l, TransferPayload(a, b, 500), encode);
    assert Collect(none, encode) == Success([]);
    var noRecords: seq<TransferEventData> := [];
    assert noRecords + [rec] == [rec];
    assert rec == TransferEventData("E1", 1000, At(t), None, None, encode(a), encode(b), 500);
  }

  /** Once a prefix of the items fails to decode, so does every extension
      of it: no later item can undo the abort. */
  lemma {:induction false} AbortPersists(a: seq<Located>, c: seq<Located>, encode: Bytes -> string)
    requires Collect(a, encode).Failure?
    ensures Collect(a + c, encode) == Failure(UknownVersionError)
  {
    CollectSpec(a, encode);
    CollectSpec(a + c, encode);
    var k :| 0 <= k < |a| && IsTransfer(a[k]) && !Decodes(a[k]);
    assert (a + c)[k] == a[k];
    match Collect(a + c, encode).error
    case UknownVersionError =>
  }

  /** The inner loop of the handler: the items of one block, appended to
      the records of everything before it. */
  method ExtractBlock(ghost before: seq<Located>, out: seq<TransferEventData>, block: Block, encode: Bytes -> string)
    returns (r: Result<seq<TransferEventData>, UknownVersionError>)
    requires Collect(before, encode) == Success(out)
    ensures r == Collect(before + Locate(block), encode)
  {
    var acc := out;
    var i := 0;
    assert before + Locate(block)[..0] == before;
    while i < |block.items|
      invariant 0 <= i <= |block.items|
      invariant Collect(before + Locate(block)[..i], encode) == Success(acc)
    {
      var item := block.items[i];
      assert Locate(block)[..i + 1] == Locate(block)[..i] + [Located(block.header, item)];
      assert before + Locate(block)[..i + 1] == (before + Locate(block)[..i]) + [Located(block.header, item)];
      CollectStep(before + Locate(block)[..i], Located(block.header, item), encode);
      if item.name == TransferEventName {
        var e := GetTransfer(item.event.payload);
        if e.Failure? {
          assert Locate(block) == Locate(block)[..i + 1] + Locate(block)[i + 1..];
          assert before + Locate(block) == (before + Locate(block)[..i + 1]) + Locate(block)[i + 1..];
          AbortPersists(before + Locate(block)[..i + 1], Locate(block)[i + 1..], encode);
          return Failure(e.error);
        }
        acc := acc + [MakeRecord(Located(block.header, item), e.value, encode)];
      }
      i := i + 1;
    }
    assert Locate(block)[..|block.items|] == Locate(block);
    return Success(acc);
  }

  /** The handler's extraction loop: blocks in order, stopping at the first
      kept item that does not decode. */
  method Extract(blocks: seq<Block>, encode: Bytes -> string) returns (r: Result<seq<TransferEventData>, UknownVersionError>)
    ensures r == Collect(Flatten(blocks), encode)
    ensures r.Failure? <==>
      exists k :: 0 <= k < |Flatten(blocks)| && IsTransfer(Flatten(blocks)[k]) && !Decodes(Flatten(blocks)[k])
    ensures r.Success? ==> |r.value| == |Wanted(Flatten(blocks))|
    ensures r.Success? ==>
      forall k :: 0 <= k < |r.value| ==> Describes(r.value[k], Wanted(Flatten(blocks))[k], encode)
  {
    var out: seq<TransferEventData> := [];
    var b := 0;
    while b < |blocks|
      invariant 0 <= b <= |blocks|
      invariant Collect(Flatten(blocks[..b]), encode) == Success(out)
    {
      assert blocks[..b + 1][..b] == blocks[..b];
      assert Flatten(blocks[..b + 1]) == Flatten(blocks[..b]) + Locate(blocks[b]);
      var res := ExtractBlock(Flatten(blocks[..b]), out, blocks[b], encode);
      if res.Failure? {
        assert blocks == blocks[..b + 1] + blocks[b + 1..];
        FlattenAppend(blocks[..b + 1], blocks[b + 1..]);
        AbortPersists(Flatten(blocks[..b + 1]), Flatten(blocks[b + 1..]), encode);
        CollectSpec(Flatten(blocks), encode);
        return Failure(UknownVersionError);
      }
      out := res.value;
      b := b + 1;
    }
    assert blocks[..|blocks|] == blocks;
    CollectSpec(Flatten(blocks), encode);
    return Success(out);
  }
}
