/** The version-tolerant decoding of a `Balances.Transfer` event
    (`getTransfer`, src/main.ts:94-110).

    The byte-level decoding done by the generated `BalancesTransferEvent`
    accessors is not part of this model: each runtime layout's `isV…`
    predicate and `asV…` payload are given as an optional field of the raw
    event. `Some(p)` means the predicate holds and `p` is what the accessor
    returns. Nothing forces exactly one field to be present, so the
    first-match order of the dispatch is observable. */
module Versions {
  import opened Wrappers

  newtype byte = x: int | 0 <= x < 256

  /** A `Uint8Array`: a raw 32-byte account key, kept at any length here. */
  type Bytes = seq<byte>

  /** The positional payload of the two oldest layouts: (from, to, amount). */
  type TransferTuple = (Bytes, Bytes, nat)

  /** The canonical `{from, to, amount}` shape that `getTransfer` returns. */
  datatype TransferPayload = TransferPayload(from: Bytes, to: Bytes, amount: nat)

  /** The runtime layouts the handler knows about. */
  datatype Layout = V1020 | V1050 | V9130

  /** A transfer event as the generated accessors see it. */
  datatype RawTransferEvent = RawTransferEvent(
    v1020: Option<TransferTuple>,
    v1050: Option<TransferTuple>,
    v9130: Option<TransferPayload>)

  /** The single error `getTransfer` can raise. */
  datatype UknownVersionError = UknownVersionError {
    /** The message the error is constructed with, spelling included. */
    function Message(): string {
      "Uknown verson"
    }
  }

  /** The order in which the layouts are tried, oldest first. */
  const Registry: seq<Layout> := [V1020, V1050, V9130]

  /** The `isV…` predicate of a layout. */
  predicate Applies(e: RawTransferEvent, l: Layout) {
    match l
    case V1020 => e.v1020.Some?
    case V1050 => e.v1050.Some?
    case V9130 => e.v9130.Some?
  }

  /** Destructures a positional tuple into the named shape. */
  function Normalize(t: TransferTuple): TransferPayload {
    TransferPayload(t.0, t.1, t.2)
  }

  /** The `asV…` accessor of a layout, normalised to the named shape. */
  function DecodeWith(e: RawTransferEvent, l: Layout): TransferPayload
    requires Applies(e, l)
  {
    match l
    case V1020 => Normalize(e.v1020.value)
    case V1050 => Normalize(e.v1050.value)
    case V9130 => e.v9130.value
  }

  /** The index of the first rule in `rules` whose predicate holds, if any. */
  function FirstMatch(rules: seq<Layout>, e: RawTransferEvent): (r: Option<nat>)
    ensures r.None? <==> forall i :: 0 <= i < |rules| ==> !Applies(e, rules[i])
    ensures r.Some? ==> r.value < |rules| && Applies(e, rules[r.value])
    ensures r.Some? ==> forall j :: 0 <= j < r.value ==> !Applies(e, rules[j])
  {
    if |rules| == 0 then None
    else if Applies(e, rules[0]) then Some(0)
    else match FirstMatch(rules[1..], e)
      case None => None
      case Some(i) => Some(i + 1)
  }

  /** Decodes a transfer event with the first layout of `Registry` that
      applies, or fails with `UknownVersionError` when none does. */
  function GetTransfer(e: RawTransferEvent): (r: Result<TransferPayload, UknownVersionError>)
    ensures r.Failure? <==> forall l: Layout :: !Applies(e, l)
    ensures r.Success? ==>
      exists i :: 0 <= i < |Registry| && Applies(e, Registry[i])
        && r.value == DecodeWith(e, Registry[i])
        && forall j :: 0 <= j < i ==> !Applies(e, Registry[j])
  {
    match FirstMatch(Registry, e)
    case None =>
      assert !Applies(e, Registry[0]) && !Applies(e, Registry[1]) && !Applies(e, Registry[2]);
      assert forall l: Layout :: l.V1020? || l.V1050? || l.V9130?;
      Failure(UknownVersionError)
    case Some(i) => Success(DecodeWith(e, Registry[i]))
  }

  /** The dispatch as the handler spells it out: V1020 wins whenever it
      applies, V1050 when only later layouts do, V9130 last; the tuple
      positions 0, 1 and 2 become `from`, `to` and `amount`. */
  lemma GetTransferDispatch(e: RawTransferEvent)
    ensures e.v1020.Some? ==>
      GetTransfer(e) == Success(TransferPayload(e.v1020.value.0, e.v1020.value.1, e.v1020.value.2))
    ensures e.v1020.None? && e.v1050.Some? ==>
      GetTransfer(e) == Success(TransferPayload(e.v1050.value.0, e.v1050.value.1, e.v1050.value.2))
    ensures e.v1020.None? && e.v1050.None? && e.v9130.Some? ==>
      GetTransfer(e) == Success(e.v9130.value)
    ensures e.v1020.None? && e.v1050.None? && e.v9130.None? ==>
      GetTransfer(e) == Failure(UknownVersionError)
  {
    assert Registry[0] == V1020 && Registry[1] == V1050 && Registry[2] == V9130;
    var m := FirstMatch(Registry, e);
    if e.v1020.Some? {
      assert m == Some(0);
    } else if e.v1050.Some? {
      assert m == Some(1);
    } else if e.v9130.Some? {
      assert m == Some(2);
    }
  }

  /** When exactly one layout applies, the event is decoded with that
      layout, whatever its position in the registry. */
  lemma SoleLayoutDecides(e: RawTransferEvent, l: Layout)
    requires Applies(e, l)
    requires forall l': Layout :: l' != l ==> !Applies(e, l')
    ensures GetTransfer(e) == Success(DecodeWith(e, l))
  {
  }
}
