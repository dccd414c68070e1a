/** Data model of the bridge message lanes, shared by both ends of a lane. */
module LaneTypes {

  const U64_MAX: int := 0xFFFF_FFFF_FFFF_FFFF

  /** A 64-bit unsigned value. Storing into one of these is a proof that nothing overflowed. */
  type U64 = n: int | 0 <= n <= U64_MAX

  /** The 64-bit value a number wraps around to. */
  function Wrap(n: int): U64 {
    n % (U64_MAX + 1)
  }

  function WrappingAdd(a: U64, b: U64): U64 {
    if a + b > U64_MAX then a + b - (U64_MAX + 1) else a + b
  }

  function WrappingSub(a: U64, b: U64): U64 {
    if a < b then a - b + (U64_MAX + 1) else a - b
  }

  lemma WrapStep(n: int, step: U64)
    ensures Wrap(n + step) == WrappingAdd(Wrap(n), step)
  {
  }

  type Nonce = U64

  type LaneId(==, !new)
  type RelayerId(==, !new)
  type Payload(==, !new)

  type Messages = map<(LaneId, Nonce), Payload>

  /** Nonce arithmetic of sending and queueing is not checked: the successor of the largest nonce is zero. */
  function NextNonce(n: Nonce): Nonce {
    WrappingAdd(n, 1)
  }

  datatype Option<+T> = None | Some(value: T)

  datatype Result<+T, +E> = Ok(value: T) | Err(error: E)

  function Min(a: int, b: int): int {
    if a <= b then a else b
  }

  function Max(a: int, b: int): int {
    if a >= b then a else b
  }

  lemma SubsetIsSmaller<T>(s: set<T>, t: set<T>)
    requires s <= t
    ensures |s| <= |t|
  {
    assert t == s + (t - s);
  }

  /** Length of the inclusive range `begin..=end`: zero when reversed, clamped at the top. */
  function SaturatingLen(begin: U64, end: U64): U64 {
    if end < begin then 0 else Min(end - begin + 1, U64_MAX)
  }

  datatype DeliveredMessages = DeliveredMessages(begin: Nonce, end: Nonce) {
    function TotalMessages(): U64 {
      SaturatingLen(begin, end)
    }

    predicate Contains(n: int) {
      begin <= n <= end
    }
  }

  datatype UnrewardedRelayer = UnrewardedRelayer(relayer: RelayerId, messages: DeliveredMessages)

  datatype InboundLaneData = InboundLaneData(relayers: seq<UnrewardedRelayer>, lastConfirmed: Nonce) {
    function LastDelivered(): Nonce {
      if relayers == [] then lastConfirmed else relayers[|relayers| - 1].messages.end
    }

    function TotalUnrewardedMessages(): U64 {
      if relayers == [] then 0
      else SaturatingLen(relayers[0].messages.begin, relayers[|relayers| - 1].messages.end)
    }

    function RelayersState(): UnrewardedRelayersState {
      UnrewardedRelayersState(
        |relayers|,
        if relayers == [] then 0 else relayers[0].messages.TotalMessages(),
        TotalUnrewardedMessages(),
        LastDelivered())
    }
  }

  const EMPTY_INBOUND_LANE := InboundLaneData([], 0)

  /** The gist of an inbound lane that a relayer declares along with a delivery proof. */
  datatype UnrewardedRelayersState = UnrewardedRelayersState(
    unrewardedRelayerEntries: nat,
    messagesInOldestEntry: U64,
    totalMessages: U64,
    lastDelivered: Nonce)

  datatype OutboundLaneData = OutboundLaneData(
    oldestUnpruned: Nonce,
    latestReceived: Nonce,
    latestGenerated: Nonce)

  const EMPTY_OUTBOUND_LANE := OutboundLaneData(1, 0, 0)

  /** Limits configured for every inbound lane. */
  datatype Limits = Limits(maxUnrewardedRelayerEntries: U64, maxUnconfirmedMessages: U64)

  datatype Message = Message(nonce: Nonce, payload: Payload)

  /** Two-component weight. */
  datatype Weight = Weight(refTime: U64, proofSize: U64) {
    predicate AllGte(other: Weight) {
      refTime >= other.refTime && proofSize >= other.proofSize
    }

    predicate AnyGt(other: Weight) {
      refTime > other.refTime || proofSize > other.proofSize
    }

    function Meet(other: Weight): Weight {
      Weight(Min(refTime, other.refTime), Min(proofSize, other.proofSize))
    }

    function Minus(other: Weight): Weight
      requires AllGte(other)
    {
      Weight(refTime - other.refTime, proofSize - other.proofSize)
    }

    function WrappingPlus(other: Weight): Weight {
      Weight(WrappingAdd(refTime, other.refTime), WrappingAdd(proofSize, other.proofSize))
    }

    function WrappingMinus(other: Weight): Weight {
      Weight(WrappingSub(refTime, other.refTime), WrappingSub(proofSize, other.proofSize))
    }

    function SaturatingSub(other: Weight): Weight {
      Weight(Max(refTime - other.refTime, 0), Max(proofSize - other.proofSize, 0))
    }
  }

  const ZERO_WEIGHT := Weight(0, 0)

  /** Cost of one database read and one database write, in reference time only. */
  datatype DbWeight = DbWeight(read: U64, write: U64)
}
