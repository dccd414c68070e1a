/** Runtime storage of the messages pallet: one map per storage item. */
module MessagesStorage {
  import opened LaneTypes

  class PalletStorage {
    var inboundLanes: map<LaneId, InboundLaneData>
    var outboundLanes: map<LaneId, OutboundLaneData>
    var outboundMessages: map<(LaneId, Nonce), Payload>

    /** Everything handed to the message dispatcher so far, per lane and in order. */
    ghost var dispatched: map<LaneId, seq<Message>>

    constructor ()
      ensures inboundLanes == map[] && outboundLanes == map[] && outboundMessages == map[] && dispatched == map[]
    {
      inboundLanes, outboundLanes, outboundMessages, dispatched := map[], map[], map[], map[];
    }

    function Inbound(lane: LaneId): InboundLaneData
      reads this
    {
      if lane in inboundLanes then inboundLanes[lane] else EMPTY_INBOUND_LANE
    }

    /** A lane that was ever written has delivered or confirmed something. */
    ghost predicate NoBlankLane(lane: LaneId)
      reads this
    {
      lane in inboundLanes ==> Inbound(lane) != EMPTY_INBOUND_LANE
    }

    function Outbound(lane: LaneId): OutboundLaneData
      reads this
    {
      if lane in outboundLanes then outboundLanes[lane] else EMPTY_OUTBOUND_LANE
    }

    ghost function Dispatched(lane: LaneId): seq<Message>
      reads this
    {
      if lane in dispatched then dispatched[lane] else []
    }
  }
}

/** The receiving end of a lane. */
module InboundLanes {
  import opened LaneTypes
  import opened MessagesStorage
  import opened RelayerDeque

  /** Lane data with a write-through cache in front of the pallet storage. */
  class RuntimeInboundLaneStorage {
    const laneId: LaneId
    const pallet: PalletStorage
    const limits: Limits
    var cachedData: Option<InboundLaneData>

    constructor (laneId: LaneId, pallet: PalletStorage, limits: Limits)
      ensures this.laneId == laneId && this.pallet == pallet && this.limits == limits
      ensures cachedData == None && Coherent()
    {
      this.laneId, this.pallet, this.limits, cachedData := laneId, pallet, limits, None;
    }

    /** A filled cache always equals the stored data. */
    ghost predicate Coherent()
      reads this, pallet
    {
      cachedData.Some? ==> cachedData.value == pallet.Inbound(laneId)
    }

    method GetOrInitData() returns (data: InboundLaneData)
      requires Coherent()
      modifies this`cachedData
      ensures Coherent()
      ensures data == pallet.Inbound(laneId) && cachedData == Some(data)
    {
      match cachedData {
        case Some(cached) =>
          data := cached;
        case None =>
          data := pallet.Inbound(laneId);
          cachedData := Some(data);
      }
    }

    method SetData(data: InboundLaneData)
      modifies this`cachedData, pallet`inboundLanes
      ensures Coherent()
      ensures pallet.inboundLanes == old(pallet.inboundLanes)[laneId := data]
    {
      cachedData := Some(data);
      pallet.inboundLanes := pallet.inboundLanes[laneId := data];
    }
  }

  datatype ReceptionResult = Dispatched(unspentWeight: Weight) | Rejected(verdict: Verdict)

  class InboundLane {
    const storage: RuntimeInboundLaneStorage

    constructor (storage: RuntimeInboundLaneStorage)
      ensures this.storage == storage
    {
      this.storage := storage;
    }

    ghost function Data(): InboundLaneData
      reads storage.pallet
    {
      storage.pallet.Inbound(storage.laneId)
    }

    /** Receives the state of the paired outbound lane; answers the new confirmed nonce, if any. */
    method ReceiveStateUpdate(outbound: OutboundLaneData) returns (confirmed: Option<Nonce>)
      requires storage.Coherent()
      modifies storage`cachedData, storage.pallet`inboundLanes
      ensures storage.Coherent()
      ensures confirmed == if old(IsNewConfirmation(Data(), outbound.latestReceived))
                           then Some(outbound.latestReceived) else None
      ensures Data() == AfterStateUpdate(old(Data()), outbound.latestReceived)
      ensures storage.pallet.inboundLanes == if confirmed.Some?
                                             then old(storage.pallet.inboundLanes)[storage.laneId := Data()]
                                             else old(storage.pallet.inboundLanes)
    {
      var data := storage.GetOrInitData();
      var lastDelivered := data.LastDelivered();
      if outbound.latestReceived > lastDelivered {
        return None;
      }
      if outbound.latestReceived <= data.lastConfirmed {
        return None;
      }

      var newConfirmed := outbound.latestReceived;
      var relayers := data.relayers;
      while relayers != [] && relayers[0].messages.end <= newConfirmed
        invariant DropConfirmed(relayers, newConfirmed) == DropConfirmed(data.relayers, newConfirmed)
        decreases |relayers|
      {
        relayers := relayers[1..];
      }
      if relayers != [] && relayers[0].messages.begin <= newConfirmed {
        var front := relayers[0].(messages := DeliveredMessages(newConfirmed + 1, relayers[0].messages.end));
        relayers := [front] + relayers[1..];
      }
      storage.SetData(InboundLaneData(relayers, newConfirmed));
      return Some(newConfirmed);
    }

    /** Receives and dispatches one message; `dispatch` is the unspent weight the dispatcher reports. */
    method ReceiveMessage(relayer: RelayerId, message: Message, dispatch: Message -> Weight)
      returns (result: ReceptionResult)
      requires storage.Coherent()
      modifies storage`cachedData, storage.pallet`inboundLanes, storage.pallet`dispatched
      ensures storage.Coherent()
      ensures var verdict := ReceptionVerdict(old(Data()), storage.limits, message.nonce);
              var lane := storage.laneId;
              if verdict == Accepted then
                && result == Dispatched(dispatch(message))
                && old(Data()).LastDelivered() < U64_MAX
                && storage.pallet.inboundLanes
                   == old(storage.pallet.inboundLanes)[lane := AfterReceive(old(Data()), relayer)]
                && storage.pallet.dispatched
                   == old(storage.pallet.dispatched)[lane := old(storage.pallet.Dispatched(lane)) + [message]]
              else
                && result == Rejected(verdict)
                && storage.pallet.inboundLanes == old(storage.pallet.inboundLanes)
                && storage.pallet.dispatched == old(storage.pallet.dispatched)
    {
      var data := storage.GetOrInitData();
      if data.LastDelivered() == U64_MAX || message.nonce != data.LastDelivered() + 1 {
        return Rejected(InvalidNonce);
      }
      if |data.relayers| >= storage.limits.maxUnrewardedRelayerEntries {
        return Rejected(TooManyUnrewardedRelayers);
      }
      var unconfirmedMessages := Max(message.nonce - data.lastConfirmed, 0);
      if unconfirmedMessages > storage.limits.maxUnconfirmedMessages {
        return Rejected(TooManyUnconfirmedMessages);
      }

      var unspent := dispatch(message);
      storage.pallet.dispatched := storage.pallet.dispatched[storage.laneId :=
          storage.pallet.Dispatched(storage.laneId) + [message]];

      var relayers := data.relayers;
      var n := |relayers|;
      if n > 0 && relayers[n - 1].relayer == relayer {
        var back := relayers[n - 1];
        relayers := relayers[..n - 1] +
        [back.(messages := DeliveredMessages(back.messages.begin, back.messages.end + 1))];
      } else {
        relayers := relayers + [UnrewardedRelayer(relayer, DeliveredMessages(message.nonce, message.nonce))];
      }
      storage.SetData(data.(relayers := relayers));
      return Dispatched(unspent);
    }
  }
}
