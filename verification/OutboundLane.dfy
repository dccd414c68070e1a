/** The sending end of a lane. */
module OutboundLanes {
  import opened LaneTypes
  import opened MessagesStorage
  import opened RelayerDeque
  import opened Pruning

  datatype ConfirmationError =
    | FailedToConfirmFutureMessages
    | EmptyUnrewardedRelayerEntry
    | NonConsecutiveUnrewardedRelayerEntries
    | TryingToConfirmMoreMessagesThanExpected

  // ---------- What the lane does ----------

  function AfterSend(data: OutboundLaneData): OutboundLaneData {
    data.(latestGenerated := NextNonce(data.latestGenerated))
  }

  function CheckedInc(n: Nonce): Option<Nonce> {
    if n == U64_MAX then None else Some(n + 1)
  }

  /** The first complaint about a proved deque, entry by entry, if there is one. */
  function FirstComplaint(relayers: seq<UnrewardedRelayer>, expectedBegin: Option<Nonce>, latest: Nonce)
    : Option<ConfirmationError>
  {
    if relayers == [] then None
    else
      var messages := relayers[0].messages;
      if messages.end < messages.begin then Some(EmptyUnrewardedRelayerEntry)
      else if expectedBegin != Some(messages.begin) then Some(NonConsecutiveUnrewardedRelayerEntries)
      else if messages.end > latest then Some(FailedToConfirmFutureMessages)
      else FirstComplaint(relayers[1..], CheckedInc(messages.end), latest)
  }

  function FrontBegin(relayers: seq<UnrewardedRelayer>): Option<Nonce> {
    if relayers == [] then None else Some(relayers[0].messages.begin)
  }

  /** The first nonce a confirmation may confirm; at the last nonce the addition saturates. */
  function ConfirmBegin(data: OutboundLaneData): Nonce {
    Min(data.latestReceived + 1, U64_MAX)
  }

  function ConfirmOutcome(data: OutboundLaneData, maxAllowed: U64, latestDelivered: Nonce,
                          relayers: seq<UnrewardedRelayer>)
    : Result<Option<DeliveredMessages>, ConfirmationError>
  {
    var confirmed := DeliveredMessages(ConfirmBegin(data), latestDelivered);
    if confirmed.TotalMessages() == 0 then Ok(None)
    else if confirmed.end > data.latestGenerated then Err(FailedToConfirmFutureMessages)
    else if confirmed.TotalMessages() > maxAllowed then Err(TryingToConfirmMoreMessagesThanExpected)
    else match FirstComplaint(relayers, FrontBegin(relayers), confirmed.end)
      case Some(e) => Err(e)
      case None => Ok(Some(confirmed))
  }

  /** The outcome for a proved inbound lane, with its own message count as the limit. */
  function ConfirmationOf(data: OutboundLaneData, proved: InboundLaneData)
    : Result<Option<DeliveredMessages>, ConfirmationError>
  {
    ConfirmOutcome(data, proved.TotalUnrewardedMessages(), proved.LastDelivered(), proved.relayers)
  }

  function AfterConfirm(data: OutboundLaneData, outcome: Result<Option<DeliveredMessages>, ConfirmationError>)
    : OutboundLaneData
  {
    match outcome
    case Ok(Some(confirmed)) => data.(latestReceived := confirmed.end)
    case _ => data
  }

  // ---------- The lane object ----------

  method EnsureUnrewardedRelayersAreCorrect(latestReceived: Nonce, relayers: seq<UnrewardedRelayer>)
    returns (complaint: Option<ConfirmationError>)
    ensures complaint == FirstComplaint(relayers, FrontBegin(relayers), latestReceived)
  {
    var expectedBegin := FrontBegin(relayers);
    for i := 0 to |relayers|
      invariant FirstComplaint(relayers, FrontBegin(relayers), latestReceived)
             == FirstComplaint(relayers[i..], expectedBegin, latestReceived)
    {
      var messages := relayers[i].messages;
      assert relayers[i..][1..] == relayers[i + 1..];
      if messages.end < messages.begin {
        return Some(EmptyUnrewardedRelayerEntry);
      }
      if expectedBegin != Some(messages.begin) {
        return Some(NonConsecutiveUnrewardedRelayerEntries);
      }
      expectedBegin := CheckedInc(messages.end);
      if messages.end > latestReceived {
        return Some(FailedToConfirmFutureMessages);
      }
    }
    return None;
  }

  class OutboundLane {
    const laneId: LaneId
    const pallet: PalletStorage

    constructor (laneId: LaneId, pallet: PalletStorage)
      ensures this.laneId == laneId && this.pallet == pallet
    {
      this.laneId, this.pallet := laneId, pallet;
    }

    method SendMessage(payload: Payload) returns (nonce: Nonce)
      modifies pallet`outboundLanes, pallet`outboundMessages
      ensures nonce == NextNonce(old(pallet.Outbound(laneId)).latestGenerated)
      ensures pallet.outboundLanes == old(pallet.outboundLanes)[laneId := AfterSend(old(pallet.Outbound(laneId)))]
      ensures pallet.outboundMessages == old(pallet.outboundMessages)[(laneId, nonce) := payload]
    {
      var data := pallet.Outbound(laneId);
      nonce := NextNonce(data.latestGenerated);
      data := data.(latestGenerated := nonce);
      pallet.outboundMessages := pallet.outboundMessages[(laneId, nonce) := payload];
      pallet.outboundLanes := pallet.outboundLanes[laneId := data];
    }

    method ConfirmDelivery(maxAllowed: U64, latestDelivered: Nonce, relayers: seq<UnrewardedRelayer>)
      returns (outcome: Result<Option<DeliveredMessages>, ConfirmationError>)
      modifies pallet`outboundLanes
      ensures outcome == ConfirmOutcome(old(pallet.Outbound(laneId)), maxAllowed, latestDelivered, relayers)
      ensures pallet.Outbound(laneId) == AfterConfirm(old(pallet.Outbound(laneId)), outcome)
      ensures pallet.outboundLanes == if outcome.Ok? && outcome.value.Some?
                                      then old(pallet.outboundLanes)[laneId := pallet.Outbound(laneId)]
                                      else old(pallet.outboundLanes)
    {
      var data := pallet.Outbound(laneId);
      var confirmed := DeliveredMessages(ConfirmBegin(data), latestDelivered);
      if confirmed.TotalMessages() == 0 {
        return Ok(None);
      }
      if confirmed.end > data.latestGenerated {
        return Err(FailedToConfirmFutureMessages);
      }
      if confirmed.TotalMessages() > maxAllowed {
        return Err(TryingToConfirmMoreMessagesThanExpected);
      }
      var complaint := EnsureUnrewardedRelayersAreCorrect(confirmed.end, relayers);
      if complaint.Some? {
        return Err(complaint.value);
      }
      data := data.(latestReceived := confirmed.end);
      pallet.outboundLanes := pallet.outboundLanes[laneId := data];
      return Ok(Some(confirmed));
    }

    /** Removes confirmed messages while the weight for another write and the final write is left. */
    method PruneMessages(db: DbWeight, remainingWeight: Weight) returns (spent: Weight)
      requires LoopEnds(pallet.Outbound(laneId), db.write)
      modifies pallet`outboundLanes, pallet`outboundMessages
      ensures var data := old(pallet.Outbound(laneId));
              var count := PruneCount(data, db.write, remainingWeight.refTime);
              && spent == Weight(Spent(db.write, count), 0)
              && pallet.outboundMessages == Unpruned(old(pallet.outboundMessages), laneId, data, count)
              && pallet.Outbound(laneId) == AfterPrune(data, db.write, remainingWeight.refTime)
              && pallet.outboundLanes == if SpentAfter(db.write, count) == 0 then old(pallet.outboundLanes)
                                         else old(pallet.outboundLanes)[laneId := pallet.Outbound(laneId)]
    {
      var writeWeight := Weight(db.write, 0);
      var twoWritesWeight := writeWeight.WrappingPlus(writeWeight);
      spent := ZERO_WEIGHT;
      var remaining := remainingWeight;
      var data := pallet.Outbound(laneId);
      ghost var first, budget := data, remainingWeight.refTime;
      ghost var count := PruneCount(first, db.write, budget);
      ghost var k: nat := 0;
      while remaining.AllGte(twoWritesWeight) && data.oldestUnpruned <= data.latestReceived
        invariant k <= count
        invariant data == first.(oldestUnpruned := OldestAfter(first, k))
        invariant remaining == Weight(LeftAfter(db.write, budget, k), remainingWeight.proofSize)
        invariant spent == Weight(SpentAfter(db.write, k), 0)
        invariant pallet.outboundMessages == Unpruned(old(pallet.outboundMessages), laneId, first, k)
        invariant pallet.outboundLanes == old(pallet.outboundLanes)
        decreases count - k
      {
        UnprunedStep(old(pallet.outboundMessages), laneId, first, k);
        pallet.outboundMessages := pallet.outboundMessages - {(laneId, data.oldestUnpruned)};
        spent := spent.WrappingPlus(writeWeight);
        remaining := remaining.WrappingMinus(writeWeight);
        data := data.(oldestUnpruned := WrappingAdd(data.oldestUnpruned, 1));
        k := k + 1;
      }
      assert Stops(first, db.write, budget, k) && k == count;
      if spent != ZERO_WEIGHT {
        spent := spent.WrappingPlus(writeWeight);
        pallet.outboundLanes := pallet.outboundLanes[laneId := data];
      }
    }
  }

  // ---------- What the checks of a confirmation mean ----------

  /** The entry checks pass exactly for a gap-free chain of non-empty entries that ends in time. */
  lemma {:induction false} NoComplaintIffChained(relayers: seq<UnrewardedRelayer>, begin: Nonce, latest: Nonce)
    ensures FirstComplaint(relayers, Some(begin), latest) == None <==>
            Chained(relayers, begin) && (relayers != [] ==> ChainEnd(relayers, begin) <= latest + 1)
  {
    if relayers != [] {
      var end := relayers[0].messages.end;
      if Chained(relayers, begin) {
        ChainCovers(relayers[1..], end + 1);
      }
      if end < U64_MAX {
        NoComplaintIffChained(relayers[1..], end + 1, latest);
      } else if relayers[1..] != [] {
        assert relayers[1..][0].messages.begin <= U64_MAX;
        assert FirstComplaint(relayers[1..], None, latest) != None;
      }
    }
  }

  /** Entry `i` is the first one at fault, in the way the error says. */
  ghost predicate Blames(relayers: seq<UnrewardedRelayer>, begin: int, latest: Nonce, i: nat, e: ConfirmationError) {
    && i < |relayers|
    && Chained(relayers[..i], begin) && ChainEnd(relayers[..i], begin) <= Max(latest + 1, begin)
    && var messages := relayers[i].messages;
       match e
       case EmptyUnrewardedRelayerEntry => messages.end < messages.begin
       case NonConsecutiveUnrewardedRelayerEntries =>
         messages.begin <= messages.end && messages.begin != ChainEnd(relayers[..i], begin)
       case FailedToConfirmFutureMessages =>
         messages.begin <= messages.end && messages.begin == ChainEnd(relayers[..i], begin) && messages.end > latest
       case TryingToConfirmMoreMessagesThanExpected => false
  }

  /** The nonce an entry has to begin with, if there is one. */
  function Expected(begin: int): Option<Nonce>
    requires 0 <= begin
  {
    if begin <= U64_MAX then Some(begin) else None
  }

  lemma {:induction false} BlameIsComplaint(relayers: seq<UnrewardedRelayer>, begin: nat, latest: Nonce, i: nat,
                                            e: ConfirmationError)
    requires Blames(relayers, begin, latest, i, e)
    ensures FirstComplaint(relayers, Expected(begin), latest) == Some(e)
  {
    if i > 0 {
      var rest := relayers[1..];
      var end: int := relayers[0].messages.end;
      assert relayers[..i][1..] == rest[..i - 1];
      ChainCovers(relayers[..i], begin);
      ChainCovers(rest[..i - 1], end + 1);
      assert Blames(rest, end + 1, latest, i - 1, e);
      BlameIsComplaint(rest, end + 1, latest, i - 1, e);
    }
  }

  lemma {:induction false} ComplaintIsBlame(relayers: seq<UnrewardedRelayer>, begin: nat, latest: Nonce)
    returns (i: nat)
    requires FirstComplaint(relayers, Expected(begin), latest).Some?
    ensures Blames(relayers, begin, latest, i, FirstComplaint(relayers, Expected(begin), latest).value)
  {
    var messages := relayers[0].messages;
    i := 0;
    if messages.begin <= messages.end && Expected(begin) == Some(messages.begin) && messages.end <= latest {
      var rest := relayers[1..];
      var k := ComplaintIsBlame(rest, messages.end + 1, latest);
      i := k + 1;
      assert relayers[..i][1..] == rest[..k];
    }
  }

  /** A complaint names the first entry at fault and what is wrong with it. */
  lemma ComplaintIff(relayers: seq<UnrewardedRelayer>, begin: Nonce, latest: Nonce, e: ConfirmationError)
    ensures FirstComplaint(relayers, Some(begin), latest) == Some(e) <==>
              exists i: nat :: Blames(relayers, begin, latest, i, e)
  {
    if FirstComplaint(relayers, Some(begin), latest) == Some(e) {
      var i := ComplaintIsBlame(relayers, begin, latest);
    }
    if i: nat :| Blames(relayers, begin, latest, i, e) {
      BlameIsComplaint(relayers, begin, latest, i, e);
    }
  }

  /** What a confirmation needs to be accepted, and when it has nothing to confirm. */
  lemma ConfirmationAcceptedIff(data: OutboundLaneData, maxAllowed: U64, latestDelivered: Nonce,
                                relayers: seq<UnrewardedRelayer>)
    ensures var outcome := ConfirmOutcome(data, maxAllowed, latestDelivered, relayers);
            var begin := ConfirmBegin(data);
            && (outcome == Ok(None) <==> latestDelivered < begin)
            && (outcome == Ok(Some(DeliveredMessages(begin, latestDelivered))) <==>
                && begin <= latestDelivered <= data.latestGenerated
                && latestDelivered - begin + 1 <= maxAllowed
                && (relayers != [] ==>
                      && Chained(relayers, relayers[0].messages.begin)
                      && ChainEnd(relayers, relayers[0].messages.begin) <= latestDelivered + 1))
            && (outcome.Ok? && outcome.value.Some? ==> outcome.value.value == DeliveredMessages(begin, latestDelivered))
            && (outcome == Err(TryingToConfirmMoreMessagesThanExpected) <==>
                begin <= latestDelivered <= data.latestGenerated && latestDelivered - begin + 1 > maxAllowed)
            && (latestDelivered > data.latestGenerated && latestDelivered >= begin ==>
                  outcome == Err(FailedToConfirmFutureMessages))
  {
    if relayers != [] {
      NoComplaintIffChained(relayers, relayers[0].messages.begin, latestDelivered);
    }
  }

  /** A range that may be confirmed is only refused for the first entry at fault. */
  lemma ConfirmationBlamesEntry(data: OutboundLaneData, maxAllowed: U64, latestDelivered: Nonce,
                                relayers: seq<UnrewardedRelayer>, e: ConfirmationError)
    requires ConfirmBegin(data) <= latestDelivered <= data.latestGenerated
    requires latestDelivered - ConfirmBegin(data) + 1 <= maxAllowed
    ensures ConfirmOutcome(data, maxAllowed, latestDelivered, relayers) == Err(e) <==>
              relayers != [] && exists i: nat :: Blames(relayers, relayers[0].messages.begin, latestDelivered, i, e)
  {
    if relayers != [] {
      ComplaintIff(relayers, relayers[0].messages.begin, latestDelivered, e);
    }
  }

  /**
   Whatever lane data the proof carried, an accepted confirmation means that every confirmed nonce
   sits in exactly one of the proved entries, and nothing past the confirmed range does.
   */
  lemma ConfirmedRangeIsCovered(data: OutboundLaneData, proved: InboundLaneData, confirmed: DeliveredMessages)
    requires ConfirmationOf(data, proved) == Ok(Some(confirmed))
    ensures confirmed == DeliveredMessages(ConfirmBegin(data), proved.LastDelivered())
    ensures confirmed.begin <= confirmed.end <= data.latestGenerated
    ensures proved.relayers != []
    ensures Chained(proved.relayers, proved.relayers[0].messages.begin)
    ensures proved.relayers[0].messages.begin <= confirmed.begin
    ensures ChainEnd(proved.relayers, proved.relayers[0].messages.begin) == confirmed.end + 1
    ensures forall n :: confirmed.Contains(n) ==> Occurrences(proved.relayers, n) == 1
    ensures forall n :: confirmed.end < n ==> Occurrences(proved.relayers, n) == 0
  {
    var front := proved.relayers[0].messages.begin;
    NoComplaintIffChained(proved.relayers, front, confirmed.end);
    ChainCovers(proved.relayers, front);
  }

  /**
   The last nonce is the one place where a true proof goes wrong: once it is confirmed, a proof of
   the same delivery is refused if its deque is empty, and confirms the last message again if not.
   */
  lemma LastNonceIsConfirmedAgain(data: OutboundLaneData, proved: InboundLaneData)
    requires data.latestReceived == data.latestGenerated == U64_MAX
    requires WellFormed(proved) && proved.LastDelivered() == U64_MAX
    ensures ConfirmationOf(data, proved)
         == if proved.relayers == [] then Err(TryingToConfirmMoreMessagesThanExpected)
            else Ok(Some(DeliveredMessages(U64_MAX, U64_MAX)))
  {
    if proved.relayers != [] {
      NoComplaintIffChained(proved.relayers, proved.lastConfirmed + 1, U64_MAX);
      ChainCovers(proved.relayers, proved.lastConfirmed + 1);
    }
  }
}
