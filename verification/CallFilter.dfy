/** The transaction filter in front of the messages pallet, and its agreement with the lanes. */
module CallFilter {
  import opened LaneTypes
  import opened RelayerDeque
  import opened OutboundLanes
  import opened MessagesPallets
  import opened LaneProtocol
  import opened LaneTheorems
  import opened NonceBounds

  /** Nonces a call brings, and the best nonce this chain has before the call. */
  datatype BaseProofInfo = BaseProofInfo(bundledStart: Nonce, bundledEnd: Nonce, bestStored: Nonce) {
    predicate IsEmpty() {
      bundledEnd < bundledStart
    }

    predicate AppendsToStored() {
      CheckedInc(bestStored) == Some(bundledStart)
    }
  }

  datatype Occupation = Occupation(freeRelayerSlots: U64, freeMessageSlots: U64)

  datatype DeliveryInfo = DeliveryInfo(base: BaseProofInfo, unrewardedRelayers: Occupation)

  function OccupationOf(data: InboundLaneData, limits: Limits): Occupation {
    Occupation(
      Max(limits.maxUnrewardedRelayerEntries - |data.relayers|, 0),
      Max(limits.maxUnconfirmedMessages - Max(data.LastDelivered() - data.lastConfirmed, 0), 0))
  }

  function DeliveryInfoOf(data: InboundLaneData, limits: Limits, proof: MessagesProof): DeliveryInfo {
    DeliveryInfo(BaseProofInfo(proof.noncesStart, proof.noncesEnd, data.LastDelivered()), OccupationOf(data, limits))
  }

  function ConfirmationInfoOf(data: OutboundLaneData, declared: UnrewardedRelayersState): BaseProofInfo {
    BaseProofInfo(NextNonce(data.latestReceived), declared.lastDelivered, data.latestReceived)
  }

  predicate DeliveryIsObsolete(info: DeliveryInfo, dispatcherActive: bool) {
    if !dispatcherActive then true
    else if info.base.IsEmpty() then
      !(info.unrewardedRelayers.freeRelayerSlots == 0 || info.unrewardedRelayers.freeMessageSlots == 0)
    else !info.base.AppendsToStored()
  }

  predicate ConfirmationIsObsolete(info: BaseProofInfo) {
    info.IsEmpty() || !info.AppendsToStored()
  }

  datatype Validity = Valid | InvalidCall | Stale

  function CheckDelivery(info: DeliveryInfo, halted: bool, dispatcherActive: bool): Validity {
    if halted then InvalidCall else if DeliveryIsObsolete(info, dispatcherActive) then Stale else Valid
  }

  function CheckConfirmation(info: BaseProofInfo, halted: bool): Validity {
    if halted then InvalidCall else if ConfirmationIsObsolete(info) then Stale else Valid
  }

  /** After the call: did everything the call brought take effect? */
  predicate DeliveryWasSuccessful(info: DeliveryInfo, after: InboundLaneData, limits: Limits) {
    if info.base.IsEmpty()
    then OccupationOf(after, limits).freeMessageSlots > info.unrewardedRelayers.freeMessageSlots
    else after.LastDelivered() == info.base.bundledEnd
  }

  predicate ConfirmationWasSuccessful(info: BaseProofInfo, after: OutboundLaneData) {
    after.latestReceived == info.bundledEnd
  }

  // ---------- What the filter lets through ----------

  /** A delivery passes if it continues the lane or, when it is empty, if the lane has no room left. */
  lemma DeliveryPassesIff(data: InboundLaneData, limits: Limits, proof: MessagesProof, halted: bool, active: bool)
    ensures var validity := CheckDelivery(DeliveryInfoOf(data, limits, proof), halted, active);
            && (validity == InvalidCall <==> halted)
            && (validity == Valid <==>
                && !halted && active
                && if proof.noncesStart <= proof.noncesEnd then proof.noncesStart == data.LastDelivered() + 1
                   else || |data.relayers| >= limits.maxUnrewardedRelayerEntries
                        || Max(data.LastDelivered() - data.lastConfirmed, 0) >= limits.maxUnconfirmedMessages)
  {
  }

  /** A confirmation passes if it declares a nonce above the confirmed ones. */
  lemma ConfirmationPassesIff(data: OutboundLaneData, declared: UnrewardedRelayersState, halted: bool)
    ensures var validity := CheckConfirmation(ConfirmationInfoOf(data, declared), halted);
            && (validity == InvalidCall <==> halted)
            && (validity == Valid <==> !halted && data.latestReceived < declared.lastDelivered)
  {
  }

  // ---------- Empty deliveries ----------

  /** An empty delivery passes exactly when the lane would refuse the next message from every relayer. */
  lemma EmptyDeliveryPassesIffLaneBlocked(data: InboundLaneData, limits: Limits, proof: MessagesProof)
    requires WellFormed(data) && proof.noncesEnd < proof.noncesStart
    requires data.LastDelivered() < U64_MAX
    ensures CheckDelivery(DeliveryInfoOf(data, limits, proof), false, true) == Valid
       <==> ReceptionVerdict(data, limits, data.LastDelivered() + 1) != Accepted
  {
    ChainCovers(data.relayers, data.lastConfirmed + 1);
  }

  /** At the last nonce the lane refuses everything, but the filter still looks at the free slots only. */
  lemma EmptyDeliveryAtTheLastNonce(data: InboundLaneData, limits: Limits, proof: MessagesProof, nonce: Nonce)
    requires WellFormed(data) && proof.noncesEnd < proof.noncesStart
    requires data.LastDelivered() == U64_MAX
    ensures ReceptionVerdict(data, limits, nonce) == InvalidNonce
    ensures CheckDelivery(DeliveryInfoOf(data, limits, proof), false, true) == Valid
       <==> |data.relayers| >= limits.maxUnrewardedRelayerEntries
            || U64_MAX - data.lastConfirmed >= limits.maxUnconfirmedMessages
  {
    ChainCovers(data.relayers, data.lastConfirmed + 1);
  }

  /** An empty delivery counts as successful exactly when it advanced the confirmed nonce. */
  lemma EmptyDeliverySucceedsIffConfirmedAdvances(data: InboundLaneData, limits: Limits, proof: MessagesProof,
                                                  relayer: RelayerId)
    requires WellFormed(data) && WithinLimits(data, limits) && proof.noncesEnd < proof.noncesStart
    ensures var after := AfterBundle(AfterOptionalUpdate(data, proof.laneState), limits, relayer, ReadMessages(proof));
            DeliveryWasSuccessful(DeliveryInfoOf(data, limits, proof), after, limits)
            <==> data.lastConfirmed < after.lastConfirmed
  {
    assert ReadMessages(proof) == [];
    ChainCovers(data.relayers, data.lastConfirmed + 1);
    if proof.laneState.Some? && IsNewConfirmation(data, proof.laneState.value.latestReceived) {
      StateUpdateRefinesMap(data, proof.laneState.value.latestReceived);
    }
  }

  // ---------- Bundles ----------

  lemma ReceiveMovesLastDelivered(data: InboundLaneData, relayer: RelayerId)
    requires data.LastDelivered() < U64_MAX
    ensures AfterReceive(data, relayer).LastDelivered() == data.LastDelivered() + 1
  {
  }

  /** A bundle that continues the lane is dispatched up to the first refused message and no further. */
  lemma {:induction false} BundleDispatchesPrefix(data: InboundLaneData, limits: Limits, relayer: RelayerId,
                                                  messages: seq<Message>)
    requires forall i :: 0 <= i < |messages| ==> messages[i].nonce == data.LastDelivered() + 1 + i
    ensures var count := AfterBundle(data, limits, relayer, messages).LastDelivered() - data.LastDelivered();
            && 0 <= count <= |messages|
            && DispatchedOf(data, limits, relayer, messages) == messages[..count]
  {
    if messages != [] {
      var init := messages[..|messages| - 1];
      BundleDispatchesPrefix(data, limits, relayer, init);
      var before, last := AfterBundle(data, limits, relayer, init), messages[|messages| - 1];
      var count := before.LastDelivered() - data.LastDelivered();
      assert messages == init + [last];
      if ReceptionVerdict(before, limits, last.nonce) == Accepted {
        ReceiveMovesLastDelivered(before, relayer);
        assert count == |init| && init[..count] == init && messages[..count + 1] == messages;
      } else {
        assert AfterOffer(before, limits, relayer, last) == before;
        assert messages[..count] == init[..count] && init[..count] + [] == init[..count];
      }
    }
  }

  lemma OptionalUpdateKeepsDelivered(data: InboundLaneData, laneState: Option<OutboundLaneData>)
    requires WellFormed(data)
    ensures WellFormed(AfterOptionalUpdate(data, laneState))
    ensures AfterOptionalUpdate(data, laneState).LastDelivered() == data.LastDelivered()
  {
    if laneState.Some? && IsNewConfirmation(data, laneState.value.latestReceived) {
      StateUpdateRefinesMap(data, laneState.value.latestReceived);
    }
  }

  /**
   A non-empty delivery that passes the filter dispatches a prefix of its messages, and counts as
   successful exactly when that prefix is the whole bundle.
   */
  lemma PassedDeliveryDispatchesPrefix(data: InboundLaneData, limits: Limits, proof: MessagesProof, relayer: RelayerId)
    requires WellFormed(data) && AllRead(proof) && proof.noncesStart <= proof.noncesEnd
    requires CheckDelivery(DeliveryInfoOf(data, limits, proof), false, true) == Valid
    ensures var updated := AfterOptionalUpdate(data, proof.laneState);
            var messages := ReadMessages(proof);
            var after := AfterBundle(updated, limits, relayer, messages);
            var dispatched := DispatchedOf(updated, limits, relayer, messages);
            && dispatched <= messages
            && (DeliveryWasSuccessful(DeliveryInfoOf(data, limits, proof), after, limits) <==> dispatched == messages)
  {
    OptionalUpdateKeepsDelivered(data, proof.laneState);
    BundleDispatchesPrefix(AfterOptionalUpdate(data, proof.laneState), limits, relayer, ReadMessages(proof));
  }

  /** A delivery whose first message is not the next one is stale and would not dispatch that message. */
  lemma StaleDeliveryBringsNothingNext(data: InboundLaneData, limits: Limits, proof: MessagesProof)
    requires proof.noncesStart <= proof.noncesEnd
    ensures CheckDelivery(DeliveryInfoOf(data, limits, proof), false, true) == Stale
       <==> ReceptionVerdict(data, limits, proof.noncesStart) == InvalidNonce
  {
  }

  // ---------- Confirmations in runs ----------

  /** For every state the target ever had, the filter passes its proof exactly when that confirms something. */
  ghost predicate FilterExact(s: System)
    requires s.Live()
  {
    forall at :: 0 <= at < |s.targets| ==>
      var outcome := ConfirmationOf(s.Src().data, s.targets[at].data);
      var info := ConfirmationInfoOf(s.Src().data, s.targets[at].data.RelayersState());
      CheckConfirmation(info, false) == Valid <==> outcome.Ok? && outcome.value.Some?
  }

  /**
   In every run with up to 2^64 - 1 messages, until the last nonce is confirmed, a confirmation with
   a true proof passes the filter exactly when it confirms something, and then succeeds.
   */
  lemma ConfirmationFilterIsExact(c: Config, actions: seq<Action>)
    requires InBounds(Exec(c, actions))
    ensures var s := Exec(c, actions);
            && FilterExact(s)
            && forall at :: 0 <= at < |s.targets| ==>
                 var info := ConfirmationInfoOf(s.Src().data, s.targets[at].data.RelayersState());
                 CheckConfirmation(info, false) == Valid ==>
                   ConfirmationWasSuccessful(
                     info, AfterConfirm(s.Src().data, ConfirmationOf(s.Src().data, s.targets[at].data)))
  {
    RunKeepsDelivery(c, actions);
    var s := Exec(c, actions);
    forall at | 0 <= at < |s.targets|
      ensures var outcome := ConfirmationOf(s.Src().data, s.targets[at].data);
              var info := ConfirmationInfoOf(s.Src().data, s.targets[at].data.RelayersState());
              && (CheckConfirmation(info, false) == Valid <==> outcome.Ok? && outcome.value.Some?)
              && (CheckConfirmation(info, false) == Valid ==>
                    ConfirmationWasSuccessful(info, AfterConfirm(s.Src().data, outcome)))
    {
      EveryProofIsAccepted(c, s, at);
    }
  }

  /** Of the confirmations that pass, exactly those that confirm something count as successful. */
  lemma ConfirmationSucceedsIff(data: OutboundLaneData, proved: InboundLaneData)
    ensures var info := ConfirmationInfoOf(data, proved.RelayersState());
            var outcome := ConfirmationOf(data, proved);
            CheckConfirmation(info, false) == Valid ==>
              (ConfirmationWasSuccessful(info, AfterConfirm(data, outcome)) <==> outcome.Ok? && outcome.value.Some?)
  {
  }

  /** Once the last nonce is confirmed the filter lets no confirmation through. */
  lemma NoConfirmationAfterTheLastNonce(data: OutboundLaneData, declared: UnrewardedRelayersState)
    ensures data.latestReceived == U64_MAX ==>
              CheckConfirmation(ConfirmationInfoOf(data, declared), false) == Stale
  {
  }

  lemma LastNonceFoolsFilter(s: System, r: RelayerId)
    requires Progress(s, U64_MAX, U64_MAX, U64_MAX, r)
    ensures !FilterExact(s)
  {
    var at, proved := |s.targets| - 1, s.Tgt().data;
    LaneIsConfirmed(s.Src().data, U64_MAX, r);
    NoConfirmationAfterTheLastNonce(s.Src().data, proved.RelayersState());
    assert s.targets[at].data == proved && ConfirmationOf(s.Src().data, s.targets[at].data).Ok?;
  }

  /** The filter is exact in all runs with up to `bound` messages if and only if that is below 2^64 - 1. */
  lemma FilterBoundIsExact(c: Config, bound: nat, payload: Payload, r: RelayerId)
    requires LimitsAllowOne(c)
    ensures (forall actions :: |Exec(c, actions).sent| <= bound ==> FilterExact(Exec(c, actions)))
       <==> bound < U64_MAX
  {
    if bound < U64_MAX {
      forall actions | |Exec(c, actions).sent| <= bound ensures FilterExact(Exec(c, actions)) {
        CountersAreOrdered(c, actions);
        GeneratedIsSent(c, actions);
        ConfirmationFilterIsExact(c, actions);
      }
    } else {
      var actions := SettlingRun(c, U64_MAX, payload, r);
      LastNonceFoolsFilter(Exec(c, actions), r);
      assert |Exec(c, actions).sent| <= bound && !FilterExact(Exec(c, actions));
    }
  }

  /** After 2^64 messages the filter passes confirmations that the lane refuses. */
  lemma WrappedFilterPassesRefused(data: OutboundLaneData, proved: InboundLaneData)
    requires data.latestReceived < proved.LastDelivered() && data.latestGenerated < proved.LastDelivered()
    ensures CheckConfirmation(ConfirmationInfoOf(data, proved.RelayersState()), false) == Valid
    ensures ConfirmationOf(data, proved) == Err(FailedToConfirmFutureMessages)
  {
  }
}
