/**
 Two message pallets, one per chain, driven by relayers. Every call is matched by a step of the
 two-chain system, so the theorems about runs hold of the pallets themselves.
 */
module Bridges {
  import opened LaneTypes
  import opened MessagesStorage
  import opened OutboundLanes
  import opened Rewards
  import opened MessagesPallets
  import opened LaneProtocol
  import opened LaneTheorems
  import opened NonceBounds
  import opened Pruning

  // ---------- Steps of the system, field by field ----------

  ghost predicate SendStep(c: Config, s: System, s': System, payload: Payload)
    requires s.Live() && s'.Live()
  {
    var nonce := NextNonce(s.Src().data.latestGenerated);
    && s'.Src() == Source(AfterSend(s.Src().data), s.Src().messages[(c.lane, nonce) := payload])
    && s'.Tgt() == s.Tgt() && s'.payouts == s.payouts
    && s'.sent == s.sent + [payload]
  }

  lemma SendIsStep(c: Config, s: System, payload: Payload)
    requires s.Live()
    ensures SendStep(c, s, Next(c, s, LaneProtocol.Send(payload)), payload)
  {
  }

  ghost predicate DeliverStep(c: Config, s: System, s': System, proof: MessagesProof, count: nat, relayer: RelayerId,
                              admitted: bool)
    requires s.Live() && s'.Live()
  {
    var data := AfterOptionalUpdate(s.Tgt().data, proof.laneState);
    && s'.Src() == s.Src() && s'.payouts == s.payouts
    && s'.Tgt() == if !admitted || Proved(proof, count).Err? then s.Tgt()
                   else Target(AfterBundle(data, c.limits, relayer, ReadMessages(proof)),
                               s.Tgt().dispatched + DispatchedOf(data, c.limits, relayer, ReadMessages(proof)))
  }

  lemma DeliverIsStep(c: Config, s: System, at: nat, proof: MessagesProof, count: nat, relayer: RelayerId,
                      admitted: bool)
    requires s.Live() && at < |s.sources| && Faithful(proof, c.lane, s.sources[at])
    ensures DeliverStep(c, s, Next(c, s, LaneProtocol.Deliver(at, proof, count, relayer, admitted)),
                        proof, count, relayer, admitted)
  {
  }

  ghost predicate ConfirmStep(s: System, s': System, proved: InboundLaneData)
    requires s.Live() && s'.Live()
  {
    var outcome := ConfirmationOf(s.Src().data, proved);
    && s'.Src() == Source(AfterConfirm(s.Src().data, outcome), s.Src().messages)
    && s'.Tgt() == s.Tgt()
    && forall r :: TotalReward(s'.payouts, r)
                == TotalReward(s.payouts, r)
                   + (if outcome.Ok? && outcome.value.Some? then ClippedOf(proved.relayers, outcome.value.value, r)
                      else 0)
  }

  lemma ConfirmIsStep(c: Config, s: System, at: nat)
    requires s.Live() && at < |s.targets|
    ensures ConfirmStep(s, Next(c, s, LaneProtocol.Confirm(at)), s.targets[at].data)
  {
    var proved := s.targets[at].data;
    var outcome := ConfirmationOf(s.Src().data, proved);
    if outcome.Ok? && outcome.value.Some? {
      ConfirmationPays(s, proved, outcome.value.value);
      PayoutAdds(s.payouts, Payout(proved.relayers, outcome.value.value));
    }
  }

  ghost predicate PruneStep(c: Config, s: System, s': System, write: U64, budget: U64)
    requires s.Live() && s'.Live() && LoopEnds(s.Src().data, write)
  {
    var data := s.Src().data;
    && s'.Src() == Source(AfterPrune(data, write, budget),
                          Unpruned(s.Src().messages, c.lane, data, PruneCount(data, write, budget)))
    && s'.Tgt() == s.Tgt() && s'.payouts == s.payouts
  }

  lemma PruneIsStep(c: Config, s: System, write: U64, budget: U64)
    requires s.Live() && LoopEnds(s.Src().data, write)
    ensures PruneStep(c, s, Next(c, s, Prune(write, budget)), write, budget)
  {
  }

  /** What a reachable state tells the callers of the pallets. */
  lemma InBoundsAnswers(c: Config, actions: seq<Action>)
    requires InBounds(Exec(c, actions))
    ensures var s := Exec(c, actions);
            QueueLength(s.Src().data) == |s.sent| - s.Src().data.latestReceived
  {
    CountersAreOrdered(c, actions);
    GeneratedIsSent(c, actions);
  }

  /** What sending does to the state, and what it answers. */
  lemma SendAnswers(c: Config, actions: seq<Action>, payload: Payload)
    ensures var s, s' := Exec(c, actions), Exec(c, actions + [LaneProtocol.Send(payload)]);
            && SendStep(c, s, s', payload)
            && NextNonce(s.Src().data.latestGenerated) == Wrap(|s'.sent|)
            && (InBounds(s') ==> QueueLength(s'.Src().data) == |s'.sent| - s'.Src().data.latestReceived)
  {
    var more := actions + [LaneProtocol.Send(payload)];
    SendIsStep(c, Exec(c, actions), payload);
    ExecStep(c, actions, LaneProtocol.Send(payload));
    GeneratedIsSentWrapped(c, more);
    if InBounds(Exec(c, more)) {
      InBoundsAnswers(c, more);
    }
  }

  // ---------- The two pallets ----------

  class Bridge {
    const lane: LaneId
    const limits: Limits
    const source: MessagesPallet
    const target: MessagesPallet
    /** What has happened so far. */
    ghost var actions: seq<Action>

    constructor (lane: LaneId, limits: Limits, dispatcher: Dispatcher, owner: Option<AccountId>)
      ensures this.lane == lane && this.limits == limits && actions == []
      ensures Coupled() && fresh(source) && fresh(target) && fresh(source.storage) && fresh(target.storage)
    {
      var sourceStorage := new PalletStorage();
      var targetStorage := new PalletStorage();
      this.lane, this.limits := lane, limits;
      source := new MessagesPallet(sourceStorage, limits, dispatcher, owner);
      target := new MessagesPallet(targetStorage, limits, dispatcher, owner);
      actions := [];
    }

    ghost function Cfg(): Config {
      Config(lane, limits)
    }

    ghost function Chains(): (s: System)
      reads this
      ensures s.Live()
    {
      Exec(Cfg(), actions)
    }

    /** The storage of both pallets is the current state of the system. */
    ghost predicate Coupled()
      reads this, source, target, source.storage, target.storage
    {
      && source != target && source.storage != target.storage && target.limits == limits
      && source.storage.Outbound(lane) == Chains().Src().data
      && source.storage.outboundMessages == Chains().Src().messages
      && target.storage.Inbound(lane) == Chains().Tgt().data && target.storage.NoBlankLane(lane)
      && target.storage.Dispatched(lane) == Chains().Tgt().dispatched
      && forall r :: Reward(source.relayerRewards, r) == TotalReward(Chains().payouts, r)
    }

    method Send(payload: Payload) returns (nonce: Nonce, enqueued: U64)
      requires Coupled()
      modifies this`actions, source.storage
      ensures Coupled() && actions == old(actions) + [LaneProtocol.Send(payload)]
      ensures nonce == Wrap(|Chains().sent|)
      ensures InBounds(Chains()) ==> enqueued == |Chains().sent| - Chains().Src().data.latestReceived
    {
      SendAnswers(Cfg(), actions, payload);
      nonce, enqueued := source.SendMessage(lane, payload);
      actions := actions + [LaneProtocol.Send(payload)];
    }

    /** A relayer submits a proof of the source state number `at`. */
    method Deliver(relayer: RelayerId, proof: MessagesProof, count: nat, dispatchWeight: Weight,
                   declaredWeight: Weight, dispatchActive: bool, extraProofBytes: nat -> U64, ghost at: nat)
      returns (result: Result<Weight, CallError>)
      requires Coupled() && at < |Chains().sources| && Faithful(proof, lane, Chains().sources[at])
      modifies this`actions, target.storage
      ensures Coupled()
      ensures actions == old(actions) + [LaneProtocol.Deliver(at, proof, count, relayer, result.Ok?)]
      ensures result.Ok? <==>
                && target.mode != AllHalted
                && Acceptable(old(Chains()).Tgt().data, limits, relayer, proof, count, target.dispatcher,
                              dispatchWeight, dispatchActive)
    {
      result := target.ReceiveMessagesProof(relayer, proof, count, dispatchWeight, declaredWeight, dispatchActive,
                                            extraProofBytes);
      ghost var a := LaneProtocol.Deliver(at, proof, count, relayer, result.Ok?);
      DeliverIsStep(Cfg(), Chains(), at, proof, count, relayer, result.Ok?);
      ExecStep(Cfg(), actions, a);
      actions := actions + [a];
    }

    /**
     A relayer submits a proof of the target state number `at` and declares its gist. What does not
     describe the record of the unconfirmed deliveries is refused. A lane that has delivered nothing has
     no entry in the storage of the target, so there is nothing to prove and the call fails. Any
     other state is never refused while at most 2^64 - 1 messages were sent and the last nonce is
     not confirmed, unless the pallet is halted.
     */
    method Confirm(proved: InboundLaneData, declared: UnrewardedRelayersState, ghost at: nat)
      returns (result: Result<Option<DeliveredMessages>, CallError>, ghost declaredTruly: bool)
      requires Coupled() && at < |Chains().targets| && proved == Chains().targets[at].data
      modifies this`actions, source`relayerRewards, source.storage
      ensures Coupled()
      ensures actions == if source.mode == AllHalted || proved == EMPTY_INBOUND_LANE || !declaredTruly then old(actions)
                         else old(actions) + [LaneProtocol.Confirm(at)]
      ensures OnlyTrueStateIsDeclared(old(Chains()).deliveredBy, old(Chains()).targets[at], declared)
      ensures declaredTruly <==> declared == proved.RelayersState()
      ensures source.mode == AllHalted ==> result == Err(Halted)
      ensures source.mode != AllHalted && proved == EMPTY_INBOUND_LANE ==> result == Err(InvalidMessagesDeliveryProof)
      ensures source.mode != AllHalted && proved != EMPTY_INBOUND_LANE && !declaredTruly ==>
                result == Err(InvalidUnrewardedRelayersState)
      ensures source.mode != AllHalted && proved != EMPTY_INBOUND_LANE && declaredTruly && old(InBounds(Chains())) ==>
                result.Ok?
    {
      ConfirmIsStep(Cfg(), Chains(), at);
      ExecStep(Cfg(), actions, LaneProtocol.Confirm(at));
      DeclaredStateIsTheRecord(Cfg(), actions, at, declared);
      declaredTruly := declared == proved.RelayersState();
      if InBounds(Chains()) {
        ConfirmationNeverFails(Cfg(), actions);
      }
      var stored := if proved == EMPTY_INBOUND_LANE then None else Some(proved);
      var enqueued;
      var proof := MessagesDeliveryProof(lane, stored, true, true);
      result, enqueued := source.ReceiveMessagesDeliveryProof(proof, declared);
      if source.mode != AllHalted && proved != EMPTY_INBOUND_LANE && declaredTruly {
        actions := actions + [LaneProtocol.Confirm(at)];
      }
    }

    /** The source chain uses the idle time of a block. */
    method Idle(blockNumber: nat, db: DbWeight, remainingWeight: Weight) returns (used: Weight)
      requires Coupled()
      requires IdleAffordable(db, remainingWeight) ==> LoopEnds(Chains().Src().data, db.write)
      modifies this`actions, source.storage
      ensures Coupled() && remainingWeight.AllGte(used)
      ensures actions == if !IdleAffordable(db, remainingWeight) then old(actions)
                         else old(actions) + [Prune(db.write, remainingWeight.refTime - db.read)]
    {
      assert blockNumber % |[lane]| == 0 && [lane][0] == lane;
      ghost var after := actions;
      if IdleAffordable(db, remainingWeight) {
        ghost var budget := remainingWeight.refTime - db.read;
        PruneIsStep(Cfg(), Chains(), db.write, budget);
        ExecStep(Cfg(), actions, Prune(db.write, budget));
        after := actions + [Prune(db.write, budget)];
      }
      used := source.OnIdle([lane], blockNumber, db, remainingWeight);
      actions := after;
    }

    /** Somebody tries to change the operating mode of the source pallet. */
    method SetSourceMode(origin: Origin, mode: OperatingMode) returns (allowed: bool)
      requires Coupled()
      modifies source`mode
      ensures Coupled() && (allowed <==> origin == Root || (source.owner.Some? && origin == Signed(source.owner.value)))
      ensures source.mode == if allowed then mode else old(source.mode)
    {
      allowed := source.SetOperatingMode(origin, mode);
    }

    /** Somebody tries to change the operating mode of the target pallet. */
    method SetTargetMode(origin: Origin, mode: OperatingMode) returns (allowed: bool)
      requires Coupled()
      modifies target`mode
      ensures Coupled() && (allowed <==> origin == Root || (target.owner.Some? && origin == Signed(target.owner.value)))
      ensures target.mode == if allowed then mode else old(target.mode)
    {
      allowed := target.SetOperatingMode(origin, mode);
    }
  }

  /** Whatever calls were made, the target pallet dispatched a prefix of what the source pallet was asked to send. */
  lemma BridgeDeliversInOrder(bridge: Bridge)
    requires bridge.Coupled() && NoncesUnique(bridge.Chains())
    ensures var dispatched := bridge.target.storage.Dispatched(bridge.lane);
            && |dispatched| <= |bridge.Chains().sent|
            && forall i :: 0 <= i < |dispatched| ==>
                 dispatched[i].nonce == i + 1 && dispatched[i].payload == bridge.Chains().sent[i]
  {
    DispatchedIsPrefixOfSent(bridge.Cfg(), bridge.actions);
  }

  /** The target stores an entry for the lane exactly when it has something to prove. */
  lemma StoredEntryIsNotBlank(bridge: Bridge)
    requires bridge.Coupled()
    ensures bridge.lane in bridge.target.storage.inboundLanes <==> bridge.Chains().Tgt().data != EMPTY_INBOUND_LANE
  {
  }

  /** And every relayer was credited for exactly the confirmed messages it delivered. */
  lemma BridgePaysDeliverers(bridge: Bridge, r: RelayerId)
    requires bridge.Coupled() && bridge.Chains().Src().data.latestReceived < U64_MAX
    ensures var received := bridge.source.storage.Outbound(bridge.lane).latestReceived;
            && received <= |bridge.Chains().deliveredBy|
            && Reward(bridge.source.relayerRewards, r) == DeliveredCount(bridge.Chains().deliveredBy, 0, received, r)
  {
    RelayersArePaidExactlyOnce(bridge.Cfg(), bridge.actions);
  }
}
