/** How far the theorems about lanes reach: the exact number of messages each of them allows. */
module NonceBounds {
  import opened LaneTypes
  import opened RelayerDeque
  import opened OutboundLanes
  import opened Rewards
  import opened MessagesPallets
  import opened LaneProtocol
  import opened LaneTheorems
  import opened Pruning

  lemma StepKeepsGenerated(c: Config, s: System, a: Action)
    requires s.Live() && s.Src().data.latestGenerated == Wrap(|s.sent|)
    ensures Next(c, s, a).Src().data.latestGenerated == Wrap(|Next(c, s, a).sent|)
  {
    match a
    case Send(_) => WrapStep(|s.sent|, 1);
    case Confirm(_) =>
    case Prune(_, _) =>
    case Deliver(_, _, _, _, _) => assert Next(c, s, a).Src() == s.Src() && Next(c, s, a).sent == s.sent;
  }

  /** In every run the generated nonce is the number of sent messages, modulo 2^64. */
  lemma {:induction false} GeneratedIsSentWrapped(c: Config, actions: seq<Action>)
    ensures var s := Exec(c, actions);
            && s.Src().data.latestGenerated == Wrap(|s.sent|)
            && (s.Src().data.latestGenerated == |s.sent| <==> |s.sent| <= U64_MAX)
  {
    if actions != [] {
      GeneratedIsSentWrapped(c, actions[..|actions| - 1]);
      StepKeepsGenerated(c, Exec(c, actions[..|actions| - 1]), actions[|actions| - 1]);
    }
  }

  // ---------- Order of delivery: 2^64 messages ----------

  ghost function Sends(payloads: seq<Payload>): seq<Action> {
    if payloads == [] then [] else Sends(payloads[..|payloads| - 1]) + [Send(payloads[|payloads| - 1])]
  }

  lemma SendAddsOne(c: Config, s: System, payload: Payload)
    requires s.Live() && s.Src().data.latestGenerated == Wrap(|s.sent|)
    ensures var s' := Next(c, s, Send(payload));
            && s'.sent == s.sent + [payload] && s'.targets == s.targets
            && s'.Src().data.latestGenerated == Wrap(|s.sent| + 1)
            && (c.lane, Wrap(|s.sent| + 1)) in s'.Src().messages
            && s'.Src().messages[(c.lane, Wrap(|s.sent| + 1))] == payload
  {
    WrapStep(|s.sent|, 1);
  }

  lemma {:induction false} SendsOnlySend(c: Config, payloads: seq<Payload>)
    ensures var s := Exec(c, Sends(payloads));
            && s.sent == payloads && s.targets == INITIAL.targets
            && s.Src().data.latestGenerated == Wrap(|payloads|)
            && (payloads != [] ==>
                  && (c.lane, Wrap(|payloads|)) in s.Src().messages
                  && s.Src().messages[(c.lane, Wrap(|payloads|))] == payloads[|payloads| - 1])
  {
    if payloads != [] {
      var init, last := payloads[..|payloads| - 1], payloads[|payloads| - 1];
      SendsOnlySend(c, init);
      ExecStep(c, Sends(init), Send(last));
      SendAddsOne(c, Exec(c, Sends(init)), last);
      assert init + [last] == payloads;
    }
  }

  /** After 2^64 + 1 messages the first nonce carries the last payload, and that is what is dispatched first. */
  lemma OverwrittenMessageIsDispatched(c: Config, payloads: seq<Payload>, relayer: RelayerId)
    requires LimitsAllowOne(c) && |payloads| == U64_MAX + 2
    ensures var last := payloads[|payloads| - 1];
            var s := Exec(c, Sends(payloads));
            var s' := Next(c, s, DeliverOne(c, s, 1, last, None, relayer));
            s'.sent == payloads && s'.Tgt().dispatched == [Message(1, last)]
  {
    var last, s := payloads[|payloads| - 1], Exec(c, Sends(payloads));
    SendsOnlySend(c, payloads);
    FreshLaneTakesDelivery(c, s, 1, last, None, relayer);
  }

  /** Messages arrive in order in all runs with up to `bound` messages if and only if that is at most 2^64. */
  lemma OrderBoundIsExact(c: Config, bound: nat, first: Payload, other: Payload, relayer: RelayerId)
    requires LimitsAllowOne(c) && first != other
    ensures (forall actions :: |Exec(c, actions).sent| <= bound ==> InOrder(Exec(c, actions)))
       <==> bound <= U64_MAX + 1
  {
    if bound <= U64_MAX + 1 {
      forall actions | |Exec(c, actions).sent| <= bound ensures InOrder(Exec(c, actions)) {
        DispatchedIsPrefixOfSent(c, actions);
      }
    } else {
      var payloads := seq(U64_MAX + 2, i => if i == 0 then first else other);
      OverwrittenMessageIsDispatched(c, payloads, relayer);
      var s := Exec(c, Sends(payloads));
      var a := DeliverOne(c, s, 1, other, None, relayer);
      ExecStep(c, Sends(payloads), a);
      var bad := Exec(c, Sends(payloads) + [a]);
      assert payloads[|payloads| - 1] == other && bad.sent[0] == first;
      assert bad.Tgt().dispatched[0].payload != bad.sent[0];
      assert !InOrder(bad);
    }
  }

  /** Every message still to be dispatched is stored with the payload that was sent. */
  ghost predicate UndispatchedStored(c: Config, s: System)
    requires s.Live()
  {
    forall n: Nonce :: s.Tgt().data.LastDelivered() < n <= |s.sent| ==>
      (c.lane, n) in s.Src().messages && s.Src().messages[(c.lane, n)] == s.sent[n - 1]
  }

  lemma RunStoresUndispatched(c: Config, actions: seq<Action>)
    requires NoncesUnique(Exec(c, actions))
    ensures UndispatchedStored(c, Exec(c, actions))
  {
    var s := Exec(c, actions);
    forall n: Nonce | s.Tgt().data.LastDelivered() < n <= |s.sent|
      ensures (c.lane, n) in s.Src().messages && s.Src().messages[(c.lane, n)] == s.sent[n - 1]
    {
      UndispatchedIsStored(c, actions, n);
    }
  }

  lemma OverwrittenIsNotStored(c: Config, payloads: seq<Payload>)
    requires |payloads| == U64_MAX + 2 && payloads[0] != payloads[|payloads| - 1]
    ensures |Exec(c, Sends(payloads)).sent| == U64_MAX + 2 && !UndispatchedStored(c, Exec(c, Sends(payloads)))
  {
    SendsOnlySend(c, payloads);
    var s, one: Nonce := Exec(c, Sends(payloads)), 1;
    assert s.Src().messages[(c.lane, one)] != s.sent[one - 1];
  }

  /** Messages to come are stored in all runs with up to `bound` messages if and only if that is at most 2^64. */
  lemma UndispatchedBoundIsExact(c: Config, bound: nat, first: Payload, other: Payload)
    requires first != other
    ensures (forall actions :: |Exec(c, actions).sent| <= bound ==> UndispatchedStored(c, Exec(c, actions)))
       <==> bound <= U64_MAX + 1
  {
    if bound <= U64_MAX + 1 {
      forall actions | |Exec(c, actions).sent| <= bound ensures UndispatchedStored(c, Exec(c, actions)) {
        RunStoresUndispatched(c, actions);
      }
    } else {
      OverwrittenIsNotStored(c, seq(U64_MAX + 2, i => if i == 0 then first else other));
    }
  }

  /** The generated nonce never falls in runs with up to `bound` messages if and only if that is at most 2^64 - 1. */
  lemma GeneratedBoundIsExact(c: Config, bound: nat, payload: Payload)
    ensures (forall actions, more :: |Exec(c, actions + more).sent| <= bound ==>
               Exec(c, actions).Src().data.latestGenerated <= Exec(c, actions + more).Src().data.latestGenerated)
       <==> bound <= U64_MAX
  {
    if bound <= U64_MAX {
      forall actions, more | |Exec(c, actions + more).sent| <= bound
        ensures Exec(c, actions).Src().data.latestGenerated <= Exec(c, actions + more).Src().data.latestGenerated
      {
        GeneratedNeverShrinks(c, actions, more);
      }
    } else {
      var payloads := seq(U64_MAX, _ => payload);
      var actions := Sends(payloads);
      SendsOnlySend(c, payloads);
      ExecStep(c, actions, Send(payload));
      GeneratedIsSentWrapped(c, actions + [Send(payload)]);
      assert Exec(c, actions).Src().data.latestGenerated == U64_MAX;
      assert Exec(c, actions + [Send(payload)]).Src().data.latestGenerated == 0;
    }
  }

  // ---------- Counters and payments: one message at a time up to the last nonce ----------

  /** What is left on the target after `r` delivered message `n` together with the state of the source. */
  function LaneOf(n: Nonce, r: RelayerId): InboundLaneData {
    if n == 0 then EMPTY_INBOUND_LANE
    else InboundLaneData([UnrewardedRelayer(r, DeliveredMessages(n, n))], n - 1)
  }

  /** Sent, delivered by `r` and confirmed messages, in numbers. */
  ghost predicate Progress(s: System, sent: Nonce, delivered: Nonce, confirmed: Nonce, r: RelayerId) {
    && s.Live()
    && |s.sent| == sent
    && s.Src().data == OutboundLaneData(1, confirmed, sent)
    && s.Tgt().data == LaneOf(delivered, r)
    && |s.deliveredBy| == delivered
    && TotalReward(s.payouts, r) == confirmed
  }

  lemma LaneClears(n: Nonce, r: RelayerId)
    ensures AfterStateUpdate(LaneOf(n, r), n) == InboundLaneData([], n)
  {
    if n > 0 {
      assert Chained(LaneOf(n, r).relayers[1..], n + 1);
      ConfirmedDequeIsEmpty(LaneOf(n, r));
    }
  }

  lemma LaneIsConfirmed(data: OutboundLaneData, n: Nonce, r: RelayerId)
    requires 1 <= n == ConfirmBegin(data) <= data.latestGenerated
    ensures ConfirmationOf(data, LaneOf(n, r)) == Ok(Some(DeliveredMessages(n, n)))
    ensures ClippedOf(LaneOf(n, r).relayers, DeliveredMessages(n, n), r) == 1
  {
    var relayers := LaneOf(n, r).relayers;
    assert relayers[1..] == [] && Chained(relayers[1..], n + 1) && Chained(relayers, n);
    assert ClippedOf(relayers[1..], DeliveredMessages(n, n), r) == 0;
    ConfirmationAcceptedIff(data, 1, n, relayers);
  }

  lemma SendFromSettled(c: Config, s: System, n: Nonce, payload: Payload, r: RelayerId)
    requires Progress(s, n, n, n, r) && n < U64_MAX
    ensures var s1 := Next(c, s, Send(payload));
            && Progress(s1, n + 1, n, n, r)
            && (c.lane, n + 1) in s1.Src().messages && s1.Src().messages[(c.lane, n + 1)] == payload
  {
  }

  lemma DeliverSent(c: Config, s: System, n: Nonce, payload: Payload, r: RelayerId)
    requires LimitsAllowOne(c) && n < U64_MAX && Progress(s, n + 1, n, n, r)
    requires (c.lane, n + 1) in s.Src().messages && s.Src().messages[(c.lane, n + 1)] == payload
    ensures Progress(Next(c, s, DeliverOne(c, s, n + 1, payload, Some(s.Src().data), r)), n + 1, n + 1, n, r)
  {
    LaneClears(n, r);
    FreshLaneTakesDelivery(c, s, n + 1, payload, Some(s.Src().data), r);
  }

  lemma ConfirmDelivered(c: Config, s: System, n: Nonce, r: RelayerId)
    requires 1 <= n && Progress(s, n, n, n - 1, r)
    ensures Progress(Next(c, s, CatchUp(s)), n, n, n, r)
  {
    LaneIsConfirmed(s.Src().data, n, r);
    ConfirmationPays(s, s.Tgt().data, DeliveredMessages(n, n));
    PayoutAdds(s.payouts, Payout(s.Tgt().data.relayers, DeliveredMessages(n, n)));
  }

  ghost predicate NoPruning(actions: seq<Action>) {
    forall i :: 0 <= i < |actions| ==> !actions[i].Prune?
  }

  lemma NoPruningWith(actions: seq<Action>, a: Action)
    requires NoPruning(actions) && !a.Prune?
    ensures NoPruning(actions + [a])
  {
  }

  /** One more message is sent and delivered. */
  lemma SendAndDeliver(c: Config, before: seq<Action>, n: Nonce, payload: Payload, r: RelayerId)
    returns (actions: seq<Action>)
    requires LimitsAllowOne(c) && n >= 1 && Progress(Exec(c, before), n - 1, n - 1, n - 1, r) && NoPruning(before)
    ensures Progress(Exec(c, actions), n, n, n - 1, r) && NoPruning(actions)
  {
    SendFromSettled(c, Exec(c, before), n - 1, payload, r);
    ExecStep(c, before, Send(payload));
    NoPruningWith(before, Send(payload));
    actions := before + [Send(payload)];
    var deliver := DeliverOne(c, Exec(c, actions), n, payload, Some(Exec(c, actions).Src().data), r);
    DeliverSent(c, Exec(c, actions), n - 1, payload, r);
    ExecStep(c, actions, deliver);
    NoPruningWith(actions, deliver);
    actions := actions + [deliver];
  }

  /** And confirmed. */
  lemma SettleOne(c: Config, before: seq<Action>, n: Nonce, payload: Payload, r: RelayerId)
    returns (actions: seq<Action>)
    requires LimitsAllowOne(c) && n >= 1 && Progress(Exec(c, before), n - 1, n - 1, n - 1, r) && NoPruning(before)
    ensures Progress(Exec(c, actions), n, n, n, r) && NoPruning(actions)
  {
    actions := SendAndDeliver(c, before, n, payload, r);
    var confirm := CatchUp(Exec(c, actions));
    ConfirmDelivered(c, Exec(c, actions), n, r);
    ExecStep(c, actions, confirm);
    NoPruningWith(actions, confirm);
    actions := actions + [confirm];
  }

  /** A run that sends, delivers and confirms one message after the other, up to any nonce. */
  lemma {:induction false} SettlingRun(c: Config, n: Nonce, payload: Payload, r: RelayerId)
    returns (actions: seq<Action>)
    requires LimitsAllowOne(c)
    ensures Progress(Exec(c, actions), n, n, n, r) && NoPruning(actions)
    decreases n
  {
    if n == 0 {
      actions := [];
    } else {
      actions := SettlingRun(c, n - 1, payload, r);
      actions := SettleOne(c, actions, n, payload, r);
    }
  }

  /** The counters stay ordered in all runs with up to `bound` messages if and only if that is at most 2^64 - 1. */
  lemma CounterBoundIsExact(c: Config, bound: nat, payload: Payload, r: RelayerId)
    requires LimitsAllowOne(c)
    ensures (forall actions :: |Exec(c, actions).sent| <= bound ==> CountersOrdered(Exec(c, actions)))
       <==> bound <= U64_MAX
  {
    if bound <= U64_MAX {
      forall actions | |Exec(c, actions).sent| <= bound ensures CountersOrdered(Exec(c, actions)) {
        CountersAreOrdered(c, actions);
      }
    } else {
      var actions := SettlingRun(c, U64_MAX, payload, r);
      ExecStep(c, actions, Send(payload));
      assert !CountersOrdered(Exec(c, actions + [Send(payload)]));
    }
  }

  /** Confirming the last message once more pays for it once more. */
  lemma LastMessageIsPaidTwice(c: Config, s: System, r: RelayerId)
    requires Progress(s, U64_MAX, U64_MAX, U64_MAX, r)
    ensures TotalReward(Next(c, s, CatchUp(s)).payouts, r) == U64_MAX + 1
    ensures |Next(c, s, CatchUp(s)).sent| == U64_MAX
  {
    LaneIsConfirmed(s.Src().data, U64_MAX, r);
    ConfirmationPays(s, s.Tgt().data, DeliveredMessages(U64_MAX, U64_MAX));
    PayoutAdds(s.payouts, Payout(s.Tgt().data.relayers, DeliveredMessages(U64_MAX, U64_MAX)));
  }

  lemma {:induction false} CountIsAtMostLength(record: seq<RelayerId>, hi: nat, r: RelayerId)
    requires hi <= |record|
    ensures DeliveredCount(record, 0, hi, r) <= hi
  {
    if hi > 0 {
      CountIsAtMostLength(record, hi - 1, r);
    }
  }

  /** Payments are exact in all runs with up to `bound` messages if and only if that is below 2^64 - 1. */
  lemma PaymentBoundIsExact(c: Config, bound: nat, payload: Payload, r: RelayerId)
    requires LimitsAllowOne(c)
    ensures (forall actions :: |Exec(c, actions).sent| <= bound ==> RewardsExact(Exec(c, actions)))
       <==> bound < U64_MAX
  {
    if bound < U64_MAX {
      forall actions | |Exec(c, actions).sent| <= bound ensures RewardsExact(Exec(c, actions)) {
        CountersAreOrdered(c, actions);
        GeneratedIsSent(c, actions);
        RelayersArePaidExactlyOnce(c, actions);
      }
    } else {
      var actions := SettlingRun(c, U64_MAX, payload, r);
      var s := Exec(c, actions);
      LastMessageIsPaidTwice(c, s, r);
      ExecStep(c, actions, CatchUp(s));
      var bad := Exec(c, actions + [CatchUp(s)]);
      if RewardsExact(bad) {
        CountIsAtMostLength(bad.deliveredBy, bad.Src().data.latestReceived, r);
      }
      assert !RewardsExact(bad);
    }
  }

  /** An empty delivery that brings nothing but the state of the source. */
  ghost function StateOnly(c: Config, s: System, r: RelayerId): Action
    requires s.Live()
  {
    Deliver(|s.sources| - 1, MessagesProof(c.lane, map[], Some(s.Src().data), 1, 0, FLAWLESS), 0, r, true)
  }

  /** After the last message is confirmed and its entry dropped, the next confirmation is refused. */
  lemma LastConfirmationIsRefused(c: Config, s: System, r: RelayerId)
    requires Progress(s, U64_MAX, U64_MAX, U64_MAX, r)
    ensures !AcceptsEveryProof(Next(c, s, StateOnly(c, s, r)))
  {
    var a := StateOnly(c, s, r);
    var bad := Next(c, s, a);
    LaneClears(U64_MAX, r);
    assert ReadMessages(a.proof) == [] && bad == AfterDelivery(c, s, a.proof, r);
    assert bad.Tgt().data == InboundLaneData([], U64_MAX) && bad.Src() == s.Src();
    LastNonceIsConfirmedAgain(bad.Src().data, bad.Tgt().data);
  }

  /** No confirmation fails in all runs with up to `bound` messages if and only if that is below 2^64 - 1. */
  lemma ConfirmationBoundIsExact(c: Config, bound: nat, payload: Payload, r: RelayerId)
    requires LimitsAllowOne(c)
    ensures (forall actions :: |Exec(c, actions).sent| <= bound ==> AcceptsEveryProof(Exec(c, actions)))
       <==> bound < U64_MAX
  {
    if bound < U64_MAX {
      forall actions | |Exec(c, actions).sent| <= bound ensures AcceptsEveryProof(Exec(c, actions)) {
        CountersAreOrdered(c, actions);
        GeneratedIsSent(c, actions);
        ConfirmationNeverFails(c, actions);
      }
    } else {
      var actions := SettlingRun(c, U64_MAX, payload, r);
      var s := Exec(c, actions);
      LastConfirmationIsRefused(c, s, r);
      ExecStep(c, actions, StateOnly(c, s, r));
      assert |Exec(c, actions + [StateOnly(c, s, r)]).sent| == U64_MAX;
    }
  }

  // ---------- Storage ----------

  lemma AllButLastIsPruned()
    ensures AfterPrune(OutboundLaneData(1, U64_MAX, U64_MAX), 1, U64_MAX) == OutboundLaneData(U64_MAX, U64_MAX, U64_MAX)
  {
    var data := OutboundLaneData(1, U64_MAX, U64_MAX);
    PruneCountIsClosedForm(data, 1, U64_MAX);
    PruneStaysWithinBudget(data, 1, U64_MAX);
    OldestIs(data, U64_MAX - 1);
  }

  /** Everything but the last confirmed message is pruned. */
  lemma PruneAllButLast(c: Config, s: System)
    requires s.Live() && s.Src().data == OutboundLaneData(1, U64_MAX, U64_MAX)
    ensures var s' := Next(c, s, Prune(1, U64_MAX));
            s'.Src().data == OutboundLaneData(U64_MAX, U64_MAX, U64_MAX) && s'.sent == s.sent
  {
    AllButLastIsPruned();
  }

  /** Pruning the last message makes the oldest nonce start over, although nothing is stored any more. */
  lemma PruneLastFallsOutOfStep(c: Config, s: System)
    requires s.Live() && s.Src().data == OutboundLaneData(U64_MAX, U64_MAX, U64_MAX)
    ensures var s' := Next(c, s, Prune(1, 2));
            !StoredExactly(s'.Src().messages, c.lane, s'.Src().data) && s'.sent == s.sent
  {
    var data := s.Src().data;
    PruneCountIsClosedForm(data, 1, 2);
    WrappedPruneLosesLast(s.Src().messages, c.lane, data, 1, AfterPrune(data, 1, 2).oldestUnpruned);
  }

  /**
   If no two writes wrap to zero, stored messages are the unpruned ones in all runs with up to
   `bound` messages, if and only if that is below 2^64 - 1.
   */
  lemma StorageBoundIsExact(c: Config, bound: nat, payload: Payload, r: RelayerId)
    requires LimitsAllowOne(c)
    ensures (forall actions :: |Exec(c, actions).sent| <= bound && WritesAddUp(actions) ==>
               StoredExactly(Exec(c, actions).Src().messages, c.lane, Exec(c, actions).Src().data))
       <==> bound < U64_MAX
  {
    if bound < U64_MAX {
      forall actions | |Exec(c, actions).sent| <= bound && WritesAddUp(actions)
        ensures StoredExactly(Exec(c, actions).Src().messages, c.lane, Exec(c, actions).Src().data)
      {
        CountersAreOrdered(c, actions);
        GeneratedIsSent(c, actions);
        SourceStoresUnpruned(c, actions);
      }
    } else {
      var actions := SettlingRun(c, U64_MAX, payload, r);
      PruneAllButLast(c, Exec(c, actions));
      ExecStep(c, actions, Prune(1, U64_MAX));
        actions := actions + [Prune(1, U64_MAX)];
      PruneLastFallsOutOfStep(c, Exec(c, actions));
      ExecStep(c, actions, Prune(1, 2));
        actions := actions + [Prune(1, 2)];
      assert |Exec(c, actions).sent| == U64_MAX && WritesAddUp(actions);
    }
  }

  /** Every pruning of the run costs `write` per write. */
  ghost predicate PrunesCost(actions: seq<Action>, write: U64) {
    forall i :: 0 <= i < |actions| && actions[i].Prune? ==> actions[i].write == write
  }

  /** Two confirmed messages are pruned at writes that cancel out: both are gone and the lane data does not know. */
  lemma CancellingPruneLosesTwo(c: Config, s: System, write: U64)
    requires s.Live() && StorageInStep(c, s) && s.Src().data == OutboundLaneData(1, 2, 2) && !AddsUp(write)
    ensures var s' := Next(c, s, Prune(write, 0));
            && !StorageInStep(c, s') && s'.sent == s.sent
            && s'.Src().data.latestReceived == 2
  {
    PruneKeepsStorageIff(s.Src().messages, c.lane, s.Src().data, write, 0);
  }

  /**
   Until nonces wrap or the last one is confirmed, stored messages are the unpruned ones in all runs
   with a given cost of a write, if and only if two of these writes do not wrap to zero.
   */
  lemma StorageCostIsExact(c: Config, write: U64, payload: Payload, r: RelayerId)
    requires LimitsAllowOne(c)
    ensures (forall actions :: InBounds(Exec(c, actions)) && PrunesCost(actions, write) ==>
               StorageInStep(c, Exec(c, actions)))
       <==> AddsUp(write)
  {
    if AddsUp(write) {
      forall actions | InBounds(Exec(c, actions)) && PrunesCost(actions, write)
        ensures StorageInStep(c, Exec(c, actions))
      {
        SourceStoresUnpruned(c, actions);
      }
    } else {
      var actions := SettlingRun(c, 2, payload, r);
      SourceStoresUnpruned(c, actions);
      CancellingPruneLosesTwo(c, Exec(c, actions), write);
      ExecStep(c, actions, Prune(write, 0));
      assert PrunesCost(actions + [Prune(write, 0)], write);
    }
  }

  // ---------- Progress ----------

  /** Messages a lane takes without a confirmation when no relayer delivers twice in a row. */
  function Capacity(c: Config): nat {
    Min(c.limits.maxUnrewardedRelayerEntries, c.limits.maxUnconfirmedMessages)
  }

  /** Two relayers take turns. */
  function Turn(n: nat, r: RelayerId, q: RelayerId): RelayerId {
    if n % 2 == 1 then r else q
  }

  /** What is left on the target when they have delivered `k` messages and none was confirmed. */
  function TurnsOf(k: Nonce, r: RelayerId, q: RelayerId): InboundLaneData {
    InboundLaneData(seq(k, i requires 0 <= i < k =>
                        UnrewardedRelayer(Turn(i + 1, r, q), DeliveredMessages(i + 1, i + 1))), 0)
  }

  lemma NextTurn(c: Config, k: Nonce, r: RelayerId, q: RelayerId)
    requires k < U64_MAX
    ensures TurnsOf(k, r, q).LastDelivered() == k
    ensures ReceptionVerdict(TurnsOf(k, r, q), c.limits, k + 1) == Accepted <==> k < Capacity(c)
    ensures r != q ==> AfterReceive(TurnsOf(k, r, q), Turn(k + 1, r, q)) == TurnsOf(k + 1, r, q)
  {
    var data := TurnsOf(k, r, q);
    if k > 0 {
      assert data.relayers[k - 1] == UnrewardedRelayer(Turn(k, r, q), DeliveredMessages(k, k));
    }
    if r != q {
      assert TurnsOf(k + 1, r, q).relayers
          == data.relayers + [UnrewardedRelayer(Turn(k + 1, r, q), DeliveredMessages(k + 1, k + 1))];
    }
  }

  /** A bundle of one message. */
  lemma OneOffer(data: InboundLaneData, limits: Limits, relayer: RelayerId, message: Message)
    ensures AfterBundle(data, limits, relayer, [message]) == AfterOffer(data, limits, relayer, message)
    ensures DispatchedOf(data, limits, relayer, [message])
         == if ReceptionVerdict(data, limits, message.nonce) == Accepted then [message] else []
  {
    assert [message][..0] == [];
    assert DispatchedOf(data, limits, relayer, []) == [];
  }

  /** After 2^64 messages the generated nonce is zero and every nonce carries the payload. */
  ghost predicate Wrapped(c: Config, s: System, data: InboundLaneData, payload: Payload) {
    && s.Live() && |s.sent| == U64_MAX + 1
    && (forall i :: 0 <= i < |s.sent| ==> s.sent[i] == payload)
    && s.Src().data == OutboundLaneData(1, 0, 0) && s.Tgt().data == data
    && forall n: Nonce :: 1 <= n ==> (c.lane, n) in s.Src().messages && s.Src().messages[(c.lane, n)] == payload
  }

  lemma {:induction false} SendsConfirmNothing(c: Config, payloads: seq<Payload>)
    ensures var data := Exec(c, Sends(payloads)).Src().data;
            data.oldestUnpruned == 1 && data.latestReceived == 0
  {
    if payloads != [] {
      var init, last := payloads[..|payloads| - 1], payloads[|payloads| - 1];
      SendsConfirmNothing(c, init);
      ExecStep(c, Sends(init), Send(last));
    }
  }

  lemma WrappedSends(c: Config, payload: Payload)
    ensures Wrapped(c, Exec(c, Sends(seq(U64_MAX + 1, _ => payload))), EMPTY_INBOUND_LANE, payload)
  {
    var payloads := seq(U64_MAX + 1, _ => payload);
    var s := Exec(c, Sends(payloads));
    SendsOnlySend(c, payloads);
    SendsConfirmNothing(c, payloads);
    forall n: Nonce | 1 <= n ensures (c.lane, n) in s.Src().messages && s.Src().messages[(c.lane, n)] == payload {
      UndispatchedIsStored(c, Sends(payloads), n);
    }
  }

  lemma DeliverTurn(c: Config, s: System, k: Nonce, payload: Payload, r: RelayerId, q: RelayerId)
    requires r != q && k < Capacity(c) && k < U64_MAX && Wrapped(c, s, TurnsOf(k, r, q), payload)
    ensures var s' := Next(c, s, DeliverOne(c, s, k + 1, payload, None, Turn(k + 1, r, q)));
            Wrapped(c, s', TurnsOf(k + 1, r, q), payload)
  {
    var relayer, message := Turn(k + 1, r, q), Message(k + 1, payload);
    DeliverOneIsAdmitted(c, s, k + 1, payload, None, relayer);
    NextTurn(c, k, r, q);
    OneOffer(TurnsOf(k, r, q), c.limits, relayer, message);
    var s' := AfterDelivery(c, s, DeliverOne(c, s, k + 1, payload, None, relayer).proof, relayer);
    assert s'.Tgt().data == TurnsOf(k + 1, r, q);
    assert s'.sources == s.sources && s'.sent == s.sent;
  }

  /** 2^64 messages are sent and then `k` delivered. */
  lemma {:induction false} WrappedRun(c: Config, k: Nonce, payload: Payload, r: RelayerId, q: RelayerId)
    returns (actions: seq<Action>)
    requires r != q && k <= Capacity(c)
    ensures Wrapped(c, Exec(c, actions), TurnsOf(k, r, q), payload)
    decreases k
  {
    if k == 0 {
      actions := Sends(seq(U64_MAX + 1, _ => payload));
      WrappedSends(c, payload);
      assert TurnsOf(0, r, q) == EMPTY_INBOUND_LANE;
    } else {
      actions := WrappedRun(c, k - 1, payload, r, q);
      var a := DeliverOne(c, Exec(c, actions), k, payload, None, Turn(k, r, q));
      DeliverTurn(c, Exec(c, actions), k - 1, payload, r, q);
      ExecStep(c, actions, a);
      actions := actions + [a];
    }
  }

  lemma FullLaneRefuses(c: Config, s: System, payload: Payload, r: RelayerId, q: RelayerId, relayer: RelayerId)
    requires LimitsAllowOne(c) && Capacity(c) < U64_MAX && Wrapped(c, s, TurnsOf(Capacity(c), r, q), payload)
    ensures TurnsOf(Capacity(c), r, q).LastDelivered() == Capacity(c)
    ensures !TakesNext(c, s, relayer)
  {
    var k := Capacity(c);
    NextTurn(c, k, r, q);
    DeliverOneIsAdmitted(c, s, k + 1, payload, Some(s.Src().data), relayer);
    OneOffer(TurnsOf(k, r, q), c.limits, relayer, Message(k + 1, payload));
    var a := DeliverNext(c, s, relayer);
    assert a == DeliverOne(c, s, k + 1, payload, Some(s.Src().data), relayer);
    assert AfterDelivery(c, s, a.proof, relayer).Tgt().dispatched == s.Tgt().dispatched + [];
  }

  /** With the generated nonce back at zero no delivery can be confirmed, and a full lane takes nothing. */
  lemma WrappedLaneIsStuck(c: Config, s: System, payload: Payload, r: RelayerId, q: RelayerId, relayer: RelayerId)
    requires LimitsAllowOne(c) && Capacity(c) < U64_MAX && Wrapped(c, s, TurnsOf(Capacity(c), r, q), payload)
    ensures !NotStuck(c, s, relayer)
  {
    var s1 := Next(c, s, CatchUp(s));
    NextTurn(c, Capacity(c), r, q);
    assert ConfirmationOf(s.Src().data, s.Tgt().data) == Err(FailedToConfirmFutureMessages);
    assert s1.Src() == s.Src() && s1.Tgt() == s.Tgt() && s1.sent == s.sent;
    FullLaneRefuses(c, s1, payload, r, q, relayer);
  }

  lemma BoundlessLaneAccepts(c: Config, data: InboundLaneData)
    requires Capacity(c) == U64_MAX && WellFormed(data) && data.LastDelivered() < U64_MAX
    ensures ReceptionVerdict(data, c.limits, data.LastDelivered() + 1) == Accepted
  {
    ChainCovers(data.relayers, data.lastConfirmed + 1);
  }

  lemma BoundlessUpdateAccepts(c: Config, s: System)
    requires Capacity(c) == U64_MAX && RecordInv(c, s) && s.Tgt().data.LastDelivered() < U64_MAX
    ensures var data := AfterStateUpdate(s.Tgt().data, s.Src().data.latestReceived);
            ReceptionVerdict(data, c.limits, s.Tgt().data.LastDelivered() + 1) == Accepted
  {
    assert RecordGood(c, s.Tgt(), s.deliveredBy);
    UpdateKeepsRecord(c, s.Tgt(), s.deliveredBy, s.Src().data.latestReceived);
    BoundlessLaneAccepts(c, AfterStateUpdate(s.Tgt().data, s.Src().data.latestReceived));
  }

  /** A lane without limits takes the next message even if nothing can be confirmed. */
  lemma BoundlessLaneTakesNext(c: Config, s: System, relayer: RelayerId)
    requires Capacity(c) == U64_MAX && RecordInv(c, s)
    requires s.Tgt().data.LastDelivered() < Min(|s.sent|, U64_MAX)
    requires var n: Nonce := s.Tgt().data.LastDelivered() + 1;
             (c.lane, n) in s.Src().messages && s.Src().messages[(c.lane, n)] == s.sent[n - 1]
    ensures TakesNext(c, s, relayer)
  {
    var n := s.Tgt().data.LastDelivered();
    DeliverOneIsAdmitted(c, s, n + 1, s.sent[n], Some(s.Src().data), relayer);
    BoundlessUpdateAccepts(c, s);
    OneOffer(AfterStateUpdate(s.Tgt().data, s.Src().data.latestReceived), c.limits, relayer,
             Message(n + 1, s.sent[n]));
  }

  lemma CatchUpOnlyConfirms(c: Config, s: System)
    requires s.Live()
    ensures var s1 := Next(c, s, CatchUp(s));
            s1.sent == s.sent && s1.Tgt() == s.Tgt() && s1.Src().messages == s.Src().messages
  {
  }

  lemma BoundlessLaneIsNotStuck(c: Config, s: System, relayer: RelayerId)
    requires Capacity(c) == U64_MAX && RecordInv(c, s) && UndispatchedStored(c, s)
    ensures NotStuck(c, s, relayer)
  {
    if s.Tgt().data.LastDelivered() < Min(|s.sent|, U64_MAX) {
      CatchUpOnlyConfirms(c, s);
      StepKeepsRecord(c, s, CatchUp(s));
      BoundlessLaneTakesNext(c, Next(c, s, CatchUp(s)), relayer);
    }
  }

  lemma BoundlessLaneIsNeverStuck(c: Config, actions: seq<Action>, relayer: RelayerId)
    requires Capacity(c) == U64_MAX && NoncesUnique(Exec(c, actions))
    ensures NotStuck(c, Exec(c, actions), relayer)
  {
    RunKeepsRecord(c, actions);
    RunStoresUndispatched(c, actions);
    BoundlessLaneIsNotStuck(c, Exec(c, actions), relayer);
  }

  /** Once the first nonce is overwritten, the first message can no longer be delivered. */
  lemma OverwrittenLaneIsStuck(c: Config, payloads: seq<Payload>, relayer: RelayerId)
    requires LimitsAllowOne(c) && |payloads| == U64_MAX + 2 && payloads[0] != payloads[|payloads| - 1]
    ensures |Exec(c, Sends(payloads)).sent| == U64_MAX + 2 && !NotStuck(c, Exec(c, Sends(payloads)), relayer)
  {
    var s := Exec(c, Sends(payloads));
    SendsOnlySend(c, payloads);
    SendsConfirmNothing(c, payloads);
    var s1 := Next(c, s, CatchUp(s));
    assert s1.Src() == s.Src() && s1.Tgt() == s.Tgt() && s1.sent == s.sent;
    var a, one: Nonce := DeliverNext(c, s1, relayer), 1;
    assert one in a.proof.messages && a.proof.messages[one] != s1.Src().messages[(c.lane, one)];
    assert Next(c, s1, a) == s1;
  }

  /** Messages up to which no lane gets stuck. */
  function ProgressBound(c: Config): nat {
    if Capacity(c) < U64_MAX then U64_MAX else U64_MAX + 1
  }

  lemma NeverStuckWithinBound(c: Config, actions: seq<Action>, relayer: RelayerId)
    requires |Exec(c, actions).sent| <= ProgressBound(c)
    ensures NotStuck(c, Exec(c, actions), relayer)
  {
    if Capacity(c) < U64_MAX {
      LaneIsNeverStuck(c, actions, relayer);
    } else {
      BoundlessLaneIsNeverStuck(c, actions, relayer);
    }
  }

  lemma StuckBeyondBound(c: Config, first: Payload, other: Payload, r: RelayerId, q: RelayerId)
    returns (actions: seq<Action>)
    requires LimitsAllowOne(c) && first != other && r != q
    ensures |Exec(c, actions).sent| == ProgressBound(c) + 1 && !NotStuck(c, Exec(c, actions), r)
  {
    if Capacity(c) < U64_MAX {
      actions := WrappedRun(c, Capacity(c), first, r, q);
      WrappedLaneIsStuck(c, Exec(c, actions), first, r, q, r);
    } else {
      var payloads := seq(U64_MAX + 2, i => if i == 0 then first else other);
      OverwrittenLaneIsStuck(c, payloads, r);
      actions := Sends(payloads);
    }
  }

  /**
   No message is ever stuck in all runs with up to `bound` messages if and only if that is at most
   2^64 - 1, or 2^64 for a lane whose limits are never reached.
   */
  lemma ProgressBoundIsExact(c: Config, bound: nat, first: Payload, other: Payload, r: RelayerId, q: RelayerId)
    requires LimitsAllowOne(c) && first != other && r != q
    ensures (forall actions :: |Exec(c, actions).sent| <= bound ==> NotStuck(c, Exec(c, actions), r))
       <==> bound <= ProgressBound(c)
  {
    if bound <= ProgressBound(c) {
      forall actions | |Exec(c, actions).sent| <= bound ensures NotStuck(c, Exec(c, actions), r) {
        NeverStuckWithinBound(c, actions, r);
      }
    } else {
      var actions := StuckBeyondBound(c, first, other, r, q);
    }
  }
}
