/** What holds in every run of the two-chain system. */
module LaneTheorems {
  import opened LaneTypes
  import opened RelayerDeque
  import opened OutboundLanes
  import opened Rewards
  import opened MessagesPallets
  import opened LaneProtocol
  import opened Pruning

  // ---------- From steps to runs ----------

  lemma StepKeepsRecord(c: Config, s: System, a: Action)
    requires RecordInv(c, s)
    ensures RecordInv(c, Next(c, s, a))
  {
    assert s.sources[|s.sources| - 1] == s.Src();
    match a
    case Send(payload) => SourceStepKeepsRecord(c, s, Next(c, s, a));
    case Deliver(at, proof, count, relayer, admitted) =>
      if at < |s.sources| && Faithful(proof, c.lane, s.sources[at]) && admitted && Proved(proof, count).Ok? {
        DeliveryKeepsRecord(c, s, at, proof, relayer);
      }
    case Confirm(at) =>
      if at < |s.targets| {
        ConfirmationKeepsRecord(c, s, at);
      }
    case Prune(write, budget) =>
      if LoopEnds(s.Src().data, write) {
        SourceStepKeepsRecord(c, s, Next(c, s, a));
      }
  }

  /** In every run, with any number of messages. */
  lemma {:induction false} RunKeepsRecord(c: Config, actions: seq<Action>)
    ensures RecordInv(c, Exec(c, actions))
  {
    if actions == [] {
      assert RecordGood(c, Target(EMPTY_INBOUND_LANE, []), []);
    } else {
      RunKeepsRecord(c, actions[..|actions| - 1]);
      StepKeepsRecord(c, Exec(c, actions[..|actions| - 1]), actions[|actions| - 1]);
    }
  }

  lemma StepKeepsRewards(c: Config, s: System, a: Action)
    requires RecordInv(c, s) && RewardsExact(s) && s.Src().data.latestReceived < U64_MAX
    ensures RewardsExact(Next(c, s, a))
  {
    match a
    case Send(payload) =>
    case Deliver(at, proof, count, relayer, admitted) =>
      if at < |s.sources| && Faithful(proof, c.lane, s.sources[at]) && admitted && Proved(proof, count).Ok? {
        DeliveryKeepsRewards(c, s, proof, relayer);
      }
    case Confirm(at) =>
      if at < |s.targets| {
        ConfirmationKeepsRewards(c, s, at);
      }
    case Prune(write, budget) =>
  }

  /** Every remembered source state is still there after a step, so the received nonce does not fall. */
  lemma ReceivedGrows(c: Config, s: System, a: Action)
    requires RecordInv(c, s)
    ensures s.Src().data.latestReceived <= Next(c, s, a).Src().data.latestReceived
  {
    StepKeepsRecord(c, s, a);
    assert Next(c, s, a).sources[|s.sources| - 1] == s.Src();
  }

  lemma {:induction false} RunKeepsRewards(c: Config, actions: seq<Action>)
    requires Exec(c, actions).Src().data.latestReceived < U64_MAX
    ensures RewardsExact(Exec(c, actions))
  {
    if actions != [] {
      var init, last := actions[..|actions| - 1], actions[|actions| - 1];
      RunKeepsRecord(c, init);
      ReceivedGrows(c, Exec(c, init), last);
      RunKeepsRewards(c, init);
      StepKeepsRewards(c, Exec(c, init), last);
    }
  }

  lemma StepKeepsDelivery(c: Config, s: System, a: Action)
    requires DeliveryInv(c, s) && NoncesUnique(Next(c, s, a))
    ensures DeliveryInv(c, Next(c, s, a))
  {
    StepKeepsRecord(c, s, a);
    assert s.sources[|s.sources| - 1] == s.Src() && Shows(c, s.Src(), s.sent);
    match a
    case Send(payload) =>
      SendShows(c, s.Src(), s.sent, payload);
      SourceStepKeepsDelivery(c, s, Next(c, s, a));
    case Deliver(at, proof, count, relayer, admitted) =>
      if at < |s.sources| && Faithful(proof, c.lane, s.sources[at]) && admitted && Proved(proof, count).Ok? {
        DeliveryKeepsDelivery(c, s, at, proof, relayer);
      }
    case Confirm(at) =>
      if at < |s.targets| {
        SourceStepKeepsDelivery(c, s, Next(c, s, a));
      }
    case Prune(write, budget) =>
      if LoopEnds(s.Src().data, write) {
        SourceStepKeepsDelivery(c, s, Next(c, s, a));
      }
  }

  lemma {:induction false} RunKeepsDelivery(c: Config, actions: seq<Action>)
    requires NoncesUnique(Exec(c, actions))
    ensures DeliveryInv(c, Exec(c, actions))
  {
    RunKeepsRecord(c, actions);
    if actions != [] {
      RunKeepsDelivery(c, actions[..|actions| - 1]);
      StepKeepsDelivery(c, Exec(c, actions[..|actions| - 1]), actions[|actions| - 1]);
    }
  }

  // ---------- Theorems ----------

  /** What was dispatched is a prefix of what was sent, each message under its nonce. */
  ghost predicate InOrder(s: System)
    requires s.Live()
  {
    var dispatched := s.Tgt().dispatched;
    && |dispatched| <= |s.sent|
    && forall i :: 0 <= i < |dispatched| ==> dispatched[i].nonce == i + 1 && dispatched[i].payload == s.sent[i]
  }

  /** Messages are dispatched exactly once, in the order of sending, with the payload that was sent. */
  lemma DispatchedIsPrefixOfSent(c: Config, actions: seq<Action>)
    requires NoncesUnique(Exec(c, actions))
    ensures var s := Exec(c, actions);
            InOrder(s) && |s.Tgt().dispatched| == s.Tgt().data.LastDelivered()
  {
    RunKeepsDelivery(c, actions);
    var s := Exec(c, actions);
    assert s.targets[|s.targets| - 1] == s.Tgt();
    assert RecordGood(c, s.Tgt(), s.deliveredBy) && IsPrefix(s.Tgt().dispatched, s.sent);
  }

  ghost predicate CountersOrdered(s: System)
    requires s.Live()
  {
    s.Tgt().data.lastConfirmed <= s.Src().data.latestReceived
    <= s.Tgt().data.LastDelivered() <= s.Src().data.latestGenerated
  }

  lemma RecordOrdersCounters(c: Config, s: System)
    requires RecordInv(c, s)
    ensures s.Tgt().data.lastConfirmed <= s.Src().data.latestReceived <= s.Tgt().data.LastDelivered()
  {
    assert s.targets[|s.targets| - 1] == s.Tgt() && s.sources[|s.sources| - 1] == s.Src();
  }

  lemma DeliveredWereGenerated(c: Config, s: System)
    requires DeliveryInv(c, s) && NoncesUnwrapped(s)
    ensures s.Tgt().data.LastDelivered() <= |s.sent| == s.Src().data.latestGenerated
  {
    assert s.targets[|s.targets| - 1] == s.Tgt();
    assert RecordGood(c, s.Tgt(), s.deliveredBy) && IsPrefix(s.Tgt().dispatched, s.sent);
  }

  /** The generated nonce is the number of sent messages until it wraps. */
  lemma GeneratedIsSent(c: Config, actions: seq<Action>)
    requires NoncesUnwrapped(Exec(c, actions))
    ensures Exec(c, actions).Src().data.latestGenerated == |Exec(c, actions).sent|
  {
    RunKeepsDelivery(c, actions);
    DeliveredWereGenerated(c, Exec(c, actions));
  }

  /**
   The four counters of a lane are always ordered, although each chain sees only old states of the
   other; the first three in every run, and the generated nonce as long as it has not wrapped.
   */
  lemma CountersAreOrdered(c: Config, actions: seq<Action>)
    ensures var s := Exec(c, actions);
            && s.Tgt().data.lastConfirmed <= s.Src().data.latestReceived <= s.Tgt().data.LastDelivered()
            && (NoncesUnwrapped(s) ==> CountersOrdered(s))
  {
    var s := Exec(c, actions);
    RunKeepsRecord(c, actions);
    RecordOrdersCounters(c, s);
    if NoncesUnwrapped(s) {
      RunKeepsDelivery(c, actions);
      DeliveredWereGenerated(c, s);
    }
  }

  /** Everything but the generated nonce, which restarts when it wraps. */
  ghost predicate CountersGrow(s: System, s': System)
    requires s.Live() && s'.Live()
  {
    && s.Tgt().data.lastConfirmed <= s'.Tgt().data.lastConfirmed
    && s.Src().data.latestReceived <= s'.Src().data.latestReceived
    && s.Tgt().data.LastDelivered() <= s'.Tgt().data.LastDelivered()
    && s.Tgt().dispatched <= s'.Tgt().dispatched
    && s.sent <= s'.sent
  }

  lemma DeliveryGrowsCounters(c: Config, s: System, at: nat, proof: MessagesProof, relayer: RelayerId)
    requires RecordInv(c, s) && at < |s.sources| && Faithful(proof, c.lane, s.sources[at]) && AllRead(proof)
    ensures CountersGrow(s, AfterDelivery(c, s, proof, relayer))
  {
    DeliveryMakesGoodTarget(c, s, proof, relayer);
    DeliveryConfirmsNothingNew(c, s, at, proof, relayer);
  }

  lemma StepGrowsCounters(c: Config, s: System, a: Action)
    requires RecordInv(c, s)
    ensures CountersGrow(s, Next(c, s, a))
  {
    ReceivedGrows(c, s, a);
    match a
    case Send(payload) =>
    case Deliver(at, proof, count, relayer, admitted) =>
      if at < |s.sources| && Faithful(proof, c.lane, s.sources[at]) && admitted && Proved(proof, count).Ok? {
        DeliveryGrowsCounters(c, s, at, proof, relayer);
      }
    case Confirm(at) =>
    case Prune(write, budget) =>
  }

  lemma GrowthIsTransitive(s: System, s1: System, s2: System)
    requires s.Live() && s1.Live() && s2.Live()
    requires CountersGrow(s, s1) && CountersGrow(s1, s2)
    ensures CountersGrow(s, s2)
  {
  }

  /** Along every run three of the counters, the sent and the dispatched messages only grow. */
  lemma {:induction false} CountersNeverShrink(c: Config, actions: seq<Action>, more: seq<Action>)
    ensures CountersGrow(Exec(c, actions), Exec(c, actions + more))
    decreases |more|
  {
    if more == [] {
      assert actions + more == actions;
    } else {
      var init, last := more[..|more| - 1], more[|more| - 1];
      assert actions + more == (actions + init) + [last];
      ExecStep(c, actions + init, last);
      CountersNeverShrink(c, actions, init);
      RunKeepsRecord(c, actions + init);
      StepGrowsCounters(c, Exec(c, actions + init), last);
      GrowthIsTransitive(Exec(c, actions), Exec(c, actions + init), Exec(c, actions + more));
    }
  }

  /** So does the generated nonce, until it wraps. */
  lemma GeneratedNeverShrinks(c: Config, actions: seq<Action>, more: seq<Action>)
    requires NoncesUnwrapped(Exec(c, actions + more))
    ensures Exec(c, actions).Src().data.latestGenerated <= Exec(c, actions + more).Src().data.latestGenerated
  {
    CountersNeverShrink(c, actions, more);
    GeneratedIsSent(c, actions);
    GeneratedIsSent(c, actions + more);
  }

  /** No state the target ever had makes the source refuse a confirmation. */
  ghost predicate AcceptsEveryProof(s: System)
    requires s.Live()
  {
    forall at :: 0 <= at < |s.targets| ==> ConfirmationOf(s.Src().data, s.targets[at].data).Ok?
  }

  lemma ConfirmationNeverFails(c: Config, actions: seq<Action>)
    requires InBounds(Exec(c, actions))
    ensures AcceptsEveryProof(Exec(c, actions))
  {
    RunKeepsDelivery(c, actions);
    var s := Exec(c, actions);
    forall at | 0 <= at < |s.targets| ensures ConfirmationOf(s.Src().data, s.targets[at].data).Ok? {
      EveryProofIsAccepted(c, s, at);
    }
  }

  /** No state the source ever had claims more deliveries than the target made. */
  lemma StateUpdateIsNeverFromTheFuture(c: Config, actions: seq<Action>, at: nat)
    requires at < |Exec(c, actions).sources|
    ensures var s := Exec(c, actions);
            s.sources[at].data.latestReceived <= s.Tgt().data.LastDelivered()
  {
    RunKeepsRecord(c, actions);
  }

  /** The deque always stands for the true delivery record of the unconfirmed nonces, within its limits. */
  lemma DequeIsDeliveryRecord(c: Config, actions: seq<Action>)
    ensures var s := Exec(c, actions);
            var data := s.Tgt().data;
            && WellFormed(data) && WithinLimits(data, c.limits)
            && data.LastDelivered() == |s.deliveredBy|
            && (forall n :: n in Deliveries(data) <==> data.lastConfirmed < n <= |s.deliveredBy|)
            && (forall n :: n in Deliveries(data) ==> Deliveries(data)[n] == s.deliveredBy[n - 1])
  {
    RunKeepsRecord(c, actions);
    var s := Exec(c, actions);
    assert RecordGood(c, s.Tgt(), s.deliveredBy);
    ChainCovers(s.Tgt().data.relayers, s.Tgt().data.lastConfirmed + 1);
  }

  /** Who delivered the nonces that a target state holds as unconfirmed. */
  ghost function UnconfirmedBy(record: seq<RelayerId>, t: Target): seq<RelayerId>
    requires t.data.lastConfirmed <= t.data.LastDelivered() <= |record|
  {
    record[t.data.lastConfirmed..t.data.LastDelivered()]
  }

  ghost predicate OnlyTrueStateIsDeclared(record: seq<RelayerId>, t: Target, declared: UnrewardedRelayersState) {
    && t.data.lastConfirmed <= t.data.LastDelivered() == |t.dispatched| <= |record|
    && (declared == t.data.RelayersState() <==> Describes(declared, UnconfirmedBy(record, t), |t.dispatched|))
  }

  lemma GoodRecordIsDeclared(c: Config, t: Target, record: seq<RelayerId>, declared: UnrewardedRelayersState)
    requires RecordGood(c, t, record)
    ensures OnlyTrueStateIsDeclared(record, t, declared)
  {
    ChainCovers(t.data.relayers, t.data.lastConfirmed + 1);
    DeclaredStateIff(t.data, UnconfirmedBy(record, t), declared);
  }

  /**
   Whatever happened, a relayer that proves a state of the target has to declare what the delivery record
   says: the number of runs, the length of the oldest run, and the number of unconfirmed messages.
   */
  lemma DeclaredStateIsTheRecord(c: Config, actions: seq<Action>, at: nat, declared: UnrewardedRelayersState)
    requires at < |Exec(c, actions).targets|
    ensures OnlyTrueStateIsDeclared(Exec(c, actions).deliveredBy, Exec(c, actions).targets[at], declared)
  {
    RunKeepsRecord(c, actions);
    var s := Exec(c, actions);
    assert RecordGood(c, s.targets[at], s.deliveredBy);
    GoodRecordIsDeclared(c, s.targets[at], s.deliveredBy, declared);
  }

  /** Every confirmed message is paid once, to the relayer that delivered it. */
  lemma RelayersArePaidExactlyOnce(c: Config, actions: seq<Action>)
    requires Exec(c, actions).Src().data.latestReceived < U64_MAX
    ensures RewardsExact(Exec(c, actions))
  {
    RunKeepsRewards(c, actions);
  }

  // ---------- Storage of the source ----------

  /** In no pruning of the run do two writes wrap to a cost of zero. */
  ghost predicate WritesAddUp(actions: seq<Action>) {
    forall i :: 0 <= i < |actions| && actions[i].Prune? ==> AddsUp(actions[i].write)
  }

  /** The stored messages are exactly the generated ones that are not pruned. */
  ghost predicate StorageInStep(c: Config, s: System)
    requires s.Live()
  {
    Ordered(s.Src().data) && StoredExactly(s.Src().messages, c.lane, s.Src().data)
  }

  lemma SendKeepsStored(messages: Messages, lane: LaneId, data: OutboundLaneData, payload: Payload)
    requires StoredExactly(messages, lane, data) && Ordered(data) && data.latestGenerated < U64_MAX
    ensures StoredExactly(messages[(lane, NextNonce(data.latestGenerated)) := payload], lane, AfterSend(data))
  {
  }

  lemma PruneKeepsStored(c: Config, s: System, write: U64, budget: U64)
    requires s.Live() && StorageInStep(c, s) && s.Src().data.latestReceived < U64_MAX && AddsUp(write)
    ensures StorageInStep(c, AfterPruning(c, s, write, budget))
  {
    PruneKeepsStorageIff(s.Src().messages, c.lane, s.Src().data, write, budget);
    PruneKeepsStorageBelowLast(s.Src().data, write, budget);
  }

  lemma ConfirmationKeepsStored(c: Config, s: System, proved: InboundLaneData)
    requires s.Live() && StorageInStep(c, s)
    ensures StorageInStep(c, AfterConfirmation(s, proved))
  {
    ConfirmationAcceptedIff(s.Src().data, proved.TotalUnrewardedMessages(), proved.LastDelivered(), proved.relayers);
  }

  lemma StepKeepsStored(c: Config, s: System, a: Action)
    requires s.Live() && StorageInStep(c, s) && s.Src().data.latestReceived < U64_MAX
    requires a.Send? ==> s.Src().data.latestGenerated < U64_MAX
    requires a.Prune? ==> AddsUp(a.write)
    ensures StorageInStep(c, Next(c, s, a))
  {
    match a
    case Send(payload) => SendKeepsStored(s.Src().messages, c.lane, s.Src().data, payload);
    case Prune(write, budget) => PruneKeepsStored(c, s, write, budget);
    case Confirm(at) =>
      if at < |s.targets| {
        ConfirmationKeepsStored(c, s, s.targets[at].data);
      }
    case Deliver(_, _, _, _, _) =>
      assert Next(c, s, a).Src() == s.Src();
  }

  /** The stored messages are always exactly the generated ones that are not pruned. */
  lemma {:induction false} SourceStoresUnpruned(c: Config, actions: seq<Action>)
    requires InBounds(Exec(c, actions)) && WritesAddUp(actions)
    ensures StorageInStep(c, Exec(c, actions))
  {
    if actions != [] {
      var init, last := actions[..|actions| - 1], actions[|actions| - 1];
      RunKeepsRecord(c, init);
      ReceivedGrows(c, Exec(c, init), last);
      GeneratedIsSent(c, init);
      SourceStoresUnpruned(c, init);
      StepKeepsStored(c, Exec(c, init), last);
    }
  }

  /** Whatever pruning costs, messages that are not confirmed stay. */
  ghost predicate UnreceivedStored(s: System, lane: LaneId)
    requires s.Live()
  {
    forall n: Nonce :: s.Src().data.latestReceived < n <= |s.sent| ==> (lane, n) in s.Src().messages
  }

  lemma SendKeepsUnreceived(c: Config, s: System, payload: Payload)
    requires s.Live() && UnreceivedStored(s, c.lane) && s.Src().data.latestGenerated == Wrap(|s.sent|)
    ensures UnreceivedStored(Next(c, s, Send(payload)), c.lane)
  {
    WrapStep(|s.sent|, 1);
  }

  lemma PruneKeepsUnreceived(c: Config, s: System, write: U64, budget: U64)
    requires s.Live() && UnreceivedStored(s, c.lane) && LoopEnds(s.Src().data, write)
    ensures UnreceivedStored(AfterPruning(c, s, write, budget), c.lane)
  {
    if s.Src().data.latestReceived < U64_MAX {
      PruneRemovesConfirmed(s.Src().data, write, budget);
    }
  }

  lemma ConfirmationKeepsUnreceived(c: Config, s: System, proved: InboundLaneData)
    requires s.Live() && UnreceivedStored(s, c.lane)
    ensures UnreceivedStored(AfterConfirmation(s, proved), c.lane)
  {
    ConfirmationAcceptedIff(s.Src().data, proved.TotalUnrewardedMessages(), proved.LastDelivered(), proved.relayers);
  }

  lemma StepKeepsUnreceived(c: Config, s: System, a: Action)
    requires s.Live() && UnreceivedStored(s, c.lane) && s.Src().data.latestGenerated == Wrap(|s.sent|)
    ensures UnreceivedStored(Next(c, s, a), c.lane)
  {
    match a
    case Send(payload) => SendKeepsUnreceived(c, s, payload);
    case Deliver(_, _, _, _, _) =>
      assert Next(c, s, a).Src() == s.Src() && Next(c, s, a).sent == s.sent;
    case Confirm(at) =>
      if at < |s.targets| {
        ConfirmationKeepsUnreceived(c, s, s.targets[at].data);
      }
    case Prune(write, budget) =>
      if LoopEnds(s.Src().data, write) {
        PruneKeepsUnreceived(c, s, write, budget);
      }
  }

  lemma {:induction false} RunKeepsUnreceived(c: Config, actions: seq<Action>)
    requires NoncesUnique(Exec(c, actions))
    ensures UnreceivedStored(Exec(c, actions), c.lane)
  {
    if actions != [] {
      var init := actions[..|actions| - 1];
      RunKeepsUnreceived(c, init);
      RunKeepsDelivery(c, init);
      StepKeepsUnreceived(c, Exec(c, init), actions[|actions| - 1]);
    }
  }

  lemma UndeliveredIsShown(c: Config, s: System, n: Nonce)
    requires DeliveryInv(c, s) && UnreceivedStored(s, c.lane)
    requires s.Tgt().data.LastDelivered() < n <= |s.sent|
    ensures (c.lane, n) in s.Src().messages && s.Src().messages[(c.lane, n)] == s.sent[n - 1]
  {
    RecordOrdersCounters(c, s);
    assert s.sources[|s.sources| - 1] == s.Src() && Shows(c, s.Src(), s.sent);
  }

  /** Every message that is still to be dispatched is stored at the source, with its payload. */
  lemma UndispatchedIsStored(c: Config, actions: seq<Action>, n: Nonce)
    requires NoncesUnique(Exec(c, actions))
    requires Exec(c, actions).Tgt().data.LastDelivered() < n <= |Exec(c, actions).sent|
    ensures var s := Exec(c, actions);
            (c.lane, n) in s.Src().messages && s.Src().messages[(c.lane, n)] == s.sent[n - 1]
  {
    RunKeepsDelivery(c, actions);
    RunKeepsUnreceived(c, actions);
    UndeliveredIsShown(c, Exec(c, actions), n);
  }

  // ---------- Progress ----------

  /** An honest relayer's confirmation of the current target state. */
  ghost function CatchUp(s: System): Action
    requires s.Live()
  {
    Confirm(|s.targets| - 1)
  }

  /** A delivery of one message, shown by the current source state. */
  ghost function DeliverOne(c: Config, s: System, n: Nonce, payload: Payload, laneState: Option<OutboundLaneData>,
                            relayer: RelayerId): Action
    requires s.Live()
  {
    Deliver(|s.sources| - 1, MessagesProof(c.lane, map[n := payload], laneState, n, n, FLAWLESS), 1, relayer, true)
  }

  /** An honest relayer's delivery of the next message together with the current source state. */
  ghost function DeliverNext(c: Config, s: System, relayer: RelayerId): Action
    requires s.Live() && s.Tgt().data.LastDelivered() < Min(|s.sent|, U64_MAX)
  {
    var n := s.Tgt().data.LastDelivered();
    DeliverOne(c, s, n + 1, s.sent[n], Some(s.Src().data), relayer)
  }

  /** With a zero limit a lane takes nothing at all. */
  predicate LimitsAllowOne(c: Config) {
    c.limits.maxUnrewardedRelayerEntries >= 1 && c.limits.maxUnconfirmedMessages >= 1
  }

  lemma ConfirmedDequeIsEmpty(data: InboundLaneData)
    requires WellFormed(data)
    ensures var after := AfterStateUpdate(data, data.LastDelivered());
            after == InboundLaneData([], data.LastDelivered())
  {
    ChainCovers(data.relayers, data.lastConfirmed + 1);
    if IsNewConfirmation(data, data.LastDelivered()) {
      StateUpdateRefinesMap(data, data.LastDelivered());
      var after := AfterStateUpdate(data, data.LastDelivered());
      ChainCovers(after.relayers, after.lastConfirmed + 1);
    }
  }

  /** What a lane with nothing left to confirm takes of a single next message. */
  function TakenOfOne(c: Config, message: Message): seq<Message> {
    if LimitsAllowOne(c) then [message] else []
  }

  function LaneAfterOne(c: Config, n: Nonce, relayer: RelayerId): InboundLaneData
    requires n >= 1
  {
    InboundLaneData(
      if LimitsAllowOne(c) then [UnrewardedRelayer(relayer, DeliveredMessages(n, n))] else [], n - 1)
  }

  lemma FreshLaneTakesOne(c: Config, message: Message, relayer: RelayerId)
    requires message.nonce >= 1
    ensures var data := InboundLaneData([], message.nonce - 1);
            && DispatchedOf(data, c.limits, relayer, [message]) == TakenOfOne(c, message)
            && AfterBundle(data, c.limits, relayer, [message]) == LaneAfterOne(c, message.nonce, relayer)
  {
    var data := InboundLaneData([], message.nonce - 1);
    assert [message][..0] == [];
    assert DispatchedOf(data, c.limits, relayer, []) == [];
  }

  lemma DeliverOneIsAdmitted(c: Config, s: System, n: Nonce, payload: Payload, laneState: Option<OutboundLaneData>,
                             relayer: RelayerId)
    requires s.Live()
    requires (c.lane, n) in s.Src().messages && s.Src().messages[(c.lane, n)] == payload
    requires laneState.Some? ==> laneState.value == s.Src().data
    ensures var a := DeliverOne(c, s, n, payload, laneState, relayer);
            && AllRead(a.proof) && ReadMessages(a.proof) == [Message(n, payload)]
            && Next(c, s, a) == AfterDelivery(c, s, a.proof, relayer)
  {
  }

  /** The step from `s` to `s'` delivered message `n` to a lane with nothing left to confirm. */
  ghost predicate TookOne(c: Config, s: System, s': System, n: Nonce, payload: Payload, relayer: RelayerId)
    requires s.Live() && s'.Live() && n >= 1
  {
    && s'.sources == s.sources && s'.sent == s.sent && s'.payouts == s.payouts
    && s'.Tgt().dispatched == s.Tgt().dispatched + TakenOfOne(c, Message(n, payload))
    && |s'.deliveredBy| == |s.deliveredBy| + |TakenOfOne(c, Message(n, payload))|
    && s'.Tgt().data == LaneAfterOne(c, n, relayer)
  }

  lemma FreshLaneTakesBundle(c: Config, s: System, n: Nonce, payload: Payload, proof: MessagesProof, relayer: RelayerId)
    requires s.Live() && n >= 1 && AllRead(proof) && ReadMessages(proof) == [Message(n, payload)]
    requires AfterOptionalUpdate(s.Tgt().data, proof.laneState) == InboundLaneData([], n - 1)
    ensures TookOne(c, s, AfterDelivery(c, s, proof, relayer), n, payload, relayer)
  {
    FreshLaneTakesOne(c, Message(n, payload), relayer);
    assert AfterDelivery(c, s, proof, relayer)
        == WithDelivery(s, LaneAfterOne(c, n, relayer), TakenOfOne(c, Message(n, payload)), relayer);
  }

  lemma FreshLaneTakesDelivery(c: Config, s: System, n: Nonce, payload: Payload, laneState: Option<OutboundLaneData>,
                               relayer: RelayerId)
    requires s.Live() && n >= 1
    requires (c.lane, n) in s.Src().messages && s.Src().messages[(c.lane, n)] == payload
    requires laneState.Some? ==> laneState.value == s.Src().data
    requires AfterOptionalUpdate(s.Tgt().data, laneState) == InboundLaneData([], n - 1)
    ensures TookOne(c, s, Next(c, s, DeliverOne(c, s, n, payload, laneState, relayer)), n, payload, relayer)
  {
    DeliverOneIsAdmitted(c, s, n, payload, laneState, relayer);
    FreshLaneTakesBundle(c, s, n, payload, DeliverOne(c, s, n, payload, laneState, relayer).proof, relayer);
  }

  /** The next message, brought together with the current source state, is dispatched; not so with a zero limit. */
  ghost predicate TakesNext(c: Config, s: System, relayer: RelayerId)
    requires s.Live() && s.Tgt().data.LastDelivered() < Min(|s.sent|, U64_MAX)
  {
    var n := s.Tgt().data.LastDelivered();
    Next(c, s, DeliverNext(c, s, relayer)).Tgt().dispatched
    == s.Tgt().dispatched + TakenOfOne(c, Message(n + 1, s.sent[n]))
  }

  /** If a message is left, two honest transactions deliver it. */
  ghost predicate NotStuck(c: Config, s: System, relayer: RelayerId)
    requires s.Live()
  {
    s.Tgt().data.LastDelivered() < Min(|s.sent|, U64_MAX) ==>
      var s1 := Next(c, s, CatchUp(s));
      s1.sent == s.sent && s1.Tgt() == s.Tgt() && TakesNext(c, s1, relayer)
  }

  lemma FreshLaneTakesNext(c: Config, s: System, relayer: RelayerId)
    requires s.Live() && WellFormed(s.Tgt().data)
    requires s.Src().data.latestReceived == s.Tgt().data.LastDelivered() < Min(|s.sent|, U64_MAX)
    requires var n: Nonce := s.Tgt().data.LastDelivered() + 1;
             (c.lane, n) in s.Src().messages && s.Src().messages[(c.lane, n)] == s.sent[n - 1]
    ensures TakesNext(c, s, relayer)
  {
    var n := s.Tgt().data.LastDelivered();
    ConfirmedDequeIsEmpty(s.Tgt().data);
    FreshLaneTakesDelivery(c, s, n + 1, s.sent[n], Some(s.Src().data), relayer);
  }

  lemma CatchUpConfirmsEverything(c: Config, s: System)
    requires DeliveryInv(c, s) && InBounds(s)
    ensures var s1 := Next(c, s, CatchUp(s));
            && s1.sent == s.sent && s1.targets == s.targets
            && s1.Src().messages == s.Src().messages
            && s1.Src().data.latestReceived == s.Tgt().data.LastDelivered()
  {
    EveryProofIsAccepted(c, s, |s.targets| - 1);
    assert s.sources[|s.sources| - 1] == s.Src();
  }

  lemma NotStuckFrom(c: Config, s: System, relayer: RelayerId)
    requires DeliveryInv(c, s) && InBounds(s) && s.Tgt().data.LastDelivered() < |s.sent|
    requires var n: Nonce := s.Tgt().data.LastDelivered() + 1;
             (c.lane, n) in s.Src().messages && s.Src().messages[(c.lane, n)] == s.sent[n - 1]
    ensures NotStuck(c, s, relayer)
  {
    CatchUpConfirmsEverything(c, s);
    assert RecordGood(c, s.Tgt(), s.deliveredBy);
    FreshLaneTakesNext(c, Next(c, s, CatchUp(s)), relayer);
  }

  /**
   A lane is never stuck: from every reachable state two honest transactions deliver the next
   message, unless a limit is configured to be zero.
   */
  lemma LaneIsNeverStuck(c: Config, actions: seq<Action>, relayer: RelayerId)
    requires NoncesUnwrapped(Exec(c, actions))
    ensures NotStuck(c, Exec(c, actions), relayer)
  {
    var s := Exec(c, actions);
    if s.Tgt().data.LastDelivered() < |s.sent| {
      RunKeepsDelivery(c, actions);
      CountersAreOrdered(c, actions);
      UndispatchedIsStored(c, actions, s.Tgt().data.LastDelivered() + 1);
      NotStuckFrom(c, s, relayer);
    }
  }
}
