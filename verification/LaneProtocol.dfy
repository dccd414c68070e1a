/**
 The two ends of one lane as a single system. Each chain acts on proofs of the other chain, and a
 proof shows some state the other chain once had: it may be arbitrarily old, may arrive in any
 order and may be used again and again.
 */
module LaneProtocol {
  import opened LaneTypes
  import opened RelayerDeque
  import opened OutboundLanes
  import opened Rewards
  import opened MessagesPallets
  import opened Pruning

  datatype Config = Config(lane: LaneId, limits: Limits)

  /** The part of the source chain that proofs can show. */
  datatype Source = Source(data: OutboundLaneData, messages: Messages)

  /** The target chain: its lane data and everything it has dispatched. */
  datatype Target = Target(data: InboundLaneData, dispatched: seq<Message>)

  /** One paid confirmation: the proved entries and the range they were paid for. */
  datatype Payout = Payout(relayers: seq<UnrewardedRelayer>, range: DeliveredMessages)

  datatype System = System(
    sources: seq<Source>,            // every state of the source chain, the current one last
    targets: seq<Target>,            // every state of the target chain, the current one last
    sent: seq<Payload>,              // payloads handed to the source lane, in order
    deliveredBy: seq<RelayerId>,     // who delivered nonce n, at index n - 1
    payouts: seq<Payout>)
  {
    ghost predicate Live() {
      sources != [] && targets != []
    }

    function Src(): Source
      requires Live()
    {
      sources[|sources| - 1]
    }

    function Tgt(): Target
      requires Live()
    {
      targets[|targets| - 1]
    }
  }

  const INITIAL := System([Source(EMPTY_OUTBOUND_LANE, map[])], [Target(EMPTY_INBOUND_LANE, [])], [], [], [])

  datatype Action =
    | Send(payload: Payload)
      // a delivery transaction with a proof of source state number `at`; `admitted` is false when the
      // pallet turns it down for reasons outside the lane (halted, inactive dispatcher, weight)
    | Deliver(at: nat, proof: MessagesProof, count: nat, relayer: RelayerId, admitted: bool)
      // a confirmation transaction with a proof of target state number `at`
    | Confirm(at: nat)
    | Prune(write: U64, budget: U64)

  /** Every value the proof shows was in the storage of that source state. */
  ghost predicate Faithful(proof: MessagesProof, lane: LaneId, source: Source) {
    && proof.lane == lane
    && (forall n :: n in proof.messages ==>
          (lane, n) in source.messages && source.messages[(lane, n)] == proof.messages[n])
    && (proof.laneState.Some? ==> proof.laneState.value == source.data)
  }

  function Repeat(relayer: RelayerId, count: nat): seq<RelayerId> {
    seq(count, _ => relayer)
  }

  /** A new target state in which `relayer` delivered the messages `taken`. */
  ghost function WithDelivery(s: System, data: InboundLaneData, taken: seq<Message>, relayer: RelayerId): System
    requires s.Live()
  {
    s.(targets := s.targets + [Target(data, s.Tgt().dispatched + taken)],
       deliveredBy := s.deliveredBy + Repeat(relayer, |taken|))
  }

  ghost function AfterDelivery(c: Config, s: System, proof: MessagesProof, relayer: RelayerId): System
    requires s.Live() && AllRead(proof)
  {
    var messages := ReadMessages(proof);
    var data := AfterOptionalUpdate(s.Tgt().data, proof.laneState);
    WithDelivery(s, AfterBundle(data, c.limits, relayer, messages), DispatchedOf(data, c.limits, relayer, messages),
                 relayer)
  }

  ghost function AfterConfirmation(s: System, proved: InboundLaneData): System
    requires s.Live()
  {
    var outcome := ConfirmationOf(s.Src().data, proved);
    s.(sources := s.sources + [s.Src().(data := AfterConfirm(s.Src().data, outcome))],
       payouts := match outcome
                  case Ok(Some(range)) => s.payouts + [Payout(proved.relayers, range)]
                  case _ => s.payouts)
  }

  ghost function AfterPruning(c: Config, s: System, write: U64, budget: U64): System
    requires s.Live() && LoopEnds(s.Src().data, write)
  {
    var data := s.Src().data;
    s.(sources := s.sources + [Source(AfterPrune(data, write, budget),
                                      Unpruned(s.Src().messages, c.lane, data, PruneCount(data, write, budget)))])
  }

  ghost function Next(c: Config, s: System, a: Action): (s': System)
    requires s.Live()
    ensures s'.Live()
  {
    match a
    case Send(payload) =>
      var nonce := NextNonce(s.Src().data.latestGenerated);
      s.(sources := s.sources + [Source(AfterSend(s.Src().data), s.Src().messages[(c.lane, nonce) := payload])],
         sent := s.sent + [payload])
    case Deliver(at, proof, count, relayer, admitted) =>
      if at < |s.sources| && Faithful(proof, c.lane, s.sources[at]) && admitted && Proved(proof, count).Ok?
      then AfterDelivery(c, s, proof, relayer)
      else s
    case Confirm(at) =>
      if at < |s.targets| then AfterConfirmation(s, s.targets[at].data) else s
    case Prune(write, budget) =>
      if LoopEnds(s.Src().data, write) then AfterPruning(c, s, write, budget) else s
  }

  /** The system after a run, whatever the actions are. */
  ghost function Exec(c: Config, actions: seq<Action>): (s: System)
    ensures s.Live()
  {
    if actions == [] then INITIAL
    else Next(c, Exec(c, actions[..|actions| - 1]), actions[|actions| - 1])
  }

  lemma ExecStep(c: Config, actions: seq<Action>, a: Action)
    ensures Exec(c, actions + [a]) == Next(c, Exec(c, actions), a)
  {
    assert (actions + [a])[..|actions|] == actions;
  }

  // ---------- Deliveries and counters, in every run ----------

  /** A target state: its deque is in order and tells who delivered what. */
  ghost predicate RecordGood(c: Config, t: Target, record: seq<RelayerId>) {
    && WellFormed(t.data)
    && WithinLimits(t.data, c.limits)
    && t.data.LastDelivered() == |t.dispatched| <= |record|
    && (forall i :: 0 <= i < |t.dispatched| ==> t.dispatched[i].nonce == i + 1)
    && (forall n :: t.data.lastConfirmed < n <= |t.dispatched| ==>
          RelayerAt(t.data.relayers, n) == Some(record[n - 1]))
  }

  /** All remembered targets are good, and no remembered state knows more than the other chain did. */
  ghost predicate RecordInv(c: Config, s: System) {
    && s.Live()
    && s.Tgt().data.LastDelivered() == |s.deliveredBy|
    && (forall k :: 0 <= k < |s.targets| ==>
          && RecordGood(c, s.targets[k], s.deliveredBy)
          && s.targets[k].data.lastConfirmed <= s.Src().data.latestReceived)
    && (forall k :: 0 <= k < |s.sources| ==>
          && s.sources[k].data.latestReceived <= |s.deliveredBy|
          && s.sources[k].data.latestReceived <= s.Src().data.latestReceived)
  }

  /** A step of the source chain that only moves ahead keeps the record. */
  lemma SourceStepKeepsRecord(c: Config, s: System, s': System)
    requires RecordInv(c, s) && s'.Live()
    requires s'.sources[..|s'.sources| - 1] == s.sources && s'.targets == s.targets && s'.deliveredBy == s.deliveredBy
    requires s.Src().data.latestReceived <= s'.Src().data.latestReceived <= |s.deliveredBy|
    ensures RecordInv(c, s')
  {
    forall k | 0 <= k < |s'.sources|
      ensures s'.sources[k].data.latestReceived <= |s.deliveredBy|
      ensures s'.sources[k].data.latestReceived <= s'.Src().data.latestReceived
    {
      assert k < |s.sources| ==> s'.sources[k] == s.sources[k];
    }
  }

  lemma ConfirmationKeepsRecord(c: Config, s: System, at: nat)
    requires RecordInv(c, s) && at < |s.targets|
    ensures RecordInv(c, AfterConfirmation(s, s.targets[at].data))
  {
    var proved := s.targets[at].data;
    assert RecordGood(c, s.targets[at], s.deliveredBy);
    assert s.sources[|s.sources| - 1] == s.Src();
    ConfirmationAcceptedIff(s.Src().data, proved.TotalUnrewardedMessages(), proved.LastDelivered(), proved.relayers);
    SourceStepKeepsRecord(c, s, AfterConfirmation(s, proved));
  }

  lemma UpdateKeepsRecord(c: Config, t: Target, record: seq<RelayerId>, latestReceived: Nonce)
    requires RecordGood(c, t, record)
    ensures RecordGood(c, t.(data := AfterStateUpdate(t.data, latestReceived)), record)
  {
    if IsNewConfirmation(t.data, latestReceived) {
      StateUpdateRefinesMap(t.data, latestReceived);
    }
  }

  lemma OfferKeepsRecord(c: Config, t: Target, record: seq<RelayerId>, relayer: RelayerId, message: Message)
    requires RecordGood(c, t, record) && |t.dispatched| == |record|
    requires ReceptionVerdict(t.data, c.limits, message.nonce) == Accepted
    ensures RecordGood(c, Target(AfterReceive(t.data, relayer), t.dispatched + [message]), record + [relayer])
  {
    ReceiveKeepsChain(t.data, relayer);
    LimitsKept(t.data, c.limits, relayer, message.nonce, 0);
  }

  /** The target after a bundle; `record` grows by one entry per dispatched message. */
  ghost predicate BundleGood(c: Config, t: Target, record: seq<RelayerId>, relayer: RelayerId, messages: seq<Message>) {
    var taken := DispatchedOf(t.data, c.limits, relayer, messages);
    RecordGood(c, Target(AfterBundle(t.data, c.limits, relayer, messages), t.dispatched + taken),
               record + Repeat(relayer, |taken|))
  }

  lemma AcceptedOfferKeepsRecord(c: Config, t: Target, record: seq<RelayerId>, relayer: RelayerId, message: Message,
                                 data: InboundLaneData, taken: seq<Message>)
    requires |t.dispatched| == |record|
    requires RecordGood(c, Target(data, t.dispatched + taken), record + Repeat(relayer, |taken|))
    requires ReceptionVerdict(data, c.limits, message.nonce) == Accepted
    ensures RecordGood(c, Target(AfterReceive(data, relayer), t.dispatched + (taken + [message])),
                       record + Repeat(relayer, |taken| + 1))
  {
    OfferKeepsRecord(c, Target(data, t.dispatched + taken), record + Repeat(relayer, |taken|), relayer, message);
    assert record + Repeat(relayer, |taken|) + [relayer] == record + Repeat(relayer, |taken| + 1);
    assert t.dispatched + taken + [message] == t.dispatched + (taken + [message]);
  }

  lemma LastOfferKeepsRecord(c: Config, t: Target, record: seq<RelayerId>, relayer: RelayerId, messages: seq<Message>)
    requires messages != [] && |t.dispatched| == |record|
    requires BundleGood(c, t, record, relayer, messages[..|messages| - 1])
    ensures BundleGood(c, t, record, relayer, messages)
  {
    var init, message := messages[..|messages| - 1], messages[|messages| - 1];
    var taken := DispatchedOf(t.data, c.limits, relayer, init);
    var data := AfterBundle(t.data, c.limits, relayer, init);
    if ReceptionVerdict(data, c.limits, message.nonce) == Accepted {
      AcceptedOfferKeepsRecord(c, t, record, relayer, message, data, taken);
    } else {
      assert taken + [] == taken;
    }
  }

  /** Any bundle, true or not, in any order and with repetitions, extends the record by what was dispatched. */
  lemma {:induction false} BundleKeepsRecord(c: Config, t: Target, record: seq<RelayerId>, relayer: RelayerId,
                                             messages: seq<Message>)
    requires RecordGood(c, t, record) && |t.dispatched| == |record|
    ensures BundleGood(c, t, record, relayer, messages)
  {
    if messages == [] {
      assert t.dispatched + [] == t.dispatched && record + Repeat(relayer, 0) == record;
    } else {
      BundleKeepsRecord(c, t, record, relayer, messages[..|messages| - 1]);
      LastOfferKeepsRecord(c, t, record, relayer, messages);
    }
  }

  lemma {:induction false} BundleKeepsConfirmed(data: InboundLaneData, limits: Limits, relayer: RelayerId,
                                                messages: seq<Message>)
    ensures AfterBundle(data, limits, relayer, messages).lastConfirmed == data.lastConfirmed
  {
    if messages != [] {
      BundleKeepsConfirmed(data, limits, relayer, messages[..|messages| - 1]);
    }
  }

  lemma RecordGrows(c: Config, t: Target, record: seq<RelayerId>, more: seq<RelayerId>)
    requires RecordGood(c, t, record)
    ensures RecordGood(c, t, record + more)
  {
  }

  /** The new target state is good, whatever the messages carry. */
  lemma DeliveryMakesGoodTarget(c: Config, s: System, proof: MessagesProof, relayer: RelayerId)
    requires RecordInv(c, s) && AllRead(proof)
    ensures var s' := AfterDelivery(c, s, proof, relayer);
            && RecordGood(c, s'.Tgt(), s'.deliveredBy)
            && s'.Tgt().data.LastDelivered() == |s'.deliveredBy|
  {
    var messages := ReadMessages(proof);
    var data := AfterOptionalUpdate(s.Tgt().data, proof.laneState);
    assert RecordGood(c, s.Tgt(), s.deliveredBy);
    if proof.laneState.Some? {
      UpdateKeepsRecord(c, s.Tgt(), s.deliveredBy, proof.laneState.value.latestReceived);
    }
    BundleKeepsRecord(c, s.Tgt().(data := data), s.deliveredBy, relayer, messages);
  }

  /** A delivered source state is not ahead of the source. */
  lemma DeliveryConfirmsNothingNew(c: Config, s: System, at: nat, proof: MessagesProof, relayer: RelayerId)
    requires RecordInv(c, s) && at < |s.sources| && Faithful(proof, c.lane, s.sources[at]) && AllRead(proof)
    ensures s.Tgt().data.lastConfirmed
         <= AfterDelivery(c, s, proof, relayer).Tgt().data.lastConfirmed <= s.Src().data.latestReceived
  {
    assert s.targets[|s.targets| - 1] == s.Tgt();
    BundleKeepsConfirmed(AfterOptionalUpdate(s.Tgt().data, proof.laneState), c.limits, relayer, ReadMessages(proof));
  }

  /** A delivery with a proof of any source state there ever was keeps the record. */
  lemma DeliveryKeepsRecord(c: Config, s: System, at: nat, proof: MessagesProof, relayer: RelayerId)
    requires RecordInv(c, s) && at < |s.sources| && Faithful(proof, c.lane, s.sources[at]) && AllRead(proof)
    ensures RecordInv(c, AfterDelivery(c, s, proof, relayer))
  {
    var s' := AfterDelivery(c, s, proof, relayer);
    var more := s'.deliveredBy[|s.deliveredBy|..];
    assert s'.deliveredBy == s.deliveredBy + more;
    DeliveryMakesGoodTarget(c, s, proof, relayer);
    DeliveryConfirmsNothingNew(c, s, at, proof, relayer);
    forall k | 0 <= k < |s'.targets|
      ensures RecordGood(c, s'.targets[k], s'.deliveredBy)
      ensures s'.targets[k].data.lastConfirmed <= s.Src().data.latestReceived
    {
      if k < |s.targets| {
        RecordGrows(c, s.targets[k], s.deliveredBy, more);
      }
    }
  }

  // ---------- Payments, until the last nonce is confirmed ----------

  /** The paid ranges partition 1..=upTo, in order. */
  ghost predicate Partition(payouts: seq<Payout>, upTo: int) {
    if payouts == [] then upTo == 0
    else
      var last := payouts[|payouts| - 1].range;
      && last.begin <= last.end == upTo
      && Partition(payouts[..|payouts| - 1], last.begin - 1)
  }

  /** Number of messages relayer `r` was paid for. */
  ghost function TotalReward(payouts: seq<Payout>, r: RelayerId): nat {
    if payouts == [] then 0
    else
      var last := payouts[|payouts| - 1];
      TotalReward(payouts[..|payouts| - 1], r) + ClippedOf(last.relayers, last.range, r)
  }

  /** Every confirmed message was paid once, to the relayer that delivered it. */
  ghost predicate RewardsExact(s: System)
    requires s.Live()
  {
    && s.Src().data.latestReceived <= |s.deliveredBy|
    && Partition(s.payouts, s.Src().data.latestReceived)
    && forall r :: TotalReward(s.payouts, r) == DeliveredCount(s.deliveredBy, 0, s.Src().data.latestReceived, r)
  }

  /** Paying the proved entries for the new range pays every relayer for what that relayer delivered in it. */
  lemma PayoutMatchesRecord(c: Config, t: Target, record: seq<RelayerId>, received: Nonce, r: RelayerId)
    requires RecordGood(c, t, record)
    requires t.data.lastConfirmed <= received < t.data.LastDelivered()
    ensures ClippedOf(t.data.relayers, DeliveredMessages(received + 1, t.data.LastDelivered()), r)
            + DeliveredCount(record, 0, received, r)
         == DeliveredCount(record, 0, t.data.LastDelivered(), r)
  {
    var from, delivered := t.data.lastConfirmed + 1, t.data.LastDelivered();
    ChainCovers(t.data.relayers, from);
    ClippedIsDelivered(t.data.relayers, from, DeliveredMessages(received + 1, delivered), record, r);
    CountSplit(record, 0, received, delivered, r);
  }

  /** What a paying confirmation does. */
  lemma ConfirmationPays(s: System, proved: InboundLaneData, range: DeliveredMessages)
    requires s.Live() && ConfirmationOf(s.Src().data, proved) == Ok(Some(range))
    ensures var s' := AfterConfirmation(s, proved);
            && s'.Src() == s.Src().(data := s.Src().data.(latestReceived := range.end))
            && s'.payouts == s.payouts + [Payout(proved.relayers, range)]
            && s'.sent == s.sent && s'.targets == s.targets && s'.deliveredBy == s.deliveredBy
  {
  }

  lemma PayoutAdds(payouts: seq<Payout>, p: Payout)
    ensures forall r :: TotalReward(payouts + [p], r) == TotalReward(payouts, r) + ClippedOf(p.relayers, p.range, r)
    ensures Partition(payouts + [p], p.range.end) <==>
              p.range.begin <= p.range.end && Partition(payouts, p.range.begin - 1)
  {
    assert (payouts + [p])[..|payouts|] == payouts;
  }

  lemma PayoutIsExact(c: Config, s: System, at: nat, range: DeliveredMessages)
    requires RecordInv(c, s) && RewardsExact(s) && s.Src().data.latestReceived < U64_MAX && at < |s.targets|
    requires ConfirmationOf(s.Src().data, s.targets[at].data) == Ok(Some(range))
    ensures RewardsExact(AfterConfirmation(s, s.targets[at].data))
  {
    var t, received := s.targets[at], s.Src().data.latestReceived;
    var p := Payout(t.data.relayers, range);
    ConfirmedRangeIsCovered(s.Src().data, t.data, range);
    ConfirmationPays(s, t.data, range);
    PayoutAdds(s.payouts, p);
    assert RecordGood(c, t, s.deliveredBy) && t.data.lastConfirmed <= received;
    forall r ensures TotalReward(s.payouts + [p], r) == DeliveredCount(s.deliveredBy, 0, t.data.LastDelivered(), r) {
      PayoutMatchesRecord(c, t, s.deliveredBy, received, r);
    }
  }

  /** A confirmation with a proof of any target state there ever was keeps the payments exact. */
  lemma ConfirmationKeepsRewards(c: Config, s: System, at: nat)
    requires RecordInv(c, s) && RewardsExact(s) && s.Src().data.latestReceived < U64_MAX && at < |s.targets|
    ensures RewardsExact(AfterConfirmation(s, s.targets[at].data))
  {
    var outcome := ConfirmationOf(s.Src().data, s.targets[at].data);
    if outcome.Ok? && outcome.value.Some? {
      PayoutIsExact(c, s, at, outcome.value.value);
    }
  }

  lemma DeliveryKeepsRewards(c: Config, s: System, proof: MessagesProof, relayer: RelayerId)
    requires s.Live() && RewardsExact(s) && AllRead(proof)
    ensures RewardsExact(AfterDelivery(c, s, proof, relayer))
  {
    var s' := AfterDelivery(c, s, proof, relayer);
    forall r
      ensures TotalReward(s'.payouts, r) == DeliveredCount(s'.deliveredBy, 0, s'.Src().data.latestReceived, r)
    {
      CountPrefix(s.deliveredBy, s'.deliveredBy, 0, s.Src().data.latestReceived, r);
    }
  }

  // ---------- Payloads, as long as no nonce is used twice ----------

  /** No nonce above zero was given out twice. */
  ghost predicate NoncesUnique(s: System) {
    |s.sent| <= U64_MAX + 1
  }

  /** Every sent message has a nonce of its own. */
  ghost predicate NoncesUnwrapped(s: System) {
    |s.sent| <= U64_MAX
  }

  /** A source state shows nothing but sent payloads, each under its nonce. */
  ghost predicate Shows(c: Config, src: Source, sent: seq<Payload>) {
    forall n: Nonce :: 1 <= n && (c.lane, n) in src.messages ==>
      n <= |sent| && src.messages[(c.lane, n)] == sent[n - 1]
  }

  /** The dispatched messages carry the payloads that were sent, in order. */
  ghost predicate IsPrefix(dispatched: seq<Message>, sent: seq<Payload>) {
    && |dispatched| <= |sent|
    && forall i :: 0 <= i < |dispatched| ==> dispatched[i].payload == sent[i]
  }

  ghost predicate DeliveryInv(c: Config, s: System) {
    && RecordInv(c, s)
    && s.Src().data.latestGenerated == Wrap(|s.sent|)
    && (forall k :: 0 <= k < |s.sources| ==> Shows(c, s.sources[k], s.sent))
    && (forall k :: 0 <= k < |s.targets| ==> IsPrefix(s.targets[k].dispatched, s.sent))
  }

  /** A step of the source chain keeps the payloads if its new state shows only what was sent. */
  lemma SourceStepKeepsDelivery(c: Config, s: System, s': System)
    requires DeliveryInv(c, s) && RecordInv(c, s')
    requires s'.sources[..|s'.sources| - 1] == s.sources && s'.targets == s.targets && s.sent <= s'.sent
    requires s'.Src().data.latestGenerated == Wrap(|s'.sent|) && Shows(c, s'.Src(), s'.sent)
    ensures DeliveryInv(c, s')
  {
    forall k | 0 <= k < |s'.sources| ensures Shows(c, s'.sources[k], s'.sent) {
      if k < |s.sources| {
        assert s'.sources[k] == s.sources[k] && Shows(c, s.sources[k], s.sent);
      }
    }
  }

  lemma SendShows(c: Config, src: Source, sent: seq<Payload>, payload: Payload)
    requires Shows(c, src, sent) && src.data.latestGenerated == Wrap(|sent|) && |sent| <= U64_MAX
    ensures var nonce := NextNonce(src.data.latestGenerated);
            && nonce == Wrap(|sent| + 1)
            && Shows(c, Source(AfterSend(src.data), src.messages[(c.lane, nonce) := payload]), sent + [payload])
  {
    WrapStep(|sent|, 1);
  }

  /** A message is what was sent under its nonce; nonce zero is never dispatched. */
  ghost predicate TrueMessage(message: Message, sent: seq<Payload>) {
    1 <= message.nonce ==> message.nonce <= |sent| && message.payload == sent[message.nonce - 1]
  }

  lemma {:induction false} DispatchedWereOffered(data: InboundLaneData, limits: Limits, relayer: RelayerId,
                                                 messages: seq<Message>)
    ensures forall m :: m in DispatchedOf(data, limits, relayer, messages) ==> m in messages
  {
    if messages != [] {
      DispatchedWereOffered(data, limits, relayer, messages[..|messages| - 1]);
    }
  }

  lemma TrueMessagesExtendPrefix(c: Config, t: Target, taken: seq<Message>, sent: seq<Payload>, after: Target,
                                 record: seq<RelayerId>)
    requires IsPrefix(t.dispatched, sent) && RecordGood(c, after, record) && after.dispatched == t.dispatched + taken
    requires forall m :: m in taken ==> TrueMessage(m, sent)
    ensures IsPrefix(after.dispatched, sent)
  {
    forall i | 0 <= i < |after.dispatched| ensures i < |sent| && after.dispatched[i].payload == sent[i] {
      if i >= |t.dispatched| {
        assert after.dispatched[i] in taken;
      }
    }
    if after.dispatched != [] {
      var last := |after.dispatched| - 1;
      assert after.dispatched[last].nonce == last + 1 && last < |sent|;
    }
  }

  lemma TakenAreTrue(c: Config, s: System, at: nat, proof: MessagesProof, relayer: RelayerId, data: InboundLaneData)
    requires DeliveryInv(c, s) && at < |s.sources| && Faithful(proof, c.lane, s.sources[at]) && AllRead(proof)
    ensures forall m :: m in DispatchedOf(data, c.limits, relayer, ReadMessages(proof)) ==> TrueMessage(m, s.sent)
  {
    var messages := ReadMessages(proof);
    DispatchedWereOffered(data, c.limits, relayer, messages);
    assert Shows(c, s.sources[at], s.sent);
    forall m | m in DispatchedOf(data, c.limits, relayer, messages) ensures TrueMessage(m, s.sent) {
      assert m in messages && m.nonce in proof.messages;
    }
  }

  /** A delivery with a faithful proof of any source state there ever was keeps the payloads right. */
  lemma DeliveryKeepsDelivery(c: Config, s: System, at: nat, proof: MessagesProof, relayer: RelayerId)
    requires DeliveryInv(c, s) && at < |s.sources| && Faithful(proof, c.lane, s.sources[at]) && AllRead(proof)
    ensures DeliveryInv(c, AfterDelivery(c, s, proof, relayer))
  {
    var s', messages := AfterDelivery(c, s, proof, relayer), ReadMessages(proof);
    var data := AfterOptionalUpdate(s.Tgt().data, proof.laneState);
    var taken := DispatchedOf(data, c.limits, relayer, messages);
    DeliveryKeepsRecord(c, s, at, proof, relayer);
    TakenAreTrue(c, s, at, proof, relayer, data);
    assert s'.Tgt() == s'.targets[|s.targets|] && s.Tgt() == s.targets[|s.targets| - 1];
    TrueMessagesExtendPrefix(c, s.Tgt(), taken, s.sent, s'.Tgt(), s'.deliveredBy);
  }

  // ---------- Confirmations, while nonces are neither wrapped nor used up ----------

  /** The nonces have not wrapped and the last one has not been confirmed. */
  ghost predicate InBounds(s: System)
    requires s.Live()
  {
    NoncesUnwrapped(s) && s.Src().data.latestReceived < U64_MAX
  }

  /** Nothing a relayer can prove about the target is refused by the source. */
  lemma EveryProofIsAccepted(c: Config, s: System, at: nat)
    requires DeliveryInv(c, s) && InBounds(s) && at < |s.targets|
    ensures var proved := s.targets[at].data;
            ConfirmationOf(s.Src().data, proved)
            == Ok(if proved.LastDelivered() <= s.Src().data.latestReceived then None
                  else Some(DeliveredMessages(s.Src().data.latestReceived + 1, proved.LastDelivered())))
  {
    var proved := s.targets[at].data;
    assert RecordGood(c, s.targets[at], s.deliveredBy) && IsPrefix(s.targets[at].dispatched, s.sent);
    ChainCovers(proved.relayers, proved.lastConfirmed + 1);
    if proved.relayers != [] {
      NoComplaintIffChained(proved.relayers, proved.lastConfirmed + 1, proved.LastDelivered());
    }
  }
}
