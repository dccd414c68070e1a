/** Congestion signals sent back to the sending chain as the outbound queue fills up and drains. */
module Congestion {
  import opened LaneTypes
  import opened OutboundLanes
  import opened MessagesPallets

  const OUTBOUND_LANE_CONGESTED_THRESHOLD := 8192
  const OUTBOUND_LANE_UNCONGESTED_THRESHOLD := 1024

  datatype Signal = Congested | Uncongested

  /** Which of the two signals is configured. */
  datatype Hauler = Hauler(congestedMessage: bool, uncongestedMessage: bool) {
    predicate SupportsCongestionDetection() {
      congestedMessage || uncongestedMessage
    }
  }

  /** A call of the queue manager: the queue length it is told and whether the transport would take a signal. */
  datatype Event = Enqueued(queue: U64, transportOk: bool) | Delivered(queue: U64, transportOk: bool)

  /** The signal that leaves the chain, given the flag of the lane. */
  function Response(h: Hauler, signalSent: bool, e: Event): Option<Signal> {
    match e
    case Enqueued(queue, ok) =>
      if !signalSent && queue > OUTBOUND_LANE_CONGESTED_THRESHOLD && h.congestedMessage && ok
      then Some(Congested) else None
    case Delivered(queue, ok) =>
      if signalSent && queue <= OUTBOUND_LANE_UNCONGESTED_THRESHOLD && h.uncongestedMessage && ok
      then Some(Uncongested) else None
  }

  function FlagAfter(signalSent: bool, response: Option<Signal>): bool {
    match response
    case None => signalSent
    case Some(signal) => signal == Congested
  }

  class LocalXcmQueueManager {
    const hauler: Hauler
    var congestedSignals: map<LaneId, bool>

    constructor (hauler: Hauler)
      ensures this.hauler == hauler && congestedSignals == map[]
    {
      this.hauler, congestedSignals := hauler, map[];
    }

    predicate IsCongestedSignalSent(lane: LaneId)
      reads this
    {
      lane in congestedSignals && congestedSignals[lane]
    }

    method SendCongestedSignal(lane: LaneId, transportOk: bool) returns (sent: Option<Signal>)
      modifies this
      ensures sent == if hauler.congestedMessage && transportOk then Some(Congested) else None
      ensures congestedSignals == if sent.Some? then old(congestedSignals)[lane := true] else old(congestedSignals)
    {
      if hauler.congestedMessage {
        if !transportOk {
          return None;
        }
        congestedSignals := congestedSignals[lane := true];
        return Some(Congested);
      }
      return None;
    }

    method SendUncongestedSignal(lane: LaneId, transportOk: bool) returns (sent: Option<Signal>)
      modifies this
      ensures sent == if hauler.uncongestedMessage && transportOk then Some(Uncongested) else None
      ensures congestedSignals == if sent.Some? then old(congestedSignals) - {lane} else old(congestedSignals)
    {
      if hauler.uncongestedMessage {
        if !transportOk {
          return None;
        }
        congestedSignals := congestedSignals - {lane};
        return Some(Uncongested);
      }
      return None;
    }

    method OnBridgeMessageEnqueued(lane: LaneId, enqueued: U64, transportOk: bool) returns (sent: Option<Signal>)
      modifies this
      ensures sent == Response(hauler, old(IsCongestedSignalSent(lane)), Enqueued(enqueued, transportOk))
      ensures IsCongestedSignalSent(lane) == FlagAfter(old(IsCongestedSignalSent(lane)), sent)
      ensures forall other :: other != lane ==> IsCongestedSignalSent(other) == old(IsCongestedSignalSent(other))
    {
      if !hauler.SupportsCongestionDetection() {
        return None;
      }
      if IsCongestedSignalSent(lane) {
        return None;
      }
      var isCongested := enqueued > OUTBOUND_LANE_CONGESTED_THRESHOLD;
      if !isCongested {
        return None;
      }
      sent := SendCongestedSignal(lane, transportOk);
    }

    method OnBridgeMessagesDelivered(lane: LaneId, enqueued: U64, transportOk: bool) returns (sent: Option<Signal>)
      modifies this
      ensures sent == Response(hauler, old(IsCongestedSignalSent(lane)), Delivered(enqueued, transportOk))
      ensures IsCongestedSignalSent(lane) == FlagAfter(old(IsCongestedSignalSent(lane)), sent)
      ensures forall other :: other != lane ==> IsCongestedSignalSent(other) == old(IsCongestedSignalSent(other))
    {
      if !hauler.SupportsCongestionDetection() {
        return None;
      }
      if !IsCongestedSignalSent(lane) {
        return None;
      }
      var isCongested := enqueued > OUTBOUND_LANE_UNCONGESTED_THRESHOLD;
      if isCongested {
        return None;
      }
      sent := SendUncongestedSignal(lane, transportOk);
    }
  }

  // ---------- Alternation, whatever queue lengths are reported ----------

  /** The signals that leave the chain during a run of manager calls on one lane. */
  ghost function Signals(h: Hauler, events: seq<Event>): seq<Signal> {
    if events == [] then []
    else
      var init := events[..|events| - 1];
      match Response(h, Flag(h, init), events[|events| - 1])
      case None => Signals(h, init)
      case Some(signal) => Signals(h, init) + [signal]
  }

  ghost function Flag(h: Hauler, events: seq<Event>): bool {
    if events == [] then false
    else
      var init := events[..|events| - 1];
      FlagAfter(Flag(h, init), Response(h, Flag(h, init), events[|events| - 1]))
  }

  /** Signals strictly alternate, starting with `Congested`; the flag tells which one is due. */
  lemma {:induction false} SignalsAlternate(h: Hauler, events: seq<Event>)
    ensures var signals := Signals(h, events);
            && (forall i :: 0 <= i < |signals| ==> signals[i] == if i % 2 == 0 then Congested else Uncongested)
            && (Flag(h, events) <==> |signals| % 2 == 1)
  {
    if events != [] {
      SignalsAlternate(h, events[..|events| - 1]);
    }
  }

  /** Without an `Uncongested` message there is at most one signal, and without a `Congested` one none. */
  lemma MissingMessagesSilenceTheLane(h: Hauler, events: seq<Event>)
    ensures !h.congestedMessage ==> Signals(h, events) == []
    ensures !h.uncongestedMessage ==> |Signals(h, events)| <= 1
  {
    SignalsAlternate(h, events);
    SignalsAreConfigured(h, events);
    var signals := Signals(h, events);
    assert signals != [] ==> signals[0] == Congested;
    assert |signals| > 1 ==> signals[1] == Uncongested;
  }

  lemma {:induction false} SignalsAreConfigured(h: Hauler, events: seq<Event>)
    ensures forall i :: 0 <= i < |Signals(h, events)| ==>
              if Signals(h, events)[i] == Congested then h.congestedMessage else h.uncongestedMessage
  {
    if events != [] {
      SignalsAreConfigured(h, events[..|events| - 1]);
    }
  }

  /** With both messages configured and a working transport no crossing of a threshold is missed. */
  lemma NoCrossingIsMissed(h: Hauler, events: seq<Event>, e: Event)
    requires h.congestedMessage && h.uncongestedMessage && e.transportOk
    ensures e.Enqueued? && e.queue > 8192 ==> Flag(h, events + [e])
    ensures e.Delivered? && e.queue <= 1024 ==> !Flag(h, events + [e])
    ensures 1024 < e.queue <= 8192 ==> Flag(h, events + [e]) == Flag(h, events)
  {
    assert (events + [e])[..|events|] == events;
  }

  /** When exactly a signal leaves the chain: past 8192 messages, and back at 1024 or fewer. */
  lemma SignalLeavesIff(h: Hauler, events: seq<Event>, e: Event)
    ensures var before, after := Signals(h, events), Signals(h, events + [e]);
            && (after == before + [Congested] <==>
                e.Enqueued? && e.queue > 8192 && !Flag(h, events) && h.congestedMessage && e.transportOk)
            && (after == before + [Uncongested] <==>
                e.Delivered? && e.queue <= 1024 && Flag(h, events) && h.uncongestedMessage && e.transportOk)
            && (after == before || after == before + [Congested] || after == before + [Uncongested])
  {
    assert (events + [e])[..|events|] == events;
    var before := Signals(h, events);
    assert (before + [Congested])[|before|] == Congested && (before + [Uncongested])[|before|] == Uncongested;
  }

  // ---------- The manager on top of a real lane ----------

  /** What happens on the lane; the manager is called with the true queue length, as the pallet does. */
  datatype LaneAction = SendOne(transportOk: bool) | ConfirmProof(proved: InboundLaneData, transportOk: bool)

  /** A signal and the lane counters at that moment. */
  datatype Sighting = Sighting(signal: Signal, received: Nonce, generated: Nonce)

  datatype LaneRun = LaneRun(data: OutboundLaneData, flag: bool, sightings: seq<Sighting>)

  ghost function AfterLaneAction(data: OutboundLaneData, a: LaneAction): OutboundLaneData {
    match a
    case SendOne(_) => AfterSend(data)
    case ConfirmProof(proved, _) => AfterConfirm(data, ConfirmationOf(data, proved))
  }

  /** The manager is not called when a confirmation fails. */
  ghost predicate Notifies(data: OutboundLaneData, a: LaneAction) {
    a.ConfirmProof? ==> ConfirmationOf(data, a.proved).Ok?
  }

  ghost function Notify(h: Hauler, run: LaneRun, data: OutboundLaneData, a: LaneAction): LaneRun {
    var queue := QueueLength(data);
    var event := if a.SendOne? then Enqueued(queue, a.transportOk) else Delivered(queue, a.transportOk);
    var response := Response(h, run.flag, event);
    LaneRun(data, FlagAfter(run.flag, response),
            match response
            case None => run.sightings
            case Some(signal) => run.sightings + [Sighting(signal, data.latestReceived, data.latestGenerated)])
  }

  ghost function RunLane(h: Hauler, actions: seq<LaneAction>): LaneRun {
    if actions == [] then LaneRun(EMPTY_OUTBOUND_LANE, false, [])
    else
      var run, a := RunLane(h, actions[..|actions| - 1]), actions[|actions| - 1];
      if Notifies(run.data, a) then Notify(h, run, AfterLaneAction(run.data, a), a) else run
  }

  ghost function SendCount(actions: seq<LaneAction>): nat {
    if actions == [] then 0
    else SendCount(actions[..|actions| - 1]) + if actions[|actions| - 1].SendOne? then 1 else 0
  }

  ghost predicate Plausible(s: Sighting) {
    if s.signal == Congested
    then s.generated - s.received > 8192
    else s.generated - s.received <= 1024
  }

  ghost predicate RunGood(run: LaneRun) {
    && run.data.latestReceived <= run.data.latestGenerated
    && (run.flag <==> |run.sightings| % 2 == 1)
    && (forall i :: 0 <= i < |run.sightings| ==>
          && run.sightings[i].signal == (if i % 2 == 0 then Congested else Uncongested)
          && Plausible(run.sightings[i])
          && run.sightings[i].received <= run.data.latestReceived
          && run.sightings[i].generated <= run.data.latestGenerated)
    && (forall i, j :: 0 <= i < j < |run.sightings| ==>
          && run.sightings[i].received <= run.sightings[j].received
          && run.sightings[i].generated <= run.sightings[j].generated)
  }

  /** The queue length is what it should be, except that an empty queue at the last nonce reads as a full one. */
  lemma QueueIsUnconfirmed(data: OutboundLaneData)
    requires data.latestReceived <= data.latestGenerated
    ensures QueueLength(data) == if data.latestReceived < U64_MAX then data.latestGenerated - data.latestReceived
                                 else U64_MAX
  {
  }

  lemma NotifyKeepsGood(h: Hauler, run: LaneRun, data: OutboundLaneData, a: LaneAction)
    requires RunGood(run)
    requires run.data.latestReceived <= data.latestReceived <= data.latestGenerated
    requires run.data.latestGenerated <= data.latestGenerated
    requires a.SendOne? ==> data.latestReceived < data.latestGenerated
    ensures RunGood(Notify(h, run, data, a))
  {
    var run' := Notify(h, run, data, a);
    QueueIsUnconfirmed(data);
    if |run.sightings| < |run'.sightings| {
      var last := run'.sightings[|run.sightings|];
      assert run'.sightings == run.sightings + [last];
      assert Plausible(last);
    }
  }

  lemma LaneActionMovesAhead(data: OutboundLaneData, a: LaneAction)
    requires data.latestReceived <= data.latestGenerated
    requires a.SendOne? ==> data.latestGenerated < U64_MAX
    ensures var after := AfterLaneAction(data, a);
            && data.latestReceived <= after.latestReceived <= after.latestGenerated
            && after.latestGenerated == data.latestGenerated + (if a.SendOne? then 1 else 0)
            && (a.SendOne? ==> after.latestReceived < after.latestGenerated)
  {
  }

  lemma {:induction false} EveryRunIsGood(h: Hauler, actions: seq<LaneAction>)
    requires SendCount(actions) <= U64_MAX
    ensures RunGood(RunLane(h, actions)) && RunLane(h, actions).data.latestGenerated == SendCount(actions)
  {
    if actions != [] {
      EveryRunIsGood(h, actions[..|actions| - 1]);
      var run, a := RunLane(h, actions[..|actions| - 1]), actions[|actions| - 1];
      LaneActionMovesAhead(run.data, a);
      if Notifies(run.data, a) {
        NotifyKeepsGood(h, run, AfterLaneAction(run.data, a), a);
      }
    }
  }

  /**
   Hysteresis. Between a `Congested` signal and the following `Uncongested` one at least 8193 - 1024
   messages are confirmed, on top of those sent meanwhile; and between an `Uncongested` signal and
   the next `Congested` one at least as many are sent, on top of those confirmed meanwhile.
   */
  ghost predicate PairFarApart(first: Sighting, second: Sighting) {
    && first.received <= second.received && first.generated <= second.generated
    && first.signal != second.signal
    && if first.signal == Congested
       then second.received - first.received >= 8193 - 1024 + (second.generated - first.generated)
       else second.generated - first.generated >= 8193 - 1024 + (second.received - first.received)
  }

  ghost predicate FarApart(sightings: seq<Sighting>) {
    && (sightings != [] ==> sightings[0].signal == Congested)
    && forall i :: 0 <= i < |sightings| - 1 ==> PairFarApart(sightings[i], sightings[i + 1])
  }

  lemma NeighboursAreFarApart(run: LaneRun, i: nat)
    requires RunGood(run) && i + 1 < |run.sightings|
    ensures PairFarApart(run.sightings[i], run.sightings[i + 1])
  {
    assert Plausible(run.sightings[i]) && Plausible(run.sightings[i + 1]);
  }

  lemma SignalsAreFarApart(h: Hauler, actions: seq<LaneAction>)
    requires SendCount(actions) <= U64_MAX
    ensures FarApart(RunLane(h, actions).sightings)
  {
    EveryRunIsGood(h, actions);
    var sightings := RunLane(h, actions).sightings;
    forall i | 0 <= i < |sightings| - 1 ensures PairFarApart(sightings[i], sightings[i + 1]) {
      NeighboursAreFarApart(RunLane(h, actions), i);
    }
  }

  // ---------- How far this reaches ----------

  ghost function SendMany(k: nat): (actions: seq<LaneAction>) {
    if k == 0 then [] else SendMany(k - 1) + [SendOne(true)]
  }

  /** The state after `k` sends without a confirmation: the lane is found congested once. */
  ghost function SentMany(k: nat): LaneRun {
    LaneRun(OutboundLaneData(1, 0, Wrap(k)), k > OUTBOUND_LANE_CONGESTED_THRESHOLD,
            if k > OUTBOUND_LANE_CONGESTED_THRESHOLD then [Sighting(Congested, 0, 8193)] else [])
  }

  lemma SendOneMore(h: Hauler, k: nat)
    requires h.congestedMessage && k <= U64_MAX
    ensures Notify(h, SentMany(k), AfterSend(SentMany(k).data), SendOne(true)) == SentMany(k + 1)
  {
    WrapStep(k, 1);
    assert [] + [Sighting(Congested, 0, 8193)] == [Sighting(Congested, 0, 8193)];
  }

  lemma {:induction false} SendManySignalsOnce(h: Hauler, k: nat)
    requires h.congestedMessage && k <= U64_MAX + 1
    ensures SendCount(SendMany(k)) == k && RunLane(h, SendMany(k)) == SentMany(k)
  {
    if k > 0 {
      SendManySignalsOnce(h, k - 1);
      assert SendMany(k)[..|SendMany(k)| - 1] == SendMany(k - 1);
      SendOneMore(h, k - 1);
    }
  }

  /** At 2^64 sends the queue reads as empty, and a confirmation of nothing ends the congestion. */
  lemma WrappedQueueLooksEmpty(h: Hauler)
    requires h.congestedMessage && h.uncongestedMessage
    ensures var actions := SendMany(U64_MAX + 1) + [ConfirmProof(EMPTY_INBOUND_LANE, true)];
            && SendCount(actions) == U64_MAX + 1
            && RunLane(h, actions).sightings == [Sighting(Congested, 0, 8193), Sighting(Uncongested, 0, 0)]
  {
    SendManySignalsOnce(h, U64_MAX + 1);
    var actions := SendMany(U64_MAX + 1) + [ConfirmProof(EMPTY_INBOUND_LANE, true)];
    assert actions[..|actions| - 1] == SendMany(U64_MAX + 1);
    assert ConfirmationOf(OutboundLaneData(1, 0, 0), EMPTY_INBOUND_LANE) == Ok(None);
  }

  /** Signals are far apart in all runs with up to `bound` sends if and only if that is at most 2^64 - 1. */
  lemma DistanceBoundIsExact(h: Hauler, bound: nat)
    requires h.congestedMessage && h.uncongestedMessage
    ensures (forall actions :: SendCount(actions) <= bound ==> FarApart(RunLane(h, actions).sightings))
       <==> bound <= U64_MAX
  {
    if bound <= U64_MAX {
      forall actions | SendCount(actions) <= bound ensures FarApart(RunLane(h, actions).sightings) {
        SignalsAreFarApart(h, actions);
      }
    } else {
      WrappedQueueLooksEmpty(h);
      var actions := SendMany(U64_MAX + 1) + [ConfirmProof(EMPTY_INBOUND_LANE, true)];
      var sightings := RunLane(h, actions).sightings;
      assert !PairFarApart(sightings[0], sightings[0 + 1]);
      assert !FarApart(sightings);
    }
  }
}
