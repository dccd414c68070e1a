/**
 The run-length deque of unrewarded relayers, as pure functions over lane data, and its
 refinement of a plain map from nonce to the relayer that delivered it.
 */
module RelayerDeque {
  import opened LaneTypes

  // ---------- What the lane does to the deque ----------

  /** Pops the front entries whose last nonce is already confirmed. */
  function DropConfirmed(relayers: seq<UnrewardedRelayer>, confirmed: Nonce): (rest: seq<UnrewardedRelayer>)
    ensures rest != [] ==> confirmed < rest[0].messages.end
    ensures |rest| <= |relayers|
  {
    if relayers != [] && relayers[0].messages.end <= confirmed
    then DropConfirmed(relayers[1..], confirmed)
    else relayers
  }

  /** Moves the beginning of the front entry past the confirmed nonce. */
  function ClipFront(relayers: seq<UnrewardedRelayer>, confirmed: Nonce): (clipped: seq<UnrewardedRelayer>)
    requires relayers != [] ==> confirmed < relayers[0].messages.end
    ensures |clipped| == |relayers|
  {
    if relayers != [] && relayers[0].messages.begin <= confirmed
    then [relayers[0].(messages := DeliveredMessages(confirmed + 1, relayers[0].messages.end))] + relayers[1..]
    else relayers
  }

  /** True when the source's latest received nonce tells the target something new. */
  predicate IsNewConfirmation(data: InboundLaneData, latestReceived: Nonce) {
    data.lastConfirmed < latestReceived <= data.LastDelivered()
  }

  function AfterStateUpdate(data: InboundLaneData, latestReceived: Nonce): InboundLaneData {
    if IsNewConfirmation(data, latestReceived)
    then InboundLaneData(ClipFront(DropConfirmed(data.relayers, latestReceived), latestReceived), latestReceived)
    else data
  }

  datatype Verdict = Accepted | InvalidNonce | TooManyUnrewardedRelayers | TooManyUnconfirmedMessages

  /** What the lane answers to a message with the given nonce, whoever brings it. */
  function ReceptionVerdict(data: InboundLaneData, limits: Limits, nonce: Nonce): Verdict {
    if nonce != data.LastDelivered() + 1 then InvalidNonce
    else if |data.relayers| >= limits.maxUnrewardedRelayerEntries then TooManyUnrewardedRelayers
    else if Max(nonce - data.lastConfirmed, 0) > limits.maxUnconfirmedMessages then TooManyUnconfirmedMessages
    else Accepted
  }

  /** The next nonce is taken while there is room for an entry and for a message; anything else names its reason. */
  lemma VerdictIff(data: InboundLaneData, limits: Limits, nonce: Nonce)
    ensures var verdict := ReceptionVerdict(data, limits, nonce);
            var next := nonce == data.LastDelivered() + 1;
            var entryFits := |data.relayers| < limits.maxUnrewardedRelayerEntries;
            var messageFits := nonce <= data.lastConfirmed + limits.maxUnconfirmedMessages;
            && (verdict == Accepted <==> next && entryFits && messageFits)
            && (verdict == InvalidNonce <==> !next)
            && (verdict == TooManyUnrewardedRelayers <==> next && !entryFits)
            && (verdict == TooManyUnconfirmedMessages <==> next && entryFits && !messageFits)
  {
  }

  /** The deque after one more message of `relayer`. */
  function AfterReceive(data: InboundLaneData, relayer: RelayerId): InboundLaneData
    requires data.LastDelivered() < U64_MAX
  {
    var n := |data.relayers|;
    if n > 0 && data.relayers[n - 1].relayer == relayer then
      var back := data.relayers[n - 1];
      data.(relayers := data.relayers[..n - 1] +
      [back.(messages := DeliveredMessages(back.messages.begin, back.messages.end + 1))])
    else
      var nonce := data.LastDelivered() + 1;
      data.(relayers := data.relayers + [UnrewardedRelayer(relayer, DeliveredMessages(nonce, nonce))])
  }

  // ---------- Well-formedness ----------

  /** Entries are non-empty and follow each other without gaps, starting at `from`. */
  ghost predicate Chained(relayers: seq<UnrewardedRelayer>, from: int) {
    relayers != [] ==>
      && relayers[0].messages.begin == from
      && from <= relayers[0].messages.end
      && Chained(relayers[1..], relayers[0].messages.end + 1)
  }

  /** The first nonce after a chain that starts at `from`. */
  ghost function ChainEnd(relayers: seq<UnrewardedRelayer>, from: int): int {
    if relayers == [] then from else relayers[|relayers| - 1].messages.end + 1
  }

  /** Consecutive entries belong to different relayers. */
  ghost predicate Alternating(relayers: seq<UnrewardedRelayer>) {
    forall i :: 0 <= i < |relayers| - 1 ==> relayers[i].relayer != relayers[i + 1].relayer
  }

  ghost predicate WellFormed(data: InboundLaneData) {
    Chained(data.relayers, data.lastConfirmed + 1) && Alternating(data.relayers)
  }

  ghost predicate WithinLimits(data: InboundLaneData, limits: Limits) {
    && |data.relayers| <= limits.maxUnrewardedRelayerEntries
    && data.LastDelivered() - data.lastConfirmed <= limits.maxUnconfirmedMessages
  }

  // ---------- The map the deque stands for ----------

  /** Relayer of the first entry that contains the nonce. */
  ghost function RelayerAt(relayers: seq<UnrewardedRelayer>, n: int): Option<RelayerId> {
    if relayers == [] then None
    else if relayers[0].messages.Contains(n) then Some(relayers[0].relayer)
    else RelayerAt(relayers[1..], n)
  }

  /** Number of entries that contain the nonce. */
  ghost function Occurrences(relayers: seq<UnrewardedRelayer>, n: int): nat {
    if relayers == [] then 0
    else (if relayers[0].messages.Contains(n) then 1 else 0) + Occurrences(relayers[1..], n)
  }

  /** Who delivered which still unconfirmed nonce. */
  ghost function Deliveries(data: InboundLaneData): map<int, RelayerId> {
    map n: int | data.lastConfirmed < n <= data.LastDelivered() && RelayerAt(data.relayers, n).Some?
      :: RelayerAt(data.relayers, n).value
  }

  // ---------- Chains ----------

  lemma {:induction false} ChainCovers(relayers: seq<UnrewardedRelayer>, from: int)
    requires Chained(relayers, from)
    ensures ChainEnd(relayers, from) >= from + |relayers|
    ensures forall n :: RelayerAt(relayers, n).Some? <==> from <= n < ChainEnd(relayers, from)
    ensures forall n :: Occurrences(relayers, n) == if from <= n < ChainEnd(relayers, from) then 1 else 0
  {
    if relayers != [] {
      ChainCovers(relayers[1..], relayers[0].messages.end + 1);
    }
  }

  lemma {:induction false} ChainPush(relayers: seq<UnrewardedRelayer>, from: int, e: UnrewardedRelayer)
    requires Chained(relayers, from)
    requires e.messages.begin == ChainEnd(relayers, from) && e.messages.begin <= e.messages.end
    ensures Chained(relayers + [e], from)
    ensures forall n :: RelayerAt(relayers + [e], n)
                     == if e.messages.Contains(n) then Some(e.relayer) else RelayerAt(relayers, n)
  {
    if relayers == [] {
      assert relayers + [e] == [e];
    } else {
      assert (relayers + [e])[1..] == relayers[1..] + [e];
      ChainPush(relayers[1..], relayers[0].messages.end + 1, e);
      ChainCovers(relayers[1..], relayers[0].messages.end + 1);
    }
  }

  lemma {:induction false} ChainPop(relayers: seq<UnrewardedRelayer>, from: int)
    requires relayers != [] && Chained(relayers, from)
    ensures var init := relayers[..|relayers| - 1];
            var back := relayers[|relayers| - 1];
            && Chained(init, from)
            && ChainEnd(init, from) == back.messages.begin <= back.messages.end
            && forall n :: RelayerAt(relayers, n)
                        == if back.messages.Contains(n) then Some(back.relayer) else RelayerAt(init, n)
  {
    var init := relayers[..|relayers| - 1];
    if |relayers| > 1 {
      assert init[1..] == relayers[1..][..|relayers| - 2];
      ChainPop(relayers[1..], relayers[0].messages.end + 1);
      ChainCovers(init[1..], relayers[0].messages.end + 1);
    }
  }

  // ---------- Refinement of the map ----------

  lemma ReceiveKeepsChain(data: InboundLaneData, relayer: RelayerId)
    requires WellFormed(data) && data.LastDelivered() < U64_MAX
    ensures var after := AfterReceive(data, relayer);
            && WellFormed(after)
            && after.LastDelivered() == data.LastDelivered() + 1
            && forall n :: RelayerAt(after.relayers, n)
                        == if n == data.LastDelivered() + 1 then Some(relayer) else RelayerAt(data.relayers, n)
  {
    var from, n := data.lastConfirmed + 1, |data.relayers|;
    var after := AfterReceive(data, relayer);
    if n > 0 && data.relayers[n - 1].relayer == relayer {
      ChainPop(data.relayers, from);
      ChainPush(data.relayers[..n - 1], from, after.relayers[n - 1]);
    } else {
      ChainPush(data.relayers, from, after.relayers[n]);
    }
  }

  /** Receiving adds exactly one pair to the map and keeps the deque well formed. */
  lemma ReceiveRefinesMap(data: InboundLaneData, relayer: RelayerId)
    requires WellFormed(data) && data.LastDelivered() < U64_MAX
    ensures var after := AfterReceive(data, relayer);
            && WellFormed(after)
            && after.lastConfirmed == data.lastConfirmed
            && after.LastDelivered() == data.LastDelivered() + 1
            && Deliveries(after) == Deliveries(data)[data.LastDelivered() + 1 := relayer]
  {
    ReceiveKeepsChain(data, relayer);
    ChainCovers(data.relayers, data.lastConfirmed + 1);
  }

  lemma {:induction false} DropConfirmedChain(relayers: seq<UnrewardedRelayer>, from: int, confirmed: Nonce)
    requires Chained(relayers, from)
    requires from <= confirmed + 1 <= ChainEnd(relayers, from)
    ensures var rest := ClipFront(DropConfirmed(relayers, confirmed), confirmed);
            && Chained(rest, confirmed + 1)
            && ChainEnd(rest, confirmed + 1) == ChainEnd(relayers, from)
            && (forall n :: confirmed < n ==> RelayerAt(rest, n) == RelayerAt(relayers, n))
            && (Alternating(relayers) ==> Alternating(rest))
  {
    if relayers != [] && relayers[0].messages.end <= confirmed {
      DropConfirmedChain(relayers[1..], relayers[0].messages.end + 1, confirmed);
    } else if relayers != [] {
      assert ClipFront(relayers, confirmed)[1..] == relayers[1..];
    }
  }

  /** A state update drops exactly the pairs up to the confirmed nonce. */
  lemma StateUpdateRefinesMap(data: InboundLaneData, latestReceived: Nonce)
    requires WellFormed(data) && IsNewConfirmation(data, latestReceived)
    ensures var after := AfterStateUpdate(data, latestReceived);
            && WellFormed(after)
            && after.lastConfirmed == latestReceived
            && after.LastDelivered() == data.LastDelivered()
            && |after.relayers| <= |data.relayers|
            && (forall n :: latestReceived < n ==> RelayerAt(after.relayers, n) == RelayerAt(data.relayers, n))
            && Deliveries(after) == map n | n in Deliveries(data) && latestReceived < n :: Deliveries(data)[n]
  {
    ChainCovers(data.relayers, data.lastConfirmed + 1);
    DropConfirmedChain(data.relayers, data.lastConfirmed + 1, latestReceived);
  }

  /** Both operations keep the deque within the configured limits. */
  lemma LimitsKept(data: InboundLaneData, limits: Limits, relayer: RelayerId, nonce: Nonce, latestReceived: Nonce)
    requires WellFormed(data) && WithinLimits(data, limits)
    ensures WithinLimits(AfterStateUpdate(data, latestReceived), limits)
    ensures ReceptionVerdict(data, limits, nonce) == Accepted ==>
              data.LastDelivered() < U64_MAX && WithinLimits(AfterReceive(data, relayer), limits)
  {
    if IsNewConfirmation(data, latestReceived) {
      StateUpdateRefinesMap(data, latestReceived);
    }
    if ReceptionVerdict(data, limits, nonce) == Accepted {
      ReceiveRefinesMap(data, relayer);
    }
  }

  // ---------- What a relayer declares about the deque ----------

  /** Number of runs of one and the same relayer in a delivery record. */
  ghost function Runs(record: seq<RelayerId>): nat {
    var n := |record|;
    if n == 0 then 0
    else Runs(record[..n - 1]) + (if n == 1 || record[n - 2] != record[n - 1] then 1 else 0)
  }

  /** Length of the first run. */
  ghost predicate IsFirstRun(record: seq<RelayerId>, m: nat) {
    && m <= |record|
    && (record != [] ==> 0 < m)
    && (forall i :: 0 <= i < m ==> record[i] == record[0])
    && (m < |record| ==> record[m] != record[0])
  }

  /** The declared state describes the record of the unconfirmed nonces. */
  ghost predicate Describes(state: UnrewardedRelayersState, record: seq<RelayerId>, lastDelivered: int) {
    && state.unrewardedRelayerEntries == Runs(record)
    && IsFirstRun(record, state.messagesInOldestEntry)
    && state.totalMessages == |record|
    && state.lastDelivered == lastDelivered
  }

  lemma FirstRunIsUnique(record: seq<RelayerId>, m: nat, k: nat)
    requires IsFirstRun(record, m) && IsFirstRun(record, k)
    ensures m == k
  {
  }

  lemma {:induction false} RunsExtend(record: seq<RelayerId>, more: seq<RelayerId>)
    requires more != [] && forall i :: 0 <= i < |more| ==> more[i] == more[0]
    requires record != [] ==> record[|record| - 1] != more[0]
    ensures Runs(record + more) == Runs(record) + 1
  {
    var all, last := record + more, |more| - 1;
    assert all[..|all| - 1] == record + more[..last];
    if last > 0 {
      RunsExtend(record, more[..last]);
    } else {
      assert record + more[..last] == record;
    }
  }

  /** The deque tells, nonce by nonce, the record that starts at `from`. */
  ghost predicate Tells(relayers: seq<UnrewardedRelayer>, from: int, record: seq<RelayerId>) {
    && |record| == ChainEnd(relayers, from) - from
    && forall n :: from <= n < from + |record| ==> RelayerAt(relayers, n) == Some(record[n - from])
  }

  lemma BackTells(relayers: seq<UnrewardedRelayer>, from: int, record: seq<RelayerId>)
    requires relayers != [] && Chained(relayers, from) && Tells(relayers, from, record)
    ensures var back := relayers[|relayers| - 1];
            var k := back.messages.begin - from;
            && 0 <= k < |record|
            && Tells(relayers[..|relayers| - 1], from, record[..k])
            && (forall i :: k <= i < |record| ==> record[i] == back.relayer)
  {
    var init, back := relayers[..|relayers| - 1], relayers[|relayers| - 1];
    ChainPop(relayers, from);
    ChainCovers(init, from);
    var k := back.messages.begin - from;
    forall i | k <= i < |record| ensures record[i] == back.relayer {
      assert RelayerAt(relayers, from + i) == Some(record[i]);
    }
  }

  /** There is one entry per run. */
  lemma {:induction false} EntriesAreRuns(relayers: seq<UnrewardedRelayer>, from: int, record: seq<RelayerId>)
    requires Chained(relayers, from) && Alternating(relayers) && Tells(relayers, from, record)
    ensures |relayers| == Runs(record)
  {
    if relayers != [] {
      var init, back := relayers[..|relayers| - 1], relayers[|relayers| - 1];
      var k := back.messages.begin - from;
      BackTells(relayers, from, record);
      ChainPop(relayers, from);
      EntriesAreRuns(init, from, record[..k]);
      if init != [] {
        BackTells(init, from, record[..k]);
      }
      RunsExtend(record[..k], record[k..]);
      assert record[..k] + record[k..] == record;
    }
  }

  /** The front entry is the first run. */
  lemma FrontIsFirstRun(relayers: seq<UnrewardedRelayer>, from: int, record: seq<RelayerId>)
    requires relayers != [] && Chained(relayers, from) && Alternating(relayers) && Tells(relayers, from, record)
    ensures IsFirstRun(record, relayers[0].messages.end - from + 1)
  {
    var m := relayers[0].messages.end - from + 1;
    ChainCovers(relayers, from);
    ChainCovers(relayers[1..], from + m);
    forall i | 0 <= i < m ensures record[i] == relayers[0].relayer {
      assert RelayerAt(relayers, from + i) == Some(record[i]);
    }
    if m < |record| {
      assert RelayerAt(relayers, from + m) == Some(record[m]);
      var rest := relayers[1..];
      assert rest[0] == relayers[1] && rest[0].messages.Contains(from + m);
      assert RelayerAt(relayers, from + m) == RelayerAt(rest, from + m);
    }
  }

  /** The only state a relayer may declare is the one that describes the record of the unconfirmed nonces. */
  lemma DeclaredStateIff(data: InboundLaneData, record: seq<RelayerId>, declared: UnrewardedRelayersState)
    requires WellFormed(data) && Tells(data.relayers, data.lastConfirmed + 1, record)
    ensures declared == data.RelayersState() <==> Describes(declared, record, data.lastConfirmed + |record|)
  {
    var from, state := data.lastConfirmed + 1, data.RelayersState();
    EntriesAreRuns(data.relayers, from, record);
    ChainCovers(data.relayers, from);
    if data.relayers != [] {
      FrontIsFirstRun(data.relayers, from, record);
    }
    assert Describes(state, record, data.lastConfirmed + |record|);
    if Describes(declared, record, data.lastConfirmed + |record|) {
      FirstRunIsUnique(record, declared.messagesInOldestEntry, state.messagesInOldestEntry);
    }
  }
}
