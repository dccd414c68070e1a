/** Calls of the messages pallet: what a proof of the other chain does to this chain. */
module MessagesPallets {
  import opened LaneTypes
  import opened MessagesStorage
  import opened RelayerDeque
  import opened InboundLanes
  import opened OutboundLanes
  import opened Rewards
  import opened Pruning

  // ---------- Proofs of messages ----------

  /** How a storage proof fares apart from the values it shows. */
  datatype Reading = Reading(headerKnown: bool, laneStateDecodes: bool, noUnusedNodes: bool)

  const FLAWLESS := Reading(true, true, true)

  /** What can be read from a storage proof of the source chain, and the nonces it declares. */
  datatype MessagesProof = MessagesProof(
    lane: LaneId,
    messages: map<Nonce, Payload>,
    laneState: Option<OutboundLaneData>,
    noncesStart: Nonce,
    noncesEnd: Nonce,
    reading: Reading)

  datatype ProvedLaneMessages = ProvedLaneMessages(laneState: Option<OutboundLaneData>, messages: seq<Message>)

  datatype VerificationError =
    | HeaderChain
    | MessagesCountMismatch
    | MessageStorage
    | OutboundLaneStorage
    | EmptyMessageProof
    | InboundLaneStorage
    | StorageProof

  /** Declared number of messages; a range whose length does not fit the nonce type counts as empty. */
  function CheckedLenOrZero(start: Nonce, end: Nonce): U64 {
    if end < start || end - start + 1 > U64_MAX then 0 else end - start + 1
  }

  predicate AllRead(proof: MessagesProof) {
    forall n :: proof.noncesStart <= n <= proof.noncesEnd ==> n in proof.messages
  }

  function ReadMessages(proof: MessagesProof): (messages: seq<Message>)
    requires AllRead(proof)
    ensures |messages| == Max(proof.noncesEnd - proof.noncesStart + 1, 0)
    ensures forall i :: 0 <= i < |messages| ==>
              && messages[i].nonce == proof.noncesStart + i
              && messages[i].payload == proof.messages[messages[i].nonce]
  {
    seq(Max(proof.noncesEnd - proof.noncesStart + 1, 0),
        i requires 0 <= i < proof.noncesEnd - proof.noncesStart + 1 =>
        Message(proof.noncesStart + i, proof.messages[proof.noncesStart + i]))
  }

  function Proved(proof: MessagesProof, messagesCount: nat): Result<ProvedLaneMessages, VerificationError> {
    if !proof.reading.headerKnown then Err(HeaderChain)
    else if CheckedLenOrZero(proof.noncesStart, proof.noncesEnd) != messagesCount then Err(MessagesCountMismatch)
    else if !AllRead(proof) then Err(MessageStorage)
    else if !proof.reading.laneStateDecodes then Err(OutboundLaneStorage)
    else if proof.laneState == None && proof.noncesEnd < proof.noncesStart then Err(EmptyMessageProof)
    else if !proof.reading.noUnusedNodes then Err(StorageProof)
    else Ok(ProvedLaneMessages(proof.laneState, ReadMessages(proof)))
  }

  /** Number of nonces that the proof declares; a range of 2^64 nonces counts as empty. */
  function DeclaredNonces(proof: MessagesProof): nat {
    if proof.noncesStart <= proof.noncesEnd && proof.noncesEnd - proof.noncesStart < U64_MAX
    then proof.noncesEnd - proof.noncesStart + 1
    else 0
  }

  /** What is wrong with the proof when it is refused with the error. */
  predicate Fault(proof: MessagesProof, messagesCount: nat, error: VerificationError) {
    match error
    case HeaderChain => !proof.reading.headerKnown
    case MessagesCountMismatch => messagesCount != DeclaredNonces(proof)
    case MessageStorage => exists n :: proof.noncesStart <= n <= proof.noncesEnd && n !in proof.messages
    case OutboundLaneStorage => !proof.reading.laneStateDecodes
    case EmptyMessageProof => proof.laneState.None? && proof.noncesEnd < proof.noncesStart
    case StorageProof => !proof.reading.noUnusedNodes
    case InboundLaneStorage => false
  }

  /** Order in which the faults are looked for. */
  function Precedence(error: VerificationError): nat {
    match error
    case HeaderChain => 0
    case MessagesCountMismatch => 1
    case MessageStorage => 2
    case OutboundLaneStorage => 3
    case EmptyMessageProof => 4
    case InboundLaneStorage => 5
    case StorageProof => 6
  }

  /** A proof is accepted exactly when it has no fault, and refused for its first one. */
  lemma ProvedIff(proof: MessagesProof, messagesCount: nat, error: VerificationError)
    ensures Proved(proof, messagesCount).Ok? <==> forall e :: !Fault(proof, messagesCount, e)
    ensures Proved(proof, messagesCount) == Err(error) <==>
              && Fault(proof, messagesCount, error)
              && forall e :: Precedence(e) < Precedence(error) ==> !Fault(proof, messagesCount, e)
    ensures var proved := Proved(proof, messagesCount);
            proved.Ok? ==>
              && proved.value.laneState == proof.laneState
              && |proved.value.messages| == Max(proof.noncesEnd - proof.noncesStart + 1, 0)
              && forall i :: 0 <= i < |proved.value.messages| ==>
                   && proved.value.messages[i].nonce == proof.noncesStart + i
                   && proved.value.messages[i].nonce in proof.messages
                   && proved.value.messages[i].payload == proof.messages[proved.value.messages[i].nonce]
  {
    var proved := Proved(proof, messagesCount);
    if proved.Err? {
      assert Fault(proof, messagesCount, proved.error);
    }
  }

  method VerifyMessagesProof(proof: MessagesProof, messagesCount: nat)
    returns (proved: Result<ProvedLaneMessages, VerificationError>)
    ensures proved == Proved(proof, messagesCount)
  {
    if !proof.reading.headerKnown {
      return Err(HeaderChain);
    }
    if CheckedLenOrZero(proof.noncesStart, proof.noncesEnd) != messagesCount {
      return Err(MessagesCountMismatch);
    }
    var messages: seq<Message> := [];
    var nonce: int := proof.noncesStart;
    while nonce <= proof.noncesEnd
      invariant |messages| == nonce - proof.noncesStart
      invariant nonce <= Max(proof.noncesEnd + 1, proof.noncesStart)
      invariant forall n :: proof.noncesStart <= n < nonce ==> n in proof.messages
      invariant forall i :: 0 <= i < |messages| ==>
                  && messages[i].nonce == proof.noncesStart + i
                  && messages[i].payload == proof.messages[messages[i].nonce]
      decreases proof.noncesEnd - nonce
    {
      if nonce !in proof.messages {
        return Err(MessageStorage);
      }
      messages := messages + [Message(nonce, proof.messages[nonce])];
      nonce := nonce + 1;
    }
    assert messages == ReadMessages(proof);
    if !proof.reading.laneStateDecodes {
      return Err(OutboundLaneStorage);
    }
    if proof.laneState == None && messages == [] {
      return Err(EmptyMessageProof);
    }
    if !proof.reading.noUnusedNodes {
      return Err(StorageProof);
    }
    return Ok(ProvedLaneMessages(proof.laneState, messages));
  }

  /** What can be read from a storage proof of the target chain. */
  datatype MessagesDeliveryProof = MessagesDeliveryProof(
    lane: LaneId, laneData: Option<InboundLaneData>, headerKnown: bool, noUnusedNodes: bool)

  function ProvedDelivery(proof: MessagesDeliveryProof): Result<InboundLaneData, VerificationError> {
    if !proof.headerKnown then Err(HeaderChain)
    else if proof.laneData == None then Err(InboundLaneStorage)
    else if !proof.noUnusedNodes then Err(StorageProof)
    else Ok(proof.laneData.value)
  }

  /** A delivery proof is accepted exactly when its header is known, it shows a lane and nothing else is in it. */
  lemma ProvedDeliveryIff(proof: MessagesDeliveryProof, data: InboundLaneData)
    ensures ProvedDelivery(proof) == Ok(data) <==>
              proof.headerKnown && proof.laneData == Some(data) && proof.noUnusedNodes
    ensures ProvedDelivery(proof) == Err(HeaderChain) <==> !proof.headerKnown
    ensures ProvedDelivery(proof) == Err(InboundLaneStorage) <==> proof.headerKnown && proof.laneData.None?
    ensures ProvedDelivery(proof) == Err(StorageProof) <==>
              proof.headerKnown && proof.laneData.Some? && !proof.noUnusedNodes
  {
  }

  // ---------- A bundle of messages on one lane ----------

  function AfterOptionalUpdate(data: InboundLaneData, laneState: Option<OutboundLaneData>): InboundLaneData {
    if laneState.Some? then AfterStateUpdate(data, laneState.value.latestReceived) else data
  }

  function AfterOffer(data: InboundLaneData, limits: Limits, relayer: RelayerId, message: Message): InboundLaneData {
    if ReceptionVerdict(data, limits, message.nonce) == Accepted then AfterReceive(data, relayer) else data
  }

  /** Lane data after a relayer offered the messages one by one. */
  function AfterBundle(data: InboundLaneData, limits: Limits, relayer: RelayerId, messages: seq<Message>)
    : InboundLaneData
  {
    if messages == [] then data
    else
      var last := |messages| - 1;
      AfterOffer(AfterBundle(data, limits, relayer, messages[..last]), limits, relayer, messages[last])
  }

  /** Messages of the bundle that were dispatched. */
  function DispatchedOf(data: InboundLaneData, limits: Limits, relayer: RelayerId, messages: seq<Message>)
    : seq<Message>
  {
    if messages == [] then []
    else
      var last := |messages| - 1;
      var before := AfterBundle(data, limits, relayer, messages[..last]);
      DispatchedOf(data, limits, relayer, messages[..last]) +
      if ReceptionVerdict(before, limits, messages[last].nonce) == Accepted then [messages[last]] else []
  }

  /** The dispatcher of the runtime: the weight a message declares and the weight its dispatch leaves unspent. */
  datatype Dispatcher = Dispatcher(weight: Message -> Weight, unspent: Message -> Weight)

  /** Weight returned for one offered message: all of it unless the message was dispatched. */
  function Unspent(dispatcher: Dispatcher, accepted: bool, message: Message): (w: Weight)
    ensures dispatcher.weight(message).AllGte(w)
  {
    var declared := dispatcher.weight(message);
    if accepted then dispatcher.unspent(message).Meet(declared) else declared
  }

  /** Dispatch weight left after the bundle; `None` once a message declares more than is left. */
  function BudgetLeft(data: InboundLaneData, limits: Limits, relayer: RelayerId, messages: seq<Message>,
                      dispatcher: Dispatcher, budget: Weight)
    : Option<Weight>
  {
    if messages == [] then Some(budget)
    else
      var last := |messages| - 1;
      var message := messages[last];
      match BudgetLeft(data, limits, relayer, messages[..last], dispatcher, budget)
      case None => None
      case Some(left) =>
        if dispatcher.weight(message).AnyGt(left) then None
        else
          var before := AfterBundle(data, limits, relayer, messages[..last]);
          var accepted := ReceptionVerdict(before, limits, message.nonce) == Accepted;
          Some(left.Minus(dispatcher.weight(message).Minus(Unspent(dispatcher, accepted, message))))
  }

  lemma {:induction false} BudgetNeverRecovers(data: InboundLaneData, limits: Limits, relayer: RelayerId,
                                               messages: seq<Message>, dispatcher: Dispatcher, budget: Weight, i: nat)
    requires i <= |messages|
    requires BudgetLeft(data, limits, relayer, messages[..i], dispatcher, budget) == None
    ensures BudgetLeft(data, limits, relayer, messages, dispatcher, budget) == None
    decreases |messages| - i
  {
    if i == |messages| {
      assert messages[..i] == messages;
    } else {
      assert messages[..i + 1][..i] == messages[..i];
      BudgetNeverRecovers(data, limits, relayer, messages, dispatcher, budget, i + 1);
    }
  }

  // ---------- What a bundle costs, straight from the dispatcher ----------

  /** A sum of weights, without a bound. */
  datatype Total = Total(refTime: int, proofSize: int) {
    function Plus(other: Total): Total {
      Total(refTime + other.refTime, proofSize + other.proofSize)
    }

    function Less(other: Total): Total {
      Total(refTime - other.refTime, proofSize - other.proofSize)
    }
  }

  function AsTotal(w: Weight): Total {
    Total(w.refTime, w.proofSize)
  }

  /** What the dispatch of a message costs: the declared weight less what is left unspent, if anything. */
  function Charge(dispatcher: Dispatcher, message: Message): Total {
    var declared, unspent := dispatcher.weight(message), dispatcher.unspent(message);
    Total(Max(declared.refTime - unspent.refTime, 0), Max(declared.proofSize - unspent.proofSize, 0))
  }

  ghost function ChargedFor(dispatcher: Dispatcher, dispatched: seq<Message>): Total {
    if dispatched == [] then Total(0, 0)
    else ChargedFor(dispatcher, dispatched[..|dispatched| - 1]).Plus(Charge(dispatcher, dispatched[|dispatched| - 1]))
  }

  ghost function DeclaredFor(dispatcher: Dispatcher, messages: seq<Message>): Total {
    if messages == [] then Total(0, 0)
    else DeclaredFor(dispatcher, messages[..|messages| - 1])
         .Plus(AsTotal(dispatcher.weight(messages[|messages| - 1])))
  }

  lemma {:induction false} ChargedForOneMore(dispatcher: Dispatcher, dispatched: seq<Message>, message: Message)
    ensures ChargedFor(dispatcher, dispatched + [message])
         == ChargedFor(dispatcher, dispatched).Plus(Charge(dispatcher, message))
  {
    assert (dispatched + [message])[..|dispatched|] == dispatched;
  }

  /** Whether the last message of the bundle is dispatched. */
  predicate TakesLast(data: InboundLaneData, limits: Limits, relayer: RelayerId, messages: seq<Message>)
    requires messages != []
  {
    var last := |messages| - 1;
    ReceptionVerdict(AfterBundle(data, limits, relayer, messages[..last]), limits, messages[last].nonce) == Accepted
  }

  lemma {:induction false} DispatchedOneMore(data: InboundLaneData, limits: Limits, relayer: RelayerId,
                                             messages: seq<Message>)
    requires messages != []
    ensures var last := |messages| - 1;
            DispatchedOf(data, limits, relayer, messages)
            == DispatchedOf(data, limits, relayer, messages[..last])
               + (if TakesLast(data, limits, relayer, messages) then [messages[last]] else [])
  {
  }

  function ChargeIf(dispatcher: Dispatcher, taken: bool, message: Message): Total {
    if taken then Charge(dispatcher, message) else Total(0, 0)
  }

  lemma {:induction false} ChargedForIf(dispatcher: Dispatcher, dispatched: seq<Message>, taken: bool,
                                        message: Message)
    ensures ChargedFor(dispatcher, dispatched + (if taken then [message] else []))
         == ChargedFor(dispatcher, dispatched).Plus(ChargeIf(dispatcher, taken, message))
  {
    if taken {
      ChargedForOneMore(dispatcher, dispatched, message);
    } else {
      assert dispatched + [] == dispatched;
    }
  }

  lemma {:induction false} ChargedForOffer(data: InboundLaneData, limits: Limits, relayer: RelayerId,
                                           messages: seq<Message>, dispatcher: Dispatcher)
    requires messages != []
    ensures var last := |messages| - 1;
            ChargedFor(dispatcher, DispatchedOf(data, limits, relayer, messages))
            == ChargedFor(dispatcher, DispatchedOf(data, limits, relayer, messages[..last]))
               .Plus(ChargeIf(dispatcher, TakesLast(data, limits, relayer, messages), messages[last]))
  {
    var last := |messages| - 1;
    DispatchedOneMore(data, limits, relayer, messages);
    ChargedForIf(dispatcher, DispatchedOf(data, limits, relayer, messages[..last]),
                 TakesLast(data, limits, relayer, messages), messages[last]);
  }

  lemma ChargeTaken(dispatcher: Dispatcher, taken: bool, message: Message, left: Weight)
    requires !dispatcher.weight(message).AnyGt(left)
    ensures AsTotal(left.Minus(dispatcher.weight(message).Minus(Unspent(dispatcher, taken, message))))
         == AsTotal(left).Less(ChargeIf(dispatcher, taken, message))
  {
  }

  lemma {:induction false} BudgetOneMore(data: InboundLaneData, limits: Limits, relayer: RelayerId,
                                         messages: seq<Message>, dispatcher: Dispatcher, budget: Weight)
    requires messages != []
    ensures var last := |messages| - 1;
            var before := BudgetLeft(data, limits, relayer, messages[..last], dispatcher, budget);
            var after := BudgetLeft(data, limits, relayer, messages, dispatcher, budget);
            && (after.None? <==> before.None? || dispatcher.weight(messages[last]).AnyGt(before.value))
            && (after.Some? ==>
                  AsTotal(after.value)
                  == AsTotal(before.value)
                     .Less(ChargeIf(dispatcher, TakesLast(data, limits, relayer, messages), messages[last])))
  {
    var last := |messages| - 1;
    var before := BudgetLeft(data, limits, relayer, messages[..last], dispatcher, budget);
    if before.Some? && !dispatcher.weight(messages[last]).AnyGt(before.value) {
      ChargeTaken(dispatcher, TakesLast(data, limits, relayer, messages), messages[last], before.value);
    }
  }

  /** As long as the budget lasts, what is left of it is the budget less the cost of the dispatched messages. */
  lemma {:induction false} BudgetLeftIs(data: InboundLaneData, limits: Limits, relayer: RelayerId,
                                        messages: seq<Message>, dispatcher: Dispatcher, budget: Weight)
    ensures var left := BudgetLeft(data, limits, relayer, messages, dispatcher, budget);
            left.Some? ==>
              AsTotal(left.value)
              == AsTotal(budget).Less(ChargedFor(dispatcher, DispatchedOf(data, limits, relayer, messages)))
  {
    if messages != [] {
      BudgetLeftIs(data, limits, relayer, messages[..|messages| - 1], dispatcher, budget);
      ChargedForOffer(data, limits, relayer, messages, dispatcher);
      BudgetOneMore(data, limits, relayer, messages, dispatcher, budget);
    }
  }

  /** Message `i` declares more than the budget less the cost of what was dispatched before it. */
  ghost predicate ExceedsAt(data: InboundLaneData, limits: Limits, relayer: RelayerId, messages: seq<Message>,
                            dispatcher: Dispatcher, budget: Weight, i: int)
  {
    && 0 <= i < |messages|
    && var charged := ChargedFor(dispatcher, DispatchedOf(data, limits, relayer, messages[..i]));
       || dispatcher.weight(messages[i]).refTime > budget.refTime - charged.refTime
       || dispatcher.weight(messages[i]).proofSize > budget.proofSize - charged.proofSize
  }

  ghost predicate OverBudget(data: InboundLaneData, limits: Limits, relayer: RelayerId, messages: seq<Message>,
                             dispatcher: Dispatcher, budget: Weight)
  {
    exists i :: ExceedsAt(data, limits, relayer, messages, dispatcher, budget, i)
  }

  lemma {:induction false} ExceedingPrefix(data: InboundLaneData, limits: Limits, relayer: RelayerId,
                                           messages: seq<Message>, dispatcher: Dispatcher, budget: Weight, i: nat)
    requires i < |messages|
    ensures BudgetLeft(data, limits, relayer, messages[..i], dispatcher, budget).Some? ==>
              (BudgetLeft(data, limits, relayer, messages[..i + 1], dispatcher, budget) == None
               <==> ExceedsAt(data, limits, relayer, messages, dispatcher, budget, i))
  {
    assert messages[..i + 1][..i] == messages[..i];
    BudgetLeftIs(data, limits, relayer, messages[..i], dispatcher, budget);
  }

  lemma {:induction false} FirstExcess(data: InboundLaneData, limits: Limits, relayer: RelayerId,
                                       messages: seq<Message>, dispatcher: Dispatcher, budget: Weight, k: nat)
    requires k <= |messages|
    requires BudgetLeft(data, limits, relayer, messages[..k], dispatcher, budget) == None
    ensures OverBudget(data, limits, relayer, messages, dispatcher, budget)
  {
    if k > 0 {
      if BudgetLeft(data, limits, relayer, messages[..k - 1], dispatcher, budget) == None {
        FirstExcess(data, limits, relayer, messages, dispatcher, budget, k - 1);
      } else {
        ExceedingPrefix(data, limits, relayer, messages, dispatcher, budget, k - 1);
      }
    }
  }

  /** The budget runs out if and only if some message declares more than the dispatched ones before it have left. */
  lemma {:induction false} BudgetRunsOutIff(data: InboundLaneData, limits: Limits, relayer: RelayerId,
                                            messages: seq<Message>, dispatcher: Dispatcher, budget: Weight)
    ensures BudgetLeft(data, limits, relayer, messages, dispatcher, budget) == None
       <==> OverBudget(data, limits, relayer, messages, dispatcher, budget)
  {
    assert messages[..|messages|] == messages;
    if BudgetLeft(data, limits, relayer, messages, dispatcher, budget) == None {
      FirstExcess(data, limits, relayer, messages, dispatcher, budget, |messages|);
    } else if OverBudget(data, limits, relayer, messages, dispatcher, budget) {
      var i :| ExceedsAt(data, limits, relayer, messages, dispatcher, budget, i);
      ExceedingPrefix(data, limits, relayer, messages, dispatcher, budget, i);
      if BudgetLeft(data, limits, relayer, messages[..i], dispatcher, budget) == None {
        BudgetNeverRecovers(data, limits, relayer, messages, dispatcher, budget, i);
      } else {
        BudgetNeverRecovers(data, limits, relayer, messages, dispatcher, budget, i + 1);
      }
    }
  }

  /** Weight that is given back: all that was declared less the cost of what was dispatched. */
  ghost function RefundFor(data: InboundLaneData, limits: Limits, relayer: RelayerId, messages: seq<Message>,
                           dispatcher: Dispatcher): Total
  {
    DeclaredFor(dispatcher, messages).Less(ChargedFor(dispatcher, DispatchedOf(data, limits, relayer, messages)))
  }

  /** A weight less an unbounded sum, not below zero. */
  ghost predicate IsReduced(w: Weight, t: Total, reduced: Weight) {
    && 0 <= t.refTime && reduced.refTime == Max(w.refTime - t.refTime, 0)
    && 0 <= t.proofSize && reduced.proofSize == Max(w.proofSize - t.proofSize, 0)
  }

  lemma UnspentIs(dispatcher: Dispatcher, taken: bool, message: Message)
    ensures AsTotal(Unspent(dispatcher, taken, message))
         == AsTotal(dispatcher.weight(message)).Less(ChargeIf(dispatcher, taken, message))
  {
  }

  lemma TotalsStep(declared: Total, charged: Total, weight: Total, charge: Total)
    ensures declared.Plus(weight).Less(charged.Plus(charge)) == declared.Less(charged).Plus(weight.Less(charge))
  {
  }

  lemma {:induction false} RefundOneMore(data: InboundLaneData, limits: Limits, relayer: RelayerId,
                                         messages: seq<Message>, dispatcher: Dispatcher)
    requires messages != []
    ensures var last := |messages| - 1;
            RefundFor(data, limits, relayer, messages, dispatcher)
            == RefundFor(data, limits, relayer, messages[..last], dispatcher)
               .Plus(AsTotal(Unspent(dispatcher, TakesLast(data, limits, relayer, messages), messages[last])))
  {
    var last := |messages| - 1;
    var taken := TakesLast(data, limits, relayer, messages);
    ChargedForOffer(data, limits, relayer, messages, dispatcher);
    UnspentIs(dispatcher, taken, messages[last]);
    TotalsStep(DeclaredFor(dispatcher, messages[..last]),
               ChargedFor(dispatcher, DispatchedOf(data, limits, relayer, messages[..last])),
               AsTotal(dispatcher.weight(messages[last])), ChargeIf(dispatcher, taken, messages[last]));
  }

  lemma ReducedFurther(w: Weight, t: Total, reduced: Weight, more: Weight)
    requires IsReduced(w, t, reduced)
    ensures IsReduced(w, t.Plus(AsTotal(more)), reduced.SaturatingSub(more))
  {
  }

  /** The weight of the call after the bundle: every message gives back what it leaves unspent. */
  function ActualAfter(data: InboundLaneData, limits: Limits, relayer: RelayerId, messages: seq<Message>,
                       dispatcher: Dispatcher, declaredWeight: Weight): Weight
  {
    if messages == [] then declaredWeight
    else
      var last := |messages| - 1;
      ActualAfter(data, limits, relayer, messages[..last], dispatcher, declaredWeight)
      .SaturatingSub(Unspent(dispatcher, TakesLast(data, limits, relayer, messages), messages[last]))
  }

  /** It is the declared weight less the refund, not below zero. */
  lemma {:induction false} ActualIsReduced(data: InboundLaneData, limits: Limits, relayer: RelayerId,
                                           messages: seq<Message>, dispatcher: Dispatcher, declaredWeight: Weight)
    ensures IsReduced(declaredWeight, RefundFor(data, limits, relayer, messages, dispatcher),
                      ActualAfter(data, limits, relayer, messages, dispatcher, declaredWeight))
  {
    if messages != [] {
      var last := |messages| - 1;
      var init := messages[..last];
      ActualIsReduced(data, limits, relayer, init, dispatcher, declaredWeight);
      RefundOneMore(data, limits, relayer, messages, dispatcher);
      ReducedFurther(declaredWeight, RefundFor(data, limits, relayer, init, dispatcher),
                     ActualAfter(data, limits, relayer, init, dispatcher, declaredWeight),
                     Unspent(dispatcher, TakesLast(data, limits, relayer, messages), messages[last]));
    }
  }

  /** What a delivery needs besides a pallet that is not halted. */
  ghost predicate Acceptable(stored: InboundLaneData, limits: Limits, relayer: RelayerId, proof: MessagesProof,
                             messagesCount: nat, dispatcher: Dispatcher, dispatchWeight: Weight, dispatchActive: bool)
  {
    var proved := Proved(proof, messagesCount);
    && messagesCount <= limits.maxUnconfirmedMessages && dispatchActive && proved.Ok?
    && !OverBudget(AfterOptionalUpdate(stored, proof.laneState), limits, relayer, proved.value.messages, dispatcher,
                   dispatchWeight)
  }

  // ---------- The calls ----------

  datatype CallError =
    | Halted
    | TooManyMessagesInTheProof
    | MessageDispatchInactive
    | InvalidMessagesProof
    | InvalidMessagesDeliveryProof
    | InsufficientDispatchWeight
    | InvalidUnrewardedRelayersState
    | ReceptionConfirmation(error: ConfirmationError)

  function AddRewards(a: map<RelayerId, nat>, b: map<RelayerId, nat>): map<RelayerId, nat> {
    map r | r in a.Keys + b.Keys :: Reward(a, r) + Reward(b, r)
  }

  type AccountId(==, !new)

  datatype Origin = Root | Signed(account: AccountId) | Unsigned

  datatype OperatingMode = Normal | AllHalted | RejectingOutboundMessages

  class MessagesPallet {
    const storage: PalletStorage
    const limits: Limits
    const dispatcher: Dispatcher
    const owner: Option<AccountId>
    var mode: OperatingMode
    /** Messages for which a relayer has been rewarded so far. */
    var relayerRewards: map<RelayerId, nat>

    constructor (storage: PalletStorage, limits: Limits, dispatcher: Dispatcher, owner: Option<AccountId>)
      ensures this.storage == storage && this.limits == limits && this.dispatcher == dispatcher && this.owner == owner
      ensures mode == Normal && relayerRewards == map[]
    {
      this.storage, this.limits, this.dispatcher, this.owner := storage, limits, dispatcher, owner;
      mode, relayerRewards := Normal, map[];
    }

    predicate IsHalted()
      reads this
    {
      mode == AllHalted
    }

    /** Saves a message and answers its nonce and the length of the queue. */
    method SendMessage(lane: LaneId, payload: Payload) returns (nonce: Nonce, enqueued: U64)
      modifies storage`outboundLanes, storage`outboundMessages
      ensures nonce == NextNonce(old(storage.Outbound(lane)).latestGenerated)
      ensures storage.outboundLanes == old(storage.outboundLanes)[lane := AfterSend(old(storage.Outbound(lane)))]
      ensures storage.outboundMessages == old(storage.outboundMessages)[(lane, nonce) := payload]
      ensures enqueued == QueueLength(storage.Outbound(lane))
    {
      var outbound := new OutboundLane(lane, storage);
      nonce := outbound.SendMessage(payload);
      enqueued := QueueLength(storage.Outbound(lane));
    }

    /**
     Receives a proof of messages. A failed call leaves no trace; a successful one delivers the
     optional lane state first and then offers the messages in the order of their nonces.
     */
    method ReceiveMessagesProof(relayer: RelayerId, proof: MessagesProof, messagesCount: nat,
                                dispatchWeight: Weight, declaredWeight: Weight,
                                dispatchActive: bool, extraProofBytes: nat -> U64)
      returns (result: Result<Weight, CallError>)
      modifies storage`inboundLanes, storage`dispatched
      ensures var proved := Proved(proof, messagesCount);
              var data := AfterOptionalUpdate(old(storage.Inbound(proof.lane)), proof.laneState);
              if mode == AllHalted then result == Err(Halted)
              else if messagesCount > limits.maxUnconfirmedMessages then result == Err(TooManyMessagesInTheProof)
              else if !dispatchActive then result == Err(MessageDispatchInactive)
              else if proved.Err? then result == Err(InvalidMessagesProof)
              else if OverBudget(data, limits, relayer, proved.value.messages, dispatcher, dispatchWeight)
              then result == Err(InsufficientDispatchWeight)
              else
                var extra := extraProofBytes(|old(storage.Inbound(proof.lane)).relayers|);
                var lighter := declaredWeight.(proofSize := Max(declaredWeight.proofSize - extra, 0));
                && result.Ok?
                && IsReduced(lighter, RefundFor(data, limits, relayer, proved.value.messages, dispatcher), result.value)
                && storage.Inbound(proof.lane) == AfterBundle(data, limits, relayer, proved.value.messages)
                && storage.Dispatched(proof.lane)
                   == old(storage.Dispatched(proof.lane)) + DispatchedOf(data, limits, relayer, proved.value.messages)
      ensures result.Ok? <==>
                && mode != AllHalted
                && Acceptable(old(storage.Inbound(proof.lane)), limits, relayer, proof, messagesCount, dispatcher,
                              dispatchWeight, dispatchActive)
      ensures result.Ok? ==> declaredWeight.AllGte(result.value)
      ensures result.Err? ==> storage.inboundLanes == old(storage.inboundLanes)
                              && storage.dispatched == old(storage.dispatched)
      ensures old(storage.NoBlankLane(proof.lane)) ==> storage.NoBlankLane(proof.lane)
      ensures storage.inboundLanes - {proof.lane} == old(storage.inboundLanes) - {proof.lane}
      ensures storage.dispatched - {proof.lane} == old(storage.dispatched) - {proof.lane}
    {
      if IsHalted() {
        return Err(Halted);
      }
      if messagesCount > limits.maxUnconfirmedMessages {
        return Err(TooManyMessagesInTheProof);
      }
      if !dispatchActive {
        return Err(MessageDispatchInactive);
      }
      var proved := VerifyMessagesProof(proof, messagesCount);
      if proved.Err? {
        return Err(InvalidMessagesProof);
      }

      var savedLanes := storage.inboundLanes;
      ghost var savedDispatched := storage.dispatched;
      var laneStorage := new RuntimeInboundLaneStorage(proof.lane, storage, limits);
      var stored := laneStorage.GetOrInitData();
      var extra := extraProofBytes(|stored.relayers|);
      var actualWeight := declaredWeight.(proofSize := Max(declaredWeight.proofSize - extra, 0));
      var refunded, fits := ReceiveLane(laneStorage, relayer, proved.value, dispatchWeight, actualWeight);
      if !fits {
        storage.inboundLanes := savedLanes;
        storage.dispatched := savedDispatched;
        return Err(InsufficientDispatchWeight);
      }
      return Ok(refunded);
    }

    /** The lane part of a delivery: state update, then the messages. */
    method ReceiveLane(laneStorage: RuntimeInboundLaneStorage, relayer: RelayerId, proved: ProvedLaneMessages,
                       dispatchWeight: Weight, declaredWeight: Weight)
      returns (actualWeight: Weight, fits: bool)
      requires laneStorage.pallet == storage && laneStorage.limits == limits && laneStorage.Coherent()
      modifies laneStorage`cachedData, storage`inboundLanes, storage`dispatched
      ensures declaredWeight.AllGte(actualWeight)
      ensures var lane := laneStorage.laneId;
              var data := AfterOptionalUpdate(old(storage.Inbound(lane)), proved.laneState);
              && fits == !OverBudget(data, limits, relayer, proved.messages, dispatcher, dispatchWeight)
              && (fits ==>
                    && storage.Inbound(lane) == AfterBundle(data, limits, relayer, proved.messages)
                    && storage.Dispatched(lane)
                       == old(storage.Dispatched(lane)) + DispatchedOf(data, limits, relayer, proved.messages)
                    && IsReduced(declaredWeight, RefundFor(data, limits, relayer, proved.messages, dispatcher),
                                 actualWeight))
      ensures old(storage.NoBlankLane(laneStorage.laneId)) ==> storage.NoBlankLane(laneStorage.laneId)
      ensures storage.inboundLanes - {laneStorage.laneId} == old(storage.inboundLanes) - {laneStorage.laneId}
      ensures storage.dispatched - {laneStorage.laneId} == old(storage.dispatched) - {laneStorage.laneId}
    {
      var inbound := new InboundLane(laneStorage);
      if proved.laneState.Some? {
        var _ := inbound.ReceiveStateUpdate(proved.laneState.value);
      }
      ghost var data := storage.Inbound(laneStorage.laneId);
      BudgetRunsOutIff(data, limits, relayer, proved.messages, dispatcher, dispatchWeight);
      ActualIsReduced(data, limits, relayer, proved.messages, dispatcher, declaredWeight);
      actualWeight, fits := OfferBundle(inbound, relayer, proved.messages, dispatchWeight, declaredWeight);
    }

    /** Offers message after message as long as the dispatch weight lasts. */
    method OfferBundle(inbound: InboundLane, relayer: RelayerId, messages: seq<Message>,
                       dispatchWeight: Weight, declaredWeight: Weight)
      returns (actualWeight: Weight, fits: bool)
      requires inbound.storage.pallet == storage && inbound.storage.limits == limits && inbound.storage.Coherent()
      modifies inbound.storage`cachedData, storage`inboundLanes, storage`dispatched
      ensures declaredWeight.AllGte(actualWeight)
      ensures var lane := inbound.storage.laneId;
              var data := old(storage.Inbound(lane));
              && fits == BudgetLeft(data, limits, relayer, messages, dispatcher, dispatchWeight).Some?
              && (fits ==>
                    && storage.Inbound(lane) == AfterBundle(data, limits, relayer, messages)
                    && storage.Dispatched(lane)
                       == old(storage.Dispatched(lane)) + DispatchedOf(data, limits, relayer, messages)
                    && actualWeight == ActualAfter(data, limits, relayer, messages, dispatcher, declaredWeight))
      ensures old(storage.NoBlankLane(inbound.storage.laneId)) ==> storage.NoBlankLane(inbound.storage.laneId)
      ensures storage.inboundLanes - {inbound.storage.laneId} == old(storage.inboundLanes) - {inbound.storage.laneId}
      ensures storage.dispatched - {inbound.storage.laneId} == old(storage.dispatched) - {inbound.storage.laneId}
    {
      ghost var lane := inbound.storage.laneId;
      ghost var data := storage.Inbound(lane);
      actualWeight := declaredWeight;
      var left := dispatchWeight;
      for i := 0 to |messages|
        invariant inbound.storage.Coherent()
        invariant declaredWeight.AllGte(actualWeight)
        invariant storage.Inbound(lane) == AfterBundle(data, limits, relayer, messages[..i])
        invariant storage.Dispatched(lane)
               == old(storage.Dispatched(lane)) + DispatchedOf(data, limits, relayer, messages[..i])
        invariant BudgetLeft(data, limits, relayer, messages[..i], dispatcher, dispatchWeight) == Some(left)
        invariant actualWeight == ActualAfter(data, limits, relayer, messages[..i], dispatcher, declaredWeight)
        invariant old(storage.NoBlankLane(lane)) ==> storage.NoBlankLane(lane)
        invariant storage.inboundLanes - {lane} == old(storage.inboundLanes) - {lane}
        invariant storage.dispatched - {lane} == old(storage.dispatched) - {lane}
      {
        assert messages[..i + 1][..i] == messages[..i];
        left, actualWeight, fits := OfferMessage(inbound, relayer, messages[i], left, actualWeight);
        if !fits {
          BudgetNeverRecovers(data, limits, relayer, messages, dispatcher, dispatchWeight, i + 1);
          return;
        }
      }
      assert messages[..|messages|] == messages;
      fits := true;
    }

    /** Offers one message, charging its dispatch to the weight that is left. */
    method OfferMessage(inbound: InboundLane, relayer: RelayerId, message: Message, left: Weight, actual: Weight)
      returns (newLeft: Weight, newActual: Weight, fits: bool)
      requires inbound.storage.pallet == storage && inbound.storage.limits == limits && inbound.storage.Coherent()
      modifies inbound.storage`cachedData, storage`inboundLanes, storage`dispatched
      ensures inbound.storage.Coherent()
      ensures actual.AllGte(newActual)
      ensures fits == !dispatcher.weight(message).AnyGt(left)
      ensures var lane := inbound.storage.laneId;
              var data := old(storage.Inbound(lane));
              var accepted := ReceptionVerdict(data, limits, message.nonce) == Accepted;
              fits ==>
                && storage.Inbound(lane) == AfterOffer(data, limits, relayer, message)
                && storage.Dispatched(lane) == old(storage.Dispatched(lane)) + (if accepted then [message] else [])
                && newLeft == left.Minus(dispatcher.weight(message).Minus(Unspent(dispatcher, accepted, message)))
                && newActual == actual.SaturatingSub(Unspent(dispatcher, accepted, message))
      ensures old(storage.NoBlankLane(inbound.storage.laneId)) ==> storage.NoBlankLane(inbound.storage.laneId)
      ensures storage.inboundLanes - {inbound.storage.laneId} == old(storage.inboundLanes) - {inbound.storage.laneId}
      ensures storage.dispatched - {inbound.storage.laneId} == old(storage.dispatched) - {inbound.storage.laneId}
    {
      var messageWeight := dispatcher.weight(message);
      if messageWeight.AnyGt(left) {
        return left, actual, false;
      }
      var result := inbound.ReceiveMessage(relayer, message, dispatcher.unspent);
      var unspent := if result.Dispatched? then result.unspentWeight else messageWeight;
      unspent := unspent.Meet(messageWeight);
      newLeft := left.Minus(messageWeight.Minus(unspent));
      newActual := actual.SaturatingSub(unspent);
      fits := true;
    }

    /** Receives a proof of the paired inbound lane; pays relayers and answers the length of the queue. */
    method ReceiveMessagesDeliveryProof(proof: MessagesDeliveryProof, declared: UnrewardedRelayersState)
      returns (result: Result<Option<DeliveredMessages>, CallError>, enqueued: U64)
      modifies this`relayerRewards, storage`outboundLanes
      ensures var data := old(storage.Outbound(proof.lane));
              var proved := ProvedDelivery(proof);
              if mode == AllHalted then result == Err(Halted)
              else if proved.Err? then result == Err(InvalidMessagesDeliveryProof)
              else if declared != proved.value.RelayersState() then result == Err(InvalidUnrewardedRelayersState)
              else
                var outcome := ConfirmationOf(data, proved.value);
                if outcome.Err? then result == Err(ReceptionConfirmation(outcome.error))
                else result == Ok(outcome.value) && storage.Outbound(proof.lane) == AfterConfirm(data, outcome)
      ensures result.Ok? && result.value.Some? ==>
                && proof.laneData.Some?
                && (forall r :: Reward(relayerRewards, r)
                             == Reward(old(relayerRewards), r)
                                + ClippedOf(proof.laneData.value.relayers, result.value.value, r))
                && storage.outboundLanes == old(storage.outboundLanes)[proof.lane := storage.Outbound(proof.lane)]
      ensures result.Err? || result.value.None? ==>
                relayerRewards == old(relayerRewards) && storage.outboundLanes == old(storage.outboundLanes)
      ensures result.Ok? ==> enqueued == QueueLength(storage.Outbound(proof.lane))
    {
      enqueued := 0;
      if IsHalted() {
        return Err(Halted), 0;
      }
      if ProvedDelivery(proof).Err? {
        return Err(InvalidMessagesDeliveryProof), 0;
      }
      var proved := ProvedDelivery(proof).value;
      if declared != proved.RelayersState() {
        return Err(InvalidUnrewardedRelayersState), 0;
      }
      var outbound := new OutboundLane(proof.lane, storage);
      var outcome := outbound.ConfirmDelivery(declared.totalMessages, proved.LastDelivered(), proved.relayers);
      if outcome.Err? {
        return Err(ReceptionConfirmation(outcome.error)), 0;
      }
      if outcome.value.Some? {
        var rewards := CalcRelayersRewards(proved.relayers, outcome.value.value);
        relayerRewards := AddRewards(relayerRewards, rewards);
      }
      return Ok(outcome.value), QueueLength(storage.Outbound(proof.lane));
    }

    /** The owner or root changes the operating mode; nobody else can. */
    method SetOperatingMode(origin: Origin, newMode: OperatingMode) returns (allowed: bool)
      modifies this`mode
      ensures allowed <==> origin == Root || (owner.Some? && origin == Signed(owner.value))
      ensures mode == if allowed then newMode else old(mode)
    {
      allowed := match origin
        case Root => true
        case Signed(account) => owner == Some(account)
        case Unsigned => false;
      if allowed {
        mode := newMode;
      }
    }

    /** Prunes one of the active lanes, chosen by the block number, within the remaining weight. */
    method OnIdle(lanes: seq<LaneId>, blockNumber: nat, db: DbWeight, remainingWeight: Weight) returns (used: Weight)
      requires lanes != []
      requires IdleAffordable(db, remainingWeight) ==>
                 LoopEnds(storage.Outbound(lanes[blockNumber % |lanes|]), db.write)
      modifies storage`outboundLanes, storage`outboundMessages
      ensures remainingWeight.AllGte(used)
      ensures var lane := lanes[blockNumber % |lanes|];
              var data := old(storage.Outbound(lane));
              if !IdleAffordable(db, remainingWeight) then
                && used == ZERO_WEIGHT
                && storage.outboundLanes == old(storage.outboundLanes)
                && storage.outboundMessages == old(storage.outboundMessages)
              else
                var budget := remainingWeight.refTime - db.read;
                && used == Weight(WrappingAdd(db.read, Spent(db.write, PruneCount(data, db.write, budget))), 0)
                && storage.Outbound(lane) == AfterPrune(data, db.write, budget)
                && storage.outboundMessages
                   == Unpruned(old(storage.outboundMessages), lane, data, PruneCount(data, db.write, budget))
      ensures forall other :: other != lanes[blockNumber % |lanes|] ==>
                storage.Outbound(other) == old(storage.Outbound(other))
    {
      var reserve := Weight(IdleReserve(db), 0);
      if !remainingWeight.AllGte(reserve) {
        return ZERO_WEIGHT;
      }
      var lane := lanes[blockNumber % |lanes|];
      var outbound := new OutboundLane(lane, storage);
      ghost var data, budget := storage.Outbound(lane), remainingWeight.refTime - db.read;
      used := Weight(db.read, 0);
      var spent := outbound.PruneMessages(db, remainingWeight.Minus(used));
      if 2 * db.write <= U64_MAX {
        PruneStaysWithinBudget(data, db.write, budget);
      }
      used := used.WrappingPlus(spent);
    }
  }

  /** One read and two writes, which must be affordable before a lane is touched. */
  function IdleReserve(db: DbWeight): (reserve: U64)
    ensures db.read <= reserve
  {
    Min(db.read + Min(2 * db.write, U64_MAX), U64_MAX)
  }

  /** The reserve fits, or all the weight there can be is left. */
  predicate IdleAffordable(db: DbWeight, remainingWeight: Weight) {
    db.read + 2 * db.write <= remainingWeight.refTime || remainingWeight.refTime == U64_MAX
  }

  /** Length of the queue latestReceived+1..=latestGenerated; the addition is not checked. */
  function QueueLength(data: OutboundLaneData): U64 {
    SaturatingLen(NextNonce(data.latestReceived), data.latestGenerated)
  }
}
