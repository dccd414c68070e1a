# Bridge lanes, light clients and the statement table

A Dafny model of four parts of a Polkadot-style node and its bridges, with proofs about whole runs.

* **Message lanes.** A source chain numbers messages and keeps them until they are confirmed; a target
  chain dispatches them in order and remembers, in a run-length deque, which relayer delivered what.
  Each chain acts on storage proofs of the other. A proof shows some state the other chain really had, but
  it may be old, arrive in any order and be used more than once. `LaneProtocol` is the pair of chains as a
  step system with ghost histories; `LaneTheorems` holds the results about every run; `Bridge` drives the two
  pallet objects and keeps them equal to that system call by call, so the results hold of the objects.
* **Transaction filter and congestion signals** on top of the lanes (`CallFilter`, `Congestion`).
* **Statement table** of the backing subsystem: votes, misbehaviour reports, attestation
  (`StatementTable`, `StatementRuns`, `StatementTheorems`).
* **Light clients**: GRANDPA headers and BEEFY commitments, both kept in a ring buffer
  (`RingBuffer`, `Grandpa`, `Beefy`).

Code that updates storage is a class whose methods are proved equal to functions on values; the properties
are then lemmas about those functions and about all sequences of calls. 64-bit values are the subset type
`U64`, so each store of a computed value is also a proof that it did not overflow. Where the code adds or
subtracts without a check (the nonce of a new message, the length of the queue, the weights and the nonce of
the pruning loop), the model wraps around as the release build does.

What the code does beyond, or against, its comments:

* Some lane results hold in every run (`RunKeepsRecord`: the deque, the delivery record and three of the four
  counters); the others hold up to a number of sent messages that `NonceBounds` shows to be exact. Messages
  arrive in order, and those to come are stored, for up to 2^64 of them; after that nonces are reused and a wrong
  payload is dispatched. The generated nonce keeps up with the other counters, and a lane whose limits can be
  reached is never stuck, for up to 2^64 - 1. For fewer than 2^64 - 1, confirmations never fail, the transaction
  filter agrees with them, payments are exact and storage and lane data agree: once the last nonce is confirmed,
  the saturating addition in `confirm_delivery` confirms it again and pays it twice, or refuses a true proof, and
  pruning it makes the oldest nonce start over. The filter stops such a confirmation
  (`NoConfirmationAfterTheLastNonce`); the call itself does not.
* Pruning saves the lane data only if the weight it spent, which wraps, is not zero. So storage and lane data
  stay in step if and only if two writes do not wrap to zero (`StorageCostIsExact`). At a cost of zero they
  part whenever something is removed, and at a cost of 2^63 whenever an even number of messages is
  (`PruneKeepsStorageIff`). Messages that are still needed are not touched at any cost
  (`UndispatchedIsStored`). When two writes do not fit 64 bits, pruning exceeds its budget
  (`BudgetHoldsIffTwoWritesFit`). The loop ends if and only if the last nonce is not confirmed or two writes do
  not wrap to zero (`TerminatesIff`).
* The issuance panic of the statement table is reachable: two groups seconding one candidate suffice
  (`InconsistentGroupsStopTheTable`). `GivesUpIffForeignIssuer` is the exact condition.
* Misbehaviour reports show what the accused signed if and only if candidate digests do not collide
  (`ReportsShowSignedIffInjective`).
* BEEFY refuses an empty initial authority set but not an empty successor set, under which commitments without
  any signature are imported (`ImportIsSignedIffSetNotEmpty`, `UnsignedCommitmentIsImported`).

## Model

| member | source | states |
|---|---|---|
| `InboundLanes.RuntimeInboundLaneStorage.GetOrInitData` | bridges/modules/messages/src/lib.rs:833-843 | Reading through the cache always yields the stored lane data, whether or not the cache is filled |
| `InboundLanes.RuntimeInboundLaneStorage.SetData` | bridges/modules/messages/src/lib.rs:845-848 | Writes the one lane and keeps the cache equal to storage |
| `InboundLanes.InboundLane.ReceiveStateUpdate` | bridges/modules/messages/src/inbound_lane.rs:127-165 | The pop-and-clip loop computes `AfterStateUpdate`; answers the new confirmed nonce exactly when it lies above the old one and not above the last delivered one; other lanes untouched |
| `InboundLanes.InboundLane.ReceiveMessage` | bridges/modules/messages/src/inbound_lane.rs:168-211 | Exactly the three rejections in their order, which change nothing; otherwise one dispatch and one more nonce in the deque, without overflow |
| `RelayerDeque.ReceiveRefinesMap` | bridges/modules/messages/src/inbound_lane.rs:196-208 | On the nonce-to-relayer map a reception adds exactly one pair; entries stay non-empty, gap-free from the confirmed nonce and never adjacent for one relayer |
| `RelayerDeque.StateUpdateRefinesMap` | bridges/modules/messages/src/inbound_lane.rs:143-164 | On the map a state update drops exactly the pairs up to the confirmed nonce; the deque stays well formed |
| `RelayerDeque.LimitsKept` | bridges/modules/messages/src/inbound_lane.rs:179-188 | Neither operation exceeds the limit on entries or on unconfirmed messages |
| `RelayerDeque.VerdictIff` | bridges/modules/messages/src/inbound_lane.rs:174-188 | For all inputs, when a nonce is taken and which of the three refusals any other one gets |
| `RelayerDeque.ChainCovers` | bridges/primitives/messages/src/lib.rs:229-245 | A gap-free deque covers each nonce from its first to its last exactly once, and no other |
| `RelayerDeque.EntriesAreRuns` | bridges/primitives/messages/src/lib.rs:382-394 | There is one entry per run of one relayer in the record of unconfirmed deliveries |
| `RelayerDeque.FrontIsFirstRun` | bridges/primitives/messages/src/lib.rs:382-394 | The front entry is the first run of that record: all of it belongs to one relayer and the next nonce does not |
| `RelayerDeque.DeclaredStateIff` | bridges/primitives/messages/src/lib.rs:382-394 | A declared state equals the gist of the lane if and only if it gives the number of runs of the record, the length of its first run, its length and its last nonce |
| `OutboundLanes.OutboundLane.SendMessage` | bridges/modules/messages/src/outbound_lane.rs:89-98 | Stores the payload under the successor nonce (wrapping) and nothing else changes |
| `OutboundLanes.EnsureUnrewardedRelayersAreCorrect` | bridges/modules/messages/src/outbound_lane.rs:176-201 | The loop reports the first complaint about the entries in order, or none |
| `OutboundLanes.OutboundLane.ConfirmDelivery` | bridges/modules/messages/src/outbound_lane.rs:101-139 | All outcomes and their precedence; lane data changes only on a non-empty confirmation |
| `OutboundLanes.OutboundLane.PruneMessages` | bridges/modules/messages/src/outbound_lane.rs:144-169 | Whenever the loop can end, it removes the messages of its rounds from the oldest on, reports one write per round plus one, and saves the lane data exactly if that is not zero; all sums wrap as in the source |
| `Pruning.TerminatesIff` | bridges/modules/messages/src/outbound_lane.rs:153-161 | For all inputs the loop ends if and only if the last nonce is not confirmed or two writes, wrapping, do not wrap to zero |
| `Pruning.PruneRemovesConfirmed` | bridges/modules/messages/src/outbound_lane.rs:151-161 | Below the last nonce the loop removes only confirmed messages, a run from the oldest on |
| `Pruning.PruneCountIsClosedForm` | bridges/modules/messages/src/outbound_lane.rs:149-161 | For all inputs on which the loop ends, its number of rounds in closed form: min(confirmed unpruned, R/w - 1) if two writes fit 64 bits, a formula in R, w and the wrapped 2w if they do not, and all confirmed messages if two writes wrap to zero |
| `Pruning.PruneStaysWithinBudget` | bridges/modules/messages/src/outbound_lane.rs:149-168 | If two writes fit 64 bits, the reported weight is the true cost of the writes and within the budget |
| `Pruning.BudgetHoldsIffTwoWritesFit` | bridges/modules/messages/src/outbound_lane.rs:149-161 | The writes stay within the budget for every lane and budget if and only if two writes fit 64 bits |
| `OutboundLanes.NoComplaintIffChained` | bridges/modules/messages/src/outbound_lane.rs:176-201 | The entry checks pass if and only if entries are non-empty, consecutive and end in time, for every proved deque |
| `OutboundLanes.ComplaintIff` | bridges/modules/messages/src/outbound_lane.rs:176-201 | A complaint is raised if and only if some entry is at fault in that way while all entries before it are in order |
| `OutboundLanes.ConfirmationAcceptedIff` | bridges/modules/messages/src/outbound_lane.rs:101-139 | For all inputs, a confirmation is accepted if and only if it confirms generated messages, not more than declared, with a gap-free deque that ends in time; it confirms nothing if and only if nothing is new |
| `OutboundLanes.ConfirmationBlamesEntry` | bridges/modules/messages/src/outbound_lane.rs:101-139 | A range that may be confirmed is refused with an error if and only if the first entry at fault has that fault |
| `OutboundLanes.LastNonceIsConfirmedAgain` | bridges/modules/messages/src/outbound_lane.rs:107-111 | Once the last nonce is confirmed, a true proof with an empty deque is refused and one with entries confirms the last message again |
| `OutboundLanes.ConfirmedRangeIsCovered` | bridges/modules/messages/src/outbound_lane.rs:106-133 | Whatever data a proof carried, once accepted every confirmed nonce lies in exactly one entry and no entry reaches past the range |
| `Pruning.PaidRoundsAreSpent` | bridges/modules/messages/src/outbound_lane.rs:158-166 | If two writes do not wrap to zero, no number of rounds the budget pays for wraps to a spending of zero: otherwise 2^64 would have an odd factor |
| `Pruning.WritesBackIff` | bridges/modules/messages/src/outbound_lane.rs:163-166 | For all inputs, when the lane data is written back, in terms of the inputs |
| `Pruning.ReportedIs` | bridges/modules/messages/src/outbound_lane.rs:158-168 | For all inputs, the reported weight is one write per round plus one, modulo 2^64, when the lane data is written back, and zero otherwise |
| `Pruning.PruneKeepsStorageIff` | bridges/modules/messages/src/outbound_lane.rs:144-169 | For all inputs, in terms of the inputs, when stored messages stay exactly the unpruned ones: if two writes do not wrap to zero, unless the rounds pass the last nonce; otherwise only with nothing to remove, or with a non-zero cost and an odd number of messages |
| `Rewards.CalcRelayersRewards` | bridges/primitives/messages/src/lib.rs:430-448 | The loop pays each relayer its entries clipped to the confirmed range; only paid relayers are listed; the total is the sum over entries |
| `Rewards.RewardsSumToConfirmedRange` | bridges/modules/messages/src/lib.rs:444-486 | For every accepted proof the rewards add up to the length of the confirmed range, which is the number of newly confirmed messages if and only if the last nonce was not confirmed before |
| `Rewards.ClippedIsDelivered` | bridges/primitives/messages/src/lib.rs:430-448 | When the deque agrees with a delivery record, the clipped count of a relayer is the number of messages of the range that relayer delivered |
| `MessagesPallets.VerifyMessagesProof` | bridges/bin/runtime-common/src/messages.rs:282-339 | Reads exactly the declared nonces in order, or fails with unknown header, count mismatch, missing message, unreadable lane state, empty proof or unused nodes, in that order |
| `MessagesPallets.ProvedIff` | bridges/bin/runtime-common/src/messages.rs:282-339 | A proof is accepted if and only if it has none of the six faults, among them a declared count that differs from the number of nonces, and refused for the first one in order; an accepted one yields each declared nonce with its payload |
| `MessagesPallets.ProvedDeliveryIff` | bridges/bin/runtime-common/src/messages.rs:187-209 | A delivery proof yields lane data if and only if the header is known, that data is shown and no node is unused; otherwise the first failing check names the error |
| `MessagesPallets.MessagesPallet.SendMessage` | bridges/modules/messages/src/lib.rs:737-757 | Returns the new nonce and the queue length after sending |
| `MessagesPallets.MessagesPallet.ReceiveMessagesProof` | bridges/modules/messages/src/lib.rs:269-417 | State update first, then the messages one by one; every error with its precedence leaves no trace; it succeeds if and only if the pallet is not halted, the count is allowed, the dispatcher is active, the proof has no fault and the dispatch weight suffices; the charged weight is exact |
| `MessagesPallets.MessagesPallet.OfferBundle` | bridges/modules/messages/src/lib.rs:346-392 | The message loop equals the fold over the bundle, in lane data, dispatched messages, weight left and weight charged; it fails exactly when some message declares more than is left |
| `MessagesPallets.MessagesPallet.OfferMessage` | bridges/modules/messages/src/lib.rs:350-391 | One message: charged by declared minus unspent weight, refunded in full when rejected, both exactly |
| `MessagesPallets.BudgetNeverRecovers` | bridges/modules/messages/src/lib.rs:346-366 | A bundle whose prefix exceeds the dispatch weight exceeds it as a whole |
| `MessagesPallets.BudgetLeftIs` | bridges/modules/messages/src/lib.rs:353-390 | As long as it lasts, what is left of the dispatch weight is the declared one less the sum, over the dispatched messages, of their declared minus unspent weight, per component and not below zero |
| `MessagesPallets.BudgetRunsOutIff` | bridges/modules/messages/src/lib.rs:353-364 | The dispatch weight runs out if and only if some message declares more than that leaves of it for the messages before |
| `MessagesPallets.ActualIsReduced` | bridges/modules/messages/src/lib.rs:378-391 | The weight charged for the call is the declared one less all that the messages declared, plus that same sum, not below zero |
| `MessagesPallets.MessagesPallet.ReceiveMessagesDeliveryProof` | bridges/modules/messages/src/lib.rs:425-509 | Errors with their precedence leave no trace, a declared state that is not the gist of the proved lane among them; a confirmation credits every relayer exactly the clipped count and returns the remaining queue length |
| `MessagesPallets.MessagesPallet.SetOperatingMode` | bridges/primitives/runtime/src/lib.rs:379-423 | The mode changes if and only if the origin is root or signed by the owner, if there is one |
| `MessagesPallets.MessagesPallet.OnIdle` | bridges/modules/messages/src/lib.rs:194-220 | Prunes the lane picked by the block number, leaves the others, reports one read plus what pruning spent, modulo 2^64, and never more than the remaining weight, whatever a write costs; it does nothing if one read and two writes do not fit |
| `LaneProtocol.EveryProofIsAccepted` | bridges/modules/messages/src/outbound_lane.rs:115-133 | While nonces have not wrapped and the last one is not confirmed, a proof of any past target state is accepted with exactly the range of new nonces |
| `LaneProtocol.PayoutMatchesRecord` | bridges/modules/messages/src/lib.rs:470-486 | Paying a proof of an old target state credits each relayer with its deliveries in the new range, even if the deque has moved on since |
| `LaneProtocol.BundleKeepsRecord` | bridges/modules/messages/src/lib.rs:346-392 | Any bundle, true or not, in any order and with repetitions, extends the dispatched nonces, the deque and the delivery record consistently |
| `LaneProtocol.DeliveryKeepsRecord` | bridges/modules/messages/src/lib.rs:321-395 | A delivery with a proof of any past source state keeps every remembered target good and no state ahead of the other chain |
| `LaneProtocol.DeliveryKeepsDelivery` | bridges/modules/messages/src/lib.rs:321-395 | A delivery with a faithful proof of any past source state keeps the dispatched payloads a prefix of the sent ones in all remembered states |
| `LaneProtocol.ConfirmationKeepsRecord` | bridges/modules/messages/src/lib.rs:425-509 | A confirmation with a proof of any past target state never moves the received nonce back or past the deliveries |
| `LaneProtocol.ConfirmationKeepsRewards` | bridges/modules/messages/src/lib.rs:425-509 | A confirmation with a proof of any past target state, accepted or not, keeps all payments exact until the last nonce is confirmed |
| `LaneTheorems.RunKeepsRecord` | bridges/modules/messages/src/inbound_lane.rs:127-211 | After every sequence of actions, with any number of messages, all remembered targets are well formed, within limits and true to the delivery record, and no remembered state knows more than the other chain did |
| `LaneTheorems.RunKeepsDelivery` | bridges/modules/messages/README.md:20-25 | After every sequence of actions with up to 2^64 messages, all remembered states show and dispatched only sent messages |
| `LaneTheorems.RunKeepsRewards` | bridges/modules/messages/src/lib.rs:425-509 | After every sequence of actions, with any number of messages, payments are exact until the last nonce is confirmed |
| `LaneTheorems.DispatchedIsPrefixOfSent` | bridges/modules/messages/README.md:21-25 | In every run with up to 2^64 messages the dispatched ones are a prefix of the sent ones: once each, in order, with the right payload |
| `LaneTheorems.CountersAreOrdered` | bridges/modules/messages/src/inbound_lane.rs:127-165 | In every run: confirmed at the target <= received at the source <= delivered; with up to 2^64 - 1 messages also delivered <= generated |
| `LaneTheorems.CountersNeverShrink` | bridges/modules/messages/src/outbound_lane.rs:89-139 | Along every run the confirmed, received and delivered nonces, the sent and the dispatched messages only grow |
| `LaneTheorems.GeneratedNeverShrinks` | bridges/modules/messages/src/outbound_lane.rs:89-98 | Along every run with up to 2^64 - 1 messages the generated nonce only grows |
| `LaneTheorems.ConfirmationNeverFails` | bridges/modules/messages/src/outbound_lane.rs:182-194 | In every run with up to 2^64 - 1 messages, until the last nonce is confirmed, no state the target ever had makes a confirmation fail |
| `LaneTheorems.StateUpdateIsNeverFromTheFuture` | bridges/modules/messages/src/inbound_lane.rs:134-137 | In every run the "should never happen" branch of the state update is unreachable |
| `LaneTheorems.DequeIsDeliveryRecord` | bridges/modules/messages/src/inbound_lane.rs:127-211 | In every run the deque is well formed, within its limits and maps each unconfirmed nonce to the relayer that delivered it |
| `LaneTheorems.DeclaredStateIsTheRecord` | bridges/modules/messages/src/lib.rs:444-447 | In every run, for every state the target ever had, the one state a relayer may declare is the one that describes the record of who delivered its unconfirmed nonces |
| `LaneTheorems.RelayersArePaidExactlyOnce` | bridges/modules/messages/src/lib.rs:470-486 | In every run, with any number of messages, until the last nonce is confirmed, the paid ranges partition 1..=received and each relayer is paid for exactly the confirmed messages it delivered |
| `LaneTheorems.SourceStoresUnpruned` | bridges/modules/messages/src/outbound_lane.rs:89-169 | In every run with up to 2^64 - 1 messages, in which no two writes wrap to zero, until the last nonce is confirmed, the stored messages are exactly the generated unpruned ones |
| `LaneTheorems.UndispatchedIsStored` | bridges/modules/messages/src/outbound_lane.rs:144-169 | In every run with up to 2^64 messages, whatever a write costs, every message still to be dispatched is stored at the source with its payload |
| `LaneTheorems.LaneIsNeverStuck` | bridges/modules/messages/src/inbound_lane.rs:168-211 | From every reachable state with up to 2^64 - 1 messages and an undelivered one, whatever a write costs, one confirmation and one delivery dispatch it, unless a limit is zero, and then nothing is dispatched |
| `NonceBounds.GeneratedIsSentWrapped` | bridges/modules/messages/src/outbound_lane.rs:89-98 | In every run the generated nonce is the number of sent messages modulo 2^64, so the two are equal if and only if at most 2^64 - 1 were sent |
| `NonceBounds.OverwrittenMessageIsDispatched` | bridges/modules/messages/src/outbound_lane.rs:89-98 | After any 2^64 + 1 messages the last payload is dispatched under the first nonce |
| `NonceBounds.OrderBoundIsExact` | bridges/modules/messages/README.md:21-25 | All runs with up to B messages deliver in order if and only if B <= 2^64 |
| `NonceBounds.CounterBoundIsExact` | bridges/modules/messages/src/outbound_lane.rs:89-98 | All runs with up to B messages keep the counters ordered if and only if B <= 2^64 - 1 |
| `NonceBounds.PaymentBoundIsExact` | bridges/modules/messages/src/outbound_lane.rs:107-111 | All runs with up to B messages pay each confirmed message once if and only if B < 2^64 - 1 |
| `NonceBounds.ConfirmationBoundIsExact` | bridges/modules/messages/src/outbound_lane.rs:107-124 | All runs with up to B messages accept every true proof if and only if B < 2^64 - 1 |
| `NonceBounds.GeneratedBoundIsExact` | bridges/modules/messages/src/outbound_lane.rs:89-98 | The generated nonce never falls in all runs with up to B messages if and only if B <= 2^64 - 1 |
| `NonceBounds.UndispatchedBoundIsExact` | bridges/modules/messages/src/outbound_lane.rs:89-98 | Messages to come are stored with their payload in all runs with up to B messages if and only if B <= 2^64 |
| `NonceBounds.StorageBoundIsExact` | bridges/modules/messages/src/outbound_lane.rs:144-169 | If no two writes wrap to zero, stored messages are the unpruned ones in all runs with up to B messages if and only if B < 2^64 - 1 |
| `NonceBounds.StorageCostIsExact` | bridges/modules/messages/src/outbound_lane.rs:144-169 | Until nonces wrap or the last one is confirmed, stored messages are the unpruned ones in all runs with a given write cost if and only if two such writes do not wrap to zero |
| `NonceBounds.ProgressBoundIsExact` | bridges/modules/messages/src/outbound_lane.rs:101-124 | For all limits of at least one, no message is stuck in all runs with up to B messages if and only if B <= 2^64 - 1, or B <= 2^64 if both limits are 2^64 - 1 and so are never reached |
| `Bridges.Bridge.Send` | bridges/modules/messages/src/lib.rs:737-757 | The call on the source pallet is the send step of the system; the nonce is the number of sent messages modulo 2^64 and, with up to 2^64 - 1 messages and the last nonce not confirmed, the queue length is the number of unconfirmed messages |
| `Bridges.Bridge.Deliver` | bridges/modules/messages/src/lib.rs:269-417 | The call on the target pallet, accepted or refused, is the delivery step of the system; when it is accepted is stated in terms of that system |
| `Bridges.Bridge.Confirm` | bridges/modules/messages/src/lib.rs:425-509 | The call on the source pallet is the confirmation step and, with up to 2^64 - 1 messages, the last nonce not confirmed and the pallet not halted, succeeds for every state the target ever stored; a lane that delivered nothing has no entry to prove and is refused, and so is a declared state that does not describe the delivery record |
| `Bridges.StoredEntryIsNotBlank` | bridges/modules/messages/src/lib.rs:845-848 | The target stores an entry for the lane exactly when the lane has delivered something |
| `Bridges.Bridge.Idle` | bridges/modules/messages/src/lib.rs:194-220 | The idle hook is a pruning step with the weight left after one read, or nothing |
| `Bridges.BridgeDeliversInOrder` | bridges/modules/messages/README.md:21-25 | After any calls with up to 2^64 messages, what the target pallet dispatched is a prefix of what the source pallet was asked to send |
| `Bridges.BridgePaysDeliverers` | bridges/modules/messages/src/lib.rs:470-486 | After any calls, with any number of messages, until the last nonce is confirmed, the reward account of each relayer counts exactly its confirmed deliveries |
| `CallFilter.DeliveryPassesIff` | bridges/bin/runtime-common/src/messages_call_ext.rs:300-338 | A delivery passes if and only if the pallet is not halted, the dispatcher is active and the bundle starts at the next nonce or, when empty, the lane has no free slot; it is an invalid call if and only if the pallet is halted |
| `CallFilter.ConfirmationPassesIff` | bridges/bin/runtime-common/src/messages_call_ext.rs:300-338 | A confirmation passes if and only if the pallet is not halted and it declares a nonce above the confirmed ones |
| `CallFilter.EmptyDeliveryPassesIffLaneBlocked` | bridges/bin/runtime-common/src/messages_call_ext.rs:83-104 | Below the last nonce an empty delivery passes if and only if the lane would refuse the next message |
| `CallFilter.EmptyDeliveryAtTheLastNonce` | bridges/bin/runtime-common/src/messages_call_ext.rs:342-355 | At the last nonce the lane refuses everything while the filter passes exactly when slots are used up |
| `CallFilter.EmptyDeliverySucceedsIffConfirmedAdvances` | bridges/bin/runtime-common/src/messages_call_ext.rs:150-174 | An empty delivery is judged successful if and only if the confirmed nonce advanced |
| `CallFilter.BundleDispatchesPrefix` | bridges/modules/messages/src/lib.rs:346-392 | A bundle that continues the lane is dispatched up to the first refusal and no further |
| `CallFilter.PassedDeliveryDispatchesPrefix` | bridges/bin/runtime-common/src/messages_call_ext.rs:150-174 | A passed bundle dispatches a prefix of itself and is judged successful if and only if that is all of it |
| `CallFilter.StaleDeliveryBringsNothingNext` | bridges/bin/runtime-common/src/messages_call_ext.rs:83-104 | A non-empty delivery is stale if and only if the lane would refuse its first nonce as invalid |
| `CallFilter.ConfirmationFilterIsExact` | bridges/bin/runtime-common/src/messages_call_ext.rs:300-338 | In every run with up to 2^64 - 1 messages, until the last nonce is confirmed, a true confirmation passes if and only if it confirms something, and then it is judged successful |
| `CallFilter.ConfirmationSucceedsIff` | bridges/bin/runtime-common/src/messages_call_ext.rs:168-172 | For every lane and every proof, a confirmation that passes is judged successful if and only if it confirms something |
| `CallFilter.FilterBoundIsExact` | bridges/bin/runtime-common/src/messages_call_ext.rs:300-338 | A true confirmation passes exactly when it confirms something in all runs with up to B messages if and only if B < 2^64 - 1 |
| `CallFilter.WrappedFilterPassesRefused` | bridges/bin/runtime-common/src/messages_call_ext.rs:254-276 | When the generated nonce has wrapped below the deliveries, the filter passes a confirmation that the lane refuses |
| `CallFilter.NoConfirmationAfterTheLastNonce` | bridges/bin/runtime-common/src/messages_call_ext.rs:254-276 | Once the last nonce is confirmed no confirmation passes the filter |
| `Congestion.LocalXcmQueueManager.OnBridgeMessageEnqueued` | bridges/bin/runtime-common/src/messages_xcm_extension.rs:207-244 | Signal and flag of the lane after a send, including unconfigured and failed signals; other lanes untouched |
| `Congestion.LocalXcmQueueManager.OnBridgeMessagesDelivered` | bridges/bin/runtime-common/src/messages_xcm_extension.rs:247-284 | Signal and flag of the lane after a confirmation; other lanes untouched |
| `Congestion.SignalsAlternate` | bridges/bin/runtime-common/src/messages_xcm_extension.rs:207-312 | Whatever queue lengths and transport failures occur, signals strictly alternate starting with congested |
| `Congestion.MissingMessagesSilenceTheLane` | bridges/bin/runtime-common/src/messages_xcm_extension.rs:292-312 | Without a congested message there is no signal at all, without an uncongested one at most one |
| `Congestion.NoCrossingIsMissed` | bridges/bin/runtime-common/src/messages_xcm_extension.rs:198-284 | With a working transport the flag is set above 8192 messages, cleared at 1024 or fewer, and rests in between |
| `Congestion.SignalLeavesIff` | bridges/bin/runtime-common/src/messages_xcm_extension.rs:198-312 | After any calls, a congested signal leaves if and only if more than 8192 messages are queued after a send, an uncongested one if and only if at most 1024 are after a delivery, each when it is due, configured and the transport works |
| `Congestion.SignalsAreFarApart` | bridges/bin/runtime-common/src/messages_xcm_extension.rs:198-203 | With true queue lengths and up to 2^64 - 1 sends, at least 8193 - 1024 messages are confirmed between congested and uncongested, and sent between uncongested and congested |
| `Congestion.DistanceBoundIsExact` | bridges/bin/runtime-common/src/messages_xcm_extension.rs:198-284 | With both signals configured, this holds in all runs with up to B sends if and only if B <= 2^64 - 1: at 2^64 the queue reads as empty and a confirmation of nothing ends the congestion |
| `StatementTables.Table.ImportStatement` | polkadot/statement-table/src/generic.rs:340-363 | The import changes the table by the step function; a report is appended to those of the sender |
| `StatementTables.Table.ImportCandidate` | polkadot/statement-table/src/generic.rs:382-462 | All branches of a seconding, including the two places where the code panics |
| `StatementTables.Table.CastValidityVote` | polkadot/statement-table/src/generic.rs:464-528 | All branches of a vote: unknown candidate, non-member, repetition, conflict, new vote |
| `StatementTables.Table.DrainMisbehaviors` | polkadot/statement-table/src/generic.rs:378-380 | Hands out all pending reports and leaves none |
| `StatementTables.MisbehaviorDrain.Next` | polkadot/statement-table/src/generic.rs:533-588 | Hands out each report once, in order per authority, and ends only when nothing is left, given that no list is empty |
| `StatementTheorems.DrainNeverEndsEarly` | polkadot/statement-table/src/generic.rs:571-587 | In every run, in whatever order the map is drained, no list is empty and the iterator hands out exactly the pending reports of each authority in order |
| `StatementRuns.RunIsTrue` | polkadot/statement-table/src/generic.rs:340-528 | After every sequence of events each stored vote and proposal was cast by its authority as a member, and each report is witnessed |
| `StatementTheorems.ProposalAlwaysHasCandidate` | polkadot/statement-table/src/generic.rs:404-424 | The existence assumption never fails in any run |
| `StatementTheorems.ProposalsAreSecondings` | polkadot/statement-table/src/generic.rs:396-450 | In every run that did not panic the proposals kept for an authority are its secondings within its groups, the first per candidate in order, or just the first one in single-seconded mode |
| `StatementTheorems.GivesUpIffForeignIssuer` | polkadot/statement-table/src/generic.rs:477-484 | In every run an import reaches the issuance panic if and only if a member of the passed group seconds, without a clash, a candidate stored under a group it is not in |
| `StatementTheorems.ConsistentRunNeverStops` | polkadot/statement-table/src/generic.rs:382-484 | When the group passed depends only on the digest, no run panics |
| `StatementTheorems.InconsistentGroupsStopTheTable` | polkadot/statement-table/src/generic.rs:477-484 | In any setup, a candidate seconded for two groups, the second time by somebody outside the first group, reaches the issuance panic |
| `StatementTheorems.ReportsAreWitnessed` | polkadot/statement-table/src/generic.rs:340-528 | Each report is backed by statements of the accused, and the two seconded candidates or signatures it shows are in the order they were cast |
| `StatementTheorems.AccusedIffRuleBroken` | polkadot/statement-table/src/generic.rs:340-528 | In every run nobody who kept the rules is reported; in every run that did not panic an authority is reported if and only if it broke a rule |
| `StatementTheorems.ConsistentRunReportsExactly` | polkadot/statement-table/src/generic.rs:340-528 | When the group passed depends only on the digest, an authority is reported if and only if it broke a rule |
| `StatementTheorems.ReportsShowWhatWasSigned` | polkadot/statement-table/src/generic.rs:404-528 | With injective digests every report shows exactly statements the accused submitted |
| `StatementTheorems.CollisionIsMisattributed` | polkadot/statement-table/src/generic.rs:464-528 | For every collision and every group member, two secondings lead to a report of a statement that was never made |
| `StatementTheorems.ReportsShowSignedIffInjective` | polkadot/statement-table/src/generic.rs:404-528 | All reports of all runs show what the accused signed if and only if digests are injective, as soon as some group has a member |
| `StatementTheorems.AttestedIffBacked` | polkadot/statement-table/src/generic.rs:245-331 | A candidate is attested if and only if its votes reach the size of its group or the configured minimum, and for an unknown group only at the largest machine word; each listed vote was cast by a distinct member of the group |
| `StatementTheorems.AttestationLasts` | polkadot/statement-table/src/generic.rs:319-331 | Once attested a candidate stays attested with all its votes after any further events |
| `StatementTheorems.SummaryCountsFreshVote` | polkadot/statement-table/src/generic.rs:464-528 | A summary is returned exactly for a vote that was not there before; it names the candidate and its group and counts the vote once |
| `StatementTheorems.ReportsAreConserved` | polkadot/statement-table/src/generic.rs:340-380 | Per authority, all reports ever made are the handed-out ones followed by the pending ones; no pending list is empty |
| `RingBuffers.RingHoldsLast` | bridges/modules/grandpa/src/lib.rs:653-669 | Ring, pointer and map hold exactly the last min(n, K) of any n distinct insertions |
| `RingBuffers.InsertedItemSurvivesIff` | bridges/modules/grandpa/src/lib.rs:653-669 | An insertion survives its own pruning if and only if its key is not the one it pushes out |
| `GrandpaClient.GrandpaPallet.Initialize` | bridges/modules/grandpa/src/lib.rs:673-701 | Starts from one header and authority set; a second start or too many authorities change nothing |
| `GrandpaClient.GrandpaPallet.SubmitFinalityProofEx` | bridges/modules/grandpa/src/lib.rs:283-362 | A submission succeeds if and only if it can be imported; every refusal leaves all state unchanged; an import is free exactly under the refund rule |
| `GrandpaClient.RefusedIff` | bridges/modules/grandpa/src/lib.rs:283-315 | A header is not refused if and only if the pallet is not halted, the number rises, the set id is current, the justification verifies and a change is neither forced, delayed nor too large; the first failing check names the error |
| `GrandpaClient.FreeIff` | bridges/modules/grandpa/src/lib.rs:524-563 | An import is free if and only if a slot is left, the sizes are right and it is mandatory or at least the interval ahead |
| `GrandpaClient.GrandpaPallet.TryEnactAuthorityChange` | bridges/modules/grandpa/src/lib.rs:572-617 | Refuses forced, delayed and oversized changes; otherwise enacts with the next set id |
| `GrandpaClient.GrandpaPallet.InsertHeader` | bridges/modules/grandpa/src/lib.rs:653-669 | The in-place storage updates are one insertion into the ring, and the header becomes the best one |
| `GrandpaClient.FreeSubmissionPassesExtension` | bridges/modules/grandpa/src/call_ext.rs:109-155 | A submission that would be free is never turned away by the transaction extension |
| `GrandpaClient.PassedSubmissionIsFreeIff` | bridges/modules/grandpa/src/call_ext.rs:109-155 | An importable submission is free if and only if the extension passes it as free, a block is open, the sizes are right and it is mandatory or an interval is configured |
| `GrandpaClient.ExtensionAnswers` | bridges/modules/grandpa/src/call_ext.rs:109-155 | For all inputs, when the extension passes a submission, by how much it improves, and which error it gives otherwise, including used-up slots |
| `GrandpaRuns.StoresLastHeaders` | bridges/modules/grandpa/src/lib.rs:653-669 | In every run exactly the last K headers are stored and the best one is among them |
| `GrandpaRuns.HandOffIsUnbroken` | bridges/modules/grandpa/src/lib.rs:283-362 | In every run each header was verified by the set of the latest earlier change, under its id, with no forced or delayed change; the id counts the changes and numbers strictly rise |
| `GrandpaRuns.SetIdCountsChanges` | bridges/modules/grandpa/src/lib.rs:572-617 | The id of the set in force is the initial id plus the number of imported changes |
| `GrandpaRuns.FreeImportsAreLimited` | bridges/modules/grandpa/src/lib.rs:510-563 | In every run free imports of the block plus free slots left equal the maximum, and free non-mandatory imports times the interval never exceed the advance |
| `GrandpaRuns.SubmissionIsImportedIff` | bridges/modules/grandpa/src/lib.rs:283-362 | After any calls a submission adds exactly one import, recorded with the set that checked it and whether it was free, if it meets the conditions, and otherwise changes nothing |
| `GrandpaRuns.HaltStopsImports` | bridges/modules/grandpa/src/lib.rs:290 | From a halt until the pallet is resumed no header is imported, whatever is submitted, and best header, ring and authority set stay as they are |
| `BeefyClient.VerifySignatures` | bridges/modules/beefy/src/utils.rs:59-94 | The early-exit loop accepts if and only if enough distinct positions carry a valid signature |
| `BeefyClient.VerifyCommitment` | bridges/modules/beefy/src/utils.rs:107-126 | Answers the root if and only if ids, lengths and Merkle root fit, more than two thirds signed and there is a root; all failures in their order |
| `BeefyClient.CommitmentAcceptedIff` | bridges/modules/beefy/src/utils.rs:33-126 | A commitment is accepted if and only if its set id, that of the validator list and that of the set in force agree, so do the three lengths, the Merkle root matches, more than two thirds signed (or the set is empty) and it has a root; the first failing check names the error |
| `BeefyClient.RefusedIff` | bridges/modules/beefy/src/lib.rs:212-232 | A submission is not refused if and only if the pallet is not halted, requests are left, the block is newer, the commitment is accepted and the leaf is proved; the first failing check names the error |
| `BeefyClient.RequiredIsTwoThirdsPlusOne` | bridges/modules/beefy/src/utils.rs:55-57 | For n >= 1 the threshold is floor(2n/3) + 1 |
| `BeefyClient.QuorumsIntersect` | bridges/modules/beefy/src/utils.rs:55-94 | Two commitments accepted for one set share more than (n - 1)/3 signing positions; if Merkle roots tell validator lists apart, the same validators signed both there |
| `BeefyClient.BeefyPallet.Initialize` | bridges/modules/beefy/src/lib.rs:158-169 | Starts from a best block and a non-empty authority set; a second start or an empty set changes nothing |
| `BeefyClient.BeefyPallet.SubmitCommitment` | bridges/modules/beefy/src/lib.rs:202-275 | Every refusal leaves all state unchanged; an import counts one request, may raise the set and is one insertion into the ring |
| `BeefyRuns.StoresLastCommitments` | bridges/modules/beefy/src/lib.rs:218-266 | In every run exactly the last K commitments are stored, block numbers strictly rise and the best block is stored |
| `BeefyRuns.HandOffIsUnbroken` | bridges/modules/beefy/src/lib.rs:202-275 | In every run each commitment carried the id of the set the earlier imports put in force, came with that set's validators, was signed by more than two thirds of them unless the set is empty, and its leaf was proved under its root |
| `BeefyRuns.SetIdIsLargest` | bridges/modules/beefy/src/lib.rs:236-239 | The set in force has the largest id proved so far |
| `BeefyRuns.ImportIsSignedIffSetNotEmpty` | bridges/modules/beefy/src/lib.rs:236-239 | In every run from a non-empty set, an import has a valid signer if and only if the set it was checked against is not empty, and an empty set was put in force by an earlier imported leaf |
| `BeefyRuns.UnsignedCommitmentIsImported` | bridges/modules/beefy/src/lib.rs:202-275 | After any imported leaf with a later, empty successor set, a commitment without signatures is imported |
| `BeefyRuns.ImportsShareSigners` | bridges/modules/beefy/src/utils.rs:107-126 | In every run two imports checked against one non-empty set share more than (n - 1)/3 of its positions, and their validator lists if Merkle roots tell lists apart |
| `BeefyRuns.ImportsAreRateLimited` | bridges/modules/beefy/src/lib.rs:134-140 | In every window of every run the imports are at most the maximum of requests plus the block starts in it |
| `BeefyRuns.RequestsCountImports` | bridges/modules/beefy/src/lib.rs:234-235 | Between two block starts the request counter grows by exactly the number of imports |
| `BeefyRuns.SubmissionIsImportedIff` | bridges/modules/beefy/src/lib.rs:202-275 | After any calls a submission adds exactly one import and one request if it meets the conditions, and otherwise changes nothing |
| `BeefyRuns.HaltStopsImports` | bridges/modules/beefy/src/lib.rs:212 | From a halt until the pallet is resumed no commitment is imported and all that changes is the request counter, by one per block start down to zero |

## Left out

- Cryptography and tries: storage proofs, GRANDPA justifications, MMR leaves, hashes and signatures are uninterpreted functions or, for storage proofs, the values that can be read and whether the header is known, the lane state decodes and all nodes are used; collision-freeness is a hypothesis where it is used.
- Proofs that carry several lanes (the reader of this repository yields one).
- FRAME plumbing: origins, events, logs, encoding, storage keys, weight tables and benchmarks. A failing call restores the state before it.
- The contents of dispatched messages; a dispatcher is two functions giving declared and unspent weight.
- Fees: rewards are counted in messages, not multiplied by a price or registered for payment.
- Changing the owner, and the checks before sending: normal operating mode, active lane and message size.
- Overflow of 32-bit block numbers, set ids and request counters in the light clients, which are unbounded naturals here.
- The order in which a hash map is drained: the drain is a sequence in arbitrary order.
- Parachain heads, relayer registration and slashing, XCM version conversion, erasure coding, the node, its command line and RPC.
- OutboundLanes.OutboundLane.PruneMessages: requires that the last nonce is not confirmed or two writes do not wrap to zero; otherwise the loop of the source does not end (`Pruning.TerminatesIff`).
- MessagesPallets.MessagesPallet.OnIdle: requires the same of the lane it prunes, and a non-empty list of lanes, since the source takes a remainder by its length.
- StatementTheorems.AttestedIffBacked: takes the machine word to have 64 bits for the threshold of an unknown group.
- GrandpaClient.GrandpaPallet.SubmitFinalityProofEx: requires that at least one header is kept, since the source takes a remainder by that number; the same holds for BEEFY commitments.
