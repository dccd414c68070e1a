/** Rewards of a delivery confirmation: who is paid for how many messages. */
module Rewards {
  import opened LaneTypes
  import opened RelayerDeque
  import opened OutboundLanes

  /** Number of messages of one entry that lie in the confirmed range. */
  function ClippedLen(messages: DeliveredMessages, range: DeliveredMessages): nat {
    Max(Min(messages.end, range.end) - Max(messages.begin, range.begin) + 1, 0)
  }

  /** Clipped messages of all entries of one relayer. */
  ghost function ClippedOf(relayers: seq<UnrewardedRelayer>, range: DeliveredMessages, r: RelayerId): nat {
    if relayers == [] then 0
    else (if relayers[0].relayer == r then ClippedLen(relayers[0].messages, range) else 0)
         + ClippedOf(relayers[1..], range, r)
  }

  /** Clipped messages of all entries. */
  ghost function ClippedTotal(relayers: seq<UnrewardedRelayer>, range: DeliveredMessages): nat {
    if relayers == [] then 0 else ClippedLen(relayers[0].messages, range) + ClippedTotal(relayers[1..], range)
  }

  function Reward(rewards: map<RelayerId, nat>, r: RelayerId): nat {
    if r in rewards then rewards[r] else 0
  }

  ghost function Sum(rewards: map<RelayerId, nat>): nat {
    if rewards == map[] then 0 else
      var r :| r in rewards;
      rewards[r] + Sum(rewards - {r})
  }

  lemma {:induction false} SumTakeOut(rewards: map<RelayerId, nat>, r: RelayerId)
    requires r in rewards
    ensures Sum(rewards) == rewards[r] + Sum(rewards - {r})
    decreases |rewards|
  {
    var q :| q in rewards && Sum(rewards) == rewards[q] + Sum(rewards - {q});
    if q != r {
      SumTakeOut(rewards - {q}, r);
      SumTakeOut(rewards - {r}, q);
      assert rewards - {q} - {r} == rewards - {r} - {q};
    }
  }

  lemma SumAdd(rewards: map<RelayerId, nat>, r: RelayerId, extra: nat)
    ensures Sum(rewards[r := Reward(rewards, r) + extra]) == Sum(rewards) + extra
  {
    var after := rewards[r := Reward(rewards, r) + extra];
    SumTakeOut(after, r);
    if r in rewards {
      SumTakeOut(rewards, r);
      assert after - {r} == rewards - {r};
    } else {
      assert after - {r} == rewards;
    }
  }

  /** Adds up the confirmed messages per relayer; every relayer listed has at least one. */
  method CalcRelayersRewards(relayers: seq<UnrewardedRelayer>, range: DeliveredMessages)
    returns (rewards: map<RelayerId, nat>)
    ensures forall r :: Reward(rewards, r) == ClippedOf(relayers, range, r)
    ensures forall r :: r in rewards ==> rewards[r] > 0
    ensures Sum(rewards) == ClippedTotal(relayers, range)
  {
    rewards := map[];
    for i := 0 to |relayers|
      invariant forall r :: Reward(rewards, r) + ClippedOf(relayers[i..], range, r) == ClippedOf(relayers, range, r)
      invariant forall r :: r in rewards ==> rewards[r] > 0
      invariant Sum(rewards) + ClippedTotal(relayers[i..], range) == ClippedTotal(relayers, range)
    {
      assert relayers[i..][1..] == relayers[i + 1..];
      var entry := relayers[i];
      var nonceBegin := Max(entry.messages.begin, range.begin);
      var nonceEnd := Min(entry.messages.end, range.end);
      if nonceEnd >= nonceBegin {
        SumAdd(rewards, entry.relayer, nonceEnd - nonceBegin + 1);
        rewards := rewards[entry.relayer := Reward(rewards, entry.relayer) + (nonceEnd - nonceBegin + 1)];
      }
    }
  }

  // ---------- Conservation ----------

  lemma {:induction false} ChainClipsToRange(relayers: seq<UnrewardedRelayer>, from: int, range: DeliveredMessages)
    requires Chained(relayers, from) && ChainEnd(relayers, from) == range.end + 1
    requires range.begin <= range.end + 1
    ensures ClippedTotal(relayers, range) == Max(range.end + 1 - Max(from, range.begin), 0)
  {
    if relayers != [] {
      ChainClipsToRange(relayers[1..], relayers[0].messages.end + 1, range);
      ChainCovers(relayers[1..], relayers[0].messages.end + 1);
    }
  }

  /**
   Whatever the proof carried, an accepted confirmation pays for exactly the range it confirms;
   these are exactly the newly confirmed messages unless the last nonce was confirmed before.
   */
  lemma RewardsSumToConfirmedRange(data: OutboundLaneData, proved: InboundLaneData, confirmed: DeliveredMessages)
    requires ConfirmationOf(data, proved) == Ok(Some(confirmed))
    ensures ClippedTotal(proved.relayers, confirmed) == confirmed.end - confirmed.begin + 1
    ensures ClippedTotal(proved.relayers, confirmed) == confirmed.end - data.latestReceived
       <==> data.latestReceived < U64_MAX
  {
    ConfirmedRangeIsCovered(data, proved, confirmed);
    ChainClipsToRange(proved.relayers, proved.relayers[0].messages.begin, confirmed);
  }

  // ---------- Rewards against the delivery record ----------

  /** How many of the nonces lo+1..hi relayer `r` delivered, `record[n - 1]` being the relayer of nonce n. */
  ghost function DeliveredCount(record: seq<RelayerId>, lo: nat, hi: nat, r: RelayerId): nat
    requires lo <= hi <= |record|
  {
    if lo == hi then 0
    else DeliveredCount(record, lo, hi - 1, r) + (if record[hi - 1] == r then 1 else 0)
  }

  lemma {:induction false} CountSplit(record: seq<RelayerId>, lo: nat, mid: nat, hi: nat, r: RelayerId)
    requires lo <= mid <= hi <= |record|
    ensures DeliveredCount(record, lo, hi, r) == DeliveredCount(record, lo, mid, r) + DeliveredCount(record, mid, hi, r)
  {
    if mid < hi {
      CountSplit(record, lo, mid, hi - 1, r);
    }
  }

  lemma {:induction false} CountRun(record: seq<RelayerId>, lo: nat, hi: nat, r: RelayerId, q: RelayerId)
    requires lo <= hi <= |record|
    requires forall i :: lo <= i < hi ==> record[i] == q
    ensures DeliveredCount(record, lo, hi, r) == if q == r then hi - lo else 0
  {
    if lo < hi {
      CountRun(record, lo, hi - 1, r, q);
    }
  }

  lemma {:induction false} CountPrefix(record: seq<RelayerId>, more: seq<RelayerId>, lo: nat, hi: nat, r: RelayerId)
    requires lo <= hi <= |record| <= |more| && more[..|record|] == record
    ensures DeliveredCount(more, lo, hi, r) == DeliveredCount(record, lo, hi, r)
  {
    if lo < hi {
      CountPrefix(record, more, lo, hi - 1, r);
      assert more[hi - 1] == more[..|record|][hi - 1];
    }
  }

  /** A deque that agrees with the delivery record pays every relayer for what that relayer delivered. */
  lemma {:induction false} ClippedIsDelivered(relayers: seq<UnrewardedRelayer>, from: int, range: DeliveredMessages,
                                              record: seq<RelayerId>, r: RelayerId)
    requires Chained(relayers, from) && ChainEnd(relayers, from) == range.end + 1
    requires from <= range.begin <= range.end + 1 && 1 <= range.begin && range.end <= |record|
    requires forall n :: range.Contains(n) ==> RelayerAt(relayers, n) == Some(record[n - 1])
    ensures ClippedOf(relayers, range, r) == DeliveredCount(record, range.begin - 1, range.end, r)
    decreases |relayers|
  {
    if relayers != [] {
      var front, rest := relayers[0], relayers[1..];
      var next := front.messages.end + 1;
      ChainCovers(rest, next);
      if next <= range.begin {
        ClippedIsDelivered(rest, next, range, record, r);
      } else {
        CountSplit(record, range.begin - 1, front.messages.end, range.end, r);
        forall i | range.begin - 1 <= i < front.messages.end ensures record[i] == front.relayer {
          assert range.Contains(i + 1) && front.messages.Contains(i + 1);
        }
        CountRun(record, range.begin - 1, front.messages.end, r, front.relayer);
        if rest == [] {
          assert front.messages.end == range.end;
        } else {
          var tail := DeliveredMessages(next, range.end);
          forall n | tail.Contains(n) ensures RelayerAt(rest, n) == Some(record[n - 1]) {
            assert range.Contains(n) && !front.messages.Contains(n);
          }
          ClippedIsDelivered(rest, next, tail, record, r);
          ClipInsideChain(rest, next, range, tail, r);
        }
      }
    }
  }

  lemma {:induction false} ClipInsideChain(relayers: seq<UnrewardedRelayer>, from: int, range: DeliveredMessages,
                                           tail: DeliveredMessages, r: RelayerId)
    requires Chained(relayers, from)
    requires range.begin <= from && tail.begin <= from && range.end == tail.end
    ensures ClippedOf(relayers, range, r) == ClippedOf(relayers, tail, r)
  {
    if relayers != [] {
      ClipInsideChain(relayers[1..], relayers[0].messages.end + 1, range, tail, r);
    }
  }
}
