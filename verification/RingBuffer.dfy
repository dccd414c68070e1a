/** A bounded store: a ring of keys that tells which item to drop, and a map with the items. */
module RingBuffers {
  import opened LaneTypes

  datatype Ring<K, V> = Ring(slots: map<nat, K>, pointer: nat, items: map<K, V>)

  datatype Entry<K, V> = Entry(key: K, value: V)

  function EmptyRing<K, V>(): Ring<K, V> {
    Ring(map[], 0, map[])
  }

  /** Stores an item, then drops the item whose key it pushed out of the ring. */
  function Insert<K, V>(ring: Ring<K, V>, keep: nat, e: Entry<K, V>): Ring<K, V>
    requires keep > 0
  {
    var items := ring.items[e.key := e.value];
    Ring(ring.slots[ring.pointer := e.key],
         (ring.pointer + 1) % keep,
         if ring.pointer in ring.slots then items - {ring.slots[ring.pointer]} else items)
  }

  ghost function InsertAll<K, V>(keep: nat, history: seq<Entry<K, V>>): Ring<K, V>
    requires keep > 0
  {
    if history == [] then EmptyRing()
    else Insert(InsertAll(keep, history[..|history| - 1]), keep, history[|history| - 1])
  }

  ghost predicate DistinctKeys<K, V>(history: seq<Entry<K, V>>) {
    forall i, j :: 0 <= i < j < |history| ==> history[i].key != history[j].key
  }

  /** Index of the oldest entry that is kept. */
  function WindowStart(keep: nat, n: nat): nat {
    Max(n - keep, 0)
  }

  /** The slots hold the keys of the window, each at its index modulo `keep`. */
  ghost predicate SlotsHold<K, V>(ring: Ring<K, V>, keep: nat, history: seq<Entry<K, V>>)
    requires keep > 0
  {
    var n := |history|;
    && ring.pointer == n % keep
    && (forall j :: j in ring.slots ==> j < Min(n, keep))
    && (forall i :: WindowStart(keep, n) <= i < n ==> i % keep in ring.slots && ring.slots[i % keep] == history[i].key)
  }

  /** The map holds exactly the entries of the window. */
  ghost predicate ItemsHold<K, V>(items: map<K, V>, keep: nat, history: seq<Entry<K, V>>) {
    var n := |history|;
    && (forall i :: WindowStart(keep, n) <= i < n ==>
          history[i].key in items && items[history[i].key] == history[i].value)
    && (forall k :: k in items ==> exists i :: WindowStart(keep, n) <= i < n && history[i].key == k)
  }

  /** Ring, pointer and map together hold exactly the last `keep` entries of the history. */
  ghost predicate HoldsLast<K, V>(ring: Ring<K, V>, keep: nat, history: seq<Entry<K, V>>)
    requires keep > 0
  {
    SlotsHold(ring, keep, history) && ItemsHold(ring.items, keep, history)
  }

  lemma SlotsDiffer(i: nat, n: nat, keep: nat)
    requires keep > 0 && i < n < i + keep
    ensures i % keep != n % keep
  {
    var q := n / keep - i / keep;
    assert n - i == keep * q + (n % keep - i % keep);
    assert q >= 1 ==> keep * q >= keep;
    assert q <= 0 ==> keep * q <= 0;
  }

  lemma SlotWraps(n: nat, keep: nat)
    requires 0 < keep
    ensures n < keep ==> n % keep == n
    ensures n >= keep ==> (n - keep) % keep == n % keep
    ensures (n % keep + 1) % keep == (n + 1) % keep
  {
    if n < keep {
      ModUnique(n, keep, 0, n);
    } else {
      assert keep * (n / keep - 1) == keep * (n / keep) - keep;
      ModUnique(n - keep, keep, n / keep - 1, n % keep);
    }
    NextSlot(n, keep);
  }

  lemma NextSlot(n: nat, keep: nat)
    requires 0 < keep
    ensures (n % keep + 1) % keep == (n + 1) % keep
  {
    var q, r := n / keep, n % keep;
    assert n == keep * q + r;
    if r + 1 == keep {
      assert keep * (q + 1) == keep * q + keep;
      ModUnique(n + 1, keep, q + 1, 0);
      ModUnique(keep, keep, 1, 0);
    } else {
      ModUnique(n + 1, keep, q, r + 1);
      ModUnique(r + 1, keep, 0, r + 1);
    }
  }

  lemma ModUnique(n: nat, keep: nat, q: int, r: nat)
    requires 0 < keep && r < keep && n == keep * q + r
    ensures n % keep == r
  {
    var p := n / keep;
    assert keep * (p - q) == r - n % keep;
    assert p - q >= 1 ==> keep * (p - q) >= keep;
    assert p - q <= -1 ==> keep * (p - q) + keep <= 0;
  }

  lemma InsertKeepsSlots<K, V>(ring: Ring<K, V>, keep: nat, history: seq<Entry<K, V>>, e: Entry<K, V>)
    requires keep > 0 && SlotsHold(ring, keep, history)
    ensures SlotsHold(Insert(ring, keep, e), keep, history + [e])
    ensures |history| < keep ==> ring.pointer !in ring.slots
    ensures |history| >= keep ==>
              ring.pointer in ring.slots && ring.slots[ring.pointer] == history[|history| - keep].key
  {
    var n, all, after := |history|, history + [e], Insert(ring, keep, e);
    SlotWraps(n, keep);
    if n >= keep {
      assert ring.slots[(n - keep) % keep] == history[n - keep].key;
    }
    forall i | WindowStart(keep, n + 1) <= i < n + 1
      ensures i % keep in after.slots && after.slots[i % keep] == all[i].key
    {
      if i < n {
        SlotsDiffer(i, n, keep);
        assert i % keep in ring.slots && ring.slots[i % keep] == history[i].key;
      }
    }
  }

  lemma InsertKeepsItems<K, V>(items: map<K, V>, keep: nat, history: seq<Entry<K, V>>, e: Entry<K, V>)
    requires keep > 0 && ItemsHold(items, keep, history) && DistinctKeys(history + [e])
    ensures var added := items[e.key := e.value];
            ItemsHold(if |history| >= keep then added - {history[|history| - keep].key} else added, keep, history + [e])
  {
    var n, all := |history|, history + [e];
    var added := items[e.key := e.value];
    var after := if n >= keep then added - {history[n - keep].key} else added;
    assert all[n] == e && forall i :: 0 <= i < n ==> all[i] == history[i];
    forall i | WindowStart(keep, n + 1) <= i < n + 1
      ensures all[i].key in after && after[all[i].key] == all[i].value
    {
      assert i < n ==> all[i].key != all[n].key;
      assert n >= keep ==> all[n - keep].key != all[i].key;
    }
    forall k | k in after ensures exists i :: WindowStart(keep, n + 1) <= i < n + 1 && all[i].key == k {
      if k == e.key {
        assert all[n].key == k;
      } else {
        var i :| WindowStart(keep, n) <= i < n && history[i].key == k;
        assert all[i].key == k;
      }
    }
  }

  lemma InsertKeepsLast<K, V>(ring: Ring<K, V>, keep: nat, history: seq<Entry<K, V>>, e: Entry<K, V>)
    requires keep > 0 && HoldsLast(ring, keep, history) && DistinctKeys(history + [e])
    ensures HoldsLast(Insert(ring, keep, e), keep, history + [e])
  {
    InsertKeepsSlots(ring, keep, history, e);
    InsertKeepsItems(ring.items, keep, history, e);
  }

  /** After any insertions of distinct keys exactly the last `keep` of them are held. */
  lemma {:induction false} RingHoldsLast<K, V>(keep: nat, history: seq<Entry<K, V>>)
    requires keep > 0 && DistinctKeys(history)
    ensures HoldsLast(InsertAll(keep, history), keep, history)
  {
    if history != [] {
      var init, e := history[..|history| - 1], history[|history| - 1];
      assert history == init + [e];
      assert forall i :: 0 <= i < |init| ==> init[i] == history[i];
      RingHoldsLast(keep, init);
      InsertKeepsLast(InsertAll(keep, init), keep, init, e);
    } else {
      SlotWraps(0, keep);
    }
  }

  /** The item just inserted survives its own pruning unless its key is the one pushed out. */
  lemma InsertedItemSurvivesIff<K, V>(ring: Ring<K, V>, keep: nat, e: Entry<K, V>)
    requires keep > 0
    ensures e.key in Insert(ring, keep, e).items
       <==> !(ring.pointer in ring.slots && ring.slots[ring.pointer] == e.key)
  {
  }
}
