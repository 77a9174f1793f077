/**
  The bounded least-recently-used caches.  The axis-extent cache is the instance whose
  entries weigh no cells; the series cache weighs both cells and bytes.
 */
module LruCache {
  import opened Wrappers
  import opened ChartSampler

  datatype Entry<V> = Entry(value: V, cells: nat, bytes: nat, lastUsed: nat)

  datatype Limits = Limits(entries: nat, cells: nat, bytes: nat)

  const SERIES_LIMITS: Limits := Limits(512, 250_000, 32 * 1024 * 1024)
  const AXIS_EXTENT_LIMITS: Limits := Limits(2_048, 0, 2 * 1024 * 1024)

  function SaturatingSub(a: nat, b: nat): nat { if b <= a then a - b else 0 }

  // --------------------------------------------------------- specification

  ghost function Bytes<K, V>(entries: map<K, Entry<V>>): nat {
    if entries == map[] then 0 else var k :| k in entries; entries[k].bytes + Bytes(entries - {k})
  }

  ghost function Cells<K, V>(entries: map<K, Entry<V>>): nat {
    if entries == map[] then 0 else var k :| k in entries; entries[k].cells + Cells(entries - {k})
  }

  ghost predicate Fits<K, V>(entries: map<K, Entry<V>>, limits: Limits) {
    |entries| <= limits.entries && Cells(entries) <= limits.cells && Bytes(entries) <= limits.bytes
  }

  /** The entry may be the next to go: no other was used longer ago. */
  ghost predicate IsOldest<K(!new), V>(entries: map<K, Entry<V>>, key: K) {
    key in entries && forall k :: k in entries ==> entries[key].lastUsed <= entries[k].lastUsed
  }

  /** Every use had its own clock value. */
  ghost predicate DistinctUses<K(!new), V>(entries: map<K, Entry<V>>) {
    forall j, k :: j in entries && k in entries && entries[j].lastUsed == entries[k].lastUsed ==> j == k
  }

  /** Evicting these keys one after the other, each time an oldest one and only while the rest does not fit. */
  ghost predicate EvictionOrder<K(!new), V>(entries: map<K, Entry<V>>, evicted: seq<K>, limits: Limits)
    decreases |evicted|
  {
    evicted == [] ||
      (!Fits(entries, limits) && IsOldest(entries, evicted[0])
       && EvictionOrder(entries - {evicted[0]}, evicted[1..], limits))
  }

  ghost function Without<K, V>(entries: map<K, Entry<V>>, evicted: seq<K>): map<K, Entry<V>>
    decreases |evicted|
  {
    if evicted == [] then entries else Without(entries - {evicted[0]}, evicted[1..])
  }

  // ------------------------------------------------------------------ laws

  lemma {:induction false} BytesRemove<K, V>(entries: map<K, Entry<V>>, key: K)
    requires key in entries
    ensures Bytes(entries) == entries[key].bytes + Bytes(entries - {key})
    decreases |entries|
  {
    var k :| k in entries && Bytes(entries) == entries[k].bytes + Bytes(entries - {k});
    if k != key {
      BytesRemove(entries - {k}, key);
      BytesRemove(entries - {key}, k);
      assert entries - {k} - {key} == entries - {key} - {k};
    }
  }

  lemma {:induction false} CellsRemove<K, V>(entries: map<K, Entry<V>>, key: K)
    requires key in entries
    ensures Cells(entries) == entries[key].cells + Cells(entries - {key})
    decreases |entries|
  {
    var k :| k in entries && Cells(entries) == entries[k].cells + Cells(entries - {k});
    if k != key {
      CellsRemove(entries - {k}, key);
      CellsRemove(entries - {key}, k);
      assert entries - {k} - {key} == entries - {key} - {k};
    }
  }

  /** Adding or replacing an entry changes the totals by exactly its weights. */
  lemma TotalsOfUpdate<K, V>(entries: map<K, Entry<V>>, key: K, e: Entry<V>)
    ensures Bytes(entries[key := e]) == e.bytes + Bytes(entries - {key})
    ensures Cells(entries[key := e]) == e.cells + Cells(entries - {key})
  {
    var more := entries[key := e];
    BytesRemove(more, key);
    CellsRemove(more, key);
    assert more - {key} == entries - {key};
  }

  lemma {:induction false} EvictionAppend<K(!new), V>(entries: map<K, Entry<V>>, evicted: seq<K>, key: K,
                                                     limits: Limits)
    requires EvictionOrder(entries, evicted, limits)
    requires !Fits(Without(entries, evicted), limits) && IsOldest(Without(entries, evicted), key)
    ensures EvictionOrder(entries, evicted + [key], limits)
    ensures Without(entries, evicted + [key]) == Without(entries, evicted) - {key}
    decreases |evicted|
  {
    hide Fits, IsOldest;
    if evicted == [] {
      assert evicted + [key] == [key] && [key][1..] == [];
    } else {
      EvictionAppend(entries - {evicted[0]}, evicted[1..], key, limits);
      assert (evicted + [key])[1..] == evicted[1..] + [key];
    }
  }

  /** What survives an eviction was used no earlier than anything evicted. */
  lemma {:induction false} SurvivorsAreNewest<K(!new), V>(entries: map<K, Entry<V>>, evicted: seq<K>,
                                                         limits: Limits, gone: K, kept: K)
    requires EvictionOrder(entries, evicted, limits) && gone in evicted && kept in Without(entries, evicted)
    ensures gone in entries && kept in entries && entries[gone].lastUsed <= entries[kept].lastUsed
    ensures Without(entries, evicted)[kept] == entries[kept]
    decreases |evicted|
  {
    hide Fits;
    WithoutShrinks(entries - {evicted[0]}, evicted[1..]);
    if gone in evicted[1..] {
      SurvivorsAreNewest(entries - {evicted[0]}, evicted[1..], limits, gone, kept);
    }
  }

  lemma {:induction false} WithoutShrinks<K(!new), V>(entries: map<K, Entry<V>>, evicted: seq<K>)
    ensures Without(entries, evicted).Keys <= entries.Keys
    ensures forall k :: k in Without(entries, evicted) ==> Without(entries, evicted)[k] == entries[k]
    decreases |evicted|
  {
    if evicted != [] { WithoutShrinks(entries - {evicted[0]}, evicted[1..]); }
  }

  /** Nothing is evicted needlessly: with the last evicted entry back, the cache would not fit. */
  lemma {:induction false} EvictionIsMinimal<K(!new), V>(entries: map<K, Entry<V>>, evicted: seq<K>, limits: Limits)
    requires EvictionOrder(entries, evicted, limits) && evicted != []
    ensures !Fits(Without(entries, evicted[..|evicted| - 1]), limits)
    decreases |evicted|
  {
    hide Fits, IsOldest;
    if |evicted| == 1 {
      assert evicted[..0] == [];
    } else {
      EvictionIsMinimal(entries - {evicted[0]}, evicted[1..], limits);
      assert evicted[1..][..|evicted| - 2] == evicted[..|evicted| - 1][1..];
    }
  }

  /** A newest entry that fits on its own is never evicted as long as no other use shares its clock value. */
  lemma {:induction false} NewestSurvives<K(!new), V>(entries: map<K, Entry<V>>, evicted: seq<K>,
                                                     limits: Limits, key: K)
    requires EvictionOrder(entries, evicted, limits) && key in entries
    requires forall k :: k in entries && k != key ==> entries[k].lastUsed < entries[key].lastUsed
    requires 1 <= limits.entries && entries[key].cells <= limits.cells && entries[key].bytes <= limits.bytes
    ensures key in Without(entries, evicted)
    decreases |evicted|
  {
    if evicted != [] {
      if evicted[0] == key { AloneFits(entries, key, limits); }
      NewestSurvives(entries - {evicted[0]}, evicted[1..], limits, key);
    }
  }

  lemma AloneFits<K(!new), V>(entries: map<K, Entry<V>>, key: K, limits: Limits)
    requires IsOldest(entries, key)
    requires forall k :: k in entries && k != key ==> entries[k].lastUsed < entries[key].lastUsed
    requires 1 <= limits.entries && entries[key].cells <= limits.cells && entries[key].bytes <= limits.bytes
    ensures Fits(entries, limits)
  {
    assert entries.Keys == {key};
    assert |entries| == |entries.Keys| == 1;
    BytesRemove(entries, key);
    CellsRemove(entries, key);
    assert entries - {key} == map[];
  }

  // ------------------------------------------- when an insert evicts its own

  /** The entries that carry the last clock value there is. */
  function Saturated<K, V>(entries: map<K, Entry<V>>): map<K, Entry<V>> {
    map k | k in entries && entries[k].lastUsed == U64_MAX :: entries[k]
  }

  lemma {:induction false} FewerFit<K(!new), V>(fewer: map<K, Entry<V>>, entries: map<K, Entry<V>>, limits: Limits)
    requires fewer.Keys <= entries.Keys && (forall k :: k in fewer ==> fewer[k] == entries[k])
    requires Fits(entries, limits)
    ensures Fits(fewer, limits)
    decreases |entries|
  {
    if fewer.Keys == entries.Keys {
      assert fewer == entries;
    } else {
      var k :| k in entries && k !in fewer;
      BytesRemove(entries, k);
      CellsRemove(entries, k);
      RemoveShrinks(entries, k);
      FewerFit(fewer, entries - {k}, limits);
    }
  }

  lemma {:induction false} OldestExists<K(!new), V>(entries: map<K, Entry<V>>) returns (key: K)
    requires entries != map[]
    ensures IsOldest(entries, key)
    decreases |entries|
  {
    var some :| some in entries;
    key := some;
    var rest := entries - {some};
    assert forall k :: k in entries ==> k == some || k in rest;
    if rest != map[] {
      RemoveShrinks(entries, some);
      var other := OldestExists(rest);
      if entries[other].lastUsed < entries[some].lastUsed { key := other; }
      assert forall k :: k in rest ==> entries[other].lastUsed <= entries[k].lastUsed;
    }
  }

  /** Evicting can always go on until the rest fits. */
  lemma {:induction false} EvictTheRest<K(!new), V>(entries: map<K, Entry<V>>, limits: Limits) returns (evicted: seq<K>)
    ensures EvictionOrder(entries, evicted, limits) && Fits(Without(entries, evicted), limits)
    decreases |entries|
  {
    if Fits(entries, limits) {
      evicted := [];
    } else {
      NothingFits<K, V>(limits);
      var key := OldestExists(entries);
      RemoveShrinks(entries, key);
      var rest := EvictTheRest(entries - {key}, limits);
      evicted := [key] + rest;
      assert evicted[1..] == rest;
    }
  }

  lemma NothingFits<K, V>(limits: Limits)
    ensures Fits<K, V>(map[], limits)
  {
  }

  /** An eviction order that ends with a cache that fits, and without the entry. */
  ghost predicate MayEvict<K(!new), V>(entries: map<K, Entry<V>>, key: K, limits: Limits) {
    exists evicted :: EvictionOrder(entries, evicted, limits) && Fits(Without(entries, evicted), limits)
                      && key !in Without(entries, evicted)
  }

  /** All entries used earlier go first; then, the saturated ones not fitting, any of them may be next. */
  lemma {:induction false} EvictSaturated<K(!new), V>(entries: map<K, Entry<V>>, key: K, limits: Limits)
    returns (evicted: seq<K>)
    requires key in entries && entries[key].lastUsed == U64_MAX && !Fits(Saturated(entries), limits)
    requires forall k :: k in entries ==> entries[k].lastUsed <= U64_MAX
    ensures EvictionOrder(entries, evicted, limits) && Fits(Without(entries, evicted), limits)
    ensures key !in Without(entries, evicted)
    decreases |entries|
  {
    if Fits(entries, limits) { FewerFit(Saturated(entries), entries, limits); }
    var oldest := OldestExists(entries);
    if entries[oldest].lastUsed == U64_MAX { oldest := key; }
    RemoveShrinks(entries, oldest);
    var rest;
    if oldest == key {
      rest := EvictTheRest(entries - {key}, limits);
      WithoutShrinks(entries - {key}, rest);
    } else {
      assert Saturated(entries - {oldest}) == Saturated(entries);
      rest := EvictSaturated(entries - {oldest}, key, limits);
    }
    evicted := [oldest] + rest;
    assert evicted[1..] == rest;
  }

  /** An entry with the last clock value goes only while all that are left have it, and do not fit. */
  lemma {:induction false} EvictedSaturated<K(!new), V>(entries: map<K, Entry<V>>, evicted: seq<K>, key: K,
                                                       limits: Limits)
    requires EvictionOrder(entries, evicted, limits) && key in entries && key !in Without(entries, evicted)
    requires entries[key].lastUsed == U64_MAX && forall k :: k in entries ==> entries[k].lastUsed <= U64_MAX
    ensures !Fits(Saturated(entries), limits)
    decreases |evicted|
  {
    if evicted[0] == key {
      assert Saturated(entries) == entries;
    } else {
      EvictedSaturated(entries - {evicted[0]}, evicted[1..], key, limits);
      if Fits(Saturated(entries), limits) {
        FewerFit(Saturated(entries - {evicted[0]}), Saturated(entries), limits);
      }
    }
  }

  /**
    Exactly when an insert can evict its own entry: the clock was at its maximum, and the
    entries that carry this last value do not fit together.
   */
  lemma OwnInsertMayEvict<K(!new), V>(entries: map<K, Entry<V>>, key: K, e: Entry<V>, clock: nat, limits: Limits)
    requires forall k :: k in entries ==> entries[k].lastUsed <= clock
    requires clock <= U64_MAX && e.lastUsed == SaturatingAdd(clock, 1)
    requires 1 <= limits.entries && e.cells <= limits.cells && e.bytes <= limits.bytes
    ensures MayEvict(entries[key := e], key, limits) <==>
              clock == U64_MAX && !Fits(Saturated(entries[key := e]), limits)
  {
    hide Fits, EvictionOrder, Without, Saturated, IsOldest;
    var more := entries[key := e];
    assert forall k :: k in more ==> k == key || more[k] == entries[k];
    if clock == U64_MAX {
      if !Fits(Saturated(more), limits) {
        var evicted := EvictSaturated(more, key, limits);
      }
      forall evicted | EvictionOrder(more, evicted, limits) && key !in Without(more, evicted)
        ensures !Fits(Saturated(more), limits)
      {
        EvictedSaturated(more, evicted, key, limits);
      }
    } else {
      forall evicted | EvictionOrder(more, evicted, limits)
        ensures key in Without(more, evicted)
      {
        NewestSurvives(more, evicted, limits, key);
      }
    }
  }

  /** With a saturated clock an insert can indeed evict its own entry. */
  lemma SaturatedClockCounterexample()
    ensures var entries := map["old" := Entry(0, 0, 1, U64_MAX)];
            var more := entries["new" := Entry(1, 0, 1, SaturatingAdd(U64_MAX, 1))];
            var limits := Limits(1, 0, 10);
            && Fits(entries, limits) && EvictionOrder(more, ["new"], limits)
            && Without(more, ["new"]) == entries && Fits(Without(more, ["new"]), limits)
  {
    var entries := map["old" := Entry(0, 0, 1, U64_MAX)];
    var more := entries["new" := Entry(1, 0, 1, SaturatingAdd(U64_MAX, 1))];
    BytesRemove(entries, "old");
    CellsRemove(entries, "old");
    assert entries - {"old"} == map[];
    assert more - {"new"} == entries;
    assert |more| == 2 by { assert more.Keys == {"old", "new"}; }
    assert ["new"][1..] == [];
  }

  /** The entries with one of them marked as just used. */
  function Touched<K, V>(entries: map<K, Entry<V>>, key: K, clock: nat): map<K, Entry<V>> {
    if key in entries then entries[key := entries[key].(lastUsed := clock)] else entries
  }

  lemma TouchKeepsTotals<K(!new), V>(entries: map<K, Entry<V>>, key: K, clock: nat)
    ensures Bytes(Touched(entries, key, clock)) == Bytes(entries)
            && Cells(Touched(entries, key, clock)) == Cells(entries)
    ensures Touched(entries, key, clock).Keys == entries.Keys && |Touched(entries, key, clock)| == |entries|
  {
    if key in entries {
      TotalsOfUpdate(entries, key, entries[key].(lastUsed := clock));
      BytesRemove(entries, key);
      CellsRemove(entries, key);
    }
    SameSize(Touched(entries, key, clock), entries);
  }

  lemma SameSize<K, V>(a: map<K, Entry<V>>, b: map<K, Entry<V>>)
    requires a.Keys == b.Keys
    ensures |a| == |b|
  {
    assert |a| == |a.Keys| && |b| == |b.Keys|;
  }

  class Cache<K(==, !new), V> {
    const limits: Limits
    var entries: map<K, Entry<V>>
    var cells: nat
    var bytes: nat
    var clock: nat

    /** The totals are the sums over the entries and within the limits; no use lies in the future. */
    ghost predicate Valid()
      reads this
    {
      && limits.entries > 0 && 2 * limits.cells <= U64_MAX && 2 * limits.bytes <= U64_MAX
      && cells == Cells(entries) && bytes == Bytes(entries) && Fits(entries, limits)
      && clock <= U64_MAX && (forall k :: k in entries ==> entries[k].lastUsed <= clock)
      && (clock < U64_MAX ==> DistinctUses(entries))
    }

    constructor (limits: Limits)
      requires limits.entries > 0 && 2 * limits.cells <= U64_MAX && 2 * limits.bytes <= U64_MAX
      ensures Valid() && entries == map[] && this.limits == limits
    {
      this.limits := limits;
      entries, cells, bytes, clock := map[], 0, 0, 0;
    }

    /** A hit returns the stored value and makes its entry the most recently used. */
    method Get(key: K) returns (value: Option<V>)
      requires Valid()
      modifies this
      ensures Valid() && clock == SaturatingAdd(old(clock), 1)
      ensures value == if key in old(entries) then Some(old(entries)[key].value) else None
      ensures entries == Touched(old(entries), key, clock)
      ensures forall k :: k in entries <==> k in old(entries)
      ensures forall k :: k in entries ==>
                entries[k] == if k == key then old(entries)[k].(lastUsed := clock) else old(entries)[k]
    {
      hide Cells, Bytes;
      clock := SaturatingAdd(clock, 1);
      if key !in entries { return None; }
      TouchKeepsTotals(entries, key, clock);
      var entry := entries[key];
      entries := entries[key := entry.(lastUsed := clock)];
      return Some(entry.value);
    }

    /** Removes an entry and its weights, which never undershoot. */
    method Remove(key: K)
      requires cells == Cells(entries) && bytes == Bytes(entries)
      modifies this`entries, this`cells, this`bytes
      ensures entries == old(entries) - {key}
      ensures cells == Cells(entries) && bytes == Bytes(entries)
      ensures key in old(entries) ==>
                old(entries)[key].cells <= old(cells) && old(entries)[key].bytes <= old(bytes)
    {
      hide Cells, Bytes;
      if key in entries {
        CellsRemove(entries, key);
        BytesRemove(entries, key);
        cells := SaturatingSub(cells, entries[key].cells);
        bytes := SaturatingSub(bytes, entries[key].bytes);
        entries := entries - {key};
      } else {
        assert entries - {key} == entries;
      }
    }

    method Oldest() returns (key: K)
      requires entries != map[]
      ensures IsOldest(entries, key)
    {
      key :| key in entries;
      var left := entries.Keys - {key};
      while left != {}
        invariant left <= entries.Keys && key in entries
        invariant forall k :: k in entries && k !in left ==> entries[key].lastUsed <= entries[k].lastUsed
        decreases |left|
      {
        var k :| k in left;
        if entries[k].lastUsed < entries[key].lastUsed { key := k; }
        left := left - {k};
      }
    }

    /**
      Admits an entry that fits at all, then evicts oldest entries while the rest does not
      fit.  `evicted` lists them in order.
     */
    method Insert(key: K, value: V, newCells: nat, newBytes: nat) returns (ghost evicted: seq<K>)
      requires Valid()
      modifies this
      ensures Valid()
      ensures newCells > limits.cells || newBytes > limits.bytes ==>
                entries == old(entries) && clock == old(clock) && evicted == []
      ensures newCells <= limits.cells && newBytes <= limits.bytes ==>
                var more := old(entries)[key := Entry(value, newCells, newBytes, clock)];
                && clock == SaturatingAdd(old(clock), 1)
                && EvictionOrder(more, evicted, limits) && entries == Without(more, evicted)
                && (old(clock) < U64_MAX ==> key in entries && entries[key] == more[key])
    {
      hide Cells, Bytes, EvictionOrder, Without, IsOldest, DistinctUses;
      evicted := [];
      if newCells > limits.cells || newBytes > limits.bytes { return; }
      ghost var before := entries;
      WithinLimits(entries, key, limits);
      Remove(key);
      clock := SaturatingAdd(clock, 1);
      cells := SaturatingAdd(cells, newCells);
      bytes := SaturatingAdd(bytes, newBytes);
      entries := entries[key := Entry(value, newCells, newBytes, clock)];
      ghost var more := before[key := Entry(value, newCells, newBytes, clock)];
      assert entries == more;
      TotalsOfUpdate(before, key, more[key]);
      assert cells == Cells(entries) && bytes == Bytes(entries);
      evicted := EvictUntilFits();
      AfterInsert(before, more, evicted, key, old(clock), limits);
    }

    method EvictUntilFits() returns (ghost evicted: seq<K>)
      requires cells == Cells(entries) && bytes == Bytes(entries)
      modifies this`entries, this`cells, this`bytes
      ensures EvictionOrder(old(entries), evicted, limits) && entries == Without(old(entries), evicted)
      ensures cells == Cells(entries) && bytes == Bytes(entries) && Fits(entries, limits)
    {
      hide Cells, Bytes, EvictionOrder, Without;
      evicted := [];
      ghost var more := entries;
      EvictNothing(more, limits);
      while |entries| > limits.entries || cells > limits.cells || bytes > limits.bytes
        invariant cells == Cells(entries) && bytes == Bytes(entries)
        invariant EvictionOrder(more, evicted, limits) && entries == Without(more, evicted)
        decreases |entries|
      {
        OverfullIsNotEmpty(entries, limits);
        var oldest := Oldest();
        assert !Fits(entries, limits);
        EvictionAppend(more, evicted, oldest, limits);
        RemoveShrinks(entries, oldest);
        Remove(oldest);
        evicted := evicted + [oldest];
      }
      assert Fits(entries, limits);
    }
  }

  /** The clock bounds and the fate of the new entry after an insert. */
  lemma AfterInsert<K(!new), V>(before: map<K, Entry<V>>, more: map<K, Entry<V>>, evicted: seq<K>, key: K, clock: nat,
                                limits: Limits)
    requires clock <= U64_MAX && (forall k :: k in before ==> before[k].lastUsed <= clock)
    requires clock < U64_MAX ==> DistinctUses(before)
    requires key in more && more == before[key := more[key]] && more[key].lastUsed == SaturatingAdd(clock, 1)
    requires 0 < limits.entries && more[key].cells <= limits.cells && more[key].bytes <= limits.bytes
    requires EvictionOrder(more, evicted, limits)
    ensures forall k :: k in Without(more, evicted) ==> Without(more, evicted)[k].lastUsed <= SaturatingAdd(clock, 1)
    ensures SaturatingAdd(clock, 1) < U64_MAX ==> DistinctUses(Without(more, evicted))
    ensures clock < U64_MAX ==> key in Without(more, evicted) && Without(more, evicted)[key] == more[key]
  {
    hide Without, EvictionOrder;
    WithoutShrinks(more, evicted);
    assert forall k :: k in more && k != key ==> k in before && more[k] == before[k];
    if clock < U64_MAX { NewestSurvives(more, evicted, limits, key); }
  }

  lemma RemoveShrinks<K(!new), V>(entries: map<K, Entry<V>>, key: K)
    requires key in entries
    ensures |entries - {key}| < |entries|
  {
    assert (entries - {key}).Keys == entries.Keys - {key};
    assert |entries - {key}| == |(entries - {key}).Keys| && |entries| == |entries.Keys|;
  }

  lemma OverfullIsNotEmpty<K(!new), V>(entries: map<K, Entry<V>>, limits: Limits)
    ensures |entries| > limits.entries || Cells(entries) > limits.cells || Bytes(entries) > limits.bytes ==>
              entries != map[]
  {
  }

  lemma EvictNothing<K(!new), V>(entries: map<K, Entry<V>>, limits: Limits)
    ensures EvictionOrder(entries, [], limits) && Without(entries, []) == entries
  {
  }

  lemma WithinLimits<K(!new), V>(entries: map<K, Entry<V>>, key: K, limits: Limits)
    requires Fits(entries, limits)
    ensures Cells(entries - {key}) <= limits.cells && Bytes(entries - {key}) <= limits.bytes
  {
    if key in entries {
      CellsRemove(entries, key);
      BytesRemove(entries, key);
    } else {
      assert entries - {key} == entries;
    }
  }
}
