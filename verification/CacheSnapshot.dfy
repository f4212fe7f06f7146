/**
 * Persistence of the cache (`save_to_file`, `load_from_file`).  The JSON text between the two is
 * taken to carry the list of tuples unchanged; the order in which the map is iterated on saving
 * is a parameter.
 */
module CacheSnapshot {
  import opened Prelude
  import opened ResponseCache
  import opened CacheHistory

  datatype Saved = Saved(key: CacheKey, bytes: seq<Byte>, ttlSecs: nat, hitCount: nat)

  predicate IteratesOver(iteration: seq<CacheKey>, entries: map<CacheKey, Entry>) {
    Distinct(iteration) && Elements(iteration) == entries.Keys
  }

  function Save(entries: map<CacheKey, Entry>, iteration: seq<CacheKey>): seq<Saved>
    requires IteratesOver(iteration, entries)
  {
    seq(|iteration|, i requires 0 <= i < |iteration| =>
      assert iteration[i] in Elements(iteration);
      var e := entries[iteration[i]];
      Saved(iteration[i], e.bytes, e.originalTtl / SECOND, e.hitCount))
  }

  function Keys(snapshot: seq<Saved>): (keys: seq<CacheKey>)
    ensures |keys| == |snapshot| && forall i :: 0 <= i < |keys| ==> keys[i] == snapshot[i].key
  {
    seq(|snapshot|, i requires 0 <= i < |snapshot| => snapshot[i].key)
  }

  function LoadConfig(snapshot: seq<Saved>): Config {
    Config(Max(|snapshot|, 100), 30 * SECOND, 0)
  }

  /** Room for all the tuples and for 100 entries at least, a serve-stale window of 30 seconds, no prefetch. */
  ghost predicate IsLoadConfig(config: Config, tuples: nat) {
    && config.size >= tuples && config.size >= 100 && (config.size == tuples || config.size == 100)
    && config.serveStale == 30_000_000_000 && config.prefetch == 0
  }

  function RestoredEntry(saved: Saved, now: nat): Entry {
    Entry(saved.bytes, now, saved.ttlSecs * SECOND, saved.hitCount, now)
  }

  /** An insertion followed by putting the saved hit count back. */
  function Restored(s: State, saved: Saved, now: nat): State {
    var t := Inserted(s, saved.key, saved.bytes, saved.ttlSecs * SECOND, now);
    t.(entries := t.entries[saved.key := RestoredEntry(saved, now)])
  }

  function LoadInto(config: Config, snapshot: seq<Saved>, times: seq<nat>): State
    requires |times| == |snapshot|
  {
    if snapshot == [] then Fresh(config)
    else
      var n := |snapshot| - 1;
      Restored(LoadInto(config, snapshot[..n], times[..n]), snapshot[n], times[n])
  }

  /** What a loaded cache holds: each key of the list once, with the last tuple that names it. */
  ghost predicate HoldsLastTuples(s: State, snapshot: seq<Saved>, times: seq<nat>)
    requires |times| == |snapshot|
  {
    && s.order == ByLastInsertion(Keys(snapshot))
    && forall k :: k in s.entries ==> HoldsLastTuple(s, snapshot, times, k)
  }

  ghost predicate HoldsLastTuple(s: State, snapshot: seq<Saved>, times: seq<nat>, k: CacheKey)
    requires |times| == |snapshot| && k in s.entries
  {
    var i := LastIndex(Keys(snapshot), k);
    && 0 <= i
    && var e := s.entries[k];
    && e.bytes == snapshot[i].bytes && e.hitCount == snapshot[i].hitCount && e.originalTtl == snapshot[i].ttlSecs * SECOND
    && e.insertedAt == times[i] && e.lastAccess == times[i]
  }

  lemma LastIndexSnoc(h: seq<CacheKey>, key: CacheKey, k: CacheKey)
    ensures LastIndex(h + [key], k) == if k == key then |h| else LastIndex(h, k)
  {
  }

  lemma RestoredHolds(s: State, snapshot: seq<Saved>, times: seq<nat>, saved: Saved, now: nat)
    requires |times| == |snapshot| && |s.entries| < s.config.size
    requires HoldsLastTuples(s, snapshot, times)
    ensures HoldsLastTuples(Restored(s, saved, now), snapshot + [saved], times + [now])
  {
    var t := Restored(s, saved, now);
    assert t.order == ByLastInsertion(Keys(snapshot + [saved])) by {
      assert Keys(snapshot + [saved]) == Keys(snapshot) + [saved.key];
      ByLastInsertionSnoc(Keys(snapshot), saved.key);
    }
    forall k | k in t.entries ensures HoldsLastTuple(t, snapshot + [saved], times + [now], k) {
      RestoredHoldsOne(s, snapshot, times, saved, now, k);
    }
  }

  lemma RestoredHoldsOne(s: State, snapshot: seq<Saved>, times: seq<nat>, saved: Saved, now: nat, k: CacheKey)
    requires |times| == |snapshot| && |s.entries| < s.config.size
    requires k in Restored(s, saved, now).entries
    requires k != saved.key ==> k in s.entries && HoldsLastTuple(s, snapshot, times, k)
    ensures HoldsLastTuple(Restored(s, saved, now), snapshot + [saved], times + [now], k)
  {
    assert Keys(snapshot + [saved]) == Keys(snapshot) + [saved.key];
    LastIndexSnoc(Keys(snapshot), saved.key, k);
  }

  /** Loading leaves a coherent cache with zero counters, whatever the file lists. */
  lemma {:induction false} LoadedCoherent(config: Config, snapshot: seq<Saved>, times: seq<nat>)
    requires |times| == |snapshot| <= config.size
    ensures var s := LoadInto(config, snapshot, times);
      s.config == config && s.hits == s.misses == 0 && Coherent(s) && |s.entries| <= |snapshot|
  {
    if snapshot != [] {
      var n := |snapshot| - 1;
      LoadedCoherent(config, snapshot[..n], times[..n]);
      RestoredCoherent(LoadInto(config, snapshot[..n], times[..n]), snapshot[n], times[n]);
    }
  }

  /** Loading evicts nothing: every key of the file is there at the end. */
  lemma {:induction false} LoadEvictsNothing(config: Config, snapshot: seq<Saved>, times: seq<nat>, i: nat)
    requires |times| == |snapshot| <= config.size && i < |snapshot|
    ensures snapshot[i].key in LoadInto(config, snapshot, times).entries
  {
    var n := |snapshot| - 1;
    var before := LoadInto(config, snapshot[..n], times[..n]);
    assert |before.entries| < before.config.size by { LoadedCoherent(config, snapshot[..n], times[..n]); }
    if i < n {
      LoadEvictsNothing(config, snapshot[..n], times[..n], i);
    }
  }

  /** A loaded cache holds the last tuple of every key, in the order of those tuples. */
  lemma {:induction false} LoadedContents(config: Config, snapshot: seq<Saved>, times: seq<nat>)
    requires |times| == |snapshot| <= config.size
    ensures HoldsLastTuples(LoadInto(config, snapshot, times), snapshot, times)
  {
    if snapshot != [] {
      var n := |snapshot| - 1;
      var front, earlier := snapshot[..n], times[..n];
      TakeSnoc(snapshot);
      TakeSnoc(times);
      LoadedContents(config, front, earlier);
      var before := LoadInto(config, front, earlier);
      assert |before.entries| < before.config.size by { LoadedCoherent(config, front, earlier); }
      RestoredHolds(before, front, earlier, snapshot[n], times[n]);
    }
  }

  lemma RestoredCoherent(s: State, saved: Saved, now: nat)
    requires Coherent(s) && |s.entries| < s.config.size
    ensures Coherent(Restored(s, saved, now)) && |Restored(s, saved, now).entries| <= |s.entries| + 1
  {
    InsertedCoherent(s, saved.key, saved.bytes, saved.ttlSecs * SECOND, now);
    var t := Inserted(s, saved.key, saved.bytes, saved.ttlSecs * SECOND, now);
    assert Restored(s, saved, now).entries.Keys == t.entries.Keys == s.entries.Keys + {saved.key};
  }

  lemma {:induction false} DistinctByLastInsertion(h: seq<CacheKey>)
    requires Distinct(h)
    ensures ByLastInsertion(h) == h
  {
    if h != [] {
      var n := |h| - 1;
      DistinctByLastInsertion(h[..n]);
      MinusAbsent(h[..n], {h[n]});
    }
  }

  /** The same answer and hit count, inserted at `now`, with the TTL cut to whole seconds. */
  ghost predicate IsFloored(loaded: Entry, e: Entry, now: nat) {
    && loaded.bytes == e.bytes && loaded.hitCount == e.hitCount && loaded.insertedAt == now && loaded.lastAccess == now
    && loaded.originalTtl % 1_000_000_000 == 0
    && e.originalTtl - 1_000_000_000 < loaded.originalTtl <= e.originalTtl
  }

  /**
   * Save then load, for any cache contents and any iteration order: the same keys in iteration
   * order, the same bytes and hit counts, every TTL floored to whole seconds and counted from
   * the load, and a coherent cache with the configuration of a load.
   */
  lemma SaveLoadRoundTrip(entries: map<CacheKey, Entry>, iteration: seq<CacheKey>, times: seq<nat>)
    requires IteratesOver(iteration, entries) && |times| == |iteration|
    ensures var snapshot := Save(entries, iteration);
      var s := LoadInto(LoadConfig(snapshot), snapshot, times);
      && s.order == iteration
      && s.entries.Keys == entries.Keys
      && Coherent(s) && IsLoadConfig(s.config, |iteration|)
      && forall i :: 0 <= i < |iteration| ==>
           && iteration[i] in entries && iteration[i] in s.entries
           && IsFloored(s.entries[iteration[i]], entries[iteration[i]], times[i])
  {
    var snapshot := Save(entries, iteration);
    var s := LoadInto(LoadConfig(snapshot), snapshot, times);
    LoadedCoherent(LoadConfig(snapshot), snapshot, times);
    assert s.order == iteration by {
      LoadedContents(LoadConfig(snapshot), snapshot, times);
      assert Keys(snapshot) == iteration;
      DistinctByLastInsertion(iteration);
    }
    assert s.entries.Keys == entries.Keys by {
      assert forall k :: k in entries.Keys <==> k in Elements(iteration);
    }
    forall i | 0 <= i < |iteration|
      ensures iteration[i] in entries && iteration[i] in s.entries
      ensures IsFloored(s.entries[iteration[i]], entries[iteration[i]], times[i])
    {
      LoadedOne(entries, iteration, times, i);
    }
  }

  lemma LoadedOne(entries: map<CacheKey, Entry>, iteration: seq<CacheKey>, times: seq<nat>, i: nat)
    requires IteratesOver(iteration, entries) && |times| == |iteration| && i < |iteration|
    requires var snapshot := Save(entries, iteration);
      iteration[i] in LoadInto(LoadConfig(snapshot), snapshot, times).entries
    ensures iteration[i] in entries
    ensures var snapshot := Save(entries, iteration);
      IsFloored(LoadInto(LoadConfig(snapshot), snapshot, times).entries[iteration[i]], entries[iteration[i]], times[i])
  {
    var snapshot := Save(entries, iteration);
    var s := LoadInto(LoadConfig(snapshot), snapshot, times);
    assert HoldsLastTuple(s, snapshot, times, iteration[i]) by {
      LoadedContents(LoadConfig(snapshot), snapshot, times);
    }
    assert LastIndex(Keys(snapshot), iteration[i]) == i by {
      assert Keys(snapshot) == iteration;
      DistinctLastIndex(iteration, i);
    }
    SavedFloors(entries, iteration, i, times[i]);
  }

  lemma DistinctLastIndex(h: seq<CacheKey>, i: nat)
    requires Distinct(h) && i < |h|
    ensures LastIndex(h, h[i]) == i
  {
  }

  lemma SavedFloors(entries: map<CacheKey, Entry>, iteration: seq<CacheKey>, i: nat, now: nat)
    requires IteratesOver(iteration, entries) && i < |iteration|
    ensures iteration[i] in entries
    ensures IsFloored(RestoredEntry(Save(entries, iteration)[i], now), entries[iteration[i]], now)
  {
  }

  method LoadSnapshot(snapshot: seq<Saved>, times: seq<nat>) returns (cache: Cache)
    requires |times| == |snapshot|
    ensures fresh(cache)
    ensures cache.View() == LoadInto(LoadConfig(snapshot), snapshot, times)
    ensures IsLoadConfig(cache.config, |snapshot|)
  {
    var config := LoadConfig(snapshot);
    cache := new Cache(config);
    for i := 0 to |snapshot|
      invariant fresh(cache) && cache.config == config
      invariant cache.View() == LoadInto(config, snapshot[..i], times[..i])
    {
      var saved := snapshot[i];
      ghost var before := cache.View();
      assert Coherent(before) by { LoadedCoherent(config, snapshot[..i], times[..i]); }
      cache.Insert(saved.key, saved.bytes, saved.ttlSecs * SECOND, times[i]);
      if saved.key in cache.entries {
        cache.entries := cache.entries[saved.key := cache.entries[saved.key].(hitCount := saved.hitCount)];
      }
      LoadIntoStep(config, snapshot, times, i);
      assert cache.View() == Restored(before, saved, times[i]);
    }
    assert snapshot[..|snapshot|] == snapshot && times[..|times|] == times;
  }

  lemma LoadIntoStep(config: Config, snapshot: seq<Saved>, times: seq<nat>, i: nat)
    requires |times| == |snapshot| && i < |snapshot|
    ensures LoadInto(config, snapshot[..i + 1], times[..i + 1])
         == Restored(LoadInto(config, snapshot[..i], times[..i]), snapshot[i], times[i])
  {
    assert snapshot[..i + 1][..i] == snapshot[..i] && times[..i + 1][..i] == times[..i];
  }
}
