/**
 * The response cache (src/core/cache/mod.rs): a map of entries and a list
 * giving the order in which keys are evicted.  `State` is the abstract value of
 * a cache, the functions below say what each operation does to it, and class
 * `Cache` is the field-updating code proved against them.
 *
 * Instants and durations are nanosecond counts; `now` is the clock reading an
 * operation takes.
 */
module ResponseCache {
  import opened Prelude
  import opened MetricsRegistry

  const SECOND: nat := 1_000_000_000

  datatype CacheKey = CacheKey(qname: string, qtype: nat, clientSubnet: Option<(nat, nat)>)

  datatype Entry = Entry(bytes: seq<Byte>, insertedAt: nat, originalTtl: nat, hitCount: nat, lastAccess: nat)
  {
    /** `Instant::elapsed` saturates at zero. */
    function Elapsed(now: nat): nat {
      if now < insertedAt then 0 else now - insertedAt
    }

    function TtlRemaining(now: nat): nat {
      if Elapsed(now) >= originalTtl then 0 else originalTtl - Elapsed(now)
    }

    predicate IsExpired(now: nat) {
      TtlRemaining(now) == 0
    }

    predicate IsStale(staleWindow: nat, now: nat) {
      IsExpired(now) && Elapsed(now) <= originalTtl + staleWindow
    }
  }

  datatype Config = Config(size: nat, serveStale: nat, prefetch: nat)

  datatype State = State(config: Config, entries: map<CacheKey, Entry>, order: seq<CacheKey>,
                         hits: nat, misses: nat)

  datatype Hit = Hit(bytes: seq<Byte>, stale: bool, hitCount: nat)

  // ----- What each operation does to a state -----

  function Fresh(config: Config): State {
    State(config, map[], [], 0, 0)
  }

  function Evicted(s: State): State {
    if s.order == [] then s
    else s.(entries := s.entries - {s.order[0]}, order := s.order[1..])
  }

  /** The last two statements of `insert`, once there is room. */
  function Pushed(room: State, key: CacheKey, entry: Entry): State {
    room.(entries := room.entries[key := entry], order := Minus(room.order, {key}) + [key])
  }

  function Inserted(s: State, key: CacheKey, bytes: seq<Byte>, ttl: nat, now: nat): State {
    var room := if |s.entries| < s.config.size then s else Evicted(s);
    Pushed(room, key, Entry(bytes, now, ttl, 0, now))
  }

  function LookedUp(s: State, key: CacheKey, now: nat): State {
    if key !in s.entries then s
    else
      var e := s.entries[key];
      s.(hits := s.hits + 1,
         entries := s.entries[key := e.(hitCount := e.hitCount + 1, lastAccess := now)])
  }

  function LookupAnswer(s: State, key: CacheKey, now: nat): Option<Hit> {
    if key !in s.entries then None
    else
      var e := s.entries[key];
      Some(Hit(e.bytes, e.IsStale(s.config.serveStale, now), e.hitCount + 1))
  }

  function LookedUpMetered(s: State, key: CacheKey, now: nat): State {
    if key in s.entries then LookedUp(s, key, now) else s.(misses := s.misses + 1)
  }

  function Reapable(s: State, now: nat): set<CacheKey> {
    set k | k in s.entries && s.entries[k].IsExpired(now) && !s.entries[k].IsStale(s.config.serveStale, now)
  }

  function Reaped(s: State, now: nat): State {
    s.(entries := s.entries - Reapable(s, now), order := Minus(s.order, Reapable(s, now)))
  }

  function Cleared(s: State): State {
    s.(entries := map[], order := [], hits := 0, misses := 0)
  }

  /** `should_prefetch`: less TTL left than `prefetch` seconds per hit. */
  predicate ShouldPrefetch(s: State, key: CacheKey, now: nat) {
    && s.config.prefetch != 0
    && key in s.entries
    && s.entries[key].TtlRemaining(now) < s.config.prefetch * s.entries[key].hitCount * SECOND
  }

  // ----- Runs -----

  datatype Op =
    | Insert(key: CacheKey, bytes: seq<Byte>, ttl: nat)
    | Lookup(key: CacheKey)
    | LookupWithMetrics(key: CacheKey)
    | RecordMiss
    | Reap
    | Clear

  datatype Timed = Timed(op: Op, at: nat)

  function Apply(s: State, op: Op, now: nat): State {
    match op
    case Insert(key, bytes, ttl) => Inserted(s, key, bytes, ttl, now)
    case Lookup(key) => LookedUp(s, key, now)
    case LookupWithMetrics(key) => LookedUpMetered(s, key, now)
    case RecordMiss => s.(misses := s.misses + 1)
    case Reap => Reaped(s, now)
    case Clear => Cleared(s)
  }

  predicate ClockMonotone(trace: seq<Timed>) {
    forall i, j :: 0 <= i < j < |trace| ==> trace[i].at <= trace[j].at
  }

  function Clock(trace: seq<Timed>): nat {
    if trace == [] then 0 else trace[|trace| - 1].at
  }

  function Run(config: Config, trace: seq<Timed>): State {
    if trace == [] then Fresh(config)
    else
      var last := trace[|trace| - 1];
      Apply(Run(config, trace[..|trace| - 1]), last.op, last.at)
  }

  lemma RunSnoc(config: Config, trace: seq<Timed>, op: Op, now: nat)
    ensures Run(config, trace + [Timed(op, now)]) == Apply(Run(config, trace), op, now)
  {
  }

  // ----- The invariant tying the map and the order list together -----

  ghost predicate Coherent(s: State) {
    && Distinct(s.order)
    && (forall k :: k in s.order <==> k in s.entries)
    && |s.entries| <= s.config.size
  }

  /** `order` lists keys of `entries` from the oldest insertion to the newest. */
  ghost predicate OldestFirst(order: seq<CacheKey>, entries: map<CacheKey, Entry>) {
    && (forall k :: k in order ==> k in entries)
    && (forall i, j :: 0 <= i < j < |order| ==> entries[order[i]].insertedAt <= entries[order[j]].insertedAt)
  }

  /** The order list is sorted by insertion time, and nothing was inserted after `clock`. */
  ghost predicate Chronological(s: State, clock: nat) {
    && (forall k :: k in s.entries ==> s.entries[k].insertedAt <= clock)
    && OldestFirst(s.order, s.entries)
  }

  function HitSum(order: seq<CacheKey>, entries: map<CacheKey, Entry>): nat {
    if order == [] then 0
    else (if order[0] in entries then entries[order[0]].hitCount else 0) + HitSum(order[1..], entries)
  }

  ghost predicate HitsCovered(s: State) {
    HitSum(s.order, s.entries) <= s.hits
  }

  lemma SizesAgree(s: State)
    requires Distinct(s.order)
    requires forall k :: k in s.order <==> k in s.entries
    ensures |s.entries| == |s.order|
  {
    DistinctCardinality(s.order);
    assert s.entries.Keys == Elements(s.order);
  }

  lemma EvictedCoherent(s: State)
    requires Coherent(s) && s.order != []
    ensures Coherent(Evicted(s))
    ensures |Evicted(s).entries| == |s.entries| - 1
  {
  }

  /** The eviction loop frees a slot: with `size >= 1` an insertion keeps coherence and the key is there afterwards. */
  lemma InsertedCoherent(s: State, key: CacheKey, bytes: seq<Byte>, ttl: nat, now: nat)
    requires Coherent(s) && s.config.size >= 1
    ensures var t := Inserted(s, key, bytes, ttl, now);
      && Coherent(t)
      && t.order != [] && t.order[|t.order| - 1] == key
      && t.entries[key] == Entry(bytes, now, ttl, 0, now)
  {
    SizesAgree(s);
    var room := if |s.entries| < s.config.size then s else Evicted(s);
    if |s.entries| >= s.config.size {
      EvictedCoherent(s);
    }
    PushedCoherent(room, key, Entry(bytes, now, ttl, 0, now));
  }

  lemma PushedCoherent(room: State, key: CacheKey, entry: Entry)
    requires Coherent(room) && |room.entries| < room.config.size
    ensures Coherent(Pushed(room, key, entry))
  {
    MinusDistinct(room.order, {key});
    MinusMembers(room.order, {key});
    assert room.entries[key := entry].Keys == room.entries.Keys + {key};
  }

  lemma ReapedCoherent(s: State, now: nat)
    requires Coherent(s)
    ensures Coherent(Reaped(s, now))
  {
    var gone := Reapable(s, now);
    MinusDistinct(s.order, gone);
    MinusMembers(s.order, gone);
    assert (s.entries - gone).Keys <= s.entries.Keys;
    CardinalityMonotone((s.entries - gone).Keys, s.entries.Keys);
  }

  lemma {:induction false} CardinalityMonotone<T>(a: set<T>, b: set<T>)
    requires a <= b
    ensures |a| <= |b|
  {
    assert b == a + (b - a);
  }

  lemma ApplyCoherent(s: State, op: Op, now: nat)
    requires Coherent(s) && s.config.size >= 1
    ensures Coherent(Apply(s, op, now))
  {
    var t := Apply(s, op, now);
    assert Coherent(t) by {
      match op
      case Insert(key, bytes, ttl) => InsertedCoherent(s, key, bytes, ttl, now);
      case Lookup(key) => LookedUpCoherent(s, key, now);
      case LookupWithMetrics(key) => MeteredCoherent(s, key, now);
      case Reap => ReapedCoherent(s, now);
      case RecordMiss => assert t == s.(misses := s.misses + 1);
      case Clear => ClearedCoherent(s);
    }
  }

  lemma ClearedCoherent(s: State)
    ensures Coherent(Cleared(s))
  {
  }

  lemma MeteredCoherent(s: State, key: CacheKey, now: nat)
    requires Coherent(s)
    ensures Coherent(LookedUpMetered(s, key, now))
  {
  }

  lemma LookedUpCoherent(s: State, key: CacheKey, now: nat)
    requires Coherent(s)
    ensures Coherent(LookedUp(s, key, now))
  {
  }

  // ----- Chronological order -----

  lemma OldestFirstCons(k: CacheKey, order: seq<CacheKey>, entries: map<CacheKey, Entry>)
    requires OldestFirst(order, entries) && k in entries
    requires forall x :: x in order ==> entries[k].insertedAt <= entries[x].insertedAt
    ensures OldestFirst([k] + order, entries)
  {
  }

  lemma OldestFirstTail(order: seq<CacheKey>, entries: map<CacheKey, Entry>)
    requires OldestFirst(order, entries) && order != []
    ensures OldestFirst(order[1..], entries)
    ensures forall x :: x in order[1..] ==> entries[order[0]].insertedAt <= entries[x].insertedAt
  {
  }

  lemma {:induction false} MinusOldestFirst(order: seq<CacheKey>, entries: map<CacheKey, Entry>, out: set<CacheKey>)
    requires OldestFirst(order, entries)
    ensures OldestFirst(Minus(order, out), entries)
  {
    if order != [] {
      OldestFirstTail(order, entries);
      MinusOldestFirst(order[1..], entries, out);
      MinusMembers(order[1..], out);
      if order[0] !in out {
        OldestFirstCons(order[0], Minus(order[1..], out), entries);
      }
    }
  }

  lemma OldestFirstFrame(order: seq<CacheKey>, a: map<CacheKey, Entry>, b: map<CacheKey, Entry>)
    requires OldestFirst(order, a)
    requires forall k :: k in order ==> k in b && b[k].insertedAt == a[k].insertedAt
    ensures OldestFirst(order, b)
  {
  }

  lemma OldestFirstSnoc(order: seq<CacheKey>, entries: map<CacheKey, Entry>, k: CacheKey)
    requires OldestFirst(order, entries) && k in entries
    requires forall x :: x in order ==> entries[x].insertedAt <= entries[k].insertedAt
    ensures OldestFirst(order + [k], entries)
  {
  }

  lemma EvictedChronological(s: State, clock: nat)
    requires Coherent(s) && s.order != [] && Chronological(s, clock)
    ensures Chronological(Evicted(s), clock)
  {
  }

  lemma PushedChronological(room: State, key: CacheKey, entry: Entry, clock: nat)
    requires Chronological(room, clock) && clock <= entry.insertedAt
    ensures Chronological(Pushed(room, key, entry), entry.insertedAt)
  {
    var kept := Minus(room.order, {key});
    var after := room.entries[key := entry];
    MinusOldestFirst(room.order, room.entries, {key});
    MinusMembers(room.order, {key});
    OldestFirstFrame(kept, room.entries, after);
    OldestFirstSnoc(kept, after, key);
  }

  lemma InsertedChronological(s: State, key: CacheKey, bytes: seq<Byte>, ttl: nat, now: nat, clock: nat)
    requires Coherent(s) && s.config.size >= 1 && Chronological(s, clock) && clock <= now
    ensures Chronological(Inserted(s, key, bytes, ttl, now), now)
  {
    SizesAgree(s);
    if |s.entries| >= s.config.size {
      EvictedChronological(s, clock);
    }
    var room := if |s.entries| < s.config.size then s else Evicted(s);
    PushedChronological(room, key, Entry(bytes, now, ttl, 0, now), clock);
  }

  lemma ReapedChronological(s: State, now: nat, clock: nat)
    requires Coherent(s) && Chronological(s, clock) && clock <= now
    ensures Chronological(Reaped(s, now), now)
  {
    var kept := Minus(s.order, Reapable(s, now));
    MinusOldestFirst(s.order, s.entries, Reapable(s, now));
    MinusMembers(s.order, Reapable(s, now));
    OldestFirstFrame(kept, s.entries, Reaped(s, now).entries);
  }

  lemma LookedUpChronological(s: State, key: CacheKey, now: nat, clock: nat)
    requires Coherent(s) && Chronological(s, clock) && clock <= now
    ensures Chronological(LookedUp(s, key, now), now)
  {
  }

  lemma ApplyChronological(s: State, op: Op, now: nat, clock: nat)
    requires Coherent(s) && s.config.size >= 1 && Chronological(s, clock) && clock <= now
    ensures Chronological(Apply(s, op, now), now)
  {
    match op
    case Insert(key, bytes, ttl) => InsertedChronological(s, key, bytes, ttl, now, clock);
    case Reap => ReapedChronological(s, now, clock);
    case Lookup(key) => LookedUpChronological(s, key, now, clock);
    case LookupWithMetrics(key) => LookedUpChronological(s, key, now, clock);
    case RecordMiss =>
    case Clear =>
  }

  // ----- Hit accounting -----

  lemma {:induction false} HitSumFrame(order: seq<CacheKey>, a: map<CacheKey, Entry>, b: map<CacheKey, Entry>)
    requires forall k :: k in order ==> (k in a <==> k in b)
    requires forall k :: k in order && k in a ==> a[k].hitCount == b[k].hitCount
    ensures HitSum(order, a) == HitSum(order, b)
  {
    if order != [] {
      HitSumFrame(order[1..], a, b);
    }
  }

  lemma {:induction false} HitSumMinus(order: seq<CacheKey>, entries: map<CacheKey, Entry>, out: set<CacheKey>)
    ensures HitSum(Minus(order, out), entries) <= HitSum(order, entries)
  {
    if order != [] {
      HitSumMinus(order[1..], entries, out);
      if order[0] !in out {
        assert Minus(order, out)[1..] == Minus(order[1..], out);
      }
    }
  }

  lemma {:induction false} HitSumSnoc(order: seq<CacheKey>, entries: map<CacheKey, Entry>, k: CacheKey)
    ensures HitSum(order + [k], entries) == HitSum(order, entries) + (if k in entries then entries[k].hitCount else 0)
  {
    if order == [] {
      assert [k][1..] == [];
    } else {
      HitSumSnoc(order[1..], entries, k);
      assert (order + [k])[1..] == order[1..] + [k];
    }
  }

  lemma {:induction false} HitSumBump(order: seq<CacheKey>, entries: map<CacheKey, Entry>, k: CacheKey, e: Entry)
    requires Distinct(order) && k in order && k in entries && e.hitCount == entries[k].hitCount + 1
    ensures HitSum(order, entries[k := e]) == HitSum(order, entries) + 1
  {
    if order[0] == k {
      assert k !in order[1..];
      HitSumFrame(order[1..], entries, entries[k := e]);
    } else {
      HitSumBump(order[1..], entries, k, e);
    }
  }

  lemma InsertedHits(s: State, key: CacheKey, bytes: seq<Byte>, ttl: nat, now: nat)
    requires Coherent(s) && s.config.size >= 1 && HitsCovered(s)
    ensures HitsCovered(Inserted(s, key, bytes, ttl, now))
  {
    SizesAgree(s);
    var room := if |s.entries| < s.config.size then s else Evicted(s);
    if |s.entries| >= s.config.size {
      assert s.order[0] !in s.order[1..];
      HitSumFrame(s.order[1..], s.entries, room.entries);
    }
    assert HitSum(room.order, room.entries) <= s.hits;
    var kept := Minus(room.order, {key});
    HitSumMinus(room.order, room.entries, {key});
    MinusMembers(room.order, {key});
    var t := Inserted(s, key, bytes, ttl, now);
    HitSumFrame(kept, room.entries, t.entries);
    HitSumSnoc(kept, t.entries, key);
  }

  lemma LookedUpHits(s: State, key: CacheKey, now: nat)
    requires Coherent(s) && HitsCovered(s)
    ensures HitsCovered(LookedUp(s, key, now))
  {
    if key in s.entries {
      HitSumBump(s.order, s.entries, key, LookedUp(s, key, now).entries[key]);
    }
  }

  lemma ReapedHits(s: State, now: nat)
    requires Coherent(s) && HitsCovered(s)
    ensures HitsCovered(Reaped(s, now))
  {
    var gone := Reapable(s, now);
    HitSumMinus(s.order, s.entries, gone);
    MinusMembers(s.order, gone);
    HitSumFrame(Minus(s.order, gone), s.entries, s.entries - gone);
  }

  lemma ApplyHits(s: State, op: Op, now: nat)
    requires Coherent(s) && s.config.size >= 1 && HitsCovered(s)
    ensures HitsCovered(Apply(s, op, now))
  {
    match op
    case Insert(key, bytes, ttl) => InsertedHits(s, key, bytes, ttl, now);
    case Lookup(key) => LookedUpHits(s, key, now);
    case LookupWithMetrics(key) => LookedUpHits(s, key, now);
    case Reap => ReapedHits(s, now);
    case RecordMiss =>
    case Clear =>
  }

  // ----- Main results over every run -----

  /**
   * Every state reached from `new` with `size >= 1`, by any run of operations under a clock
   * that does not go back: the order list has no duplicates, lists exactly the keys of the map,
   * is sorted by insertion time, the entry count is at most `size`, and the hit counts of the live
   * entries add up to no more than the cache's own hit counter.
   */
  lemma {:induction false} ReachableInvariant(config: Config, trace: seq<Timed>)
    requires config.size >= 1 && ClockMonotone(trace)
    ensures var s := Run(config, trace);
      s.config == config && Coherent(s) && Chronological(s, Clock(trace)) && HitsCovered(s)
  {
    if trace != [] {
      var n := |trace| - 1;
      var before := Run(config, trace[..n]);
      ReachableInvariant(config, trace[..n]);
      ApplyCoherent(before, trace[n].op, trace[n].at);
      ApplyChronological(before, trace[n].op, trace[n].at, Clock(trace[..n]));
      ApplyHits(before, trace[n].op, trace[n].at);
    }
  }

  function MeteredLookups(trace: seq<Timed>): nat {
    if trace == [] then 0
    else MeteredLookups(trace[..|trace| - 1]) + (if trace[|trace| - 1].op.LookupWithMetrics? then 1 else 0)
  }

  /**
   * Each metered lookup raises exactly one of the two counters by one, and nothing else on the resolver's
   * path raises either.
   */
  lemma {:induction false} MeteredLookupsCounted(config: Config, trace: seq<Timed>)
    requires forall i :: 0 <= i < |trace| ==> trace[i].op.Insert? || trace[i].op.LookupWithMetrics? || trace[i].op.Reap?
    ensures Run(config, trace).hits + Run(config, trace).misses == MeteredLookups(trace)
  {
    if trace != [] {
      var n := |trace| - 1;
      MeteredLookupsCounted(config, trace[..n]);
      var before := Run(config, trace[..n]);
      assert trace[n].op.Insert? || trace[n].op.LookupWithMetrics? || trace[n].op.Reap?;
      assert Run(config, trace) == Apply(before, trace[n].op, trace[n].at);
    }
  }

  /** An insertion drops the entry at the head of the order exactly when the cache is full, and touches no other. */
  lemma InsertedExactly(s: State, key: CacheKey, bytes: seq<Byte>, ttl: nat, now: nat)
    requires Coherent(s) && s.config.size >= 1
    ensures var t := Inserted(s, key, bytes, ttl, now);
      && t.config == s.config && t.hits == s.hits && t.misses == s.misses
      && key in t.entries && t.entries[key] == Entry(bytes, now, ttl, 0, now)
      && (forall k :: k != key ==>
            (k in t.entries <==> k in s.entries && !(|s.entries| == s.config.size && k == s.order[0])))
      && (forall k :: k != key && k in t.entries ==> t.entries[k] == s.entries[k])
  {
    SizesAgree(s);
  }

  /** Expiry in clock terms. */
  lemma ExpiredExactly(e: Entry, now: nat)
    requires e.insertedAt <= now
    ensures e.IsExpired(now) <==> e.insertedAt + e.originalTtl <= now
  {
  }

  /**
   * The stale flag is a window, not a gate: `lookup` answers from any present entry, and marks the answer
   * exactly from expiry to the end of the serve-stale window, so that one expired still longer comes
   * back unmarked.
   */
  lemma StaleFlagExact(s: State, key: CacheKey, now: nat)
    ensures LookupAnswer(s, key, now).Some? <==> key in s.entries
    ensures key in s.entries ==>
      var e, hit := s.entries[key], LookupAnswer(s, key, now).value;
      && hit.bytes == e.bytes && hit.hitCount == e.hitCount + 1
      && (e.insertedAt <= now ==>
            (hit.stale <==> e.originalTtl <= now - e.insertedAt <= e.originalTtl + s.config.serveStale))
  {
  }

  /** A lookup moves nothing in the eviction order and touches no other entry. */
  lemma LookedUpExactly(s: State, key: CacheKey, now: nat)
    ensures var t := LookedUp(s, key, now);
      && t.config == s.config && t.order == s.order && t.misses == s.misses && t.entries.Keys == s.entries.Keys
      && (forall k :: k in s.entries && k != key ==> t.entries[k] == s.entries[k])
      && t.hits == s.hits + (if key in s.entries then 1 else 0)
      && (key in s.entries ==>
            var d, e := s.entries[key], t.entries[key];
            && e.bytes == d.bytes && e.insertedAt == d.insertedAt && e.originalTtl == d.originalTtl
            && e.hitCount == d.hitCount + 1 && e.lastAccess == now)
  {
  }

  /** Reaping takes out exactly the entries whose TTL and serve-stale window are both over, and changes no other. */
  lemma ReapedExactly(s: State, now: nat, k: CacheKey)
    requires forall j :: j in s.entries ==> s.entries[j].insertedAt <= now
    ensures k in Reaped(s, now).entries <==>
      k in s.entries && now - s.entries[k].insertedAt <= s.entries[k].originalTtl + s.config.serveStale
    ensures k in Reaped(s, now).entries ==> Reaped(s, now).entries[k] == s.entries[k]
  {
  }

  /** A refresh is due exactly when the entry has been hit and expires within `prefetch` seconds for each hit. */
  lemma PrefetchExactly(s: State, key: CacheKey, now: nat)
    requires key in s.entries ==> s.entries[key].insertedAt <= now
    ensures ShouldPrefetch(s, key, now) <==>
      && s.config.prefetch != 0 && key in s.entries && s.entries[key].hitCount > 0
      && var e := s.entries[key];
      e.insertedAt + e.originalTtl < now + s.config.prefetch * e.hitCount * 1_000_000_000
  {
    if s.config.prefetch != 0 && key in s.entries {
      PositiveProduct(s.config.prefetch, s.entries[key].hitCount);
    }
  }

  lemma PositiveProduct(a: nat, b: nat)
    requires a != 0
    ensures a * b > 0 <==> b > 0
  {
  }

  /**
   * With prefetch on, serving an expired entry always asks for a refresh, and goes on asking until the entry
   * is replaced.
   */
  lemma ExpiredHitWantsPrefetch(s: State, key: CacheKey, now: nat, later: nat)
    requires key in s.entries && s.entries[key].IsExpired(now) && now <= later && s.config.prefetch != 0
    ensures ShouldPrefetch(LookedUp(s, key, now), key, later)
  {
  }

  // ----- The cache object -----

  class Cache {
    const config: Config
    var entries: map<CacheKey, Entry>
    var accessOrder: seq<CacheKey>
    var hits: nat
    var misses: nat

    ghost function View(): State
      reads this
    {
      State(config, entries, accessOrder, hits, misses)
    }

    constructor (config: Config)
      ensures this.config == config && View() == Fresh(config)
    {
      this.config := config;
      entries, accessOrder, hits, misses := map[], [], 0, 0;
    }

    method LookUp(key: CacheKey, now: nat) returns (answer: Option<Hit>)
      modifies this
      ensures answer == LookupAnswer(old(View()), key, now)
      ensures View() == LookedUp(old(View()), key, now)
      ensures answer.Some? <==> key in old(entries)
      ensures key in old(entries) && old(entries)[key].insertedAt <= now ==>
        var e := old(entries)[key];
        && answer.value.bytes == e.bytes && answer.value.hitCount == e.hitCount + 1
        && (answer.value.stale <==> e.originalTtl <= now - e.insertedAt <= e.originalTtl + config.serveStale)
    {
      StaleFlagExact(View(), key, now);
      if key !in entries {
        return None;
      }
      var stale := entries[key].IsStale(config.serveStale, now);
      hits := hits + 1;
      var entry := entries[key];
      entry := entry.(hitCount := entry.hitCount + 1);
      entry := entry.(lastAccess := now);
      entries := entries[key := entry];
      return Some(Hit(entry.bytes, stale, entry.hitCount));
    }

    /** Also bumps the process-wide counter of the same name. */
    method LookUpWithMetrics(key: CacheKey, now: nat, metrics: Metrics) returns (answer: Option<Hit>)
      modifies this, metrics`cacheHitsTotal, metrics`cacheMissesTotal
      ensures answer == LookupAnswer(old(View()), key, now)
      ensures View() == LookedUpMetered(old(View()), key, now)
      ensures hits == old(hits) + (if key in old(entries) then 1 else 0)
      ensures misses == old(misses) + (if key in old(entries) then 0 else 1)
      ensures metrics.cacheHitsTotal - old(metrics.cacheHitsTotal) == hits - old(hits)
      ensures metrics.cacheMissesTotal - old(metrics.cacheMissesTotal) == misses - old(misses)
    {
      answer := LookUp(key, now);
      if answer.Some? {
        metrics.cacheHitsTotal := metrics.cacheHitsTotal + 1;
      } else {
        RecordMissed(metrics);
      }
    }

    method EvictLru()
      modifies this
      ensures View() == Evicted(old(View()))
    {
      if accessOrder != [] {
        entries := entries - {accessOrder[0]};
        accessOrder := accessOrder[1..];
      }
    }

    /** `size >= 1` is enforced when the configuration is read; with 0 the loop would not end. */
    method Insert(key: CacheKey, bytes: seq<Byte>, originalTtl: nat, now: nat)
      requires config.size >= 1 && Coherent(View())
      modifies this
      ensures View() == Inserted(old(View()), key, bytes, originalTtl, now)
      ensures Coherent(View())
    {
      ghost var before := View();
      SizesAgree(before);
      while |entries| >= config.size
        invariant Coherent(View())
        invariant |entries| >= before.config.size ==> View() == before
        invariant |entries| < before.config.size ==>
            View() == if |before.entries| < before.config.size then before else Evicted(before)
        decreases |entries|
      {
        SizesAgree(View());
        EvictedCoherent(View());
        EvictLru();
      }
      ghost var room := View();
      if key in entries {
        accessOrder := Minus(accessOrder, {key});
      } else {
        MinusAbsent(accessOrder, {key});
      }
      entries := entries[key := Entry(bytes, now, originalTtl, 0, now)];
      accessOrder := accessOrder + [key];
      InsertedCoherent(before, key, bytes, originalTtl, now);
    }

    /** The removal loop of `reap_expired`, over the keys in whatever order the map yields them. */
    method RemoveAll(keys: set<CacheKey>)
      modifies this`entries, this`accessOrder
      ensures entries == old(entries) - keys
      ensures accessOrder == Minus(old(accessOrder), keys)
    {
      var pending := keys;
      ghost var done: set<CacheKey> := {};
      MinusAbsent(accessOrder, {});
      while pending != {}
        invariant done + pending == keys
        invariant entries == old(entries) - done
        invariant accessOrder == Minus(old(accessOrder), done)
      {
        var key :| key in pending;
        MinusTwice(old(accessOrder), done, {key});
        entries := entries - {key};
        accessOrder := Minus(accessOrder, {key});
        pending, done := pending - {key}, done + {key};
      }
    }

    method ReapExpired(now: nat)
      requires Coherent(View())
      modifies this
      ensures View() == Reaped(old(View()), now)
      ensures Coherent(View())
      ensures (forall k :: k in old(entries) ==> old(entries)[k].insertedAt <= now) ==>
        forall k :: k in entries <==>
          k in old(entries) && now - old(entries)[k].insertedAt <= old(entries)[k].originalTtl + config.serveStale
    {
      ReapedCoherent(View(), now);
      var expired := set k | k in entries && entries[k].IsExpired(now) && !entries[k].IsStale(config.serveStale, now);
      assert expired == Reapable(View(), now);
      RemoveAll(expired);
    }

    method RecordMissed(metrics: Metrics)
      modifies this`misses, metrics`cacheMissesTotal
      ensures View() == Apply(old(View()), RecordMiss, 0) && misses == old(misses) + 1
      ensures metrics.cacheMissesTotal == old(metrics.cacheMissesTotal) + 1
    {
      misses := misses + 1;
      metrics.cacheMissesTotal := metrics.cacheMissesTotal + 1;
    }

    method ClearAll()
      modifies this
      ensures View() == Cleared(old(View()))
      ensures entries == map[] && accessOrder == [] && hits == misses == 0
    {
      entries, accessOrder, hits, misses := map[], [], 0, 0;
    }
  }
}
