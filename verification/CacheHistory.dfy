/**
 * What the cache holds, told from the insert history alone.  Eviction removes the key whose
 * last insertion is oldest (lookups do not refresh a key), and re-inserting a present key into
 * a full cache costs one slot.
 */
module CacheHistory {
  import opened Prelude
  import opened ResponseCache

  /** Position of the last occurrence of `k` in `h`, or -1. */
  function LastIndex(h: seq<CacheKey>, k: CacheKey): (i: int)
    ensures -1 <= i < |h|
    ensures 0 <= i ==> h[i] == k
  {
    if h == [] then -1
    else if h[|h| - 1] == k then |h| - 1
    else LastIndex(h[..|h| - 1], k)
  }

  lemma {:induction false} LastIndexIsLast(h: seq<CacheKey>, k: CacheKey, j: nat)
    requires j < |h| && h[j] == k
    ensures j <= LastIndex(h, k)
  {
    var n := |h| - 1;
    if h[n] != k {
      LastIndexIsLast(h[..n], k, j);
    }
  }

  /** The distinct keys of `h`, least recently inserted first. */
  function ByLastInsertion(h: seq<CacheKey>): seq<CacheKey> {
    if h == [] then []
    else Minus(ByLastInsertion(h[..|h| - 1]), {h[|h| - 1]}) + [h[|h| - 1]]
  }

  ghost predicate SortedByLastIndex(s: seq<CacheKey>, h: seq<CacheKey>) {
    forall i, j :: 0 <= i < j < |s| ==> LastIndex(h, s[i]) < LastIndex(h, s[j])
  }

  lemma {:induction false} MinusSorted(s: seq<CacheKey>, h: seq<CacheKey>, out: set<CacheKey>)
    requires SortedByLastIndex(s, h)
    ensures SortedByLastIndex(Minus(s, out), h)
  {
    if s != [] {
      MinusSorted(s[1..], h, out);
      MinusMembers(s[1..], out);
      var r := Minus(s, out);
      if s[0] !in out {
        forall j | 1 <= j < |r| ensures LastIndex(h, r[0]) < LastIndex(h, r[j]) {
          assert r[j] in Minus(s[1..], out);
        }
      }
    }
  }

  /** `ByLastInsertion` lists every key of the history once, in the order of last occurrences. */
  lemma {:induction false} ByLastInsertionMeaning(h: seq<CacheKey>)
    ensures Distinct(ByLastInsertion(h))
    ensures forall k :: k in ByLastInsertion(h) <==> k in h
    ensures SortedByLastIndex(ByLastInsertion(h), h)
  {
    if h != [] {
      var n := |h| - 1;
      var prev := ByLastInsertion(h[..n]);
      ByLastInsertionMeaning(h[..n]);
      MinusDistinct(prev, {h[n]});
      MinusSorted(prev, h[..n], {h[n]});
      MinusMembers(prev, {h[n]});
      assert h == h[..n] + [h[n]];
      var r := ByLastInsertion(h);
      forall i, j | 0 <= i < j < |r| ensures LastIndex(h, r[i]) < LastIndex(h, r[j]) {
        assert r[i] in Minus(prev, {h[n]});
        if j < |r| - 1 {
          assert r[j] in Minus(prev, {h[n]});
        }
      }
    }
  }

  function InsertedKeys(trace: seq<Timed>): seq<CacheKey> {
    if trace == [] then []
    else
      var n := |trace| - 1;
      InsertedKeys(trace[..n]) + InsertedBy(trace[n].op)
  }

  function InsertedBy(op: Op): seq<CacheKey> {
    if op.Insert? then [op.key] else []
  }

  predicate InsertsAndLookups(trace: seq<Timed>) {
    forall i :: 0 <= i < |trace| ==> !trace[i].op.Reap? && !trace[i].op.Clear?
  }

  /**
   * The history has cost the cache a slot: `size` keys were known before the last insertion, and
   * that insertion repeated one of the `size - 1` most recent of them.
   */
  predicate SlotLost(h: seq<CacheKey>, size: nat)
    requires size >= 1
  {
    && h != []
    && var known := ByLastInsertion(h[..|h| - 1]);
    |known| >= size && h[|h| - 1] in known[|known| - (size - 1)..]
  }

  lemma PushOnSuffix(room: seq<CacheKey>, known: seq<CacheKey>, key: CacheKey)
    requires Distinct(known) && IsSuffix(room, known)
    ensures IsSuffix(Minus(room, {key}) + [key], Minus(known, {key}) + [key])
    ensures |Minus(room, {key})| == |room| - (if key in room then 1 else 0)
    ensures |Minus(known, {key})| == |known| - (if key in known then 1 else 0)
    ensures key in room ==> key in known
  {
    var lost := known[..|known| - |room|];
    assert known == lost + room;
    MinusConcat(lost, room, {key});
    ConcatAssociative(Minus(lost, {key}), Minus(room, {key}), [key]);
    assert IsSuffix(Minus(room, {key}) + [key], Minus(known, {key}) + [key]);
    MinusLength(room, key);
    MinusLength(known, key);
  }

  lemma MinusLength(s: seq<CacheKey>, key: CacheKey)
    requires Distinct(s)
    ensures |Minus(s, {key})| == |s| - (if key in s then 1 else 0)
  {
  }

  function Touched(s: seq<CacheKey>, key: CacheKey): seq<CacheKey> {
    Minus(s, {key}) + [key]
  }

  /** One insertion on the list and on the order of the history; `lost` says whether a slot was lost before. */
  lemma TouchOnHistory(order: seq<CacheKey>, known: seq<CacheKey>, size: nat, lost: bool, key: CacheKey)
    requires size >= 1 && Distinct(known) && IsSuffix(order, known)
    requires |order| == Min(size, |known|) - (if lost then 1 else 0) && (lost ==> |known| >= size)
    ensures var order' := Touched(if |order| < size then order else order[1..], key);
      var lost' := |known| >= size && key in known[|known| - (size - 1)..];
      && IsSuffix(order', Touched(known, key))
      && |order'| == Min(size, |Touched(known, key)|) - (if lost' then 1 else 0)
  {
    var room := if |order| < size then order else order[1..];
    if |order| == size {
      SuffixTail(order, known);
    }
    assert room == if |known| >= size then known[|known| - (size - 1)..] else known;
    PushOnSuffix(room, known, key);
  }

  lemma SuffixTail(a: seq<CacheKey>, b: seq<CacheKey>)
    requires IsSuffix(a, b) && a != []
    ensures a[1..] == b[|b| - (|a| - 1)..]
  {
  }

  /** The order list is what the history says: the most recent keys, `size` of them or one less. */
  ghost predicate Tracks(order: seq<CacheKey>, h: seq<CacheKey>, size: nat)
    requires size >= 1
  {
    var known := ByLastInsertion(h);
    && IsSuffix(order, known)
    && |order| == Min(size, |known|) - (if SlotLost(h, size) then 1 else 0)
  }

  lemma SlotLostIsFull(h: seq<CacheKey>, size: nat)
    requires size >= 1 && SlotLost(h, size)
    ensures |ByLastInsertion(h)| >= size
  {
    var known, key := ByLastInsertion(h[..|h| - 1]), h[|h| - 1];
    TakeSnoc(h);
    ByLastInsertionMeaning(h[..|h| - 1]);
    assert key in known;
    MinusLength(known, key);
  }

  lemma SlotLostSnoc(h: seq<CacheKey>, key: CacheKey, size: nat)
    requires size >= 1
    ensures var known := ByLastInsertion(h);
      SlotLost(h + [key], size) <==> |known| >= size && key in known[|known| - (size - 1)..]
  {
    assert (h + [key])[..|h|] == h;
  }

  lemma TouchTracks(order: seq<CacheKey>, h: seq<CacheKey>, key: CacheKey, size: nat)
    requires size >= 1 && Tracks(order, h, size)
    ensures Tracks(Touched(if |order| < size then order else order[1..], key), h + [key], size)
  {
    assert Distinct(ByLastInsertion(h)) by { ByLastInsertionMeaning(h); }
    if SlotLost(h, size) {
      SlotLostIsFull(h, size);
    }
    TouchOnHistory(order, ByLastInsertion(h), size, SlotLost(h, size), key);
    ByLastInsertionSnoc(h, key);
    SlotLostSnoc(h, key, size);
  }

  lemma InsertTracks(s: State, h: seq<CacheKey>, key: CacheKey, bytes: seq<Byte>, ttl: nat, now: nat)
    requires Coherent(s) && s.config.size >= 1 && Tracks(s.order, h, s.config.size)
    ensures Tracks(Inserted(s, key, bytes, ttl, now).order, h + [key], s.config.size)
  {
    SizesAgree(s);
    assert Inserted(s, key, bytes, ttl, now).order
        == Touched(if |s.order| < s.config.size then s.order else s.order[1..], key);
    TouchTracks(s.order, h, key, s.config.size);
  }

  lemma ByLastInsertionSnoc(h: seq<CacheKey>, key: CacheKey)
    ensures ByLastInsertion(h + [key]) == Touched(ByLastInsertion(h), key)
  {
  }

  lemma StepTracks(s: State, h: seq<CacheKey>, op: Op, now: nat)
    requires Coherent(s) && s.config.size >= 1 && !op.Reap? && !op.Clear?
    requires Tracks(s.order, h, s.config.size)
    ensures Tracks(Apply(s, op, now).order, h + InsertedBy(op), s.config.size)
  {
    if op.Insert? {
      InsertTracks(s, h, op.key, op.bytes, op.ttl, now);
    } else {
      assert h + InsertedBy(op) == h;
      assert Apply(s, op, now).order == s.order;
    }
  }

  /**
   * After any run of inserts and lookups the order list is determined by the insert history alone: it
   * is the last `min(size, known)` keys by last insertion, or one less exactly when the history
   * has lost a slot.
   */
  lemma {:induction false} EvictionFollowsHistory(config: Config, trace: seq<Timed>)
    requires config.size >= 1 && ClockMonotone(trace) && InsertsAndLookups(trace)
    ensures Tracks(Run(config, trace).order, InsertedKeys(trace), config.size)
  {
    if trace != [] {
      var n := |trace| - 1;
      EvictionFollowsHistory(config, trace[..n]);
      ReachableInvariant(config, trace[..n]);
      StepTracks(Run(config, trace[..n]), InsertedKeys(trace[..n]), trace[n].op, trace[n].at);
    }
  }

  /**
   * The full-capacity reading of the cache, "it holds the `size` most recently inserted keys", fails
   * exactly when the last insertion repeated one of the `size - 1` most recent keys while at
   * least `size` were known.
   */
  lemma SlotLostExactly(config: Config, trace: seq<Timed>)
    requires config.size >= 1 && ClockMonotone(trace) && InsertsAndLookups(trace)
    ensures |Run(config, trace).entries| < Min(config.size, |Elements(InsertedKeys(trace))|)
      <==> SlotLost(InsertedKeys(trace), config.size)
  {
    var h := InsertedKeys(trace);
    EvictionFollowsHistory(config, trace);
    assert |Run(config, trace).entries| == |Run(config, trace).order| by {
      ReachableInvariant(config, trace);
      SizesAgree(Run(config, trace));
    }
    assert |ByLastInsertion(h)| == |Elements(h)| by {
      ByLastInsertionMeaning(h);
      CountDistinct(ByLastInsertion(h), Elements(h));
    }
  }

  /** Two slots, inserts of `a`, `b` and again `b`: only `b` is left, though `a` is one of the last two keys. */
  lemma SlotLostWitness(a: CacheKey, b: CacheKey)
    requires a != b
    ensures var ops := [Timed(Insert(a, [], 1), 0), Timed(Insert(b, [], 1), 1)] + [Timed(Insert(b, [], 1), 2)];
      Run(Config(2, 0, 0), ops).order == [b] && InsertedKeys(ops) == [a, b, b]
  {
    var config := Config(2, 0, 0);
    var two := [Timed(Insert(a, [], 1), 0), Timed(Insert(b, [], 1), 1)];
    TwoInserts(a, b);
    RunSnoc(config, two, Insert(b, [], 1), 2);
    assert Minus([b], {b}) == [] by { assert [b][1..] == []; }
    var ops := two + [Timed(Insert(b, [], 1), 2)];
    assert ops[..2] == two && ops[2].op == Insert(b, [], 1);
    assert InsertedKeys(ops) == [a, b] + [b];
  }

  lemma TwoInserts(a: CacheKey, b: CacheKey)
    requires a != b
    ensures var two := [Timed(Insert(a, [], 1), 0), Timed(Insert(b, [], 1), 1)]; var s := Run(Config(2, 0, 0), two);
      s.config == Config(2, 0, 0) && s.order == [a, b] && s.entries.Keys == {a, b} && InsertedKeys(two) == [a, b]
  {
    var config := Config(2, 0, 0);
    var i0, i1 := Timed(Insert(a, [], 1), 0), Timed(Insert(b, [], 1), 1);
    assert [] + [i0] == [i0] && [i0] + [i1] == [i0, i1];
    RunSnoc(config, [], i0.op, 0);
    RunSnoc(config, [i0], i1.op, 1);
    MinusAbsent([a], {b});
    assert Run(config, [i0]).order == [a];
    assert [i0, i1][..1] == [i0] && [i0][..0] == [];
    assert InsertedKeys([i0]) == [a];
  }

  /** The distinct keys inserted after the last insertion of `k`. */
  function InsertedSince(h: seq<CacheKey>, k: CacheKey): set<CacheKey> {
    Elements(h[LastIndex(h, k) + 1..])
  }

  lemma SinceByIndex(h: seq<CacheKey>, at: nat, x: CacheKey)
    requires at < |h|
    ensures x in h[at + 1..] <==> LastIndex(h, x) > at
  {
    if x in h[at + 1..] {
      var j :| at + 1 <= j < |h| && h[j] == x;
      LastIndexIsLast(h, x, j);
    }
    if LastIndex(h, x) > at {
      assert h[at + 1..][LastIndex(h, x) - at - 1] == x;
    }
  }

  lemma AfterByIndex(s: seq<CacheKey>, h: seq<CacheKey>, p: nat, x: CacheKey)
    requires SortedByLastIndex(s, h) && p < |s|
    ensures x in s[p + 1..] <==> x in s && LastIndex(h, x) > LastIndex(h, s[p])
  {
    if x in s {
      var i :| 0 <= i < |s| && s[i] == x;
      if i > p {
        assert s[p + 1..][i - p - 1] == x;
      }
    }
  }

  /** In the order of last insertions, the keys after `k` are those inserted since `k`. */
  lemma AfterIsSince(h: seq<CacheKey>, p: nat, x: CacheKey)
    requires p < |ByLastInsertion(h)|
    ensures x in ByLastInsertion(h)[p + 1..] <==> x in InsertedSince(h, ByLastInsertion(h)[p])
  {
    var known := ByLastInsertion(h);
    ByLastInsertionMeaning(h);
    assert known[p] in known;
    LastIndexPresent(h, known[p]);
    SinceByIndex(h, LastIndex(h, known[p]), x);
    AfterByIndex(known, h, p, x);
  }

  lemma LastIndexPresent(h: seq<CacheKey>, k: CacheKey)
    requires k in h
    ensures 0 <= LastIndex(h, k)
  {
    var j :| 0 <= j < |h| && h[j] == k;
    LastIndexIsLast(h, k, j);
  }

  lemma SinceIsTail(h: seq<CacheKey>, p: nat)
    requires p < |ByLastInsertion(h)|
    ensures |InsertedSince(h, ByLastInsertion(h)[p])| == |ByLastInsertion(h)| - 1 - p
  {
    var tail := ByLastInsertion(h)[p + 1..];
    var since := InsertedSince(h, ByLastInsertion(h)[p]);
    forall x ensures x in tail <==> x in since {
      AfterIsSince(h, p, x);
    }
    assert Distinct(tail) by { ByLastInsertionMeaning(h); }
    CountDistinct(tail, since);
  }

  lemma CountDistinct(s: seq<CacheKey>, keys: set<CacheKey>)
    requires Distinct(s) && forall x :: x in s <==> x in keys
    ensures |keys| == |s|
  {
    DistinctCardinality(s);
    assert keys == Elements(s);
  }

  lemma SuffixMember(order: seq<CacheKey>, known: seq<CacheKey>, p: nat)
    requires Distinct(known) && IsSuffix(order, known) && p < |known|
    ensures known[p] in order <==> |known| - |order| <= p
  {
  }

  /**
   * Retention in the terms of a client: a key is cached exactly when fewer than `size` distinct other keys
   * were inserted since its own last insertion, or fewer than `size - 1` if the history has lost a slot.
   */
  lemma RetentionExactly(config: Config, trace: seq<Timed>, k: CacheKey)
    requires config.size >= 1 && ClockMonotone(trace) && InsertsAndLookups(trace)
    requires k in InsertedKeys(trace)
    ensures k in Run(config, trace).entries <==>
      |InsertedSince(InsertedKeys(trace), k)| < config.size - (if SlotLost(InsertedKeys(trace), config.size) then 1 else 0)
  {
    var h := InsertedKeys(trace);
    var known := ByLastInsertion(h);
    var s := Run(config, trace);
    assert Tracks(s.order, h, config.size) by { EvictionFollowsHistory(config, trace); }
    assert k in s.entries <==> k in s.order by { ReachableInvariant(config, trace); }
    assert k in known && Distinct(known) by { ByLastInsertionMeaning(h); }
    var p :| 0 <= p < |known| && known[p] == k;
    SinceIsTail(h, p);
    SuffixMember(s.order, known, p);
    if SlotLost(h, config.size) {
      SlotLostIsFull(h, config.size);
    }
  }

  // ----- What an entry holds -----

  predicate LooksUp(op: Op, k: CacheKey) {
    (op.Lookup? || op.LookupWithMetrics?) && op.key == k
  }

  /** The last insertion of `k` is operation `i`. */
  ghost predicate LastInsertAt(trace: seq<Timed>, k: CacheKey, i: nat) {
    && i < |trace| && trace[i].op.Insert? && trace[i].op.key == k
    && forall j :: i < j < |trace| ==> !(trace[j].op.Insert? && trace[j].op.key == k)
  }

  function LookupsAfter(trace: seq<Timed>, k: CacheKey, i: nat): set<nat> {
    set j: nat | i < j < |trace| && LooksUp(trace[j].op, k)
  }

  /** The entry is what operation `i` inserted, then, hit once by every lookup of its key since. */
  ghost predicate InsertedAt(e: Entry, trace: seq<Timed>, k: CacheKey, i: nat) {
    && LastInsertAt(trace, k, i)
    && e.bytes == trace[i].op.bytes && e.originalTtl == trace[i].op.ttl && e.insertedAt == trace[i].at
    && e.hitCount == |LookupsAfter(trace, k, i)|
  }

  lemma LookupsAfterSnoc(trace: seq<Timed>, k: CacheKey, i: nat)
    requires i < |trace| - 1
    ensures var n := |trace| - 1;
      |LookupsAfter(trace, k, i)| == |LookupsAfter(trace[..n], k, i)| + (if LooksUp(trace[n].op, k) then 1 else 0)
  {
    var n := |trace| - 1;
    var before := LookupsAfter(trace[..n], k, i);
    assert LookupsAfter(trace, k, i) == if LooksUp(trace[n].op, k) then before + {n} else before;
  }

  lemma ApplyKeepsEntry(s: State, op: Op, now: nat, k: CacheKey)
    requires k in Apply(s, op, now).entries && !(op.Insert? && op.key == k)
    ensures k in s.entries
    ensures Apply(s, op, now).entries[k] == if LooksUp(op, k) then s.entries[k].(hitCount := s.entries[k].hitCount + 1, lastAccess := now)
                                            else s.entries[k]
  {
  }

  lemma ApplyInserts(s: State, op: Op, now: nat)
    requires op.Insert?
    ensures op.key in Apply(s, op, now).entries && Apply(s, op, now).entries[op.key] == Entry(op.bytes, now, op.ttl, 0, now)
  {
  }

  /**
   * After any run of all six operations, an entry is its key's last insertion: those bytes and that TTL, counted
   * from that moment, with as many hits as there were lookups of the key since.
   */
  lemma {:induction false} EntryIsLastInsert(config: Config, trace: seq<Timed>, k: CacheKey) returns (i: nat)
    requires k in Run(config, trace).entries
    ensures InsertedAt(Run(config, trace).entries[k], trace, k, i)
  {
    var n := |trace| - 1;
    var before := Run(config, trace[..n]);
    var op := trace[n].op;
    if op.Insert? && op.key == k {
      i := n;
      ApplyInserts(before, op, trace[n].at);
      assert LookupsAfter(trace, k, n) == {};
    } else {
      ApplyKeepsEntry(before, op, trace[n].at, k);
      i := EntryIsLastInsert(config, trace[..n], k);
      InsertedAtSnoc(before.entries[k], Run(config, trace).entries[k], trace, k, i);
    }
  }

  lemma InsertedAtSnoc(d: Entry, e: Entry, trace: seq<Timed>, k: CacheKey, i: nat)
    requires trace != [] && InsertedAt(d, trace[..|trace| - 1], k, i)
    requires var last := trace[|trace| - 1]; !(last.op.Insert? && last.op.key == k)
    requires e.bytes == d.bytes && e.originalTtl == d.originalTtl && e.insertedAt == d.insertedAt
    requires e.hitCount == d.hitCount + (if LooksUp(trace[|trace| - 1].op, k) then 1 else 0)
    ensures InsertedAt(e, trace, k, i)
  {
    LookupsAfterSnoc(trace, k, i);
  }
}
