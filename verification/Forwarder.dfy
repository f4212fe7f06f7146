/**
 * The cache-aware forwarder (src/core/resolver/forward.rs) as a state machine.  Each lookup, ANY
 * lookup and prefetch is a task that takes the cache lock for its probe and again for its store,
 * and waits for upstream in between; steps of different tasks interleave freely and upstream
 * may reply anything at any time.
 *
 * The message codec, the DNS64 address map and the clock are parameters.  Lookups with QNAME
 * minimization differ only in where the reply comes from.
 */
module Forwarder {
  import opened Prelude
  import opened MetricsRegistry
  import opened ResponseCache

  const TYPE_A: nat := 1
  const TYPE_AAAA: nat := 28
  const TYPE_ANY: nat := 255
  const DEFAULT_TTL: nat := 300

  datatype RData = A(v4: nat) | AAAA(v6: nat) | CNAME(target: string) | ANAME(target: string) | OtherData(rtype: nat, data: nat)

  datatype Record = Record(owner: string, ttl: nat, data: RData)

  datatype Env = Env(
    encode: seq<Record> -> Option<seq<Byte>>,
    decode: seq<Byte> -> Option<seq<Record>>,
    dns64: Option<nat -> Option<nat>>,
    alwaysSynthesize: bool,
    cnameCloaking: bool,
    cnameChainLimit: nat)

  /** Decoding undoes encoding. */
  ghost predicate RoundTrips(env: Env) {
    forall rs :: env.encode(rs).Some? ==> env.decode(env.encode(rs).value) == Some(rs)
  }

  // ----- Answers -----

  /** The shortest TTL in seconds, or the default for an empty answer. */
  function MinTtl(rs: seq<Record>): nat {
    if rs == [] then DEFAULT_TTL
    else if |rs| == 1 then rs[0].ttl
    else Min(rs[0].ttl, MinTtl(rs[1..]))
  }

  function AddressRecords(rs: seq<Record>): seq<Record> {
    if rs == [] then []
    else (if rs[0].data.A? then [rs[0]] else []) + AddressRecords(rs[1..])
  }

  /** AAAA records for the A records that the prefix can embed. */
  function Embedded(embed: nat -> Option<nat>, name: string, ttl: nat, addresses: seq<Record>): seq<Record> {
    if addresses == [] then []
    else
      (if addresses[0].data.A? && embed(addresses[0].data.v4).Some?
       then [Record(name, ttl, AAAA(embed(addresses[0].data.v4).value))] else [])
      + Embedded(embed, name, ttl, addresses[1..])
  }

  function Dns64Records(env: Env, name: string, aReply: Option<seq<Record>>): seq<Record> {
    if env.dns64.None? || aReply.None? then []
    else
      var addresses := AddressRecords(aReply.value);
      Embedded(env.dns64.value, name, MinTtl(addresses), addresses)
  }

  predicate WantsDns64(env: Env, rtype: nat, answers: seq<Record>) {
    && rtype == TYPE_AAAA
    && env.dns64.Some?
    && ((forall i :: 0 <= i < |answers| ==> !answers[i].data.AAAA?) || env.alwaysSynthesize)
  }

  /** One CNAME from the query name for each ANAME that points elsewhere. */
  function Redirects(rs: seq<Record>, name: string): seq<Record> {
    if rs == [] then []
    else
      var last := rs[|rs| - 1];
      Redirects(rs[..|rs| - 1], name) +
      (if last.data.ANAME? && last.data.target != name then [Record(name, last.ttl, CNAME(last.data.target))] else [])
  }

  method SynthesizeDnameCnames(records: seq<Record>, original: string) returns (synthesized: seq<Record>)
    ensures synthesized == Redirects(records, original)
  {
    synthesized := [];
    for i := 0 to |records|
      invariant synthesized == Redirects(records[..i], original)
    {
      assert records[..i + 1][..i] == records[..i];
      var r := records[i];
      if r.data.ANAME? {
        if r.data.target == original {
          continue;
        }
        synthesized := synthesized + [Record(original, r.ttl, CNAME(r.data.target))];
      }
    }
    assert records[..|records|] == records;
  }

  /** Every redirect is a CNAME from the query name to the target of one of the ANAME records, never to the name itself. */
  lemma {:induction false} RedirectsMeaning(rs: seq<Record>, name: string)
    ensures forall r :: r in Redirects(rs, name) ==>
      && r.owner == name && r.data.CNAME? && r.data.target != name
      && exists x :: x in rs && x.data == ANAME(r.data.target) && x.ttl == r.ttl
    ensures forall x :: x in rs && x.data.ANAME? && x.data.target != name ==>
      Record(name, x.ttl, CNAME(x.data.target)) in Redirects(rs, name)
  {
    if rs != [] {
      var n := |rs| - 1;
      RedirectsMeaning(rs[..n], name);
      assert rs[n] in rs && forall x :: x in rs <==> x in rs[..n] || x == rs[n];
    }
  }

  /**
   * Every DNS64 record embeds an A record of the reply and lives no longer than any of them, and every A
   * record that can be embedded is.
   */
  lemma Dns64Meaning(env: Env, name: string, reply: seq<Record>)
    ensures env.dns64.Some? ==> forall x :: x in reply && x.data.A? && env.dns64.value(x.data.v4).Some? ==>
      exists r :: r in Dns64Records(env, name, Some(reply)) && r.owner == name && r.data == AAAA(env.dns64.value(x.data.v4).value)
    ensures forall r :: r in Dns64Records(env, name, Some(reply)) ==>
      && r.owner == name && r.data.AAAA?
      && (forall x :: x in reply && x.data.A? ==> r.ttl <= x.ttl)
      && exists x :: x in reply && x.data.A? && env.dns64.Some? && env.dns64.value(x.data.v4) == Some(r.data.v6)
  {
    if env.dns64.Some? {
      var addresses := AddressRecords(reply);
      AddressRecordsMeaning(reply);
      if addresses != [] {
        MinTtlMeaning(addresses);
      }
      EmbeddedMeaning(env.dns64.value, name, MinTtl(addresses), addresses);
      forall x | x in reply && x.data.A? && env.dns64.value(x.data.v4).Some?
        ensures exists r :: r in Dns64Records(env, name, Some(reply)) && r.owner == name
                            && r.data == AAAA(env.dns64.value(x.data.v4).value)
      {
        assert Record(name, MinTtl(addresses), AAAA(env.dns64.value(x.data.v4).value)) in Dns64Records(env, name, Some(reply));
      }
    }
  }

  lemma {:induction false} AddressRecordsMeaning(rs: seq<Record>)
    ensures forall x :: x in AddressRecords(rs) <==> x in rs && x.data.A?
  {
    if rs != [] {
      AddressRecordsMeaning(rs[1..]);
      assert forall x :: x in rs <==> x == rs[0] || x in rs[1..];
    }
  }

  lemma {:induction false} EmbeddedMeaning(embed: nat -> Option<nat>, name: string, ttl: nat, addresses: seq<Record>)
    ensures forall r :: r in Embedded(embed, name, ttl, addresses) ==>
      && r.owner == name && r.ttl == ttl && r.data.AAAA?
      && exists x :: x in addresses && x.data.A? && embed(x.data.v4) == Some(r.data.v6)
    ensures forall x :: x in addresses && x.data.A? && embed(x.data.v4).Some? ==>
      Record(name, ttl, AAAA(embed(x.data.v4).value)) in Embedded(embed, name, ttl, addresses)
  {
    if addresses != [] {
      EmbeddedMeaning(embed, name, ttl, addresses[1..]);
      assert addresses[0] in addresses && forall x :: x in addresses[1..] ==> x in addresses;
    }
  }

  /** What a lookup stores: upstream's answers, the DNS64 records, and the redirects. */
  function Assembled(answers: seq<Record>, synthesized: seq<Record>, name: string): seq<Record> {
    var records := answers + synthesized;
    records + Redirects(records, name)
  }

  function CnameCount(rs: seq<Record>): nat {
    if rs == [] then 0 else (if rs[0].data.CNAME? then 1 else 0) + CnameCount(rs[1..])
  }

  /** The target of the first CNAME. */
  function FirstTarget(rs: seq<Record>): Option<string> {
    if rs == [] then None
    else if rs[0].data.CNAME? then Some(rs[0].data.target)
    else FirstTarget(rs[1..])
  }

  /** CNAMEs are counted one by one, and the first of them gives the target. */
  lemma {:induction false} CnamesExactly(a: seq<Record>, b: seq<Record>, r: Record)
    ensures CnameCount(a + b) == CnameCount(a) + CnameCount(b)
    ensures CnameCount([r]) == if r.data.CNAME? then 1 else 0
    ensures FirstTarget(a + b) == if FirstTarget(a).Some? then FirstTarget(a) else FirstTarget(b)
    ensures FirstTarget([r]) == if r.data.CNAME? then Some(r.data.target) else None
  {
    assert [r][1..] == [];
    if a == [] {
      assert a + b == b;
    } else {
      CnamesExactly(a[1..], b, r);
      assert (a + b)[0] == a[0] && (a + b)[1..] == a[1..] + b;
    }
  }

  lemma {:induction false} TargetIffCname(rs: seq<Record>)
    ensures FirstTarget(rs).Some? <==> CnameCount(rs) > 0
  {
    if rs != [] {
      TargetIffCname(rs[1..]);
    }
  }

  predicate Truncated(env: Env, rs: seq<Record>) {
    env.cnameCloaking && CnameCount(rs) > env.cnameChainLimit
  }

  /** What a lookup that missed returns, `chased` being upstream's records for the first CNAME's target. */
  function Returned(answers: seq<Record>, synthesized: seq<Record>, stored: seq<Record>, chased: seq<Record>): seq<Record> {
    if synthesized != [] then stored + chased else answers
  }

  function OrEmpty(reply: Option<seq<Record>>): seq<Record> {
    if reply.Some? then reply.value else []
  }

  // ----- Tasks and steps -----

  datatype Task =
    | Probing(name: string, rtype: nat)
    | Forwarding(name: string, rtype: nat)
    | AwaitingA(name: string, rtype: nat, answers: seq<Record>)
    | Storing(name: string, rtype: nat, answers: seq<Record>, synthesized: seq<Record>)
    | Chasing(name: string, rtype: nat, answers: seq<Record>, synthesized: seq<Record>)
    | ChasingAaaa(name: string, rtype: nat, answers: seq<Record>, synthesized: seq<Record>, chasedA: seq<Record>)
    | AnyProbing(name: string, rtype: nat)
    | AnyForwarding(name: string, rtype: nat)
    | AnyStoring(name: string, rtype: nat, records: seq<Record>)
    | PrefetchForwarding(name: string, rtype: nat)
    | PrefetchStoring(name: string, rtype: nat, records: seq<Record>)
    | Finished(name: string, rtype: nat, answer: Option<seq<Record>>)
  {
    /** A lookup with its answer in hand: about to store it, or done with that and chasing a CNAME. */
    predicate HasAnswer() {
      Storing? || Chasing? || ChasingAaaa?
    }

    /** What such a lookup stores. */
    function Stored(): seq<Record>
      requires HasAnswer()
    {
      Assembled(answers, synthesized, name)
    }

    /**
     * The query a task sends besides the one for its own name and type: the chained A query of DNS64, and the
     * two for a CNAME's target.
     */
    function SideQuery(): Option<(string, nat)> {
      if AwaitingA? then Some((name, TYPE_A))
      else if !HasAnswer() || Storing? then None
      else
        match FirstTarget(Stored())
        case None => None
        case Some(target) => Some((target, if Chasing? then TYPE_A else TYPE_AAAA))
    }
  }

  datatype Ask = Ask(task: nat, name: string, rtype: nat)

  datatype Store = Store(task: nat, name: string, rtype: nat, records: seq<Record>, bytes: seq<Byte>, at: nat, byLookup: bool)

  datatype Served = Served(task: nat, name: string, rtype: nat, records: seq<Record>, at: nat, expired: bool)

  /** The shared cache, the tasks, the clock, and the logs of upstream queries, stores and cache answers. */
  datatype Sys = Sys(cache: State, tasks: seq<Task>, now: nat, asked: seq<Ask>, stores: seq<Store>, served: seq<Served>)

  datatype Event =
    | Elapse(time: nat)
    | Call(name: string, rtype: nat)
    | Locked(task: nat)
    | Reply(task: nat, reply: Option<seq<Record>>)

  function Boot(config: Config): Sys {
    Sys(Fresh(config), [], 0, [], [], [])
  }

  function KeyOf(name: string, rtype: nat): CacheKey {
    CacheKey(name, rtype, None)
  }

  function Put(s: Sys, id: nat, task: Task): Sys
    requires id < |s.tasks|
  {
    s.(tasks := s.tasks[id := task])
  }

  function Asking(s: Sys, id: nat, name: string, rtype: nat): Sys {
    s.(asked := s.asked + [Ask(id, name, rtype)])
  }

  /** A task goes on, sending its side query if it has one. */
  function Move(s: Sys, id: nat, task: Task): Sys
    requires id < |s.tasks|
  {
    match task.SideQuery()
    case None => Put(s, id, task)
    case Some((name, rtype)) => Asking(Put(s, id, task), id, name, rtype)
  }

  /** The hit's records, if there is a hit and it decodes. */
  function CachedRecords(env: Env, s: Sys, key: CacheKey): Option<seq<Record>> {
    if key in s.cache.entries then env.decode(s.cache.entries[key].bytes) else None
  }

  function ProbedCache(s: Sys, key: CacheKey): Sys {
    s.(cache := LookedUpMetered(s.cache, key, s.now))
  }

  function Serving(s: Sys, id: nat, name: string, rtype: nat, records: seq<Record>): Sys
    requires id < |s.tasks|
  {
    var key := KeyOf(name, rtype);
    var expired := key in s.cache.entries && s.cache.entries[key].IsExpired(s.now);
    Put(s.(served := s.served + [Served(id, name, rtype, records, s.now, expired)]), id, Finished(name, rtype, Some(records)))
  }

  function Prefetching(s: Sys, name: string, rtype: nat): Sys {
    if ShouldPrefetch(s.cache, KeyOf(name, rtype), s.now)
    then Asking(s, |s.tasks|, name, rtype).(tasks := s.tasks + [PrefetchForwarding(name, rtype)])
    else s
  }

  function Probe(env: Env, s: Sys, id: nat, name: string, rtype: nat): Sys
    requires id < |s.tasks|
  {
    var t := Prefetching(ProbedCache(s, KeyOf(name, rtype)), name, rtype);
    match CachedRecords(env, s, KeyOf(name, rtype))
    case Some(records) => Serving(t, id, name, rtype, records)
    case None => Asking(Put(t, id, Forwarding(name, rtype)), id, name, rtype)
  }

  function AnyProbe(env: Env, s: Sys, id: nat, name: string, rtype: nat): Sys
    requires id < |s.tasks|
  {
    var t := ProbedCache(s, KeyOf(name, rtype));
    var cached := CachedRecords(env, s, KeyOf(name, rtype));
    if cached.Some? && cached.value != [] then Serving(t, id, name, rtype, cached.value)
    else Asking(Put(t, id, AnyForwarding(name, rtype)), id, name, rtype)
  }

  /** The store under the lock; records that do not encode are not stored. */
  function StoredIn(env: Env, s: Sys, id: nat, name: string, rtype: nat, records: seq<Record>, byLookup: bool): Sys {
    match env.encode(records)
    case None => s
    case Some(bytes) =>
      s.(cache := Inserted(s.cache, KeyOf(name, rtype), bytes, MinTtl(records) * SECOND, s.now),
         stores := s.stores + [Store(id, name, rtype, records, bytes, s.now, byLookup)])
  }

  function AfterStore(task: Task): Task
    requires task.Storing?
  {
    if FirstTarget(task.Stored()).Some? then Chasing(task.name, task.rtype, task.answers, task.synthesized)
    else Finished(task.name, task.rtype, Some(Returned(task.answers, task.synthesized, task.Stored(), [])))
  }

  function UnderLock(env: Env, s: Sys, id: nat): (t: Sys)
    requires id < |s.tasks|
    ensures |s.tasks| <= |t.tasks|
  {
    match s.tasks[id]
    case Probing(name, rtype) => Probe(env, s, id, name, rtype)
    case AnyProbing(name, rtype) => AnyProbe(env, s, id, name, rtype)
    case Storing(name, rtype, answers, synthesized) =>
      Move(StoredIn(env, s, id, name, rtype, Assembled(answers, synthesized, name), true), id, AfterStore(s.tasks[id]))
    case AnyStoring(name, rtype, records) =>
      Move(StoredIn(env, s, id, name, rtype, records, false), id, Finished(name, rtype, Some(records)))
    case PrefetchStoring(name, rtype, records) =>
      Move(StoredIn(env, s, id, name, rtype, records, false), id, Finished(name, rtype, None))
    case _ => s
  }

  /** The CNAME chain check comes before the store. */
  function Prepared(env: Env, name: string, rtype: nat, answers: seq<Record>, synthesized: seq<Record>): Task {
    if Truncated(env, Assembled(answers, synthesized, name)) then Finished(name, rtype, None)
    else Storing(name, rtype, answers, synthesized)
  }

  function AfterReply(env: Env, task: Task, reply: Option<seq<Record>>): Task {
    match task
    case Forwarding(name, rtype) =>
      if reply.None? then Finished(name, rtype, None)
      else if WantsDns64(env, rtype, reply.value) then AwaitingA(name, rtype, reply.value)
      else Prepared(env, name, rtype, reply.value, [])
    case AwaitingA(name, rtype, answers) => Prepared(env, name, rtype, answers, Dns64Records(env, name, reply))
    case Chasing(name, rtype, answers, synthesized) =>
      ChasingAaaa(name, rtype, answers, synthesized, OrEmpty(reply))
    case ChasingAaaa(name, rtype, answers, synthesized, chasedA) =>
      Finished(name, rtype, Some(Returned(answers, synthesized, task.Stored(), chasedA + OrEmpty(reply))))
    case AnyForwarding(name, rtype) =>
      if reply.Some? && reply.value != [] then AnyStoring(name, rtype, reply.value)
      else if rtype == TYPE_A then AnyProbing(name, TYPE_AAAA)
      else Finished(name, TYPE_ANY, None)
    case PrefetchForwarding(name, rtype) =>
      if reply.None? then Finished(name, rtype, None) else PrefetchStoring(name, rtype, reply.value)
    case _ => task
  }

  /** Tasks are never forgotten. */
  function Step(env: Env, s: Sys, e: Event): (t: Sys)
    ensures |s.tasks| <= |t.tasks|
  {
    match e
    case Elapse(time) => s.(now := s.now + time)
    case Call(name, rtype) =>
      s.(tasks := s.tasks + [if rtype == TYPE_ANY then AnyProbing(name, TYPE_A) else Probing(name, rtype)])
    case Locked(id) => if id < |s.tasks| then UnderLock(env, s, id) else s
    case Reply(id, reply) => if id < |s.tasks| then Move(s, id, AfterReply(env, s.tasks[id], reply)) else s
  }

  /** Any further steps from a state. */
  function Resume(env: Env, s: Sys, events: seq<Event>): (t: Sys)
    ensures |s.tasks| <= |t.tasks|
  {
    if events == [] then s
    else Step(env, Resume(env, s, events[..|events| - 1]), events[|events| - 1])
  }

  function Run(env: Env, config: Config, events: seq<Event>): Sys {
    Resume(env, Boot(config), events)
  }

  // ----- The critical sections, on the cache object -----

  /** The probe of `lookup`: the decoded hit, if any, and whether a refresh is due. */
  method ProbeUnderLock(env: Env, cache: Cache, name: string, rtype: nat, now: nat, metrics: Metrics)
    returns (records: Option<seq<Record>>, prefetch: bool)
    modifies cache, metrics`cacheHitsTotal, metrics`cacheMissesTotal
    ensures cache.View() == LookedUpMetered(old(cache.View()), KeyOf(name, rtype), now)
    ensures records == if KeyOf(name, rtype) in old(cache.entries) then env.decode(old(cache.entries)[KeyOf(name, rtype)].bytes) else None
    ensures prefetch <==> ShouldPrefetch(cache.View(), KeyOf(name, rtype), now)
  {
    var key := KeyOf(name, rtype);
    var hit := cache.LookUpWithMetrics(key, now, metrics);
    if hit.None? {
      return None, false;
    }
    var entry := cache.entries[key];
    prefetch := cache.config.prefetch != 0
      && entry.TtlRemaining(now) < cache.config.prefetch * entry.hitCount * SECOND;
    records := env.decode(hit.value.bytes);
  }

  /** The store of all three paths. */
  method StoreUnderLock(env: Env, cache: Cache, name: string, rtype: nat, records: seq<Record>, now: nat)
    requires cache.config.size >= 1 && Coherent(cache.View())
    modifies cache
    ensures Coherent(cache.View())
    ensures cache.View() == match env.encode(records)
      case None => old(cache.View())
      case Some(bytes) => Inserted(old(cache.View()), KeyOf(name, rtype), bytes, MinTtl(records) * SECOND, now)
  {
    var bytes := env.encode(records);
    if bytes.Some? {
      cache.Insert(KeyOf(name, rtype), bytes.value, MinTtl(records) * SECOND, now);
    }
  }

  // ----- What the logs say about the cache -----

  /** Index of the last store for `key`, or -1. */
  function LatestStore(stores: seq<Store>, key: CacheKey): (i: int)
    ensures -1 <= i < |stores|
    ensures 0 <= i ==> KeyOf(stores[i].name, stores[i].rtype) == key
  {
    if stores == [] then -1
    else
      var n := |stores| - 1;
      if KeyOf(stores[n].name, stores[n].rtype) == key then n else LatestStore(stores[..n], key)
  }

  lemma {:induction false} LatestStoreIsLatest(stores: seq<Store>, key: CacheKey)
    ensures forall j :: LatestStore(stores, key) < j < |stores| ==> KeyOf(stores[j].name, stores[j].rtype) != key
  {
    if stores != [] {
      LatestStoreIsLatest(stores[..|stores| - 1], key);
    }
  }

  ghost predicate Reflects(entry: Entry, store: Store) {
    && entry.bytes == store.bytes
    && entry.insertedAt == store.at
    && entry.originalTtl == MinTtl(store.records) * SECOND
  }

  /** Every entry is the latest store for its key. */
  ghost predicate EntriesTraced(s: Sys) {
    forall k :: k in s.cache.entries ==> EntryTraced(s.cache.entries[k], s.stores, k)
  }

  ghost predicate EntryTraced(entry: Entry, stores: seq<Store>, key: CacheKey) {
    0 <= LatestStore(stores, key) && Reflects(entry, stores[LatestStore(stores, key)])
  }

  /**
   * Every store holds what its bytes encode, was asked of upstream by the same task, and, if made by a plain
   * lookup, passed the chain check.
   */
  ghost predicate StoreOk(env: Env, s: Sys, store: Store) {
    && env.encode(store.records) == Some(store.bytes)
    && store.at <= s.now
    && Ask(store.task, store.name, store.rtype) in s.asked
    && (store.byLookup ==> !Truncated(env, store.records))
  }

  ghost predicate StoresOk(env: Env, s: Sys) {
    forall i :: 0 <= i < |s.stores| ==> StoreOk(env, s, s.stores[i])
  }

  /** The DNS64 prefix is set and some address fits it. */
  ghost predicate CanEmbed(env: Env) {
    env.dns64.Some? && exists v4 :: env.dns64.value(v4).Some?
  }

  /** A task past its probe has asked upstream for its own name and type, and an answer in hand passed the chain check. */
  ghost predicate TaskOk(env: Env, asked: seq<Ask>, id: nat, task: Task) {
    && (task.Probing? || task.AnyProbing? || task.Finished? || Ask(id, task.name, task.rtype) in asked)
    && (task.HasAnswer() ==> !Truncated(env, task.Stored()) && (task.synthesized != [] ==> CanEmbed(env)))
    && (task.Chasing? || task.ChasingAaaa? ==> FirstTarget(task.Stored()).Some?)
  }

  ghost predicate TasksOk(env: Env, s: Sys) {
    forall id :: 0 <= id < |s.tasks| ==> TaskOk(env, s.asked, id, s.tasks[id])
  }

  /**
   * An answer from the cache repeats an earlier store for the same name and type, and is marked expired
   * exactly if some record in it has outlived its TTL.
   */
  ghost predicate ServedOk(s: Sys, served: Served) {
    exists i :: 0 <= i < |s.stores| && ServedFrom(served, s.stores[i])
  }

  ghost predicate ServedFrom(served: Served, store: Store) {
    && store.name == served.name && store.rtype == served.rtype
    && store.records == served.records
    && store.at <= served.at
    && (store.records != [] ==>
          (!served.expired <==> forall r :: r in store.records ==> served.at - store.at < r.ttl * SECOND))
  }

  ghost predicate AllServedOk(s: Sys) {
    forall i :: 0 <= i < |s.served| ==> ServedOk(s, s.served[i])
  }

  ghost predicate Safe(env: Env, s: Sys) {
    && s.cache.config.size >= 1 && Coherent(s.cache)
    && TasksOk(env, s) && StoresOk(env, s) && EntriesTraced(s) && AllServedOk(s)
  }

  // ----- Time -----

  lemma {:induction false} MinTtlMeaning(rs: seq<Record>)
    requires rs != []
    ensures forall r :: r in rs ==> MinTtl(rs) <= r.ttl
    ensures exists r :: r in rs && r.ttl == MinTtl(rs)
  {
    assert rs[0] in rs;
    if |rs| > 1 {
      MinTtlMeaning(rs[1..]);
      assert forall r :: r in rs <==> r == rs[0] || r in rs[1..];
    }
  }

  /** An entry is unexpired exactly while every record stored in it is within its own TTL, counted from the store. */
  lemma FreshExactly(entry: Entry, store: Store, now: nat)
    requires Reflects(entry, store) && store.records != [] && store.at <= now
    ensures !entry.IsExpired(now) <==> forall r :: r in store.records ==> now - store.at < r.ttl * SECOND
  {
    MinTtlMeaning(store.records);
    if now - store.at < MinTtl(store.records) * SECOND {
      forall r | r in store.records ensures now - store.at < r.ttl * SECOND {
        assert MinTtl(store.records) <= r.ttl;
      }
    }
  }

  // ----- Every step is safe -----

  /**
   * What a step leaves alone stays safe: with the stores and answers as they were, only the tasks and the
   * entries need a look.
   */
  lemma SafeFrame(env: Env, s: Sys, t: Sys)
    requires Safe(env, s)
    requires t.stores == s.stores && t.served == s.served && s.now <= t.now
    requires forall ask :: ask in s.asked ==> ask in t.asked
    requires t.cache.config.size >= 1 && Coherent(t.cache) && TasksOk(env, t) && EntriesTraced(t)
    ensures Safe(env, t)
  {
    forall i | 0 <= i < |t.stores| ensures StoreOk(env, t, t.stores[i]) {
      assert StoreOk(env, s, s.stores[i]);
    }
    forall i | 0 <= i < |t.served| ensures ServedOk(t, t.served[i]) {
      assert ServedOk(s, s.served[i]);
    }
  }

  lemma PutSafe(env: Env, s: Sys, id: nat, task: Task)
    requires Safe(env, s) && id < |s.tasks| && TaskOk(env, s.asked, id, task)
    ensures Safe(env, Put(s, id, task))
  {
    SafeFrame(env, s, Put(s, id, task));
  }

  lemma AskingSafe(env: Env, s: Sys, id: nat, name: string, rtype: nat)
    requires Safe(env, s)
    ensures Safe(env, Asking(s, id, name, rtype))
  {
    var t := Asking(s, id, name, rtype);
    forall i | 0 <= i < |t.tasks| ensures TaskOk(env, t.asked, i, t.tasks[i]) {
      assert TaskOk(env, s.asked, i, s.tasks[i]);
    }
    SafeFrame(env, s, t);
  }

  lemma SpawnSafe(env: Env, s: Sys, task: Task)
    requires Safe(env, s) && TaskOk(env, s.asked, |s.tasks|, task)
    ensures Safe(env, s.(tasks := s.tasks + [task]))
  {
    SafeFrame(env, s, s.(tasks := s.tasks + [task]));
  }

  lemma ElapseSafe(env: Env, s: Sys, time: nat)
    requires Safe(env, s)
    ensures Safe(env, s.(now := s.now + time))
  {
  }

  lemma ProbedEntriesTraced(s: Sys, key: CacheKey)
    requires EntriesTraced(s)
    ensures EntriesTraced(ProbedCache(s, key))
  {
  }

  lemma ProbedCacheSafe(env: Env, s: Sys, key: CacheKey)
    requires Safe(env, s)
    ensures Safe(env, ProbedCache(s, key))
  {
    MeteredCoherent(s.cache, key, s.now);
    ProbedEntriesTraced(s, key);
    SafeFrame(env, s, ProbedCache(s, key));
  }

  lemma ServingSafe(env: Env, s: Sys, id: nat, name: string, rtype: nat, records: seq<Record>)
    requires RoundTrips(env) && Safe(env, s) && id < |s.tasks|
    requires KeyOf(name, rtype) in s.cache.entries
    requires env.decode(s.cache.entries[KeyOf(name, rtype)].bytes) == Some(records)
    ensures Safe(env, Serving(s, id, name, rtype, records))
  {
    var key := KeyOf(name, rtype);
    var i := LatestStore(s.stores, key);
    assert EntryTraced(s.cache.entries[key], s.stores, key);
    assert StoreOk(env, s, s.stores[i]);
    var expired := s.cache.entries[key].IsExpired(s.now);
    var entry := Served(id, name, rtype, records, s.now, expired);
    if records != [] {
      FreshExactly(s.cache.entries[key], s.stores[i], s.now);
    }
    assert ServedFrom(entry, s.stores[i]);
    var t := s.(served := s.served + [entry]);
    forall j | 0 <= j < |t.served| ensures ServedOk(t, t.served[j]) {
      if j < |s.served| {
        assert ServedOk(s, s.served[j]);
      }
    }
    forall j | 0 <= j < |t.stores| ensures StoreOk(env, t, t.stores[j]) {
      assert StoreOk(env, s, s.stores[j]);
    }
    PutSafe(env, t, id, Finished(name, rtype, Some(records)));
  }

  lemma StoredEntriesTraced(s: Sys, store: Store)
    requires EntriesTraced(s) && Coherent(s.cache) && s.cache.config.size >= 1 && store.at == s.now
    ensures var key := KeyOf(store.name, store.rtype);
      EntriesTraced(s.(cache := Inserted(s.cache, key, store.bytes, MinTtl(store.records) * SECOND, s.now),
                       stores := s.stores + [store]))
  {
  }

  lemma StoredInSafe(env: Env, s: Sys, id: nat, name: string, rtype: nat, records: seq<Record>, byLookup: bool)
    requires Safe(env, s) && Ask(id, name, rtype) in s.asked
    requires byLookup ==> !Truncated(env, records)
    ensures Safe(env, StoredIn(env, s, id, name, rtype, records, byLookup))
  {
    if env.encode(records).Some? {
      var bytes := env.encode(records).value;
      var store := Store(id, name, rtype, records, bytes, s.now, byLookup);
      InsertedCoherent(s.cache, KeyOf(name, rtype), bytes, MinTtl(records) * SECOND, s.now);
      StoredEntriesTraced(s, store);
      StoreLogged(env, s, StoredIn(env, s, id, name, rtype, records, byLookup), store);
    }
  }

  lemma StoreLogged(env: Env, s: Sys, t: Sys, store: Store)
    requires StoresOk(env, s) && AllServedOk(s) && StoreOk(env, s, store)
    requires t.stores == s.stores + [store] && t.asked == s.asked && t.now == s.now && t.served == s.served
    ensures StoresOk(env, t) && AllServedOk(t)
  {
    forall i | 0 <= i < |t.stores| ensures StoreOk(env, t, t.stores[i]) {
      assert i < |s.stores| ==> StoreOk(env, s, s.stores[i]);
    }
    forall i | 0 <= i < |t.served| ensures ServedOk(t, t.served[i]) {
      assert ServedOk(s, s.served[i]);
      var j :| 0 <= j < |s.stores| && ServedFrom(s.served[i], s.stores[j]);
      assert t.stores[j] == s.stores[j];
    }
  }

  lemma ForwardSafe(env: Env, s: Sys, id: nat, task: Task)
    requires Safe(env, s) && id < |s.tasks| && (task.Forwarding? || task.AnyForwarding?)
    ensures Safe(env, Asking(Put(s, id, task), id, task.name, task.rtype))
  {
    AskingSafe(env, s, id, task.name, task.rtype);
    PutSafe(env, Asking(s, id, task.name, task.rtype), id, task);
  }

  lemma PrefetchingSafe(env: Env, s: Sys, name: string, rtype: nat)
    requires Safe(env, s)
    ensures Safe(env, Prefetching(s, name, rtype))
  {
    AskingSafe(env, s, |s.tasks|, name, rtype);
    SpawnSafe(env, Asking(s, |s.tasks|, name, rtype), PrefetchForwarding(name, rtype));
  }

  lemma ProbeSafe(env: Env, s: Sys, id: nat, name: string, rtype: nat)
    requires RoundTrips(env) && Safe(env, s) && id < |s.tasks|
    ensures Safe(env, Probe(env, s, id, name, rtype))
  {
    var probed := ProbedCache(s, KeyOf(name, rtype));
    ProbedCacheSafe(env, s, KeyOf(name, rtype));
    PrefetchingSafe(env, probed, name, rtype);
    var t := Prefetching(probed, name, rtype);
    match CachedRecords(env, s, KeyOf(name, rtype))
    case Some(records) => ServingSafe(env, t, id, name, rtype, records);
    case None => ForwardSafe(env, t, id, Forwarding(name, rtype));
  }

  lemma AnyProbeSafe(env: Env, s: Sys, id: nat, name: string, rtype: nat)
    requires RoundTrips(env) && Safe(env, s) && id < |s.tasks|
    ensures Safe(env, AnyProbe(env, s, id, name, rtype))
  {
    var t := ProbedCache(s, KeyOf(name, rtype));
    ProbedCacheSafe(env, s, KeyOf(name, rtype));
    var records := CachedRecords(env, s, KeyOf(name, rtype));
    if records.Some? && records.value != [] {
      ServingSafe(env, t, id, name, rtype, records.value);
    } else {
      ForwardSafe(env, t, id, AnyForwarding(name, rtype));
    }
  }

  lemma UnderLockSafe(env: Env, s: Sys, id: nat)
    requires RoundTrips(env) && Safe(env, s) && id < |s.tasks|
    ensures Safe(env, UnderLock(env, s, id))
  {
    match s.tasks[id]
    case Probing(_, _) => ProbingSafe(env, s, id);
    case AnyProbing(_, _) => AnyProbingSafe(env, s, id);
    case Storing(_, _, _, _) => StoringSafe(env, s, id);
    case AnyStoring(_, _, _) => AnyStoringSafe(env, s, id);
    case PrefetchStoring(_, _, _) => PrefetchStoringSafe(env, s, id);
    case _ => assert UnderLock(env, s, id) == s;
  }

  lemma ProbingSafe(env: Env, s: Sys, id: nat)
    requires RoundTrips(env) && Safe(env, s) && id < |s.tasks| && s.tasks[id].Probing?
    ensures Safe(env, UnderLock(env, s, id))
  {
    ProbeSafe(env, s, id, s.tasks[id].name, s.tasks[id].rtype);
    assert UnderLock(env, s, id) == Probe(env, s, id, s.tasks[id].name, s.tasks[id].rtype);
  }

  lemma AnyProbingSafe(env: Env, s: Sys, id: nat)
    requires RoundTrips(env) && Safe(env, s) && id < |s.tasks| && s.tasks[id].AnyProbing?
    ensures Safe(env, UnderLock(env, s, id))
  {
    assert UnderLock(env, s, id) == AnyProbe(env, s, id, s.tasks[id].name, s.tasks[id].rtype);
    AnyProbeSafe(env, s, id, s.tasks[id].name, s.tasks[id].rtype);
  }

  lemma StoringSafe(env: Env, s: Sys, id: nat)
    requires Safe(env, s) && id < |s.tasks| && s.tasks[id].Storing?
    ensures Safe(env, UnderLock(env, s, id))
  {
    var task := s.tasks[id];
    assert TaskOk(env, s.asked, id, task);
    StoreMoveSafe(env, s, id, task.name, task.rtype, task.Stored(), true, AfterStore(task));
    assert UnderLock(env, s, id)
        == Move(StoredIn(env, s, id, task.name, task.rtype, task.Stored(), true), id, AfterStore(task));
  }

  lemma AnyStoringSafe(env: Env, s: Sys, id: nat)
    requires Safe(env, s) && id < |s.tasks| && s.tasks[id].AnyStoring?
    ensures Safe(env, UnderLock(env, s, id))
  {
    var task := s.tasks[id];
    assert TaskOk(env, s.asked, id, task);
    var done := Finished(task.name, task.rtype, Some(task.records));
    StoreMoveSafe(env, s, id, task.name, task.rtype, task.records, false, done);
    assert UnderLock(env, s, id) == Move(StoredIn(env, s, id, task.name, task.rtype, task.records, false), id, done);
  }

  lemma PrefetchStoringSafe(env: Env, s: Sys, id: nat)
    requires Safe(env, s) && id < |s.tasks| && s.tasks[id].PrefetchStoring?
    ensures Safe(env, UnderLock(env, s, id))
  {
    var task := s.tasks[id];
    assert TaskOk(env, s.asked, id, task);
    var done := Finished(task.name, task.rtype, None);
    StoreMoveSafe(env, s, id, task.name, task.rtype, task.records, false, done);
    assert UnderLock(env, s, id) == Move(StoredIn(env, s, id, task.name, task.rtype, task.records, false), id, done);
  }

  lemma StoreMoveSafe(env: Env, s: Sys, id: nat, name: string, rtype: nat, records: seq<Record>, byLookup: bool, task: Task)
    requires Safe(env, s) && id < |s.tasks| && Ask(id, name, rtype) in s.asked
    requires (byLookup ==> !Truncated(env, records)) && TaskOk(env, s.asked, id, task)
    ensures Safe(env, Move(StoredIn(env, s, id, name, rtype, records, byLookup), id, task))
  {
    StoredInSafe(env, s, id, name, rtype, records, byLookup);
    MoveSafe(env, StoredIn(env, s, id, name, rtype, records, byLookup), id, task);
  }

  lemma MoveSafe(env: Env, s: Sys, id: nat, task: Task)
    requires Safe(env, s) && id < |s.tasks| && TaskOk(env, s.asked, id, task)
    ensures Safe(env, Move(s, id, task))
  {
    PutSafe(env, s, id, task);
    if task.SideQuery().Some? {
      AskingSafe(env, Put(s, id, task), id, task.SideQuery().value.0, task.SideQuery().value.1);
    }
  }

  lemma {:induction false} EmbeddedCanEmbed(embed: nat -> Option<nat>, name: string, ttl: nat, addresses: seq<Record>)
    requires Embedded(embed, name, ttl, addresses) != []
    ensures exists v4 :: embed(v4).Some?
  {
    EmbeddedMeaning(embed, name, ttl, addresses);
    var r := Embedded(embed, name, ttl, addresses)[0];
    assert r in Embedded(embed, name, ttl, addresses);
  }

  lemma PreparedOk(env: Env, asked: seq<Ask>, id: nat, name: string, rtype: nat, answers: seq<Record>, synthesized: seq<Record>)
    requires Ask(id, name, rtype) in asked && (synthesized != [] ==> CanEmbed(env))
    ensures TaskOk(env, asked, id, Prepared(env, name, rtype, answers, synthesized))
  {
  }

  lemma AfterReplyOk(env: Env, asked: seq<Ask>, id: nat, task: Task, reply: Option<seq<Record>>)
    requires TaskOk(env, asked, id, task)
    ensures TaskOk(env, asked, id, AfterReply(env, task, reply))
  {
    match task
    case Forwarding(name, rtype) =>
      if reply.Some? {
        PreparedOk(env, asked, id, name, rtype, reply.value, []);
      }
    case AwaitingA(name, rtype, answers) =>
      var synthesized := Dns64Records(env, name, reply);
      if synthesized != [] {
        var addresses := AddressRecords(reply.value);
        EmbeddedCanEmbed(env.dns64.value, name, MinTtl(addresses), addresses);
      }
      PreparedOk(env, asked, id, name, rtype, answers, synthesized);
    case _ =>
  }

  lemma CallSafe(env: Env, s: Sys, name: string, rtype: nat)
    requires Safe(env, s)
    ensures Safe(env, Step(env, s, Call(name, rtype)))
  {
    var task := if rtype == TYPE_ANY then AnyProbing(name, TYPE_A) else Probing(name, rtype);
    SpawnSafe(env, s, task);
    assert Step(env, s, Call(name, rtype)) == s.(tasks := s.tasks + [task]);
  }

  lemma LockedSafe(env: Env, s: Sys, id: nat)
    requires RoundTrips(env) && Safe(env, s)
    ensures Safe(env, Step(env, s, Locked(id)))
  {
    if id < |s.tasks| {
      UnderLockSafe(env, s, id);
      assert Step(env, s, Locked(id)) == UnderLock(env, s, id);
    }
  }

  lemma ReplySafe(env: Env, s: Sys, id: nat, reply: Option<seq<Record>>)
    requires Safe(env, s)
    ensures Safe(env, Step(env, s, Reply(id, reply)))
  {
    if id < |s.tasks| {
      AfterReplyOk(env, s.asked, id, s.tasks[id], reply);
      MoveSafe(env, s, id, AfterReply(env, s.tasks[id], reply));
      assert Step(env, s, Reply(id, reply)) == Move(s, id, AfterReply(env, s.tasks[id], reply));
    }
  }

  lemma StepSafe(env: Env, s: Sys, e: Event)
    requires RoundTrips(env) && Safe(env, s)
    ensures Safe(env, Step(env, s, e))
  {
    match e
    case Elapse(time) => ElapseSafe(env, s, time);
    case Call(name, rtype) => CallSafe(env, s, name, rtype);
    case Locked(id) => LockedSafe(env, s, id);
    case Reply(id, reply) => ReplySafe(env, s, id, reply);
  }

  lemma {:induction false} ResumeSafe(env: Env, s: Sys, events: seq<Event>)
    requires RoundTrips(env) && Safe(env, s)
    ensures Safe(env, Resume(env, s, events))
  {
    if events != [] {
      var n := |events| - 1;
      ResumeSafe(env, s, events[..n]);
      StepSafe(env, Resume(env, s, events[..n]), events[n]);
    }
  }

  // ----- Main results -----

  /** Safety over every interleaving, from an empty cache, whatever upstream replies. */
  lemma RunSafe(env: Env, config: Config, events: seq<Event>)
    requires RoundTrips(env) && config.size >= 1
    ensures Safe(env, Run(env, config, events))
  {
    ResumeSafe(env, Boot(config), events);
  }

  /**
   * After any run, an entry for a name and type was stored by a task that had asked upstream for that
   * name and type, is the latest store for it, decodes to the stored records, and carries the shortest TTL
   * of any record, or 300 seconds if there is none; an unexpired entry holds no record past its own TTL.
   */
  lemma EntryHistory(env: Env, config: Config, events: seq<Event>, key: CacheKey) returns (i: nat)
    requires RoundTrips(env) && config.size >= 1
    requires key in Run(env, config, events).cache.entries
    ensures var s := Run(env, config, events); var entry := s.cache.entries[key];
      && i < |s.stores|
      && KeyOf(s.stores[i].name, s.stores[i].rtype) == key
      && (forall j :: i < j < |s.stores| ==> KeyOf(s.stores[j].name, s.stores[j].rtype) != key)
      && Ask(s.stores[i].task, s.stores[i].name, s.stores[i].rtype) in s.asked
      && env.decode(entry.bytes) == Some(s.stores[i].records)
      && (forall r :: r in s.stores[i].records ==> entry.originalTtl <= r.ttl * SECOND)
      && (s.stores[i].records == [] ==> entry.originalTtl == 300 * SECOND)
      && (s.stores[i].records != [] ==> exists r :: r in s.stores[i].records && entry.originalTtl == r.ttl * SECOND)
      && (!entry.IsExpired(s.now) ==> forall r :: r in s.stores[i].records ==> s.now - s.stores[i].at < r.ttl * SECOND)
  {
    var s := Run(env, config, events);
    RunSafe(env, config, events);
    assert EntryTraced(s.cache.entries[key], s.stores, key);
    i := LatestStore(s.stores, key);
    LatestStoreIsLatest(s.stores, key);
    assert StoreOk(env, s, s.stores[i]);
    if s.stores[i].records != [] {
      MinTtlMeaning(s.stores[i].records);
      FreshExactly(s.cache.entries[key], s.stores[i], s.now);
    }
  }

  /** After any run, every answer given from the cache repeats a store for the same name and type. */
  lemma AnswerHistory(env: Env, config: Config, events: seq<Event>, n: nat)
    requires RoundTrips(env) && config.size >= 1
    requires n < |Run(env, config, events).served|
    ensures var s := Run(env, config, events);
      exists i :: 0 <= i < |s.stores| && ServedFrom(s.served[n], s.stores[i])
  {
    RunSafe(env, config, events);
    assert ServedOk(Run(env, config, events), Run(env, config, events).served[n]);
  }

  /** A lookup that finds its key cached finishes with exactly the records of the latest store for it. */
  lemma ProbeServesLatest(env: Env, s: Sys, id: nat)
    requires RoundTrips(env) && Safe(env, s) && id < |s.tasks| && s.tasks[id].Probing?
    requires KeyOf(s.tasks[id].name, s.tasks[id].rtype) in s.cache.entries
    ensures var key := KeyOf(s.tasks[id].name, s.tasks[id].rtype); var i := LatestStore(s.stores, key);
      && 0 <= i
      && Step(env, s, Locked(id)).tasks[id] == Finished(s.tasks[id].name, s.tasks[id].rtype, Some(s.stores[i].records))
  {
    var key := KeyOf(s.tasks[id].name, s.tasks[id].rtype);
    assert EntryTraced(s.cache.entries[key], s.stores, key);
    assert StoreOk(env, s, s.stores[LatestStore(s.stores, key)]);
  }

  /**
   * A lookup starts a refresh exactly when prefetch is on, its key is cached, and the entry expires within `prefetch`
   * seconds for each hit, this one included.
   */
  lemma RefreshExactly(env: Env, s: Sys, id: nat)
    requires id < |s.tasks| && s.tasks[id].Probing?
    requires var key := KeyOf(s.tasks[id].name, s.tasks[id].rtype); key in s.cache.entries ==> s.cache.entries[key].insertedAt <= s.now
    ensures var key := KeyOf(s.tasks[id].name, s.tasks[id].rtype); var t := Step(env, s, Locked(id));
      && |s.tasks| <= |t.tasks| <= |s.tasks| + 1
      && (|t.tasks| == |s.tasks| + 1 <==>
            && s.cache.config.prefetch != 0 && key in s.cache.entries
            && var e := s.cache.entries[key];
            e.insertedAt + e.originalTtl < s.now + s.cache.config.prefetch * (e.hitCount + 1) * SECOND)
  {
    var name, rtype := s.tasks[id].name, s.tasks[id].rtype;
    assert Step(env, s, Locked(id)) == Probe(env, s, id, name, rtype);
    PrefetchExactly(LookedUpMetered(s.cache, KeyOf(name, rtype), s.now), KeyOf(name, rtype), s.now);
    ProbeSpawnsIfDue(env, s, id, name, rtype);
  }

  lemma ProbeSpawnsIfDue(env: Env, s: Sys, id: nat, name: string, rtype: nat)
    requires id < |s.tasks|
    ensures var due := ShouldPrefetch(LookedUpMetered(s.cache, KeyOf(name, rtype), s.now), KeyOf(name, rtype), s.now);
      |Probe(env, s, id, name, rtype).tasks| == |s.tasks| + (if due then 1 else 0)
  {
  }

  /** A lookup that hits an expired entry starts a refresh of the same name and type, if prefetch is on. */
  lemma ExpiredHitRefreshes(env: Env, s: Sys, id: nat)
    requires id < |s.tasks| && s.tasks[id].Probing? && s.cache.config.prefetch != 0
    requires var key := KeyOf(s.tasks[id].name, s.tasks[id].rtype);
      key in s.cache.entries && s.cache.entries[key].IsExpired(s.now)
    ensures var t := Step(env, s, Locked(id));
      && |t.tasks| == |s.tasks| + 1
      && t.tasks[|s.tasks|] == PrefetchForwarding(s.tasks[id].name, s.tasks[id].rtype)
  {
    ExpiredHitWantsPrefetch(s.cache, KeyOf(s.tasks[id].name, s.tasks[id].rtype), s.now, s.now);
  }

  // ----- ANY queries -----

  /** No running task, upstream query or store is for type ANY. */
  ghost predicate AnyFree(s: Sys) {
    && (forall i :: 0 <= i < |s.tasks| ==> s.tasks[i].Finished? || s.tasks[i].rtype != TYPE_ANY)
    && (forall i :: 0 <= i < |s.asked| ==> s.asked[i].rtype != TYPE_ANY)
    && (forall i :: 0 <= i < |s.stores| ==> s.stores[i].rtype != TYPE_ANY)
  }

  lemma MoveAnyFree(s: Sys, id: nat, task: Task)
    requires AnyFree(s) && id < |s.tasks| && (task.Finished? || task.rtype != TYPE_ANY)
    ensures AnyFree(Move(s, id, task))
  {
  }

  lemma ProbeAnyFree(env: Env, s: Sys, id: nat, name: string, rtype: nat)
    requires AnyFree(s) && id < |s.tasks| && rtype != TYPE_ANY
    ensures AnyFree(Probe(env, s, id, name, rtype))
  {
  }

  lemma StoreMoveAnyFree(env: Env, s: Sys, id: nat, name: string, rtype: nat, records: seq<Record>, byLookup: bool, task: Task)
    requires AnyFree(s) && id < |s.tasks| && rtype != TYPE_ANY && (task.Finished? || task.rtype != TYPE_ANY)
    ensures AnyFree(Move(StoredIn(env, s, id, name, rtype, records, byLookup), id, task))
  {
    MoveAnyFree(StoredIn(env, s, id, name, rtype, records, byLookup), id, task);
  }

  lemma UnderLockAnyFree(env: Env, s: Sys, id: nat)
    requires AnyFree(s) && id < |s.tasks|
    ensures AnyFree(UnderLock(env, s, id))
  {
    match s.tasks[id]
    case Probing(name, rtype) =>
      assert UnderLock(env, s, id) == Probe(env, s, id, name, rtype);
      ProbeAnyFree(env, s, id, name, rtype);
    case AnyProbing(name, rtype) =>
      assert UnderLock(env, s, id) == AnyProbe(env, s, id, name, rtype);
    case Storing(name, rtype, answers, synthesized) =>
      StoreMoveAnyFree(env, s, id, name, rtype, Assembled(answers, synthesized, name), true, AfterStore(s.tasks[id]));
    case AnyStoring(name, rtype, records) =>
      StoreMoveAnyFree(env, s, id, name, rtype, records, false, Finished(name, rtype, Some(records)));
    case PrefetchStoring(name, rtype, records) =>
      StoreMoveAnyFree(env, s, id, name, rtype, records, false, Finished(name, rtype, None));
    case _ =>
  }

  lemma StepAnyFree(env: Env, s: Sys, e: Event)
    requires AnyFree(s)
    ensures AnyFree(Step(env, s, e))
  {
    if e.Locked? && e.task < |s.tasks| {
      UnderLockAnyFree(env, s, e.task);
    }
    if e.Reply? && e.task < |s.tasks| {
      MoveAnyFree(s, e.task, AfterReply(env, s.tasks[e.task], e.reply));
    }
  }

  /**
   * Amplification mitigation (RFC 8482): in no run does a query of type ANY reach upstream or the cache,
   * the chained A query of DNS64 and the queries for a CNAME's target included.
   */
  lemma {:induction false} NeverAsksAny(env: Env, config: Config, events: seq<Event>)
    ensures AnyFree(Run(env, config, events))
  {
    if events != [] {
      var n := |events| - 1;
      NeverAsksAny(env, config, events[..n]);
      StepAnyFree(env, Run(env, config, events[..n]), events[n]);
    }
  }
}
