/**
 * The CNAME chain limit of src/core/resolver/forward.rs.  A plain lookup checks what it is about to store
 * and nothing else, so an answer can still be over the limit: found in the cache after an ANY lookup
 * or a prefetch, neither of which checks, or extended after the check by the chase of a CNAME.  The
 * lemmas say exactly when.
 */
module ChainLimit {
  import opened Prelude
  import ResponseCache
  import opened Forwarder
  import opened ForwarderAgreement

  // ----- One answer of a plain lookup -----

  lemma CnameCountConcat(a: seq<Record>, b: seq<Record>)
    ensures CnameCount(a + b) == CnameCount(a) + CnameCount(b)
  {
    CnamesExactly(a, b, Record("", 0, A(0)));
  }

  /** What upstream answered holds no more CNAMEs than what is stored. */
  lemma AnswersWithinStored(answers: seq<Record>, synthesized: seq<Record>, name: string)
    ensures CnameCount(answers) <= CnameCount(Assembled(answers, synthesized, name))
  {
    CnameCountConcat(answers, synthesized);
    CnameCountConcat(answers + synthesized, Redirects(answers + synthesized, name));
  }

  predicate Plain(task: Task) {
    task.Probing? || task.Forwarding? || task.AwaitingA? || task.HasAnswer()
  }

  /** The answer that step `e` gives a plain lookup is over the limit: the latest store is, or the chase takes it there. */
  predicate AnswerOverLimit(env: Env, s: Sys, id: nat, e: Event)
    requires id < |s.tasks|
  {
    match s.tasks[id]
    case Probing(name, rtype) =>
      var i := LatestStore(s.stores, KeyOf(name, rtype));
      0 <= i && Truncated(env, s.stores[i].records)
    case ChasingAaaa(_, _, _, synthesized, chasedA) =>
      && synthesized != [] && env.cnameCloaking && e.Reply?
      && CnameCount(s.tasks[id].Stored()) + CnameCount(chasedA) + CnameCount(OrEmpty(e.reply)) > env.cnameChainLimit
    case _ => false
  }

  ghost predicate Answers(env: Env, s: Sys, id: nat, e: Event)
    requires id < |s.tasks|
  {
    var task := Step(env, s, e).tasks[id];
    !s.tasks[id].Finished? && task.Finished? && task.answer.Some?
  }

  lemma ServedAnswerExactly(env: Env, s: Sys, e: Event, id: nat)
    requires RoundTrips(env) && Safe(env, s) && id < |s.tasks| && s.tasks[id].Probing?
    ensures Answers(env, s, id, e) ==>
      (Truncated(env, Step(env, s, e).tasks[id].answer.value) <==> AnswerOverLimit(env, s, id, e))
  {
    if Answers(env, s, id, e) {
      AnswersOnHit(env, s, e, id);
      ProbeServesLatest(env, s, id);
    }
  }

  lemma AnswersOnHit(env: Env, s: Sys, e: Event, id: nat)
    requires id < |s.tasks| && s.tasks[id].Probing? && Answers(env, s, id, e)
    ensures e == Locked(id) && KeyOf(s.tasks[id].name, s.tasks[id].rtype) in s.cache.entries
  {
  }

  lemma StoredAnswerWithin(env: Env, s: Sys, e: Event, id: nat)
    requires id < |s.tasks| && s.tasks[id].Storing? && TaskOk(env, s.asked, id, s.tasks[id]) && Answers(env, s, id, e)
    ensures !Truncated(env, Step(env, s, e).tasks[id].answer.value)
  {
    var task := s.tasks[id];
    assert e == Locked(id);
    StoredThenMoves(env, s, id);
    TargetIffCname(task.Stored());
    AnswersWithinStored(task.answers, task.synthesized, task.name);
    assert task.Stored() + [] == task.Stored();
  }

  lemma ChasedAnswerExactly(env: Env, s: Sys, e: Event, id: nat)
    requires id < |s.tasks| && s.tasks[id].ChasingAaaa? && TaskOk(env, s.asked, id, s.tasks[id]) && Answers(env, s, id, e)
    ensures Truncated(env, Step(env, s, e).tasks[id].answer.value) <==> AnswerOverLimit(env, s, id, e)
  {
    var task := s.tasks[id];
    OnlyRepliesMove(env, s, e, id);
    AnswersWithinStored(task.answers, task.synthesized, task.name);
    CnameCountConcat(task.chasedA, OrEmpty(e.reply));
    CnameCountConcat(task.Stored(), task.chasedA + OrEmpty(e.reply));
  }

  lemma OthersDoNotAnswer(env: Env, s: Sys, e: Event, id: nat)
    requires id < |s.tasks| && (s.tasks[id].Forwarding? || s.tasks[id].AwaitingA? || s.tasks[id].Chasing?)
    ensures !Answers(env, s, id, e)
  {
    OnlyRepliesMove(env, s, e, id);
  }

  /**
   * A plain lookup's answer is over the limit exactly when it was served from a store that is, or when
   * it carries DNS64 records and the stored and the chased CNAMEs together are too many.
   */
  lemma PlainAnswerExactly(env: Env, s: Sys, e: Event, id: nat)
    requires RoundTrips(env) && Safe(env, s) && id < |s.tasks| && Plain(s.tasks[id])
    ensures Answers(env, s, id, e) ==>
      (Truncated(env, Step(env, s, e).tasks[id].answer.value) <==> AnswerOverLimit(env, s, id, e))
  {
    if Answers(env, s, id, e) {
      assert TaskOk(env, s.asked, id, s.tasks[id]);
      match s.tasks[id]
      case Probing(_, _) => ServedAnswerExactly(env, s, e, id);
      case Storing(_, _, _, _) => StoredAnswerWithin(env, s, e, id);
      case ChasingAaaa(_, _, _, _, _) => ChasedAnswerExactly(env, s, e, id);
      case _ => OthersDoNotAnswer(env, s, e, id);
    }
  }

  // ----- Runs without ANY calls and prefetch -----

  predicate AnyCall(e: Event) {
    e.Call? && e.rtype == TYPE_ANY
  }

  predicate NoAnyCall(events: seq<Event>) {
    forall i :: 0 <= i < |events| ==> !AnyCall(events[i])
  }

  ghost predicate StoresWithin(env: Env, s: Sys) {
    forall i :: 0 <= i < |s.stores| ==> !Truncated(env, s.stores[i].records)
  }

  ghost predicate AnswersWithin(env: Env, s: Sys) {
    forall id :: 0 <= id < |s.tasks| && s.tasks[id].Finished? && s.tasks[id].answer.Some? ==>
      !Truncated(env, s.tasks[id].answer.value)
  }

  /** Prefetch is off, and all tasks and stores are those of plain lookups. */
  ghost predicate OnlyLookups(s: Sys) {
    && s.cache.config.prefetch == 0
    && (forall id :: 0 <= id < |s.tasks| ==> Plain(s.tasks[id]) || s.tasks[id].Finished?)
    && (forall i :: 0 <= i < |s.stores| ==> s.stores[i].byLookup)
  }

  lemma MoveOnlyLookups(s: Sys, id: nat, task: Task)
    requires OnlyLookups(s) && id < |s.tasks| && (Plain(task) || task.Finished?)
    ensures OnlyLookups(Move(s, id, task))
  {
  }

  lemma ProbeOnlyLookups(env: Env, s: Sys, id: nat, name: string, rtype: nat)
    requires OnlyLookups(s) && id < |s.tasks|
    ensures OnlyLookups(Probe(env, s, id, name, rtype))
  {
  }

  lemma LockedOnlyLookups(env: Env, s: Sys, id: nat)
    requires OnlyLookups(s) && id < |s.tasks|
    ensures OnlyLookups(UnderLock(env, s, id))
  {
    match s.tasks[id]
    case Probing(name, rtype) =>
      assert UnderLock(env, s, id) == Probe(env, s, id, name, rtype);
      ProbeOnlyLookups(env, s, id, name, rtype);
    case Storing(name, rtype, answers, synthesized) =>
      var stored := StoredIn(env, s, id, name, rtype, Assembled(answers, synthesized, name), true);
      assert UnderLock(env, s, id) == Move(stored, id, AfterStore(s.tasks[id]));
      MoveOnlyLookups(stored, id, AfterStore(s.tasks[id]));
    case _ =>
      assert UnderLock(env, s, id) == s;
  }

  lemma StepOnlyLookups(env: Env, s: Sys, e: Event)
    requires OnlyLookups(s) && !AnyCall(e)
    ensures OnlyLookups(Step(env, s, e))
  {
    if e.Locked? && e.task < |s.tasks| {
      LockedOnlyLookups(env, s, e.task);
    }
    if e.Reply? && e.task < |s.tasks| {
      MoveOnlyLookups(s, e.task, AfterReply(env, s.tasks[e.task], e.reply));
    }
  }

  lemma {:induction false} RunOnlyLookups(env: Env, config: ResponseCache.Config, events: seq<Event>)
    requires config.prefetch == 0 && NoAnyCall(events)
    ensures OnlyLookups(Run(env, config, events))
  {
    if events != [] {
      var n := |events| - 1;
      RunOnlyLookups(env, config, events[..n]);
      StepOnlyLookups(env, Run(env, config, events[..n]), events[n]);
    }
  }

  /** With prefetch off and no ANY call, every store is within the limit. */
  lemma StoresStayWithin(env: Env, config: ResponseCache.Config, events: seq<Event>)
    requires RoundTrips(env) && config.size >= 1 && config.prefetch == 0 && NoAnyCall(events)
    ensures StoresWithin(env, Run(env, config, events))
  {
    var s := Run(env, config, events);
    RunOnlyLookups(env, config, events);
    RunSafe(env, config, events);
    forall i | 0 <= i < |s.stores| ensures !Truncated(env, s.stores[i].records) {
      assert StoreOk(env, s, s.stores[i]);
    }
  }

  /**
   * An over-long chain in the cache was put there by an ANY lookup or a prefetch: never by a plain lookup,
   * and only with prefetch on or after an ANY call.
   */
  lemma OverlongChainsBypassed(env: Env, config: ResponseCache.Config, events: seq<Event>, i: nat)
    requires RoundTrips(env) && config.size >= 1
    requires var s := Run(env, config, events); i < |s.stores| && Truncated(env, s.stores[i].records)
    ensures !Run(env, config, events).stores[i].byLookup
    ensures config.prefetch != 0 || exists j :: 0 <= j < |events| && AnyCall(events[j])
  {
    RunSafe(env, config, events);
    assert StoreOk(env, Run(env, config, events), Run(env, config, events).stores[i]);
    if config.prefetch == 0 && NoAnyCall(events) {
      StoresStayWithin(env, config, events);
    }
  }

  /** A chase can take an answer over the limit only where a CNAME is allowed and an address can be embedded. */
  lemma StepAnswersWithin(env: Env, s: Sys, e: Event)
    requires RoundTrips(env) && Safe(env, s) && OnlyLookups(s) && StoresWithin(env, s) && AnswersWithin(env, s)
    requires env.cnameChainLimit == 0 || !CanEmbed(env)
    ensures AnswersWithin(env, Step(env, s, e))
  {
    var t := Step(env, s, e);
    forall id | 0 <= id < |t.tasks| && t.tasks[id].Finished? && t.tasks[id].answer.Some?
      ensures !Truncated(env, t.tasks[id].answer.value)
    {
      SpawnedIsRunning(env, s, e);
      if s.tasks[id].Finished? {
        OnlyRepliesMove(env, s, e, id);
      } else {
        assert TaskOk(env, s.asked, id, s.tasks[id]);
        PlainAnswerExactly(env, s, e, id);
        if s.tasks[id].ChasingAaaa? {
          TargetIffCname(s.tasks[id].Stored());
        }
      }
    }
  }

  lemma SpawnedIsRunning(env: Env, s: Sys, e: Event)
    ensures forall id :: |s.tasks| <= id < |Step(env, s, e).tasks| ==> !Step(env, s, e).tasks[id].Finished?
  {
  }

  lemma {:induction false} AnswersStayWithin(env: Env, config: ResponseCache.Config, events: seq<Event>)
    requires RoundTrips(env) && config.size >= 1 && config.prefetch == 0 && NoAnyCall(events)
    requires env.cnameChainLimit == 0 || !CanEmbed(env)
    ensures AnswersWithin(env, Run(env, config, events))
  {
    if events != [] {
      var n := |events| - 1;
      var before := events[..n];
      AnswersStayWithin(env, config, before);
      RunSafe(env, config, before);
      RunOnlyLookups(env, config, before);
      StoresStayWithin(env, config, before);
      StepAnswersWithin(env, Run(env, config, before), events[n]);
    }
  }

  // ----- Runs that go over the limit -----

  lemma Then(env: Env, config: ResponseCache.Config, events: seq<Event>, e: Event)
    requires NoAnyCall(events) && !AnyCall(e)
    ensures NoAnyCall(events + [e])
    ensures Run(env, config, events + [e]) == Step(env, Run(env, config, events), e)
  {
    RunSnoc(env, config, events, e);
  }

  /** An empty answer is cached for the default TTL and that time has passed. */
  lemma EmptyAnswerExpired(env: Env, config: ResponseCache.Config, name: string) returns (events: seq<Event>)
    requires env.encode([]).Some?
    ensures NoAnyCall(events)
    ensures var s := Run(env, config, events); var key := KeyOf(name, TYPE_A);
      && |s.tasks| == 1 && s.cache.config == config
      && key in s.cache.entries && s.cache.entries[key].IsExpired(s.now)
  {
    events := [Call(name, TYPE_A), Locked(0), Reply(0, Some([]))];
    Missed(env, config, name, TYPE_A, []);
    assert Assembled([], [], name) == [];
    var s := Run(env, config, events);
    assert s.tasks == [Storing(name, TYPE_A, [], [])];
    Then(env, config, events, Locked(0));
    events := events + [Locked(0)];
    assert Run(env, config, events) == UnderLock(env, s, 0);
    assert MinTtl([]) == DEFAULT_TTL;
    Then(env, config, events, Elapse(DEFAULT_TTL * ResponseCache.SECOND));
    events := events + [Elapse(DEFAULT_TTL * ResponseCache.SECOND)];
  }

  /** A hit on the expired answer starts a prefetch, which stores whatever upstream now replies. */
  lemma PrefetchStores(env: Env, config: ResponseCache.Config, name: string, records: seq<Record>) returns (events: seq<Event>)
    requires config.prefetch != 0 && env.encode([]).Some? && env.encode(records).Some?
    ensures NoAnyCall(events)
    ensures var s := Run(env, config, events);
      && |s.tasks| == 3 && KeyOf(name, TYPE_A) in s.cache.entries
      && s.stores != [] && s.stores[|s.stores| - 1].records == records
      && LatestStore(s.stores, KeyOf(name, TYPE_A)) == |s.stores| - 1
  {
    events := EmptyAnswerExpired(env, config, name);
    Then(env, config, events, Call(name, TYPE_A));
    events := events + [Call(name, TYPE_A)];
    ExpiredHitRefreshes(env, Run(env, config, events), 1);
    Then(env, config, events, Locked(1));
    events := events + [Locked(1)];
    Then(env, config, events, Reply(2, Some(records)));
    events := events + [Reply(2, Some(records))];
    var s := Run(env, config, events);
    assert s.tasks[2] == PrefetchStoring(name, TYPE_A, records);
    Then(env, config, events, Locked(2));
    events := events + [Locked(2)];
    PrefetchStoreIsLatest(env, s, 2);
  }

  lemma PrefetchStoreIsLatest(env: Env, s: Sys, id: nat)
    requires id < |s.tasks| && s.tasks[id].PrefetchStoring? && env.encode(s.tasks[id].records).Some?
    ensures var t := Step(env, s, Locked(id)); var key := KeyOf(s.tasks[id].name, s.tasks[id].rtype);
      && |t.tasks| == |s.tasks| && key in t.cache.entries
      && |t.stores| == |s.stores| + 1 && t.stores[|s.stores|].records == s.tasks[id].records
      && LatestStore(t.stores, key) == |s.stores|
  {
  }

  /** With prefetch on, an over-long answer is stored by a prefetch and served to the next plain lookup. */
  lemma PrefetchEscapesLimit(env: Env, config: ResponseCache.Config, name: string, over: seq<Record>) returns (events: seq<Event>)
    requires RoundTrips(env) && config.size >= 1 && config.prefetch != 0
    requires env.encode([]).Some? && env.encode(over).Some? && Truncated(env, over)
    ensures NoAnyCall(events)
    ensures !StoresWithin(env, Run(env, config, events)) && !AnswersWithin(env, Run(env, config, events))
  {
    events := PrefetchStores(env, config, name, over);
    var s := Run(env, config, events);
    RunSafe(env, config, events);
    OverlongServed(env, s, name);
    Then(env, config, events, Call(name, TYPE_A));
    Then(env, config, events + [Call(name, TYPE_A)], Locked(|s.tasks|));
    events := events + [Call(name, TYPE_A)] + [Locked(|s.tasks|)];
  }

  /** An over-long answer that is the latest for its key and cached is served to the next plain lookup. */
  lemma OverlongServed(env: Env, s: Sys, name: string)
    requires RoundTrips(env) && Safe(env, s) && KeyOf(name, TYPE_A) in s.cache.entries
    requires var i := LatestStore(s.stores, KeyOf(name, TYPE_A)); 0 <= i && Truncated(env, s.stores[i].records)
    ensures var t := Step(env, Step(env, s, Call(name, TYPE_A)), Locked(|s.tasks|));
      !StoresWithin(env, t) && !AnswersWithin(env, t)
  {
    var i := LatestStore(s.stores, KeyOf(name, TYPE_A));
    NextIsServed(env, s, name, TYPE_A);
    var t := Step(env, Step(env, s, Call(name, TYPE_A)), Locked(|s.tasks|));
    assert t.tasks[|s.tasks|].answer == Some(s.stores[i].records);
    assert t.stores[i] == s.stores[i];
  }

  lemma OneCname(cname: Record, aaaa: Record, name: string)
    requires cname.data.CNAME? && aaaa.data.AAAA?
    ensures var stored := Assembled([cname], [aaaa], name); CnameCount(stored) == 1 && FirstTarget(stored).Some?
  {
    NoRedirects([cname] + [aaaa], name);
    assert Assembled([cname], [aaaa], name) == [cname] + [aaaa];
    CnamesExactly([cname], [aaaa], cname);
    CnamesExactly([], [], aaaa);
  }

  lemma OneEmbedded(env: Env, name: string, v4: nat)
    requires env.dns64.Some? && env.dns64.value(v4).Some?
    ensures Dns64Records(env, name, Some([Record(name, 0, A(v4))])) == [Record(name, 0, AAAA(env.dns64.value(v4).value))]
  {
    var a := Record(name, 0, A(v4));
    assert AddressRecords([a]) == [a] + AddressRecords([a][1..]);
    assert AddressRecords([a]) == [a];
    assert Embedded(env.dns64.value, name, 0, [a][1..]) == [];
  }

  /** An AAAA lookup whose answer is one CNAME, with an address of the name embedded, passes the check and is stored. */
  lemma EmbeddedCname(env: Env, config: ResponseCache.Config, name: string, v4: nat) returns (events: seq<Event>, task: Task)
    requires env.cnameChainLimit >= 1 && env.dns64.Some? && env.dns64.value(v4).Some?
    ensures NoAnyCall(events)
    ensures task.Storing? && task.synthesized != [] && FirstTarget(task.Stored()).Some?
    ensures Run(env, config, events).tasks == [task]
  {
    var cname, a := Record(name, 0, CNAME(name)), Record(name, 0, A(v4));
    events := [Call(name, TYPE_AAAA), Locked(0), Reply(0, Some([cname]))];
    Missed(env, config, name, TYPE_AAAA, [cname]);
    assert Run(env, config, events).tasks == [AwaitingA(name, TYPE_AAAA, [cname])];
    Then(env, config, events, Reply(0, Some([a])));
    events := events + [Reply(0, Some([a]))];
    var aaaa := Record(name, 0, AAAA(env.dns64.value(v4).value));
    OneEmbedded(env, name, v4);
    OneCname(cname, aaaa, name);
    assert Prepared(env, name, TYPE_AAAA, [cname], [aaaa]) == Storing(name, TYPE_AAAA, [cname], [aaaa]);
    task := Storing(name, TYPE_AAAA, [cname], [aaaa]);
  }

  /** With an address to embed and a CNAME allowed, the chase takes an answer over the limit that passed the check. */
  lemma ChaseEscapesLimit(env: Env, config: ResponseCache.Config, name: string, v4: nat, over: seq<Record>) returns (events: seq<Event>)
    requires env.cnameChainLimit >= 1 && env.dns64.Some? && env.dns64.value(v4).Some? && Truncated(env, over)
    ensures NoAnyCall(events)
    ensures !AnswersWithin(env, Run(env, config, events))
  {
    var task;
    events, task := EmbeddedCname(env, config, name, v4);
    StoredThenMoves(env, Run(env, config, events), 0);
    Then(env, config, events, Locked(0));
    events := events + [Locked(0)];
    OnlyRepliesMove(env, Run(env, config, events), Reply(0, Some(over)), 0);
    Then(env, config, events, Reply(0, Some(over)));
    events := events + [Reply(0, Some(over))];
    OnlyRepliesMove(env, Run(env, config, events), Reply(0, None), 0);
    Then(env, config, events, Reply(0, None));
    events := events + [Reply(0, None)];
    var answer := task.Stored() + (over + []);
    assert Run(env, config, events).tasks[0] == Finished(task.name, task.rtype, Some(answer));
    CnameCountConcat(over, []);
    CnameCountConcat(task.Stored(), over + []);
  }

  /**
   * An ANY lookup stores any non-empty A answer, and the plain lookup after it returns that answer from
   * the cache, however long its chain.
   */
  lemma AnyEscapesLimit(env: Env, config: ResponseCache.Config, name: string, over: seq<Record>) returns (events: seq<Event>)
    requires RoundTrips(env) && config.size >= 1
    requires env.encode(over).Some? && Truncated(env, over)
    ensures !StoresWithin(env, Run(env, config, events)) && !AnswersWithin(env, Run(env, config, events))
  {
    events := AnyStores(env, config, name, over);
    var s := Run(env, config, events);
    RunSafe(env, config, events);
    OverlongServed(env, s, name);
    RunSnoc(env, config, events, Call(name, TYPE_A));
    RunSnoc(env, config, events + [Call(name, TYPE_A)], Locked(|s.tasks|));
    events := events + [Call(name, TYPE_A)] + [Locked(|s.tasks|)];
  }

  lemma AnyStores(env: Env, config: ResponseCache.Config, name: string, records: seq<Record>) returns (events: seq<Event>)
    requires env.encode(records).Some? && records != []
    ensures var s := Run(env, config, events);
      && |s.tasks| == 1 && KeyOf(name, TYPE_A) in s.cache.entries
      && |s.stores| == 1 && s.stores[0].records == records && LatestStore(s.stores, KeyOf(name, TYPE_A)) == 0
  {
    events := [];
    assert Run(env, config, events) == Boot(config);
    RunSnoc(env, config, events, Call(name, TYPE_ANY));
    events := events + [Call(name, TYPE_ANY)];
    assert Run(env, config, events).tasks == [AnyProbing(name, TYPE_A)];
    RunSnoc(env, config, events, Locked(0));
    events := events + [Locked(0)];
    assert Run(env, config, events).tasks == [AnyForwarding(name, TYPE_A)];
    RunSnoc(env, config, events, Reply(0, Some(records)));
    events := events + [Reply(0, Some(records))];
    assert Run(env, config, events).tasks == [AnyStoring(name, TYPE_A, records)];
    RunSnoc(env, config, events, Locked(0));
    events := events + [Locked(0)];
  }

  // ----- Exactly when the limit holds -----

  /**
   * The limit against every run.  Given an over-long answer that can be cached, and that an empty one can:
   * without ANY calls, what is stored stays within the limit in every run exactly if prefetch is
   * off, and what is answered does exactly if, besides, no CNAME is allowed at all or DNS64 can embed no
   * address.  With ANY calls some run goes over, whatever the configuration.
   */
  lemma ChainLimitExactly(env: Env, config: ResponseCache.Config, name: string, over: seq<Record>)
    requires RoundTrips(env) && config.size >= 1
    requires env.encode([]).Some? && env.encode(over).Some? && Truncated(env, over)
    ensures (forall events :: NoAnyCall(events) ==> StoresWithin(env, Run(env, config, events)))
      <==> config.prefetch == 0
    ensures (forall events :: NoAnyCall(events) ==> AnswersWithin(env, Run(env, config, events)))
      <==> config.prefetch == 0 && (env.cnameChainLimit == 0 || !CanEmbed(env))
    ensures exists events :: !AnswersWithin(env, Run(env, config, events))
  {
    if config.prefetch != 0 {
      var events := PrefetchEscapesLimit(env, config, name, over);
    } else {
      forall events | NoAnyCall(events) ensures StoresWithin(env, Run(env, config, events)) {
        StoresStayWithin(env, config, events);
      }
      if env.cnameChainLimit == 0 || !CanEmbed(env) {
        forall events | NoAnyCall(events) ensures AnswersWithin(env, Run(env, config, events)) {
          AnswersStayWithin(env, config, events);
        }
      } else {
        var v4 :| env.dns64.value(v4).Some?;
        var events := ChaseEscapesLimit(env, config, name, v4, over);
      }
    }
    var any := AnyEscapesLimit(env, config, name, over);
  }
}
