/**
 * What one lookup of src/core/resolver/forward.rs stores against what later lookups find, over every
 * interleaving: the store log only grows, a task that has stored moves only by upstream's replies to
 * it, and a hit on its store returns the stored records.
 */
module ForwarderAgreement {
  import opened Prelude
  import ResponseCache
  import opened Forwarder

  // ----- A miss's answer against what it stored -----

  lemma {:induction false} NoRedirects(rs: seq<Record>, name: string)
    ensures Redirects(rs, name) == [] <==> forall r :: r in rs ==> !(r.data.ANAME? && r.data.target != name)
  {
    if rs != [] {
      var n := |rs| - 1;
      NoRedirects(rs[..n], name);
      assert rs == rs[..n] + [rs[n]];
    }
  }

  /**
   * When the answer of a miss equals what it stored: without DNS64 records, exactly if no ANAME in
   * the answers points away from the name; with them, exactly if chasing the CNAME added nothing.
   */
  lemma ReturnedIsStoredExactly(answers: seq<Record>, synthesized: seq<Record>, chased: seq<Record>, name: string)
    ensures var stored := Assembled(answers, synthesized, name);
      Returned(answers, synthesized, stored, chased) == stored <==>
        if synthesized == [] then forall r :: r in answers ==> !(r.data.ANAME? && r.data.target != name)
        else chased == []
  {
    assert answers + [] == answers;
    NoRedirects(answers, name);
    var stored := Assembled(answers, synthesized, name);
    if synthesized == [] {
      assert stored == answers + Redirects(answers, name);
      assert |stored| == |answers| + |Redirects(answers, name)|;
    } else {
      assert |stored + chased| == |stored| + |chased|;
    }
  }

  // ----- Steps of other tasks -----

  lemma {:induction false} ResumeConcat(env: Env, s: Sys, a: seq<Event>, b: seq<Event>)
    ensures Resume(env, s, a + b) == Resume(env, Resume(env, s, a), b)
  {
    if b == [] {
      assert a + b == a;
    } else {
      var n := |b| - 1;
      ResumeConcat(env, s, a, b[..n]);
      assert (a + b)[..|a + b| - 1] == a + b[..n];
    }
  }

  lemma ResumeSplit(env: Env, s: Sys, events: seq<Event>, k: nat)
    requires k < |events|
    ensures Resume(env, s, events) == Resume(env, Step(env, Resume(env, s, events[..k]), events[k]), events[k + 1..])
  {
    assert events == events[..k + 1] + events[k + 1..];
    ResumeConcat(env, s, events[..k + 1], events[k + 1..]);
    assert events[..k + 1][..k] == events[..k];
  }

  lemma StepKeepsStores(env: Env, s: Sys, e: Event)
    ensures s.stores <= Step(env, s, e).stores
  {
  }

  lemma {:induction false} ResumeKeepsStores(env: Env, s: Sys, events: seq<Event>)
    ensures s.stores <= Resume(env, s, events).stores
  {
    if events != [] {
      var n := |events| - 1;
      ResumeKeepsStores(env, s, events[..n]);
      StepKeepsStores(env, Resume(env, s, events[..n]), events[n]);
    }
  }

  /** A task is moved by nobody else. */
  lemma OthersLeaveAlone(env: Env, s: Sys, e: Event, id: nat)
    requires id < |s.tasks| && (e.Locked? || e.Reply? ==> e.task != id)
    ensures Step(env, s, e).tasks[id] == s.tasks[id]
  {
  }

  predicate Waiting(task: Task) {
    task.Forwarding? || task.AwaitingA? || task.Chasing? || task.ChasingAaaa? || task.Finished?
  }

  /** A lookup waiting for upstream, or finished, takes no lock: only a reply to it moves it. */
  lemma OnlyRepliesMove(env: Env, s: Sys, e: Event, id: nat)
    requires id < |s.tasks| && Waiting(s.tasks[id])
    ensures Step(env, s, e).tasks[id] ==
      if e.Reply? && e.task == id then AfterReply(env, s.tasks[id], e.reply) else s.tasks[id]
  {
    if e == Locked(id) {
      assert UnderLock(env, s, id) == s;
    } else if e.Reply? && e.task == id {
      assert Step(env, s, e) == Move(s, id, AfterReply(env, s.tasks[id], e.reply));
    } else {
      OthersLeaveAlone(env, s, e, id);
    }
  }

  lemma {:induction false} FinishedStays(env: Env, s: Sys, events: seq<Event>, id: nat)
    requires id < |s.tasks| && s.tasks[id].Finished?
    ensures Resume(env, s, events).tasks[id] == s.tasks[id]
  {
    if events != [] {
      var n := |events| - 1;
      FinishedStays(env, s, events[..n], id);
      OnlyRepliesMove(env, Resume(env, s, events[..n]), events[n], id);
    }
  }

  // ----- The run of a lookup after its store -----

  /** Upstream's replies to a task, in order. */
  function RepliesTo(events: seq<Event>, id: nat): seq<Option<seq<Record>>> {
    if events == [] then []
    else
      var e := events[|events| - 1];
      RepliesTo(events[..|events| - 1], id) + (if e.Reply? && e.task == id then [e.reply] else [])
  }

  /** Upstream's records for the target of the first stored CNAME: none without a CNAME, otherwise its A and its AAAA reply. */
  function Chased(task: Task, replies: seq<Option<seq<Record>>>): seq<Record>
    requires task.Storing?
  {
    if FirstTarget(task.Stored()).None? || |replies| < 2 then [] else OrEmpty(replies[0]) + OrEmpty(replies[1])
  }

  /** Where a lookup is when it has stored its answer and upstream has replied to it so often. */
  function Pursued(task: Task, replies: seq<Option<seq<Record>>>): Task
    requires task.Storing?
  {
    if FirstTarget(task.Stored()).Some? && |replies| == 0 then
      Chasing(task.name, task.rtype, task.answers, task.synthesized)
    else if FirstTarget(task.Stored()).Some? && |replies| == 1 then
      ChasingAaaa(task.name, task.rtype, task.answers, task.synthesized, OrEmpty(replies[0]))
    else
      Finished(task.name, task.rtype, Some(Returned(task.answers, task.synthesized, task.Stored(), Chased(task, replies))))
  }

  lemma PursuedStep(env: Env, task: Task, replies: seq<Option<seq<Record>>>, reply: Option<seq<Record>>)
    requires task.Storing?
    ensures AfterReply(env, Pursued(task, replies), reply) == Pursued(task, replies + [reply])
  {
    if FirstTarget(task.Stored()).Some? && |replies| == 1 {
      assert (replies + [reply])[0] == replies[0] && (replies + [reply])[1] == reply;
    }
  }

  lemma StoredThenMoves(env: Env, s: Sys, id: nat)
    requires id < |s.tasks| && s.tasks[id].Storing?
    ensures Step(env, s, Locked(id)).tasks[id] == Pursued(s.tasks[id], [])
  {
  }

  /** Whatever else happens, a lookup that has stored its answer goes on by upstream's replies to it alone. */
  lemma {:induction false} RunsByReplies(env: Env, s: Sys, id: nat, events: seq<Event>)
    requires id < |s.tasks| && s.tasks[id].Storing?
    ensures Resume(env, Step(env, s, Locked(id)), events).tasks[id] == Pursued(s.tasks[id], RepliesTo(events, id))
  {
    var start := Step(env, s, Locked(id));
    if events == [] {
      StoredThenMoves(env, s, id);
    } else {
      var n := |events| - 1;
      RunsByReplies(env, s, id, events[..n]);
      OnlyRepliesMove(env, Resume(env, start, events[..n]), events[n], id);
      if events[n].Reply? {
        PursuedStep(env, s.tasks[id], RepliesTo(events[..n], id), events[n].reply);
      }
    }
  }

  lemma StoresAnswer(env: Env, s: Sys, id: nat)
    requires id < |s.tasks| && s.tasks[id].Storing? && env.encode(s.tasks[id].Stored()).Some?
    ensures var t := Step(env, s, Locked(id));
      |t.stores| == |s.stores| + 1 && t.stores[|s.stores|].records == s.tasks[id].Stored()
  {
  }

  /**
   * In the later state `m`, `hit` is about to probe for the name and type that `id` was about to store
   * in `s`, and finds the key cached, the store `id` made being the latest for it.
   */
  ghost predicate MeetsStore(s: Sys, id: nat, m: Sys, hit: nat)
    requires id < |s.tasks|
  {
    var name, rtype := s.tasks[id].name, s.tasks[id].rtype;
    && hit < |m.tasks| && m.tasks[hit] == Probing(name, rtype)
    && KeyOf(name, rtype) in m.cache.entries && LatestStore(m.stores, KeyOf(name, rtype)) == |s.stores|
  }

  /**
   * A lookup that probes while the latest store for its key is the one `id` makes finishes with exactly the
   * records `id` stores.
   */
  lemma HitReturnsStored(env: Env, s: Sys, id: nat, events: seq<Event>, hit: nat)
    requires RoundTrips(env) && Safe(env, s) && id < |s.tasks| && s.tasks[id].Storing?
    requires env.encode(s.tasks[id].Stored()).Some?
    requires MeetsStore(s, id, Resume(env, Step(env, s, Locked(id)), events), hit)
    ensures Step(env, Resume(env, Step(env, s, Locked(id)), events), Locked(hit)).tasks[hit]
         == Finished(s.tasks[id].name, s.tasks[id].rtype, Some(s.tasks[id].Stored()))
  {
    var start := Step(env, s, Locked(id));
    StepSafe(env, s, Locked(id));
    ResumeSafe(env, start, events);
    StoresAnswer(env, s, id);
    ResumeKeepsStores(env, start, events);
    ProbeServesLatest(env, Resume(env, start, events), hit);
  }

  /**
   * Hit/miss agreement over every interleaving.  A lookup `id` stores its answer; other tasks then take
   * any steps, and some lookup `hit` of the same name and type probes while that store is still the
   * latest for the key and cached, be it before or after `id` has finished.  Then `hit` finishes with
   * the stored records; and once `id` is finished too, the two answers are equal exactly when, without
   * DNS64 records, no ANAME points away from the name, and with them, chasing the CNAME added nothing.
   */
  lemma HitMissAgreement(env: Env, s: Sys, id: nat, events: seq<Event>, k: nat, hit: nat)
    requires RoundTrips(env) && Safe(env, s) && id < |s.tasks| && s.tasks[id].Storing?
    requires env.encode(s.tasks[id].Stored()).Some?
    requires k < |events| && events[k] == Locked(hit)
    ensures MeetsStore(s, id, Resume(env, Step(env, s, Locked(id)), events[..k]), hit) ==>
      var task := s.tasks[id]; var n := Resume(env, Step(env, s, Locked(id)), events);
      && hit < |n.tasks|
      && n.tasks[hit] == Finished(task.name, task.rtype, Some(task.Stored()))
      && (n.tasks[id].Finished? ==>
            (n.tasks[id] == n.tasks[hit] <==>
             if task.synthesized == [] then forall r :: r in task.answers ==> !(r.data.ANAME? && r.data.target != task.name)
             else Chased(task, RepliesTo(events, id)) == []))
  {
    var task := s.tasks[id];
    var start := Step(env, s, Locked(id));
    var m := Resume(env, start, events[..k]);
    if MeetsStore(s, id, m, hit) {
      HitReturnsStored(env, s, id, events[..k], hit);
      ResumeSplit(env, start, events, k);
      FinishedStays(env, Step(env, m, Locked(hit)), events[k + 1..], hit);
      RunsByReplies(env, s, id, events);
      ReturnedIsStoredExactly(task.answers, task.synthesized, Chased(task, RepliesTo(events, id)), task.name);
    }
  }

  // ----- A run in which they differ -----

  lemma RunSnoc(env: Env, config: ResponseCache.Config, events: seq<Event>, e: Event)
    ensures Run(env, config, events + [e]) == Step(env, Run(env, config, events), e)
  {
    assert (events + [e])[..|events|] == events;
  }

  /** The first lookup of a run is not answered from the cache and has upstream's reply. */
  lemma Missed(env: Env, config: ResponseCache.Config, name: string, rtype: nat, reply: seq<Record>)
    requires rtype != TYPE_ANY
    ensures var s := Run(env, config, [Call(name, rtype), Locked(0), Reply(0, Some(reply))]);
      && s.tasks == [AfterReply(env, Forwarding(name, rtype), Some(reply))]
      && s.cache.config == config && s.cache.entries == map[] && s.now == 0 && s.stores == []
  {
    var e0, e1, e2 := Call(name, rtype), Locked(0), Reply(0, Some(reply));
    assert Run(env, config, []) == Boot(config);
    RunSnoc(env, config, [], e0);
    assert Run(env, config, [] + [e0]).tasks == [Probing(name, rtype)];
    RunSnoc(env, config, [] + [e0], e1);
    assert Run(env, config, [] + [e0] + [e1]).tasks == [Forwarding(name, rtype)];
    RunSnoc(env, config, [] + [e0] + [e1], e2);
    assert [] + [e0] + [e1] + [e2] == [e0, e1, e2];
  }

  /** The next lookup for a cached key is answered with the latest store for it. */
  lemma NextIsServed(env: Env, s: Sys, name: string, rtype: nat)
    requires RoundTrips(env) && Safe(env, s) && rtype != TYPE_ANY && KeyOf(name, rtype) in s.cache.entries
    ensures var t := Step(env, Step(env, s, Call(name, rtype)), Locked(|s.tasks|));
      var i := LatestStore(s.stores, KeyOf(name, rtype));
      && 0 <= i && |t.tasks| > |s.tasks|
      && t.tasks[|s.tasks|] == Finished(name, rtype, Some(s.stores[i].records))
      && (forall id :: 0 <= id < |s.tasks| ==> t.tasks[id] == s.tasks[id])
      && s.stores <= t.stores
  {
    var called := Step(env, s, Call(name, rtype));
    assert called.tasks == s.tasks + [Probing(name, rtype)];
    StepSafe(env, s, Call(name, rtype));
    ProbeServesLatest(env, called, |s.tasks|);
    StepKeepsStores(env, called, Locked(|s.tasks|));
    forall id | 0 <= id < |s.tasks| ensures Step(env, called, Locked(|s.tasks|)).tasks[id] == s.tasks[id] {
      OthersLeaveAlone(env, called, Locked(|s.tasks|), id);
    }
  }

  /**
   * With upstream answering one ANAME that points away, the first lookup returns the ANAME, and the next one
   * the ANAME and its redirect.
   */
  lemma RedirectOnlyOnHit(env: Env, config: ResponseCache.Config, name: string, target: string)
      returns (events: seq<Event>)
    requires RoundTrips(env) && config.size >= 1 && target != name && (env.cnameCloaking ==> env.cnameChainLimit >= 1)
    requires env.encode([Record(name, 0, ANAME(target)), Record(name, 0, CNAME(target))]).Some?
    ensures var s := Run(env, config, events);
      && |s.tasks| >= 2
      && s.tasks[0] == Finished(name, TYPE_A, Some([Record(name, 0, ANAME(target))]))
      && s.tasks[1] == Finished(name, TYPE_A, Some([Record(name, 0, ANAME(target)), Record(name, 0, CNAME(target))]))
  {
    events := RedirectStored(env, config, name, target);
    var s := Run(env, config, events);
    RunSafe(env, config, events);
    NextIsServed(env, s, name, TYPE_A);
    RunSnoc(env, config, events, Call(name, TYPE_A));
    RunSnoc(env, config, events + [Call(name, TYPE_A)], Locked(1));
    events := events + [Call(name, TYPE_A)] + [Locked(1)];
  }

  lemma RedirectStored(env: Env, config: ResponseCache.Config, name: string, target: string) returns (events: seq<Event>)
    requires target != name && (env.cnameCloaking ==> env.cnameChainLimit >= 1)
    requires env.encode([Record(name, 0, ANAME(target)), Record(name, 0, CNAME(target))]).Some?
    ensures var s := Run(env, config, events); var key := KeyOf(name, TYPE_A);
      && s.tasks == [Finished(name, TYPE_A, Some([Record(name, 0, ANAME(target))]))]
      && key in s.cache.entries && LatestStore(s.stores, key) == 0
      && s.stores[0].records == [Record(name, 0, ANAME(target)), Record(name, 0, CNAME(target))]
  {
    var aname := Record(name, 0, ANAME(target));
    OneRedirect(aname, Record(name, 0, CNAME(target)), name);
    Missed(env, config, name, TYPE_A, [aname]);
    events := [Call(name, TYPE_A), Locked(0), Reply(0, Some([aname]))];
    var s := Run(env, config, events);
    assert s.tasks == [Storing(name, TYPE_A, [aname], [])];
    OnlyLookupEnds(env, s);
    RunSnoc(env, config, events, Locked(0));
    RunSnoc(env, config, events + [Locked(0)], Reply(0, None));
    RunSnoc(env, config, events + [Locked(0)] + [Reply(0, None)], Reply(0, None));
    events := events + [Locked(0)] + [Reply(0, None)] + [Reply(0, None)];
  }

  /** The only lookup of a run stores its answer and ends, upstream having nothing for the target of its CNAME. */
  lemma OnlyLookupEnds(env: Env, s: Sys)
    requires |s.tasks| == 1 && s.stores == [] && s.tasks[0].Storing? && s.tasks[0].synthesized == []
    requires env.encode(s.tasks[0].Stored()).Some?
    ensures var t := Step(env, Step(env, Step(env, s, Locked(0)), Reply(0, None)), Reply(0, None));
      var task := s.tasks[0]; var key := KeyOf(task.name, task.rtype);
      && t.tasks == [Finished(task.name, task.rtype, Some(task.answers))]
      && key in t.cache.entries && LatestStore(t.stores, key) == 0 && t.stores[0].records == task.Stored()
  {
    var s1 := Step(env, s, Locked(0));
    StoredThenMoves(env, s, 0);
    StoresAnswer(env, s, 0);
    assert KeyOf(s.tasks[0].name, s.tasks[0].rtype) in s1.cache.entries;
    OnlyRepliesMove(env, s1, Reply(0, None), 0);
    OnlyRepliesMove(env, Step(env, s1, Reply(0, None)), Reply(0, None), 0);
  }

  lemma OneRedirect(aname: Record, cname: Record, name: string)
    requires aname.data.ANAME? && aname.data.target != name && cname == Record(name, aname.ttl, CNAME(aname.data.target))
    ensures Assembled([aname], [], name) == [aname, cname] && CnameCount([aname, cname]) == 1
  {
    assert [aname] + [] == [aname];
    assert Redirects([aname][..0], name) == [];
    assert Redirects([aname], name) == [cname];
    assert [aname, cname][1..] == [cname] && [cname][1..] == [];
    assert CnameCount([cname]) == 1 + CnameCount([cname][1..]);
    assert CnameCount([aname, cname]) == CnameCount([aname, cname][1..]);
  }
}
