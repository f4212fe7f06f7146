/**
 * Every run of src/core/resolver/forward.rs, told from what upstream replied.  `Heard` is the list of replies
 * a task got to its queries; the lemmas say which queries it sends, what it stores and what it answers
 * as relations on those replies, and prove that the steps of `Forwarder` come to exactly that.
 */
module ForwarderHistory {
  import opened Prelude
  import ResponseCache
  import opened Forwarder
  import opened ForwarderAgreement

  type Replies = seq<Option<seq<Record>>>

  // ----- What is derived from a reply -----

  /**
   * The redirects of a list are those of its records, in order: one CNAME for an ANAME pointing elsewhere,
   * none for anything else.
   */
  lemma {:induction false} RedirectsExactly(a: seq<Record>, b: seq<Record>, r: Record, name: string)
    ensures Redirects([], name) == []
    ensures Redirects(a + b, name) == Redirects(a, name) + Redirects(b, name)
    ensures Redirects([r], name) ==
      if r.data.ANAME? && r.data.target != name then [Record(name, r.ttl, CNAME(r.data.target))] else []
  {
    assert [r][..0] == [];
    if b == [] {
      assert a + b == a;
    } else {
      var n := |b| - 1;
      RedirectsExactly(a, b[..n], r, name);
      assert (a + b)[..|a + b| - 1] == a + b[..n] && (a + b)[|a + b| - 1] == b[n];
      ConcatAssociative(Redirects(a, name), Redirects(b[..n], name), Redirects(b, name)[|Redirects(b[..n], name)|..]);
    }
  }

  /** Embedding goes record by record as well: one AAAA for an A record that can be embedded, none for anything else. */
  lemma {:induction false} EmbeddedExactly(embed: nat -> Option<nat>, name: string, ttl: nat, a: seq<Record>, b: seq<Record>, r: Record)
    ensures Embedded(embed, name, ttl, []) == []
    ensures Embedded(embed, name, ttl, a + b) == Embedded(embed, name, ttl, a) + Embedded(embed, name, ttl, b)
    ensures Embedded(embed, name, ttl, [r]) ==
      if r.data.A? && embed(r.data.v4).Some? then [Record(name, ttl, AAAA(embed(r.data.v4).value))] else []
  {
    assert [r][1..] == [];
    if a == [] {
      assert a + b == b;
    } else {
      EmbeddedExactly(embed, name, ttl, a[1..], b, r);
      assert (a + b)[0] == a[0] && (a + b)[1..] == a[1..] + b;
    }
  }

  lemma {:induction false} EmbeddedSkipsOthers(embed: nat -> Option<nat>, name: string, ttl: nat, rs: seq<Record>)
    ensures Embedded(embed, name, ttl, AddressRecords(rs)) == Embedded(embed, name, ttl, rs)
  {
    if rs != [] {
      EmbeddedSkipsOthers(embed, name, ttl, rs[1..]);
      if rs[0].data.A? {
        assert AddressRecords(rs)[0] == rs[0] && AddressRecords(rs)[1..] == AddressRecords(rs[1..]);
      } else {
        assert AddressRecords(rs) == AddressRecords(rs[1..]);
      }
    }
  }

  /** The shortest TTL among the A records. */
  ghost predicate IsShortest(ttl: nat, records: seq<Record>) {
    && (exists x :: x in records && x.data.A? && x.ttl == ttl)
    && (forall x :: x in records && x.data.A? ==> ttl <= x.ttl)
  }

  /**
   * DNS64 records for `name` from a reply to the A query: the embeddings of its A records, under the
   * shortest of their TTLs.
   */
  ghost predicate EmbedsReply(env: Env, name: string, reply: Option<seq<Record>>, embedded: seq<Record>)
    requires env.dns64.Some?
  {
    match reply
    case None => embedded == []
    case Some(rs) => exists ttl :: embedded == Embedded(env.dns64.value, name, ttl, rs) && (embedded == [] || IsShortest(ttl, rs))
  }

  lemma Dns64Exactly(env: Env, name: string, reply: Option<seq<Record>>)
    requires env.dns64.Some?
    ensures EmbedsReply(env, name, reply, Dns64Records(env, name, reply))
  {
    if reply.Some? {
      var rs := reply.value;
      var addresses := AddressRecords(rs);
      EmbeddedSkipsOthers(env.dns64.value, name, MinTtl(addresses), rs);
      AddressRecordsMeaning(rs);
      if addresses != [] {
        MinTtlMeaning(addresses);
        assert IsShortest(MinTtl(addresses), rs);
      }
    }
  }

  // ----- What a run tells about a task -----

  /** Why a task is there: a client called, or a probe for this name and type started a refresh. */
  datatype Cause = Called(name: string, rtype: nat) | Refresh(name: string, rtype: nat)

  /** A query is out. */
  predicate Awaiting(task: Task) {
    task.Forwarding? || task.AwaitingA? || task.Chasing? || task.ChasingAaaa? || task.AnyForwarding? || task.PrefetchForwarding?
  }

  /** The replies a task got to its queries, in order. */
  function Heard(env: Env, config: ResponseCache.Config, events: seq<Event>, id: nat): Replies {
    if events == [] then []
    else
      var n := |events| - 1;
      var tasks := Run(env, config, events[..n]).tasks;
      Heard(env, config, events[..n], id) +
      (if events[n].Reply? && events[n].task == id && id < |tasks| && Awaiting(tasks[id]) then [events[n].reply] else [])
  }

  function CauseOf(env: Env, config: ResponseCache.Config, events: seq<Event>, id: nat): Cause {
    if events == [] then Called("", 0)
    else
      var n := |events| - 1;
      var tasks := Run(env, config, events[..n]).tasks;
      if id < |tasks| then CauseOf(env, config, events[..n], id) else CauseIn(tasks, events[n])
  }

  function CauseIn(tasks: seq<Task>, e: Event): Cause {
    match e
    case Call(name, rtype) => Called(name, rtype)
    case Locked(k) => if k < |tasks| then Refresh(tasks[k].name, tasks[k].rtype) else Refresh("", 0)
    case _ => Refresh("", 0)
  }

  /** The queries a task sent, in order. */
  function Queries(asked: seq<Ask>, id: nat): seq<(string, nat)> {
    if asked == [] then []
    else
      var last := asked[|asked| - 1];
      Queries(asked[..|asked| - 1], id) + (if last.task == id then [(last.name, last.rtype)] else [])
  }

  /** An AAAA lookup is given DNS64 records: a prefix is set, and upstream has no AAAA record or synthesis is forced. */
  ghost predicate Synthesizes(env: Env, rtype: nat, answers: seq<Record>) {
    rtype == 28 && env.dns64.Some? && (env.alwaysSynthesize || forall r :: r in answers ==> !r.data.AAAA?)
  }

  /** The first reply is the answer, and the second, if DNS64 asks for one, is what the embedded records come from. */
  ghost predicate Gathered(env: Env, name: string, rtype: nat, heard: Replies, answers: seq<Record>, embedded: seq<Record>) {
    && |heard| >= 1 && heard[0] == Some(answers)
    && if Synthesizes(env, rtype, answers) then |heard| >= 2 && EmbedsReply(env, name, heard[1], embedded) else embedded == []
  }

  /** How many replies that takes, and the queries they are to. */
  ghost function Needed(env: Env, rtype: nat, answers: seq<Record>): nat {
    if Synthesizes(env, rtype, answers) then 2 else 1
  }

  ghost function FirstQueries(env: Env, name: string, rtype: nat, answers: seq<Record>): seq<(string, nat)> {
    if Synthesizes(env, rtype, answers) then [(name, rtype), (name, 1)] else [(name, rtype)]
  }

  /** What is stored for the answers: they, the embedded records, and the redirects of both. */
  function Full(answers: seq<Record>, embedded: seq<Record>, name: string): seq<Record> {
    answers + embedded + Redirects(answers + embedded, name)
  }

  ghost predicate OverLimit(env: Env, records: seq<Record>) {
    env.cnameCloaking && CnameCount(records) > env.cnameChainLimit
  }

  ghost predicate FromCache(served: seq<Served>, id: nat, task: Task) {
    && task.Finished? && task.answer.Some?
    && exists j :: 0 <= j < |served| && served[j].task == id && served[j].name == task.name
                   && served[j].rtype == task.rtype && served[j].records == task.answer.value
  }

  // ----- Plain lookups -----

  /** A lookup that has its records and nothing left to ask but the target of a CNAME. */
  ghost predicate HasGathered(env: Env, name: string, rtype: nat, heard: Replies, task: Task) {
    && task.HasAnswer() && task.name == name && task.rtype == rtype
    && Gathered(env, name, rtype, heard, task.answers, task.synthesized)
    && !OverLimit(env, Full(task.answers, task.synthesized, name))
  }

  /** The end of a lookup that missed, from its replies. */
  ghost predicate MissEnds(env: Env, name: string, rtype: nat, heard: Replies, queries: seq<(string, nat)>, answer: Option<seq<Record>>) {
    && heard != []
    && match heard[0]
       case None => |heard| == 1 && queries == [(name, rtype)] && answer == None
       case Some(answers) => exists embedded ::
         && Gathered(env, name, rtype, heard, answers, embedded)
         && AnswerEnds(env, name, rtype, heard, queries, answer, answers, embedded)
  }

  /**
   * Over the limit there is no answer.  Otherwise it is what upstream answered if nothing was embedded, else all that was
   * stored and all that upstream has for the first CNAME's target, asked for by A and by AAAA.
   */
  ghost predicate AnswerEnds(env: Env, name: string, rtype: nat, heard: Replies, queries: seq<(string, nat)>,
                             answer: Option<seq<Record>>, answers: seq<Record>, embedded: seq<Record>)
  {
    var stored, n, first := Full(answers, embedded, name), Needed(env, rtype, answers), FirstQueries(env, name, rtype, answers);
    if OverLimit(env, stored) then |heard| == n && queries == first && answer == None
    else
      match FirstTarget(stored)
      case None => |heard| == n && queries == first && answer == Some(if embedded == [] then answers else stored)
      case Some(target) =>
        && |heard| == n + 2 && queries == first + [(target, 1), (target, 28)]
        && answer == Some(if embedded == [] then answers else stored + (OrEmpty(heard[n]) + OrEmpty(heard[n + 1])))
  }

  /** A lookup's state and queries, from its replies. */
  ghost predicate LookupExplained(env: Env, name: string, rtype: nat, heard: Replies, queries: seq<(string, nat)>,
                                  served: seq<Served>, id: nat, task: Task)
  {
    && task.name == name && task.rtype == rtype
    && match task
       case Probing(_, _) => heard == [] && queries == []
       case Forwarding(_, _) => heard == [] && queries == [(name, rtype)]
       case AwaitingA(_, _, answers) =>
         heard == [Some(answers)] && Synthesizes(env, rtype, answers) && queries == [(name, rtype), (name, 1)]
       case Storing(_, _, answers, _) =>
         && HasGathered(env, name, rtype, heard, task)
         && |heard| == Needed(env, rtype, answers) && queries == FirstQueries(env, name, rtype, answers)
       case Chasing(_, _, answers, synthesized) =>
         && HasGathered(env, name, rtype, heard, task) && |heard| == Needed(env, rtype, answers)
         && var target := FirstTarget(Full(answers, synthesized, name));
         target.Some? && queries == FirstQueries(env, name, rtype, answers) + [(target.value, 1)]
       case ChasingAaaa(_, _, answers, synthesized, chasedA) =>
         && HasGathered(env, name, rtype, heard, task) && |heard| == Needed(env, rtype, answers) + 1
         && chasedA == OrEmpty(heard[Needed(env, rtype, answers)])
         && var target := FirstTarget(Full(answers, synthesized, name));
         target.Some? && queries == FirstQueries(env, name, rtype, answers) + [(target.value, 1), (target.value, 28)]
       case Finished(_, _, answer) =>
         || (heard == [] && queries == [] && FromCache(served, id, task))
         || MissEnds(env, name, rtype, heard, queries, answer)
       case _ => false
  }

  // ----- ANY lookups and refreshes -----

  predicate Nothing(reply: Option<seq<Record>>) {
    reply == None || reply == Some([])
  }

  /** An ANY lookup tries A, and AAAA if upstream has nothing for A; an answer is the first reply with records. */
  ghost predicate AnyExplained(name: string, heard: Replies, queries: seq<(string, nat)>, served: seq<Served>, id: nat, task: Task) {
    && task.name == name
    && (forall i :: 0 <= i < |heard| - 1 ==> Nothing(heard[i]))
    && match task
       case AnyProbing(_, rtype) =>
         if rtype == 1 then heard == [] && queries == []
         else rtype == 28 && |heard| == 1 && Nothing(heard[0]) && queries == [(name, 1)]
       case AnyForwarding(_, rtype) =>
         if rtype == 1 then heard == [] && queries == [(name, 1)]
         else rtype == 28 && |heard| == 1 && Nothing(heard[0]) && queries == [(name, 1), (name, 28)]
       case AnyStoring(_, rtype, records) => AnyAnswered(name, heard, queries, rtype, records)
       case Finished(_, rtype, None) =>
         |heard| == 2 && Nothing(heard[1]) && queries == [(name, 1), (name, 28)]
       case Finished(_, rtype, Some(records)) =>
         || AnyAnswered(name, heard, queries, rtype, records)
         || (records != [] && FromCache(served, id, task)
             && if rtype == 1 then heard == [] && queries == []
                else rtype == 28 && |heard| == 1 && Nothing(heard[0]) && queries == [(name, 1)])
       case _ => false
  }

  ghost predicate AnyAnswered(name: string, heard: Replies, queries: seq<(string, nat)>, rtype: nat, records: seq<Record>) {
    && records != [] && heard != [] && heard[|heard| - 1] == Some(records)
    && if rtype == 1 then |heard| == 1 && queries == [(name, 1)]
       else rtype == 28 && |heard| == 2 && queries == [(name, 1), (name, 28)]
  }

  ghost predicate RefreshExplained(name: string, rtype: nat, heard: Replies, queries: seq<(string, nat)>, task: Task) {
    && task.name == name && task.rtype == rtype && queries == [(name, rtype)]
    && match task
       case PrefetchForwarding(_, _) => heard == []
       case PrefetchStoring(_, _, records) => heard == [Some(records)]
       case Finished(_, _, answer) => |heard| == 1 && answer == None
       case _ => false
  }

  ghost predicate TaskExplained(env: Env, cause: Cause, heard: Replies, queries: seq<(string, nat)>, served: seq<Served>, id: nat, task: Task) {
    match cause
    case Called(name, rtype) =>
      if rtype == 255 then AnyExplained(name, heard, queries, served, id, task)
      else LookupExplained(env, name, rtype, heard, queries, served, id, task)
    case Refresh(name, rtype) => RefreshExplained(name, rtype, heard, queries, task)
  }

  // ----- Replies -----

  /** The side query that comes with a new state. */
  function Sent(task: Task): seq<(string, nat)> {
    if task.SideQuery().Some? then [task.SideQuery().value] else []
  }

  lemma WantsExactly(env: Env, rtype: nat, answers: seq<Record>)
    ensures WantsDns64(env, rtype, answers) <==> Synthesizes(env, rtype, answers)
  {
    assert (forall i :: 0 <= i < |answers| ==> !answers[i].data.AAAA?) <==> forall r :: r in answers ==> !r.data.AAAA?;
  }

  lemma PreparedExplained(env: Env, name: string, rtype: nat, heard: Replies, queries: seq<(string, nat)>, served: seq<Served>, id: nat,
                          answers: seq<Record>, embedded: seq<Record>)
    requires Gathered(env, name, rtype, heard, answers, embedded) && |heard| == Needed(env, rtype, answers)
    requires queries == FirstQueries(env, name, rtype, answers)
    ensures var task := Prepared(env, name, rtype, answers, embedded);
      task.SideQuery() == None && LookupExplained(env, name, rtype, heard, queries, served, id, task)
  {
    assert Assembled(answers, embedded, name) == Full(answers, embedded, name);
    if OverLimit(env, Full(answers, embedded, name)) {
      assert AnswerEnds(env, name, rtype, heard, queries, None, answers, embedded);
    }
  }

  lemma ForwardingHears(env: Env, name: string, rtype: nat, served: seq<Served>, id: nat, reply: Option<seq<Record>>)
    ensures var task := AfterReply(env, Forwarding(name, rtype), reply);
      LookupExplained(env, name, rtype, [reply], [(name, rtype)] + Sent(task), served, id, task)
  {
    if reply.Some? {
      var answers := reply.value;
      WantsExactly(env, rtype, answers);
      if !Synthesizes(env, rtype, answers) {
        PreparedExplained(env, name, rtype, [reply], [(name, rtype)], served, id, answers, []);
      }
    }
  }

  lemma AwaitingAHears(env: Env, name: string, rtype: nat, answers: seq<Record>, served: seq<Served>, id: nat, reply: Option<seq<Record>>)
    requires Synthesizes(env, rtype, answers)
    ensures var task := AfterReply(env, AwaitingA(name, rtype, answers), reply);
      LookupExplained(env, name, rtype, [Some(answers), reply], [(name, rtype), (name, 1)] + Sent(task), served, id, task)
  {
    Dns64Exactly(env, name, reply);
    PreparedExplained(env, name, rtype, [Some(answers), reply], [(name, rtype), (name, 1)], served, id, answers, Dns64Records(env, name, reply));
  }

  lemma GatheredSnoc(env: Env, name: string, rtype: nat, heard: Replies, reply: Option<seq<Record>>, answers: seq<Record>, embedded: seq<Record>)
    requires Gathered(env, name, rtype, heard, answers, embedded)
    ensures Gathered(env, name, rtype, heard + [reply], answers, embedded)
  {
    assert (heard + [reply])[0] == heard[0];
    if Synthesizes(env, rtype, answers) {
      assert (heard + [reply])[1] == heard[1];
    }
  }

  lemma ChasingHears(env: Env, name: string, rtype: nat, heard: Replies, queries: seq<(string, nat)>, served: seq<Served>, id: nat,
                     task: Task, reply: Option<seq<Record>>)
    requires task.Chasing? && LookupExplained(env, name, rtype, heard, queries, served, id, task)
    ensures var next := AfterReply(env, task, reply);
      LookupExplained(env, name, rtype, heard + [reply], queries + Sent(next), served, id, next)
  {
    GatheredSnoc(env, name, rtype, heard, reply, task.answers, task.synthesized);
    assert Assembled(task.answers, task.synthesized, name) == Full(task.answers, task.synthesized, name);
    var target := FirstTarget(Full(task.answers, task.synthesized, name)).value;
    var first := FirstQueries(env, name, rtype, task.answers);
    assert first + [(target, 1)] + [(target, 28)] == first + [(target, 1), (target, 28)];
  }

  lemma ChasingAaaaHears(env: Env, name: string, rtype: nat, heard: Replies, queries: seq<(string, nat)>, served: seq<Served>, id: nat,
                         task: Task, reply: Option<seq<Record>>)
    requires task.ChasingAaaa? && LookupExplained(env, name, rtype, heard, queries, served, id, task)
    ensures var next := AfterReply(env, task, reply);
      LookupExplained(env, name, rtype, heard + [reply], queries + Sent(next), served, id, next)
  {
    var answers, embedded, n := task.answers, task.synthesized, Needed(env, rtype, task.answers);
    var next := AfterReply(env, task, reply);
    GatheredSnoc(env, name, rtype, heard, reply, answers, embedded);
    assert Assembled(answers, embedded, name) == Full(answers, embedded, name);
    assert (heard + [reply])[n] == heard[n] && (heard + [reply])[n + 1] == reply && (heard + [reply])[0] == Some(answers);
    assert Sent(next) == [] && queries + [] == queries;
    assert AnswerEnds(env, name, rtype, heard + [reply], queries, next.answer, answers, embedded);
  }

  lemma LookupHears(env: Env, name: string, rtype: nat, heard: Replies, queries: seq<(string, nat)>, served: seq<Served>, id: nat,
                    task: Task, reply: Option<seq<Record>>)
    requires Awaiting(task) && LookupExplained(env, name, rtype, heard, queries, served, id, task)
    ensures var next := AfterReply(env, task, reply);
      LookupExplained(env, name, rtype, heard + [reply], queries + Sent(next), served, id, next)
  {
    match task
    case Forwarding(_, _) =>
      assert heard + [reply] == [reply];
      ForwardingHears(env, name, rtype, served, id, reply);
    case AwaitingA(_, _, answers) =>
      assert heard + [reply] == [Some(answers), reply];
      AwaitingAHears(env, name, rtype, answers, served, id, reply);
    case Chasing(_, _, _, _) => ChasingHears(env, name, rtype, heard, queries, served, id, task, reply);
    case ChasingAaaa(_, _, _, _, _) => ChasingAaaaHears(env, name, rtype, heard, queries, served, id, task, reply);
  }

  lemma AnyHears(env: Env, name: string, heard: Replies, queries: seq<(string, nat)>, served: seq<Served>, id: nat,
                 task: Task, reply: Option<seq<Record>>)
    requires Awaiting(task) && AnyExplained(name, heard, queries, served, id, task)
    ensures var next := AfterReply(env, task, reply);
      AnyExplained(name, heard + [reply], queries + Sent(next), served, id, next)
  {
    var next := AfterReply(env, task, reply);
    assert Sent(next) == [] && queries + [] == queries;
    assert (heard + [reply])[|heard|] == reply;
    assert forall i :: 0 <= i < |heard| ==> (heard + [reply])[i] == heard[i];
  }

  lemma RefreshHears(env: Env, name: string, rtype: nat, heard: Replies, queries: seq<(string, nat)>, task: Task, reply: Option<seq<Record>>)
    requires Awaiting(task) && RefreshExplained(name, rtype, heard, queries, task)
    ensures var next := AfterReply(env, task, reply);
      RefreshExplained(name, rtype, heard + [reply], queries + Sent(next), next)
  {
    var next := AfterReply(env, task, reply);
    assert Sent(next) == [] && queries + [] == queries;
  }

  lemma TaskHears(env: Env, cause: Cause, heard: Replies, queries: seq<(string, nat)>, served: seq<Served>, id: nat,
                  task: Task, reply: Option<seq<Record>>)
    requires TaskExplained(env, cause, heard, queries, served, id, task)
    ensures var next := AfterReply(env, task, reply);
      TaskExplained(env, cause, if Awaiting(task) then heard + [reply] else heard, queries + Sent(next), served, id, next)
  {
    if Awaiting(task) {
      match cause
      case Called(name, rtype) =>
        if rtype == 255 {
          AnyHears(env, name, heard, queries, served, id, task, reply);
        } else {
          LookupHears(env, name, rtype, heard, queries, served, id, task, reply);
        }
      case Refresh(name, rtype) => RefreshHears(env, name, rtype, heard, queries, task, reply);
    } else {
      assert AfterReply(env, task, reply) == task && Sent(task) == [] && queries + [] == queries;
    }
  }

  // ----- Locks -----

  lemma QueriesSnoc(asked: seq<Ask>, ask: Ask, id: nat)
    ensures Queries(asked + [ask], id) == Queries(asked, id) + (if ask.task == id then [(ask.name, ask.rtype)] else [])
  {
    assert (asked + [ask])[..|asked|] == asked;
  }

  lemma MoveSends(s: Sys, id: nat, task: Task, other: nat)
    requires id < |s.tasks|
    ensures Queries(Move(s, id, task).asked, other) == Queries(s.asked, other) + (if other == id then Sent(task) else [])
    ensures Move(s, id, task).tasks == s.tasks[id := task] && Move(s, id, task).served == s.served
  {
    match task.SideQuery()
    case None => assert Queries(s.asked, other) + [] == Queries(s.asked, other);
    case Some(query) => QueriesSnoc(s.asked, Ask(id, query.0, query.1), other);
  }

  lemma StoringMovesOn(env: Env, name: string, rtype: nat, heard: Replies, queries: seq<(string, nat)>, served: seq<Served>, id: nat, task: Task)
    requires task.Storing? && LookupExplained(env, name, rtype, heard, queries, served, id, task)
    ensures LookupExplained(env, name, rtype, heard, queries + Sent(AfterStore(task)), served, id, AfterStore(task))
  {
    var answers, embedded := task.answers, task.synthesized;
    assert Assembled(answers, embedded, name) == Full(answers, embedded, name);
    if FirstTarget(task.Stored()).None? {
      assert Full(answers, embedded, name) + [] == Full(answers, embedded, name) && queries + [] == queries;
      assert AnswerEnds(env, name, rtype, heard, queries, AfterStore(task).answer, answers, embedded);
    }
  }

  /** What a probe leads to: an answer from the cache, or a query for the name and type probed for. */
  ghost predicate Probed(s: Sys, t: Sys, id: nat, name: string, rtype: nat, next: Task)
    requires id < |s.tasks|
  {
    && |t.tasks| >= |s.tasks|
    && ((exists records, expired ::
           && t.tasks[id] == Finished(name, rtype, Some(records))
           && Queries(t.asked, id) == Queries(s.asked, id)
           && t.served == s.served + [Served(id, name, rtype, records, s.now, expired)]
           && (next.AnyForwarding? ==> records != []))
        || (t.tasks[id] == next && Queries(t.asked, id) == Queries(s.asked, id) + [(name, rtype)] && t.served == s.served))
  }

  lemma PrefetchingSends(s: Sys, name: string, rtype: nat, id: nat)
    requires id < |s.tasks|
    ensures var t := Prefetching(s, name, rtype);
      && |t.tasks| >= |s.tasks| && t.tasks[id] == s.tasks[id] && t.served == s.served && t.now == s.now
      && Queries(t.asked, id) == Queries(s.asked, id)
  {
    QueriesSnoc(s.asked, Ask(|s.tasks|, name, rtype), id);
  }

  lemma ProbeExactly(env: Env, s: Sys, id: nat, name: string, rtype: nat)
    requires id < |s.tasks|
    ensures Probed(s, Probe(env, s, id, name, rtype), id, name, rtype, Forwarding(name, rtype))
  {
    var probed := ProbedCache(s, KeyOf(name, rtype));
    var t := Prefetching(probed, name, rtype);
    PrefetchingSends(probed, name, rtype, id);
    match CachedRecords(env, s, KeyOf(name, rtype))
    case Some(records) =>
      assert Probe(env, s, id, name, rtype) == Serving(t, id, name, rtype, records);
    case None =>
      assert Probe(env, s, id, name, rtype) == Asking(Put(t, id, Forwarding(name, rtype)), id, name, rtype);
      QueriesSnoc(t.asked, Ask(id, name, rtype), id);
  }

  lemma AnyProbeExactly(env: Env, s: Sys, id: nat, name: string, rtype: nat)
    requires id < |s.tasks|
    ensures Probed(s, AnyProbe(env, s, id, name, rtype), id, name, rtype, AnyForwarding(name, rtype))
  {
    QueriesSnoc(s.asked, Ask(id, name, rtype), id);
  }

  lemma ServedSnoc(served: seq<Served>, id: nat, name: string, rtype: nat, records: seq<Record>, now: nat, expired: bool)
    ensures FromCache(served + [Served(id, name, rtype, records, now, expired)], id, Finished(name, rtype, Some(records)))
  {
    assert (served + [Served(id, name, rtype, records, now, expired)])[|served|].task == id;
  }

  lemma ProbingExplained(env: Env, s: Sys, id: nat, name: string, rtype: nat, heard: Replies)
    requires id < |s.tasks| && s.tasks[id].Probing?
    requires LookupExplained(env, name, rtype, heard, Queries(s.asked, id), s.served, id, s.tasks[id])
    ensures var t := UnderLock(env, s, id);
      LookupExplained(env, name, rtype, heard, Queries(t.asked, id), t.served, id, t.tasks[id])
  {
    var t := UnderLock(env, s, id);
    assert t == Probe(env, s, id, name, rtype);
    ProbeExactly(env, s, id, name, rtype);
    if t.tasks[id].Finished? {
      var records, expired :| t.tasks[id] == Finished(name, rtype, Some(records))
        && t.served == s.served + [Served(id, name, rtype, records, s.now, expired)];
      ServedSnoc(s.served, id, name, rtype, records, s.now, expired);
    }
  }

  lemma AnyProbingExplained(env: Env, s: Sys, id: nat, name: string, heard: Replies)
    requires id < |s.tasks| && s.tasks[id].AnyProbing?
    requires AnyExplained(name, heard, Queries(s.asked, id), s.served, id, s.tasks[id])
    ensures var t := UnderLock(env, s, id);
      AnyExplained(name, heard, Queries(t.asked, id), t.served, id, t.tasks[id])
  {
    var rtype := s.tasks[id].rtype;
    var t := UnderLock(env, s, id);
    assert t == AnyProbe(env, s, id, name, rtype);
    AnyProbeExactly(env, s, id, name, rtype);
    if t.tasks[id].Finished? {
      var records, expired :| t.tasks[id] == Finished(name, rtype, Some(records)) && records != []
        && t.served == s.served + [Served(id, name, rtype, records, s.now, expired)];
      ServedSnoc(s.served, id, name, rtype, records, s.now, expired);
    }
  }

  /** A store sends nothing and moves nobody. */
  lemma StoreThenMove(env: Env, s: Sys, id: nat, name: string, rtype: nat, records: seq<Record>, byLookup: bool, task: Task)
    requires id < |s.tasks|
    ensures var t := Move(StoredIn(env, s, id, name, rtype, records, byLookup), id, task);
      && t.tasks == s.tasks[id := task] && t.served == s.served
      && Queries(t.asked, id) == Queries(s.asked, id) + Sent(task)
  {
    MoveSends(StoredIn(env, s, id, name, rtype, records, byLookup), id, task, id);
  }

  lemma StoringExplained(env: Env, s: Sys, id: nat, cause: Cause, heard: Replies)
    requires id < |s.tasks| && (s.tasks[id].Storing? || s.tasks[id].AnyStoring? || s.tasks[id].PrefetchStoring?)
    requires TaskExplained(env, cause, heard, Queries(s.asked, id), s.served, id, s.tasks[id])
    ensures var t := UnderLock(env, s, id);
      TaskExplained(env, cause, heard, Queries(t.asked, id), t.served, id, t.tasks[id])
  {
    var task := s.tasks[id];
    if task.Storing? {
      StoreThenMove(env, s, id, task.name, task.rtype, task.Stored(), true, AfterStore(task));
      StoringMovesOn(env, task.name, task.rtype, heard, Queries(s.asked, id), s.served, id, task);
    } else {
      var done := Finished(task.name, task.rtype, if task.AnyStoring? then Some(task.records) else None);
      StoreThenMove(env, s, id, task.name, task.rtype, task.records, false, done);
      assert Queries(s.asked, id) + [] == Queries(s.asked, id);
    }
  }

  lemma TaskLocked(env: Env, s: Sys, id: nat, cause: Cause, heard: Replies)
    requires id < |s.tasks| && TaskExplained(env, cause, heard, Queries(s.asked, id), s.served, id, s.tasks[id])
    ensures var t := UnderLock(env, s, id);
      TaskExplained(env, cause, heard, Queries(t.asked, id), t.served, id, t.tasks[id])
  {
    match s.tasks[id]
    case Probing(_, _) => ProbingExplained(env, s, id, cause.name, cause.rtype, heard);
    case AnyProbing(_, _) => AnyProbingExplained(env, s, id, cause.name, heard);
    case Storing(_, _, _, _) => StoringExplained(env, s, id, cause, heard);
    case AnyStoring(_, _, _) => StoringExplained(env, s, id, cause, heard);
    case PrefetchStoring(_, _, _) => StoringExplained(env, s, id, cause, heard);
    case _ => assert UnderLock(env, s, id) == s;
  }

  // ----- Steps -----

  ghost predicate AsksOwned(s: Sys) {
    forall i :: 0 <= i < |s.asked| ==> s.asked[i].task < |s.tasks|
  }

  lemma {:induction false} UnownedQueries(asked: seq<Ask>, id: nat)
    requires forall i :: 0 <= i < |asked| ==> asked[i].task != id
    ensures Queries(asked, id) == []
  {
    if asked != [] {
      UnownedQueries(asked[..|asked| - 1], id);
    }
  }

  lemma MoveAsksOwned(s: Sys, id: nat, task: Task)
    requires AsksOwned(s) && id < |s.tasks|
    ensures AsksOwned(Move(s, id, task))
  {
  }

  lemma ProbeAsksOwned(env: Env, s: Sys, id: nat, name: string, rtype: nat)
    requires AsksOwned(s) && id < |s.tasks|
    ensures AsksOwned(Probe(env, s, id, name, rtype)) && AsksOwned(AnyProbe(env, s, id, name, rtype))
  {
  }

  lemma LockAsksOwned(env: Env, s: Sys, id: nat)
    requires AsksOwned(s) && id < |s.tasks|
    ensures AsksOwned(UnderLock(env, s, id))
  {
    match s.tasks[id]
    case Probing(name, rtype) =>
      assert UnderLock(env, s, id) == Probe(env, s, id, name, rtype);
      ProbeAsksOwned(env, s, id, name, rtype);
    case AnyProbing(name, rtype) =>
      assert UnderLock(env, s, id) == AnyProbe(env, s, id, name, rtype);
      ProbeAsksOwned(env, s, id, name, rtype);
    case Storing(_, _, _, _) => StoreAsksOwned(env, s, id);
    case AnyStoring(_, _, _) => StoreAsksOwned(env, s, id);
    case PrefetchStoring(_, _, _) => StoreAsksOwned(env, s, id);
    case _ => assert UnderLock(env, s, id) == s;
  }

  lemma StoreAsksOwned(env: Env, s: Sys, id: nat)
    requires AsksOwned(s) && id < |s.tasks| && (s.tasks[id].Storing? || s.tasks[id].AnyStoring? || s.tasks[id].PrefetchStoring?)
    ensures AsksOwned(UnderLock(env, s, id))
  {
    var stored, next := UnderLockStores(env, s, id);
    MoveAsksOwned(stored, id, next);
  }

  lemma StepAsksOwned(env: Env, s: Sys, e: Event)
    requires AsksOwned(s)
    ensures AsksOwned(Step(env, s, e))
  {
    if e.Locked? && e.task < |s.tasks| {
      assert Step(env, s, e) == UnderLock(env, s, e.task);
      LockAsksOwned(env, s, e.task);
    }
    if e.Reply? && e.task < |s.tasks| {
      assert Step(env, s, e) == Move(s, e.task, AfterReply(env, s.tasks[e.task], e.reply));
      MoveAsksOwned(s, e.task, AfterReply(env, s.tasks[e.task], e.reply));
    }
  }

  /** Steps that do not concern a task send nothing for it, and answers from the cache stay logged. */
  lemma OthersSendNothing(env: Env, s: Sys, e: Event, id: nat)
    requires id < |s.tasks| && (e.Locked? || e.Reply? ==> e.task != id)
    ensures Queries(Step(env, s, e).asked, id) == Queries(s.asked, id)
  {
    match e
    case Locked(k) =>
      if k < |s.tasks| {
        OtherLockSendsNothing(env, s, k, id);
      }
    case Reply(k, reply) =>
      if k < |s.tasks| {
        MoveSends(s, k, AfterReply(env, s.tasks[k], reply), id);
      }
    case _ =>
  }

  lemma OtherLockSendsNothing(env: Env, s: Sys, k: nat, id: nat)
    requires id < |s.tasks| && k < |s.tasks| && k != id
    ensures Queries(UnderLock(env, s, k).asked, id) == Queries(s.asked, id)
  {
    match s.tasks[k]
    case Probing(name, rtype) =>
      assert UnderLock(env, s, k) == Probe(env, s, k, name, rtype);
      OtherProbeSendsNothing(env, s, k, id, name, rtype);
    case AnyProbing(name, rtype) =>
      assert UnderLock(env, s, k) == AnyProbe(env, s, k, name, rtype);
      QueriesSnoc(s.asked, Ask(k, name, rtype), id);
    case Storing(_, _, _, _) => OtherStoreSendsNothing(env, s, k, id);
    case AnyStoring(_, _, _) => OtherStoreSendsNothing(env, s, k, id);
    case PrefetchStoring(_, _, _) => OtherStoreSendsNothing(env, s, k, id);
    case _ => assert UnderLock(env, s, k) == s;
  }

  lemma OtherProbeSendsNothing(env: Env, s: Sys, k: nat, id: nat, name: string, rtype: nat)
    requires id < |s.tasks| && k < |s.tasks| && k != id
    ensures Queries(Probe(env, s, k, name, rtype).asked, id) == Queries(s.asked, id)
  {
    var probed := ProbedCache(s, KeyOf(name, rtype));
    var t := Prefetching(probed, name, rtype);
    PrefetchingSends(probed, name, rtype, id);
    QueriesSnoc(t.asked, Ask(k, name, rtype), id);
  }

  lemma OtherStoreSendsNothing(env: Env, s: Sys, k: nat, id: nat)
    requires id < |s.tasks| && k < |s.tasks| && k != id
    requires s.tasks[k].Storing? || s.tasks[k].AnyStoring? || s.tasks[k].PrefetchStoring?
    ensures Queries(UnderLock(env, s, k).asked, id) == Queries(s.asked, id)
  {
    var stored, next := UnderLockStores(env, s, k);
    MoveSends(stored, k, next, id);
  }

  /** A lock taken to store changes the cache and the store log, and then moves its holder on. */
  lemma UnderLockStores(env: Env, s: Sys, k: nat) returns (stored: Sys, next: Task)
    requires k < |s.tasks| && (s.tasks[k].Storing? || s.tasks[k].AnyStoring? || s.tasks[k].PrefetchStoring?)
    ensures stored.tasks == s.tasks && stored.asked == s.asked && stored.served == s.served
    ensures UnderLock(env, s, k) == Move(stored, k, next)
  {
    var task := s.tasks[k];
    match task
    case Storing(name, rtype, answers, synthesized) =>
      stored, next := StoredIn(env, s, k, name, rtype, Assembled(answers, synthesized, name), true), AfterStore(task);
    case AnyStoring(name, rtype, records) =>
      stored, next := StoredIn(env, s, k, name, rtype, records, false), Finished(name, rtype, Some(records));
    case PrefetchStoring(name, rtype, records) =>
      stored, next := StoredIn(env, s, k, name, rtype, records, false), Finished(name, rtype, None);
  }

  lemma StepKeepsServed(env: Env, s: Sys, e: Event)
    ensures s.served <= Step(env, s, e).served
  {
  }

  lemma ExplainedLater(env: Env, cause: Cause, heard: Replies, queries: seq<(string, nat)>, served: seq<Served>, more: seq<Served>, id: nat, task: Task)
    requires TaskExplained(env, cause, heard, queries, served, id, task) && served <= more
    ensures TaskExplained(env, cause, heard, queries, more, id, task)
  {
    if FromCache(served, id, task) {
      var j :| 0 <= j < |served| && served[j].task == id && served[j].name == task.name
               && served[j].rtype == task.rtype && served[j].records == task.answer.value;
      assert more[j] == served[j];
      assert FromCache(more, id, task);
    }
  }

  /** The reply, if `e` is one to a query of task `id`. */
  function HeardIn(tasks: seq<Task>, e: Event, id: nat): Replies {
    if e.Reply? && e.task == id && id < |tasks| && Awaiting(tasks[id]) then [e.reply] else []
  }

  lemma StepExplained(env: Env, s: Sys, e: Event, id: nat, cause: Cause, heard: Replies)
    requires id < |s.tasks| && TaskExplained(env, cause, heard, Queries(s.asked, id), s.served, id, s.tasks[id])
    ensures var t := Step(env, s, e);
      TaskExplained(env, cause, heard + HeardIn(s.tasks, e, id), Queries(t.asked, id), t.served, id, t.tasks[id])
  {
    var t := Step(env, s, e);
    assert heard + [] == heard;
    if e == Locked(id) {
      TaskLocked(env, s, id, cause, heard);
    } else if e.Reply? && e.task == id {
      TaskHears(env, cause, heard, Queries(s.asked, id), s.served, id, s.tasks[id], e.reply);
      MoveSends(s, id, AfterReply(env, s.tasks[id], e.reply), id);
    } else {
      OthersLeaveAlone(env, s, e, id);
      OthersSendNothing(env, s, e, id);
      StepKeepsServed(env, s, e);
      ExplainedLater(env, cause, heard, Queries(s.asked, id), s.served, t.served, id, s.tasks[id]);
    }
  }

  lemma SpawnExplained(env: Env, s: Sys, e: Event, id: nat)
    requires AsksOwned(s) && |s.tasks| <= id < |Step(env, s, e).tasks|
    ensures var t := Step(env, s, e);
      TaskExplained(env, CauseIn(s.tasks, e), [], Queries(t.asked, id), t.served, id, t.tasks[id])
  {
    if e.Locked? {
      RefreshSpawned(env, s, e.task);
      assert Step(env, s, e) == UnderLock(env, s, e.task);
    } else {
      OnlyCallsAndLocksSpawn(env, s, e);
      UnownedQueries(s.asked, id);
    }
  }

  lemma OnlyCallsAndLocksSpawn(env: Env, s: Sys, e: Event)
    requires !e.Locked? && |s.tasks| < |Step(env, s, e).tasks|
    ensures e.Call?
  {
  }

  lemma OnlyProbesSpawn(env: Env, s: Sys, k: nat)
    requires k < |s.tasks| && |s.tasks| < |UnderLock(env, s, k).tasks|
    ensures s.tasks[k].Probing?
  {
  }

  lemma RefreshSpawned(env: Env, s: Sys, k: nat)
    requires AsksOwned(s) && k < |s.tasks| && |s.tasks| < |UnderLock(env, s, k).tasks|
    ensures var t := UnderLock(env, s, k); var id := |s.tasks|;
      && |t.tasks| == id + 1
      && t.tasks[id] == PrefetchForwarding(s.tasks[k].name, s.tasks[k].rtype)
      && Queries(t.asked, id) == [(s.tasks[k].name, s.tasks[k].rtype)]
  {
    OnlyProbesSpawn(env, s, k);
    var name, rtype := s.tasks[k].name, s.tasks[k].rtype;
    assert UnderLock(env, s, k) == Probe(env, s, k, name, rtype);
    ProbeSpawns(env, s, k, name, rtype);
  }

  lemma ProbeSpawns(env: Env, s: Sys, k: nat, name: string, rtype: nat)
    requires AsksOwned(s) && k < |s.tasks| && |s.tasks| < |Probe(env, s, k, name, rtype).tasks|
    ensures var t := Probe(env, s, k, name, rtype); var id := |s.tasks|;
      && |t.tasks| == id + 1 && t.tasks[id] == PrefetchForwarding(name, rtype) && Queries(t.asked, id) == [(name, rtype)]
  {
    var id := |s.tasks|;
    UnownedQueries(s.asked, id);
    QueriesSnoc(s.asked, Ask(id, name, rtype), id);
    QueriesSnoc(s.asked + [Ask(id, name, rtype)], Ask(k, name, rtype), id);
  }

  // ----- Runs -----

  lemma {:induction false} HeardFresh(env: Env, config: ResponseCache.Config, events: seq<Event>, id: nat)
    requires id >= |Run(env, config, events).tasks|
    ensures Heard(env, config, events, id) == []
  {
    if events != [] {
      HeardFresh(env, config, events[..|events| - 1], id);
    }
  }

  lemma {:induction false} RunAsksOwned(env: Env, config: ResponseCache.Config, events: seq<Event>)
    ensures AsksOwned(Run(env, config, events))
  {
    if events != [] {
      var n := |events| - 1;
      RunAsksOwned(env, config, events[..n]);
      StepAsksOwned(env, Run(env, config, events[..n]), events[n]);
    }
  }

  /**
   * After any run, every task's state, queries and answer are what its cause and the replies to its queries make
   * them: the answer of a lookup is a cached one or comes from its own replies as `MissEnds` says.
   */
  lemma {:induction false} TaskHistory(env: Env, config: ResponseCache.Config, events: seq<Event>, id: nat)
    requires id < |Run(env, config, events).tasks|
    ensures var s := Run(env, config, events);
      TaskExplained(env, CauseOf(env, config, events, id), Heard(env, config, events, id),
                    Queries(s.asked, id), s.served, id, s.tasks[id])
  {
    if events != [] {
      var n := |events| - 1;
      var before := Run(env, config, events[..n]);
      if id < |before.tasks| {
        TaskHistory(env, config, events[..n], id);
        StepExplained(env, before, events[n], id, CauseOf(env, config, events[..n], id), Heard(env, config, events[..n], id));
      } else {
        RunAsksOwned(env, config, events[..n]);
        HeardFresh(env, config, events[..n], id);
        SpawnExplained(env, before, events[n], id);
      }
    }
  }

  // ----- Stores -----

  /** A store, from the replies to its maker. */
  ghost predicate StoreExplained(env: Env, cause: Cause, heard: Replies, store: Store) {
    && store.name == cause.name
    && (store.byLookup <==> cause.Called? && cause.rtype != 255)
    && match cause
       case Called(name, rtype) =>
         if rtype == 255 then AnyStored(heard, store)
         else store.rtype == rtype && exists answers, embedded ::
           && Gathered(env, name, rtype, heard, answers, embedded)
           && store.records == Full(answers, embedded, name) && !OverLimit(env, store.records)
       case Refresh(_, rtype) => store.rtype == rtype && |heard| >= 1 && heard[0] == Some(store.records)
  }

  /** An ANY lookup stores the first reply with records, under the type it asked for. */
  ghost predicate AnyStored(heard: Replies, store: Store) {
    && store.records != []
    && ((store.rtype == 1 && |heard| >= 1 && heard[0] == Some(store.records))
        || (store.rtype == 28 && |heard| >= 2 && Nothing(heard[0]) && heard[1] == Some(store.records)))
  }

  lemma StoreExplainedLater(env: Env, cause: Cause, heard: Replies, more: Replies, store: Store)
    requires StoreExplained(env, cause, heard, store) && |more| <= 1
    ensures StoreExplained(env, cause, heard + more, store)
  {
    if more == [] {
      assert heard + more == heard;
    } else if cause.Called? && cause.rtype != 255 {
      var answers, embedded :| Gathered(env, cause.name, cause.rtype, heard, answers, embedded) && store.records == Full(answers, embedded, cause.name);
      assert heard + more == heard + [more[0]];
      GatheredSnoc(env, cause.name, cause.rtype, heard, more[0], answers, embedded);
    }
  }

  /** The records a task is about to store. */
  ghost predicate AboutToStore(task: Task, records: seq<Record>) {
    || (task.Storing? && records == task.Stored())
    || ((task.AnyStoring? || task.PrefetchStoring?) && records == task.records)
  }

  lemma StoreOfTask(env: Env, cause: Cause, heard: Replies, queries: seq<(string, nat)>, served: seq<Served>, id: nat, task: Task, store: Store)
    requires TaskExplained(env, cause, heard, queries, served, id, task) && AboutToStore(task, store.records)
    requires store.name == task.name && store.rtype == task.rtype && store.byLookup == task.Storing?
    ensures StoreExplained(env, cause, heard, store)
  {
    if task.Storing? {
      assert Assembled(task.answers, task.synthesized, task.name) == Full(task.answers, task.synthesized, task.name);
      assert Gathered(env, cause.name, cause.rtype, heard, task.answers, task.synthesized);
    }
  }

  /** A step adds a store only where a task that is about to store takes the lock, and then that one. */
  lemma StepStores(env: Env, s: Sys, e: Event)
    ensures var t := Step(env, s, e);
      || t.stores == s.stores
      || (&& e.Locked? && e.task < |s.tasks| && |t.stores| == |s.stores| + 1 && t.stores[..|s.stores|] == s.stores
          && var task, store := s.tasks[e.task], t.stores[|s.stores|];
          && store.task == e.task && store.name == task.name && store.rtype == task.rtype
          && AboutToStore(task, store.records) && store.byLookup == task.Storing?)
  {
    if e.Locked? && e.task < |s.tasks| {
      var task := s.tasks[e.task];
      assert Step(env, s, e) == UnderLock(env, s, e.task);
      match task
      case Storing(name, rtype, _, _) =>
        assert UnderLock(env, s, e.task).stores == StoredIn(env, s, e.task, name, rtype, task.Stored(), true).stores;
      case AnyStoring(name, rtype, records) =>
        assert UnderLock(env, s, e.task).stores == StoredIn(env, s, e.task, name, rtype, records, false).stores;
      case PrefetchStoring(name, rtype, records) =>
        assert UnderLock(env, s, e.task).stores == StoredIn(env, s, e.task, name, rtype, records, false).stores;
      case _ =>
    }
  }

  /**
   * After any run, everything stored comes from upstream's replies to whoever stored it.  A refresh
   * stores its reply; an ANY lookup the first reply with records; a plain lookup its first reply, then the
   * embedded records of the second if DNS64 applies, then the redirects of both, and only within
   * the chain limit.
   */
  lemma {:induction false} StoreHistory(env: Env, config: ResponseCache.Config, events: seq<Event>, i: nat)
    requires i < |Run(env, config, events).stores|
    ensures var s := Run(env, config, events); var id := s.stores[i].task;
      id < |s.tasks| && StoreExplained(env, CauseOf(env, config, events, id), Heard(env, config, events, id), s.stores[i])
  {
    if events != [] {
      var n := |events| - 1;
      var before := Run(env, config, events[..n]);
      var id := Run(env, config, events).stores[i].task;
      StepStores(env, before, events[n]);
      if i < |before.stores| {
        StoreHistory(env, config, events[..n], i);
        StoreExplainedLater(env, CauseOf(env, config, events[..n], id), Heard(env, config, events[..n], id),
                            HeardIn(before.tasks, events[n], id), before.stores[i]);
      } else {
        TaskHistory(env, config, events[..n], id);
        StoreOfTask(env, CauseOf(env, config, events[..n], id), Heard(env, config, events[..n], id), Queries(before.asked, id),
                    before.served, id, before.tasks[id], Run(env, config, events).stores[i]);
        assert Heard(env, config, events[..n], id) + [] == Heard(env, config, events[..n], id);
      }
    }
  }

  /** A task about to store does so when it takes the lock, under the shortest TTL, unless the records do not encode. */
  lemma LockStores(env: Env, s: Sys, id: nat, records: seq<Record>)
    requires id < |s.tasks| && AboutToStore(s.tasks[id], records)
    ensures var t := Step(env, s, Locked(id)); var key := KeyOf(s.tasks[id].name, s.tasks[id].rtype);
      match env.encode(records)
      case None => t.cache == s.cache && t.stores == s.stores
      case Some(bytes) =>
        && |t.stores| == |s.stores| + 1 && t.stores[|s.stores|].records == records && t.stores[|s.stores|].bytes == bytes
        && key in t.cache.entries
        && t.cache.entries[key] == ResponseCache.Entry(bytes, s.now, MinTtl(records) * ResponseCache.SECOND, 0, s.now)
  {
    var task := s.tasks[id];
    match task
    case Storing(name, rtype, _, _) => StoreMoveCaches(env, s, id, name, rtype, records, true, AfterStore(task));
    case AnyStoring(name, rtype, _) => StoreMoveCaches(env, s, id, name, rtype, records, false, Finished(name, rtype, Some(records)));
    case PrefetchStoring(name, rtype, _) => StoreMoveCaches(env, s, id, name, rtype, records, false, Finished(name, rtype, None));
  }

  lemma StoreMoveCaches(env: Env, s: Sys, id: nat, name: string, rtype: nat, records: seq<Record>, byLookup: bool, task: Task)
    requires id < |s.tasks|
    ensures var t := Move(StoredIn(env, s, id, name, rtype, records, byLookup), id, task); var key := KeyOf(name, rtype);
      match env.encode(records)
      case None => t.cache == s.cache && t.stores == s.stores
      case Some(bytes) =>
        && t.stores == s.stores + [Store(id, name, rtype, records, bytes, s.now, byLookup)]
        && key in t.cache.entries
        && t.cache.entries[key] == ResponseCache.Entry(bytes, s.now, MinTtl(records) * ResponseCache.SECOND, 0, s.now)
  {
  }

  /**
   * From a cached answer back to upstream: after any run, an entry decodes to records that its latest store's task
   * heard from upstream, as `StoreHistory` says.
   */
  lemma EntryFromUpstream(env: Env, config: ResponseCache.Config, events: seq<Event>, key: ResponseCache.CacheKey) returns (i: nat)
    requires RoundTrips(env) && config.size >= 1
    requires key in Run(env, config, events).cache.entries
    ensures var s := Run(env, config, events);
      && i < |s.stores| && KeyOf(s.stores[i].name, s.stores[i].rtype) == key
      && env.decode(s.cache.entries[key].bytes) == Some(s.stores[i].records)
      && var id := s.stores[i].task;
      StoreExplained(env, CauseOf(env, config, events, id), Heard(env, config, events, id), s.stores[i])
  {
    i := EntryHistory(env, config, events, key);
    StoreHistory(env, config, events, i);
  }
}
