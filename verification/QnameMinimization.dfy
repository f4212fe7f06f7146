/**
 * The QNAME minimization driver (src/core/resolver/qname_min.rs).  A name is its labels, without a
 * leading wildcard; the root is the empty list.  Upstream replies may change from query to query,
 * so a resolver is a function of the query's number and name.
 */
module QnameMinimization {
  import opened Prelude

  type Name = seq<string>
  type U8 = n: int | 0 <= n < 256

  datatype Failure<E> = RootName | Upstream(error: E)

  datatype MinResult<R> = MinResult(records: seq<R>, finalQname: Name, steps: nat, fellBack: bool)

  /** A run of the driver: its result, the queries it issued, and the growth of `qmin_steps_total`. */
  datatype Outcome<R, E> = Outcome(result: Result<MinResult<R>, Failure<E>>, queries: seq<Name>, counted: nat)

  type Resolver<!R, !E> = (nat, Name) -> Result<seq<R>, E>

  predicate Positive<R, E>(reply: Result<seq<R>, E>) {
    reply.Ok? && |reply.value| > 0
  }

  /** The number of peel steps: at least one, at most the cap, at most one per suffix. */
  function ProbeCount(original: Name, maxIterations: nat): (k: nat)
    ensures 1 <= k <= |original| + 1
    ensures k <= maxIterations || (maxIterations == 0 && k == 1)
    ensures maxIterations <= k || k == |original| + 1
  {
    Min(Max(maxIterations, 1), |original| + 1)
  }

  /** The suffixes of a name, from the name itself to the root. */
  function Suffixes(name: Name): (r: seq<Name>)
    ensures |r| == |name| + 1
  {
    if name == [] then [[]] else [name] + Suffixes(name[1..])
  }

  /** There are `n + 1` of them, and the `i`-th has `i` labels less. */
  lemma {:induction false} SuffixAt(name: Name, i: nat)
    requires i <= |name|
    ensures Suffixes(name)[i] == name[i..]
  {
    if i > 0 {
      SuffixAt(name[1..], i - 1);
      assert name[1..][i - 1..] == name[i..];
    }
  }

  /** The last of the first `k` probes with a non-empty answer, or -1. */
  function LastPositive<R, E>(lookup: Resolver<R, E>, original: Name, k: nat): (j: int)
    requires k <= |original| + 1
    ensures -1 <= j < k
    ensures 0 <= j ==> Positive(lookup(j, original[j..]))
    ensures forall i :: j < i < k ==> !Positive(lookup(i, original[i..]))
  {
    if k == 0 then -1
    else if Positive(lookup(k - 1, original[k - 1..])) then k - 1
    else LastPositive(lookup, original, k - 1)
  }

  /**
   * What the driver comes to: the last positive probe if there is one, else a plain query for the
   * full name, whose failure is reported as the last probe's error when that probe failed.
   */
  function Minimized<R, E>(lookup: Resolver<R, E>, original: Name, maxIterations: nat): Outcome<R, E> {
    if original == [] then Outcome(Err(RootName), [], 0)
    else
      var k := ProbeCount(original, maxIterations);
      var probes := Suffixes(original)[..k];
      var j := LastPositive(lookup, original, k);
      if j >= 0 then
        Outcome(Ok(MinResult(lookup(j, original[j..]).value, original[j..], k, false)), probes, k)
      else
        match lookup(k, original)
        case Ok(records) => Outcome(Ok(MinResult(records, original, k, true)), probes + [original], k + 1)
        case Err(e) =>
          var last := lookup(k - 1, original[k - 1..]);
          Outcome(Err(Upstream(if last.Err? then last.error else e)), probes + [original], k)
  }

  // ----- The code -----

  method PeelLabels(original: Name) returns (out: seq<Name>)
    ensures out == Suffixes(original)
  {
    var current := original;
    out := [current];
    while |current| > 1
      invariant Suffixes(original) == out + (if current == [] then [] else Suffixes(current[1..]))
      decreases |current|
    {
      current := current[1..];
      ConcatAssociative(out, [current], Suffixes(current[1..]));
      out := out + [current];
    }
    if current != [] {
      assert current[1..] == [];
      out := out + [[]];
    }
  }

  /** What the probing loop carries after `i` probes. */
  datatype Carried<R, E> = Carried(records: seq<R>, qname: Name, error: Option<E>, steps: U8)

  ghost predicate CarriesLast<R, E>(c: Carried<R, E>, lookup: Resolver<R, E>, original: Name, i: nat)
    requires i <= |original| + 1
  {
    var j := LastPositive(lookup, original, i);
    && (if j < 0 then c.records == [] else c.qname == original[j..] && lookup(j, original[j..]) == Ok(c.records))
    && c.error == (if i == 0 || lookup(i - 1, original[i - 1..]).Ok? then None
                   else Some(lookup(i - 1, original[i - 1..]).error))
    && c.steps == i
  }

  /** One turn of the probing loop; the step number is stored in eight bits. */
  method ProbeOnce<R, E>(lookup: Resolver<R, E>, original: Name, i: nat, probe: Name, c: Carried<R, E>) returns (c': Carried<R, E>)
    requires i <= |original| && i < 255 && probe == original[i..]
    requires CarriesLast(c, lookup, original, i)
    ensures CarriesLast(c', lookup, original, i + 1)
  {
    c' := c.(steps := (i + 1) % 256);
    match lookup(i, probe)
    case Ok(records) =>
      if |records| > 0 {
        c' := c'.(records := records, qname := probe);
      }
      c' := c'.(error := None);
    case Err(e) =>
      c' := c'.(error := Some(e));
  }

  method ProbeAll<R, E>(lookup: Resolver<R, E>, original: Name, labels: seq<Name>, max: nat)
    returns (c: Carried<R, E>, queries: seq<Name>)
    requires labels == Suffixes(original) && max <= |labels| && max < 256
    ensures CarriesLast(c, lookup, original, max)
    ensures queries == labels[..max]
  {
    c := Carried([], original, None, 0);
    queries := [];
    for i := 0 to max
      invariant queries == labels[..i]
      invariant CarriesLast(c, lookup, original, i)
    {
      assert labels[..i + 1] == labels[..i] + [labels[i]];
      SuffixAt(original, i);
      queries := queries + [labels[i]];
      c := ProbeOnce(lookup, original, i, labels[i], c);
    }
  }

  lemma CarriedAnswer<R, E>(c: Carried<R, E>, lookup: Resolver<R, E>, original: Name, maxIterations: nat)
    requires original != [] && CarriesLast(c, lookup, original, ProbeCount(original, maxIterations))
    ensures var k := ProbeCount(original, maxIterations); var probes := Suffixes(original)[..k];
      Minimized(lookup, original, maxIterations) ==
        if |c.records| > 0 then Outcome(Ok(MinResult(c.records, c.qname, k, false)), probes, k)
        else
          match lookup(k, original)
          case Ok(records) => Outcome(Ok(MinResult(records, original, k, true)), probes + [original], k + 1)
          case Err(e) => Outcome(Err(Upstream(if c.error.Some? then c.error.value else e)), probes + [original], k)
  {
  }

  method ResolveWithMinimization<R, E>(lookup: Resolver<R, E>, original: Name, maxIterations: U8)
    returns (outcome: Outcome<R, E>)
    ensures outcome == Minimized(lookup, original, maxIterations)
  {
    if |original| == 0 {
      return Outcome(Err(RootName), [], 0);
    }
    var labels := PeelLabels(original);
    var max := Min(Max(maxIterations, 1), |labels|);
    var c, queries := ProbeAll(lookup, original, labels, max);
    CarriedAnswer(c, lookup, original, maxIterations);
    var counted: nat := c.steps;
    if |c.records| == 0 {
      queries := queries + [original];
      match lookup(max, original)
      case Err(e) =>
        return Outcome(Err(Upstream(if c.error.Some? then c.error.value else e)), queries, counted);
      case Ok(records) =>
        counted := counted + 1;
        return Outcome(Ok(MinResult(records, original, c.steps, true)), queries, counted);
    }
    return Outcome(Ok(MinResult(c.records, c.qname, c.steps, false)), queries, counted);
  }

  // ----- Cost -----

  /**
   * The queries of a run, for every resolver and every name but the root: the full name is asked first,
   * each further probe drops one label, as many as the cap allows and there are suffixes, and a plain
   * query for the full name follows exactly when no probe was positive.
   */
  lemma Queries<R, E>(lookup: Resolver<R, E>, original: Name, maxIterations: nat)
    requires original != []
    ensures var queries := Minimized(lookup, original, maxIterations).queries; var k := ProbeCount(original, maxIterations);
      && k == (if maxIterations == 0 then 1 else if maxIterations <= |original| then maxIterations else |original| + 1)
      && |queries| >= k && (forall i :: 0 <= i < k ==> queries[i] == original[i..])
      && queries[k..] == (if exists i :: 0 <= i < k && Positive(lookup(i, original[i..])) then [] else [original])
  {
    var k := ProbeCount(original, maxIterations);
    var j := LastPositive(lookup, original, k);
    if j >= 0 {
      assert Positive(lookup(j, original[j..]));
    }
    var probes := Suffixes(original)[..k];
    forall i | 0 <= i < k ensures probes[i] == original[i..] {
      SuffixAt(original, i);
    }
    assert Minimized(lookup, original, maxIterations).queries == probes + (if j >= 0 then [] else [original]);
  }

  /**
   * The cost of a run: the counter grows by the number of queries issued, except that a failed plain query
   * is not counted.
   */
  lemma Cost<R, E>(lookup: Resolver<R, E>, original: Name, maxIterations: nat)
    requires original != []
    ensures var o := Minimized(lookup, original, maxIterations); var k := ProbeCount(original, maxIterations);
      && (o.result.Ok? ==> o.result.value.steps == k && (o.result.value.fellBack <==> |o.queries| == k + 1))
      && (o.result.Ok? <==> o.counted == |o.queries|)
      && (o.result.Err? <==> o.counted + 1 == |o.queries|)
  {
  }

  // ----- Meaning -----

  /** Same answer: both succeed with the same records, or both fail. */
  predicate Agrees<R(==), E>(o: Outcome<R, E>, direct: Result<seq<R>, E>) {
    match direct
    case Ok(records) => o.result.Ok? && o.result.value.records == records
    case Err(_) => o.result.Err?
  }

  /** Suffix `j` is the shallowest of the probed proper suffixes with a non-empty answer. */
  predicate ShallowestPositive<R, E>(upstream: Name -> Result<seq<R>, E>, original: Name, k: nat, j: nat)
    requires k <= |original| + 1
  {
    && 1 <= j < k
    && Positive(upstream(original[j..]))
    && forall i :: j < i < k ==> !Positive(upstream(original[i..]))
  }

  lemma LastPositiveUpstream<R, E>(lookup: Resolver<R, E>, upstream: Name -> Result<seq<R>, E>, original: Name, k: nat)
    requires k <= |original| + 1
    requires forall i, name :: lookup(i, name) == upstream(name)
    ensures forall j: nat :: ShallowestPositive(upstream, original, k, j) <==> j >= 1 && j == LastPositive(lookup, original, k)
  {
  }

  lemma MinimizedUpstream<R, E>(lookup: Resolver<R, E>, upstream: Name -> Result<seq<R>, E>, original: Name, maxIterations: nat)
    requires original != []
    requires forall i, name :: lookup(i, name) == upstream(name)
    ensures var last := LastPositive(lookup, original, ProbeCount(original, maxIterations));
      Agrees(Minimized(lookup, original, maxIterations), upstream(original)) <==>
        (last >= 1 ==> upstream(original[last..]) == upstream(original))
  {
  }

  /**
   * Against an upstream whose replies do not change, minimization gives the answer of the plain
   * lookup exactly when the shallowest probed proper suffix with a non-empty answer, if there is
   * one, has the very answer of the full name.
   */
  lemma AgreesExactly<R, E>(lookup: Resolver<R, E>, upstream: Name -> Result<seq<R>, E>, original: Name, maxIterations: nat)
    requires original != []
    requires forall i, name :: lookup(i, name) == upstream(name)
    ensures Agrees(Minimized(lookup, original, maxIterations), upstream(original)) <==>
      forall j: nat :: ShallowestPositive(upstream, original, ProbeCount(original, maxIterations), j)
                       ==> upstream(original[j..]) == upstream(original)
  {
    LastPositiveUpstream(lookup, upstream, original, ProbeCount(original, maxIterations));
    MinimizedUpstream(lookup, upstream, original, maxIterations);
  }

  /** In particular: no non-empty answer at a probed proper suffix, no difference from the plain lookup. */
  lemma PreservesMeaning<R, E>(lookup: Resolver<R, E>, upstream: Name -> Result<seq<R>, E>, original: Name, maxIterations: nat)
    requires original != []
    requires forall i, name :: lookup(i, name) == upstream(name)
    requires forall j :: 1 <= j < ProbeCount(original, maxIterations) ==> !Positive(upstream(original[j..]))
    ensures Agrees(Minimized(lookup, original, maxIterations), upstream(original))
  {
    AgreesExactly(lookup, upstream, original, maxIterations);
  }

  /**
   * The answer of a run: the records and the name of the last positive probe; with none, those of the
   * plain query.  The root is refused unasked.
   */
  lemma AnswerExactly<R, E>(lookup: Resolver<R, E>, original: Name, maxIterations: nat)
    ensures original == [] ==> Minimized(lookup, original, maxIterations) == Outcome(Err(RootName), [], 0)
    ensures original != [] ==> var k := ProbeCount(original, maxIterations); var o := Minimized(lookup, original, maxIterations);
      && (forall j: nat :: LastPositiveAt(lookup, original, k, j) ==>
            o.result == Ok(MinResult(lookup(j, original[j..]).value, original[j..], k, false)))
      && ((forall j :: 0 <= j < k ==> !Positive(lookup(j, original[j..]))) && lookup(k, original).Ok? ==>
            o.result == Ok(MinResult(lookup(k, original).value, original, k, true)))
  {
    if original != [] {
      var k := ProbeCount(original, maxIterations);
      forall j: nat | LastPositiveAt(lookup, original, k, j)
        ensures Minimized(lookup, original, maxIterations).result == Ok(MinResult(lookup(j, original[j..]).value, original[j..], k, false))
      {
        assert j == LastPositive(lookup, original, k);
      }
    }
  }

  /** Probe `j` is the last of the first `k` with a non-empty answer. */
  ghost predicate LastPositiveAt<R, E>(lookup: Resolver<R, E>, original: Name, k: nat, j: nat)
    requires k <= |original| + 1
  {
    j < k && Positive(lookup(j, original[j..])) && forall i :: j < i < k ==> !Positive(lookup(i, original[i..]))
  }

  /**
   * Which error a failed run reports: it fails exactly when no probe was positive and the plain query
   * failed, and it then reports the last probe's error if that probe failed, else the plain query's.
   */
  lemma ErrorSurfacedExactly<R, E>(lookup: Resolver<R, E>, original: Name, maxIterations: nat)
    requires original != []
    ensures var k := ProbeCount(original, maxIterations); var result := Minimized(lookup, original, maxIterations).result;
      && (result.Err? <==> lookup(k, original).Err? && forall i :: 0 <= i < k ==> !Positive(lookup(i, original[i..])))
      && (result.Err? && lookup(k - 1, original[k - 1..]).Err? ==> result.error == Upstream(lookup(k - 1, original[k - 1..]).error))
      && (result.Err? && lookup(k - 1, original[k - 1..]).Ok? ==> result.error == Upstream(lookup(k, original).error))
  {
    var k := ProbeCount(original, maxIterations);
    var j := LastPositive(lookup, original, k);
    if j >= 0 {
      assert Positive(lookup(j, original[j..]));
    } else {
      assert forall i :: 0 <= i < k ==> !Positive(lookup(i, original[i..]));
    }
  }

  function ParentHasOther(i: nat, name: Name): Result<seq<nat>, nat> {
    if name == ["www", "com"] then Ok([1]) else if name == ["com"] then Ok([2]) else Ok([])
  }

  /** A parent's answer replaces the name's own: `www.com` resolves to the record of `com`. */
  lemma ParentAnswerWins()
    ensures Minimized(ParentHasOther, ["www", "com"], 7).result == Ok(MinResult([2], ["com"], 3, false))
  {
  }
}
