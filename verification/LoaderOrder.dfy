/**
 * The order in which lists name each other decides what a depth-bounded search with a visited set
 * finds.  This module says for which graphs it does not: the loader fetches everything reachable,
 * whatever the order of the configured sources and of the lines in each list, exactly for shallow
 * graphs whose sources have distinct keys.
 */
module LoaderOrder {
  import opened Prelude
  import opened DomainText
  import opened ListText
  import opened Loader

  /** The same page with its lines in another order. */
  predicate SamePage(a: Page, b: Page) {
    match (a, b)
    case (Meta(c), Meta(d)) => multiset(c) == multiset(d)
    case (Hosts(m), Hosts(n)) => m == n
    case _ => false
  }

  ghost predicate Reordered(w: World, v: World) {
    w.Keys == v.Keys && forall s :: s in w ==> SamePage(w[s], v[s])
  }

  lemma SameChildren(w: World, v: World, s: string, c: string)
    requires Reordered(w, v)
    ensures c in Children(w, s) <==> c in Children(v, s)
  {
    if s in w && w[s].Meta? {
      assert c in Children(w, s) <==> c in multiset(Children(w, s));
      assert c in Children(v, s) <==> c in multiset(Children(v, s));
    }
  }

  lemma SameChains(w: World, v: World, roots: seq<string>, order: seq<string>, chain: seq<string>)
    requires Reordered(w, v) && multiset(roots) == multiset(order)
    ensures IsChain(w, roots, chain) <==> IsChain(v, order, chain)
  {
    if chain != [] {
      assert chain[0] in roots <==> chain[0] in multiset(roots);
      assert chain[0] in order <==> chain[0] in multiset(order);
    }
    forall i | 0 <= i < |chain| - 1
      ensures chain[i + 1] in Children(w, chain[i]) <==> chain[i + 1] in Children(v, chain[i])
    {
      SameChildren(w, v, chain[i], chain[i + 1]);
    }
  }

  /** What is reachable, and so both conditions, do not depend on the order. */
  lemma SameGraph(w: World, v: World, roots: seq<string>, order: seq<string>)
    requires Reordered(w, v) && multiset(roots) == multiset(order)
    ensures forall s :: Reachable(w, roots, s) <==> Reachable(v, order, s)
    ensures ShallowGraph(w, roots) ==> ShallowGraph(v, order)
    ensures KeysTellApart(w, roots) ==> KeysTellApart(v, order)
  {
    forall chain ensures IsChain(w, roots, chain) <==> IsChain(v, order, chain) {
      SameChains(w, v, roots, order, chain);
    }
  }

  // ----- Bringing a long chain to the front -----

  function IndexOf(s: seq<string>, x: string): (i: nat)
    requires x in s
    ensures i < |s| && s[i] == x
  {
    if s[0] == x then 0 else 1 + IndexOf(s[1..], x)
  }

  function InFront(s: seq<string>, x: string): seq<string>
    requires x in s
  {
    Promoted(s, IndexOf(s, x))
  }

  ghost predicate IsPathThrough(w: World, p: seq<string>) {
    p != [] && forall i :: 0 <= i < |p| - 1 ==> p[i + 1] in Children(w, p[i])
  }

  /** A list of the chain with its successor moved to the top; any other page as it is. */
  function ArrangedPage(w: World, p: seq<string>, s: string): Page
    requires IsPathThrough(w, p) && s in w
  {
    var lists := p[..|p| - 1];
    if s in lists then Meta(InFront(Children(w, s), p[IndexOf(lists, s) + 1])) else w[s]
  }

  function Arranged(w: World, p: seq<string>): World
    requires IsPathThrough(w, p)
  {
    map s | s in w :: ArrangedPage(w, p, s)
  }

  lemma ArrangedPageIsSame(w: World, p: seq<string>, s: string)
    requires IsPathThrough(w, p) && s in w
    ensures SamePage(w[s], ArrangedPage(w, p, s))
  {
    var lists := p[..|p| - 1];
    if s in lists {
      var named, next := Children(w, s), p[IndexOf(lists, s) + 1];
      PromotedIsPermutation(named, IndexOf(named, next));
    }
  }

  lemma ArrangedLeads(w: World, p: seq<string>, i: nat)
    requires IsPathThrough(w, p) && Distinct(p) && i < |p| - 1
    ensures Children(Arranged(w, p), p[i]) != [] && Children(Arranged(w, p), p[i])[0] == p[i + 1]
  {
    var lists := p[..|p| - 1];
    assert lists[i] == p[i];
    assert p[i + 1] in Children(w, p[i]);
    assert IndexOf(lists, p[i]) == i;
  }

  /** With distinct keys, a chain of more than four hops can be made to come first, and its end is then dropped. */
  lemma DeepChainSkips(w: World, roots: seq<string>, p: seq<string>) returns (v: World, order: seq<string>)
    requires IsChain(w, roots, p) && |p| == 6 && DistinctKeys(p)
    ensures Reordered(w, v) && multiset(roots) == multiset(order)
    ensures LoadSources(v, order).skipped != []
  {
    v := Arranged(w, p);
    forall s | s in w ensures SamePage(w[s], v[s]) {
      ArrangedPageIsSame(w, p, s);
    }
    assert Distinct(p);
    forall i | 0 <= i <= 4 ensures Children(v, p[i]) != [] && Children(v, p[i])[0] == p[i + 1] {
      ArrangedLeads(w, p, i);
    }
    order := InFront(roots, p[0]);
    PromotedIsPermutation(roots, IndexOf(roots, p[0]));
    ChainEndSkipped(v, order, p);
  }

  lemma ChainMemberReachable(w: World, roots: seq<string>, chain: seq<string>, i: nat)
    requires IsChain(w, roots, chain) && i < |chain|
    ensures Reachable(w, roots, chain[i])
  {
    var front := chain[..i + 1];
    assert IsChain(w, roots, front) && front[|front| - 1] == chain[i];
  }

  lemma DistinctKeysOfChain(w: World, roots: seq<string>, chain: seq<string>)
    requires KeysTellApart(w, roots) && IsChain(w, roots, chain) && Distinct(chain)
    ensures DistinctKeys(chain)
  {
    forall i, j | 0 <= i < j < |chain| ensures Normalize(chain[i]) != Normalize(chain[j]) {
      ChainMemberReachable(w, roots, chain, i);
      ChainMemberReachable(w, roots, chain, j);
    }
  }

  lemma DeepGraphLosesInSomeOrder(w: World, roots: seq<string>)
    requires KeysTellApart(w, roots) && !ShallowGraph(w, roots)
    ensures exists v, order :: Reordered(w, v) && multiset(roots) == multiset(order) && !FetchesAll(v, order)
  {
    var chain :| IsChain(w, roots, chain) && Distinct(chain) && |chain| > 5;
    var p := chain[..6];
    assert IsChain(w, roots, p) && Distinct(p);
    DistinctKeysOfChain(w, roots, p);
    var v, order := DeepChainSkips(w, roots, p);
    FetchesAllExactly(v, order);
  }

  lemma ShallowFetchesAll(w: World, roots: seq<string>)
    requires ShallowGraph(w, roots) && KeysTellApart(w, roots)
    ensures FetchesAll(w, roots)
  {
    forall s | s in roots ensures IsChain(w, roots, [] + [s]) {
    }
    LoadAllSkipsNone(w, roots, roots, 0, NOTHING, []);
    FetchesAllExactly(w, roots);
  }

  /**
   * The exact condition, on the graph alone: every order of the configured sources and of the lines
   * of the lists fetches every reachable source if and only if no chain of distinct lists is
   * longer than four hops and reachable sources have distinct normalized keys.
   */
  lemma FetchesAllInEveryOrderExactly(w: World, roots: seq<string>)
    ensures (forall v, order :: Reordered(w, v) && multiset(roots) == multiset(order) ==> FetchesAll(v, order))
      <==> ShallowGraph(w, roots) && KeysTellApart(w, roots)
  {
    if ShallowGraph(w, roots) && KeysTellApart(w, roots) {
      forall v, order | Reordered(w, v) && multiset(roots) == multiset(order) ensures FetchesAll(v, order) {
        SameGraph(w, v, roots, order);
        ShallowFetchesAll(v, order);
      }
    } else if KeysTellApart(w, roots) {
      DeepGraphLosesInSomeOrder(w, roots);
    } else {
      assert Reordered(w, w);
      FetchesAllExactly(w, roots);
    }
  }
}
