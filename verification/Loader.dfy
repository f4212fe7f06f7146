/**
 * The blocklist loader (src/core/filter/blocklist.rs, `load_source`, `load_sources`): a
 * depth-bounded depth-first search over lists that name other lists.
 *
 * Fetching is a fixed snapshot: a source is fetchable when it is in the map.
 */
module Loader {
  import opened Prelude
  import opened DomainText
  import opened ListText
  import opened ListPages
  import opened BlocklistMatch

  const META_MAX_DEPTH: nat := 4

  type World = map<string, Page>

  /** The loader's state, with the fetch attempts and the sources dropped for depth logged in order. */
  datatype Load = Load(visited: set<string>, entries: set<string>, fetched: seq<string>, skipped: seq<string>)

  const NOTHING := Load({}, {}, [], [])

  function Fetching(l: Load, src: string): Load {
    l.(visited := l.visited + {Normalize(src)}, fetched := l.fetched + [src])
  }

  function Skipping(l: Load, src: string): Load {
    l.(visited := l.visited + {Normalize(src)}, skipped := l.skipped + [src])
  }

  /** `load_source`: the key is marked before the depth is checked, and the depth before the fetch. */
  function LoadSource(w: World, src: string, depth: nat, l: Load): Load
    requires depth <= META_MAX_DEPTH + 1
    decreases META_MAX_DEPTH + 1 - depth, 0
  {
    if Normalize(src) in l.visited then l
    else if depth > META_MAX_DEPTH then Skipping(l, src)
    else if src !in w then Fetching(l, src)
    else
      match w[src]
      case Meta(children) => LoadAll(w, children, depth + 1, Fetching(l, src))
      case Hosts(names) => Fetching(l, src).(entries := l.entries + names)
  }

  function LoadAll(w: World, srcs: seq<string>, depth: nat, l: Load): Load
    requires depth <= META_MAX_DEPTH + 1
    decreases META_MAX_DEPTH + 1 - depth, |srcs|
  {
    if srcs == [] then l
    else
      var n := |srcs| - 1;
      LoadSource(w, srcs[n], depth, LoadAll(w, srcs[..n], depth, l))
  }

  function LoadSources(w: World, roots: seq<string>): Load {
    LoadAll(w, roots, 0, NOTHING)
  }

  // ----- The graph of lists -----

  function Children(w: World, s: string): seq<string> {
    if s in w && w[s].Meta? then w[s].children else []
  }

  /** A chain of lists: starts at a configured source, and each names the next. */
  ghost predicate IsChain(w: World, roots: seq<string>, chain: seq<string>) {
    && chain != []
    && chain[0] in roots
    && forall i :: 0 <= i < |chain| - 1 ==> chain[i + 1] in Children(w, chain[i])
  }

  ghost predicate ReachableWithin(w: World, roots: seq<string>, s: string, hops: nat) {
    exists chain :: IsChain(w, roots, chain) && chain[|chain| - 1] == s && |chain| <= hops + 1
  }

  ghost predicate Reachable(w: World, roots: seq<string>, s: string) {
    exists chain :: IsChain(w, roots, chain) && chain[|chain| - 1] == s
  }

  /** The host names held by the non-meta sources among `srcs`. */
  ghost function Gathered(w: World, srcs: seq<string>): set<string> {
    set s, e | s in srcs && s in w && w[s].Hosts? && e in w[s].names :: e
  }

  /** `name` is held by some reachable, fetchable, non-meta source. */
  ghost predicate Listed(w: World, roots: seq<string>, name: string) {
    exists s :: Reachable(w, roots, s) && s in w && w[s].Hosts? && name in w[s].names
  }

  ghost function KeySet(srcs: seq<string>): set<string> {
    set s | s in srcs :: Normalize(s)
  }

  predicate DistinctKeys(srcs: seq<string>) {
    forall i, j :: 0 <= i < j < |srcs| ==> Normalize(srcs[i]) != Normalize(srcs[j])
  }

  // ----- Growth -----

  ghost predicate Grows(a: Load, b: Load) {
    && a.visited <= b.visited
    && a.entries <= b.entries
    && a.fetched <= b.fetched
    && a.skipped <= b.skipped
  }

  lemma {:induction false} LoadSourceGrows(w: World, src: string, depth: nat, l: Load)
    requires depth <= META_MAX_DEPTH + 1
    ensures Grows(l, LoadSource(w, src, depth, l))
    ensures Normalize(src) in LoadSource(w, src, depth, l).visited
    decreases META_MAX_DEPTH + 1 - depth, 0
  {
    if Normalize(src) !in l.visited && depth <= META_MAX_DEPTH && src in w && w[src].Meta? {
      LoadAllGrows(w, w[src].children, depth + 1, Fetching(l, src));
    }
  }

  lemma {:induction false} LoadAllGrows(w: World, srcs: seq<string>, depth: nat, l: Load)
    requires depth <= META_MAX_DEPTH + 1
    ensures Grows(l, LoadAll(w, srcs, depth, l))
    ensures forall s :: s in srcs ==> Normalize(s) in LoadAll(w, srcs, depth, l).visited
    decreases META_MAX_DEPTH + 1 - depth, |srcs|
  {
    if srcs != [] {
      var n := |srcs| - 1;
      LoadAllGrows(w, srcs[..n], depth, l);
      LoadSourceGrows(w, srcs[n], depth, LoadAll(w, srcs[..n], depth, l));
      assert srcs == srcs[..n] + [srcs[n]];
    }
  }

  // ----- Soundness, for every graph -----

  /** Each normalized key was tried at most once, and `visited` is exactly the keys tried or dropped. */
  ghost predicate KeysOnce(l: Load) {
    && DistinctKeys(l.fetched)
    && KeySet(l.fetched) !! KeySet(l.skipped)
    && l.visited == KeySet(l.fetched) + KeySet(l.skipped)
  }

  /** Fetched sources are within four hops of a configured one, and the entries are exactly the names they hold. */
  ghost predicate Traced(w: World, roots: seq<string>, l: Load) {
    && (forall s :: s in l.fetched ==> ReachableWithin(w, roots, s, 4))
    && (forall s :: s in l.skipped ==> Reachable(w, roots, s))
    && l.entries == Gathered(w, l.fetched)
  }

  ghost predicate Sound(w: World, roots: seq<string>, l: Load) {
    KeysOnce(l) && Traced(w, roots, l)
  }

  lemma KeySetSnoc(srcs: seq<string>, s: string)
    ensures KeySet(srcs + [s]) == KeySet(srcs) + {Normalize(s)}
    ensures DistinctKeys(srcs) && Normalize(s) !in KeySet(srcs) ==> DistinctKeys(srcs + [s])
  {
  }

  lemma KeysOnceStep(l: Load, src: string)
    requires KeysOnce(l) && Normalize(src) !in l.visited
    ensures KeysOnce(Fetching(l, src)) && KeysOnce(Skipping(l, src))
  {
    KeySetSnoc(l.fetched, src);
    KeySetSnoc(l.skipped, src);
  }

  lemma TracedFetch(w: World, roots: seq<string>, l: Load, src: string)
    requires Traced(w, roots, l) && ReachableWithin(w, roots, src, 4)
    ensures var t := Fetching(l, src);
      Traced(w, roots, if src in w && w[src].Hosts? then t.(entries := l.entries + w[src].names) else t)
  {
  }

  lemma {:induction false} LoadSourceSound(w: World, roots: seq<string>, src: string, depth: nat, l: Load, chain: seq<string>)
    requires depth <= META_MAX_DEPTH + 1
    requires IsChain(w, roots, chain) && |chain| == depth + 1 && chain[depth] == src
    requires Sound(w, roots, l)
    ensures Sound(w, roots, LoadSource(w, src, depth, l))
    decreases META_MAX_DEPTH + 1 - depth, 0
  {
    if Normalize(src) !in l.visited {
      KeysOnceStep(l, src);
      if depth > META_MAX_DEPTH {
        assert Reachable(w, roots, src);
      } else {
        assert ReachableWithin(w, roots, src, 4);
        TracedFetch(w, roots, l, src);
        if src in w && w[src].Meta? {
          ChainChildren(w, roots, chain);
          LoadAllSound(w, roots, w[src].children, depth + 1, Fetching(l, src), chain);
        }
      }
    }
  }

  lemma {:induction false} LoadAllSound(w: World, roots: seq<string>, srcs: seq<string>, depth: nat, l: Load, stack: seq<string>)
    requires depth <= META_MAX_DEPTH + 1 && |stack| == depth
    requires forall s :: s in srcs ==> IsChain(w, roots, stack + [s])
    requires Sound(w, roots, l)
    ensures Sound(w, roots, LoadAll(w, srcs, depth, l))
    decreases META_MAX_DEPTH + 1 - depth, |srcs|
  {
    if srcs != [] {
      var n := |srcs| - 1;
      LoadAllSound(w, roots, srcs[..n], depth, l, stack);
      LoadSourceSound(w, roots, srcs[n], depth, LoadAll(w, srcs[..n], depth, l), stack + [srcs[n]]);
    }
  }

  /** Loading any configuration over any graph is sound. */
  lemma LoaderSound(w: World, roots: seq<string>)
    ensures Sound(w, roots, LoadSources(w, roots))
  {
    forall s | s in roots ensures IsChain(w, roots, [] + [s]) {
    }
    LoadAllSound(w, roots, roots, 0, NOTHING, []);
  }

  // ----- Closure -----

  /** Every list a fetched source names has been visited, except below the sources still being expanded. */
  ghost predicate Closed(w: World, l: Load, expanding: set<string>) {
    forall s, c :: s in l.fetched && s !in expanding && c in Children(w, s) ==> Normalize(c) in l.visited
  }

  lemma {:induction false} LoadSourceClosed(w: World, src: string, depth: nat, l: Load, expanding: set<string>)
    requires depth <= META_MAX_DEPTH + 1 && Closed(w, l, expanding)
    ensures Closed(w, LoadSource(w, src, depth, l), expanding)
    decreases META_MAX_DEPTH + 1 - depth, 0
  {
    if Normalize(src) !in l.visited && depth <= META_MAX_DEPTH && src in w && w[src].Meta? {
      LoadAllClosed(w, w[src].children, depth + 1, Fetching(l, src), expanding + {src});
      LoadAllGrows(w, w[src].children, depth + 1, Fetching(l, src));
    }
  }

  lemma {:induction false} LoadAllClosed(w: World, srcs: seq<string>, depth: nat, l: Load, expanding: set<string>)
    requires depth <= META_MAX_DEPTH + 1 && Closed(w, l, expanding)
    ensures Closed(w, LoadAll(w, srcs, depth, l), expanding)
    decreases META_MAX_DEPTH + 1 - depth, |srcs|
  {
    if srcs != [] {
      var n := |srcs| - 1;
      LoadAllClosed(w, srcs[..n], depth, l, expanding);
      LoadSourceClosed(w, srcs[n], depth, LoadAll(w, srcs[..n], depth, l), expanding);
    }
  }

  // ----- The depth bound -----

  /** No chain of distinct lists is longer than four hops. */
  ghost predicate ShallowGraph(w: World, roots: seq<string>) {
    forall chain :: IsChain(w, roots, chain) && Distinct(chain) ==> |chain| <= 5
  }

  ghost predicate StackVisited(stack: seq<string>, l: Load) {
    Distinct(stack) && forall s :: s in stack ==> Normalize(s) in l.visited
  }

  lemma StackGrows(stack: seq<string>, l: Load, src: string)
    requires StackVisited(stack, l) && Normalize(src) !in l.visited
    ensures StackVisited(stack + [src], Fetching(l, src))
  {
  }

  lemma ChainChildren(w: World, roots: seq<string>, chain: seq<string>)
    requires IsChain(w, roots, chain)
    ensures forall c :: c in Children(w, chain[|chain| - 1]) ==> IsChain(w, roots, chain + [c])
  {
  }

  /** The sources being expanded are visited, so an unvisited one extends them to a chain of distinct lists. */
  lemma {:induction false} LoadSourceSkipsNone(w: World, roots: seq<string>, src: string, depth: nat, l: Load, stack: seq<string>)
    requires ShallowGraph(w, roots) && depth <= META_MAX_DEPTH + 1 && |stack| == depth
    requires IsChain(w, roots, stack + [src]) && StackVisited(stack, l)
    ensures LoadSource(w, src, depth, l).skipped == l.skipped
    decreases META_MAX_DEPTH + 1 - depth, 0
  {
    if Normalize(src) !in l.visited {
      var chain := stack + [src];
      StackGrows(stack, l, src);
      if src in w && w[src].Meta? {
        ChainChildren(w, roots, chain);
        LoadAllSkipsNone(w, roots, w[src].children, depth + 1, Fetching(l, src), chain);
      }
    }
  }

  lemma {:induction false} LoadAllSkipsNone(w: World, roots: seq<string>, srcs: seq<string>, depth: nat, l: Load, stack: seq<string>)
    requires ShallowGraph(w, roots) && depth <= META_MAX_DEPTH + 1 && |stack| == depth
    requires forall s :: s in srcs ==> IsChain(w, roots, stack + [s])
    requires StackVisited(stack, l)
    ensures LoadAll(w, srcs, depth, l).skipped == l.skipped
    decreases META_MAX_DEPTH + 1 - depth, |srcs|
  {
    if srcs != [] {
      var n := |srcs| - 1;
      LoadAllSkipsNone(w, roots, srcs[..n], depth, l, stack);
      LoadAllGrows(w, srcs[..n], depth, l);
      LoadSourceSkipsNone(w, roots, srcs[n], depth, LoadAll(w, srcs[..n], depth, l), stack);
    }
  }

  // ----- Exactness -----

  /** Reachable sources are told apart by their normalized keys. */
  ghost predicate KeysTellApart(w: World, roots: seq<string>) {
    forall a, b :: Reachable(w, roots, a) && Reachable(w, roots, b) && Normalize(a) == Normalize(b) ==> a == b
  }

  lemma VisitedIsFetched(w: World, roots: seq<string>, l: Load, s: string)
    requires KeysTellApart(w, roots) && Sound(w, roots, l) && l.skipped == []
    requires Reachable(w, roots, s) && Normalize(s) in l.visited
    ensures s in l.fetched
  {
  }

  lemma {:induction false} ChainIsFetched(w: World, roots: seq<string>, l: Load, chain: seq<string>)
    requires KeysTellApart(w, roots) && Sound(w, roots, l) && l.skipped == []
    requires Closed(w, l, {}) && forall r :: r in roots ==> Normalize(r) in l.visited
    requires IsChain(w, roots, chain)
    ensures chain[|chain| - 1] in l.fetched
  {
    var n := |chain| - 1;
    assert Reachable(w, roots, chain[n]);
    if n > 0 {
      ChainIsFetched(w, roots, l, chain[..n]);
      assert chain[n - 1 + 1] in Children(w, chain[n - 1]);
    }
    VisitedIsFetched(w, roots, l, chain[n]);
  }

  ghost predicate FetchesAll(w: World, roots: seq<string>) {
    forall s :: Reachable(w, roots, s) ==> s in LoadSources(w, roots).fetched
  }

  /**
   * The loader fetches every reachable source exactly when normalized keys tell the reachable sources
   * apart and the depth guard never fires.
   */
  lemma FetchesAllExactly(w: World, roots: seq<string>)
    ensures FetchesAll(w, roots) <==> KeysTellApart(w, roots) && LoadSources(w, roots).skipped == []
  {
    var l := LoadSources(w, roots);
    LoaderSound(w, roots);
    if KeysTellApart(w, roots) && l.skipped == [] {
      LoadAllGrows(w, roots, 0, NOTHING);
      LoadAllClosed(w, roots, 0, NOTHING, {});
      forall s | Reachable(w, roots, s) ensures s in l.fetched {
        var chain :| IsChain(w, roots, chain) && chain[|chain| - 1] == s;
        ChainIsFetched(w, roots, l, chain);
      }
    }
    if FetchesAll(w, roots) {
      FetchedKeysTellApart(w, roots, l);
      if l.skipped != [] {
        assert l.skipped[0] in l.skipped;
        SkippedIsNotFetched(l, l.skipped[0]);
      }
    }
  }

  lemma FetchedKeysTellApart(w: World, roots: seq<string>, l: Load)
    requires KeysOnce(l) && forall s :: Reachable(w, roots, s) ==> s in l.fetched
    ensures KeysTellApart(w, roots)
  {
    forall a, b | Reachable(w, roots, a) && Reachable(w, roots, b) && Normalize(a) == Normalize(b) ensures a == b {
      var i :| 0 <= i < |l.fetched| && l.fetched[i] == a;
      var j :| 0 <= j < |l.fetched| && l.fetched[j] == b;
      assert i == j;
    }
  }

  lemma SkippedIsNotFetched(l: Load, s: string)
    requires KeysOnce(l) && s in l.skipped
    ensures s !in l.fetched
  {
    assert Normalize(s) in KeySet(l.skipped);
  }

  /**
   * Exactness: if no chain of distinct lists is longer than four hops and normalized keys tell
   * the reachable sources apart, the loaded entries are exactly the names held by the reachable,
   * fetchable, non-meta sources, cycles and sharing included.
   */
  lemma LoaderExact(w: World, roots: seq<string>, name: string)
    requires ShallowGraph(w, roots) && KeysTellApart(w, roots)
    ensures name in LoadSources(w, roots).entries <==> Listed(w, roots, name)
  {
    var l := LoadSources(w, roots);
    forall s | s in roots ensures IsChain(w, roots, [] + [s]) {
    }
    LoadAllSkipsNone(w, roots, roots, 0, NOTHING, []);
    FetchesAllExactly(w, roots);
    LoaderSound(w, roots);
  }

  /**
   * From lists to verdicts: under the conditions of exactness a query is covered by the loaded list
   * exactly when its labels end in the labels of a name held by some reachable list.
   */
  lemma LoadedListCovers(w: World, roots: seq<string>, qname: string)
    requires ShallowGraph(w, roots) && KeysTellApart(w, roots)
    ensures Covers(LoadSources(w, roots).entries, qname) <==>
      exists name :: Listed(w, roots, name) && IsSuffix(Labels(name), Labels(Normalize(qname)))
  {
    forall name ensures name in LoadSources(w, roots).entries <==> Listed(w, roots, name) {
      LoaderExact(w, roots, name);
    }
    SameNames(LoadSources(w, roots).entries, w, roots, Labels(Normalize(qname)));
  }

  lemma SameNames(entries: set<string>, w: World, roots: seq<string>, labels: seq<string>)
    requires forall name :: name in entries <==> Listed(w, roots, name)
    ensures EndsWithEntry(entries, labels) <==> exists name :: Listed(w, roots, name) && IsSuffix(Labels(name), labels)
  {
  }

  // ----- Where exactness ends -----

  lemma LoadAllSnoc(w: World, srcs: seq<string>, src: string, depth: nat, l: Load)
    requires depth <= META_MAX_DEPTH + 1
    ensures LoadAll(w, srcs + [src], depth, l) == LoadSource(w, src, depth, LoadAll(w, srcs, depth, l))
  {
  }

  /** The first source of a list is loaded before anything else in it. */
  lemma {:induction false} FirstIsLoadedFirst(w: World, first: string, rest: seq<string>, depth: nat, l: Load)
    requires depth <= META_MAX_DEPTH + 1
    ensures Grows(LoadSource(w, first, depth, l), LoadAll(w, [first] + rest, depth, l))
  {
    if rest == [] {
      assert [first] + rest == [] + [first];
      LoadAllSnoc(w, [], first, depth, l);
    } else {
      var n := |rest| - 1;
      FirstIsLoadedFirst(w, first, rest[..n], depth, l);
      assert [first] + rest == [first] + rest[..n] + [rest[n]];
      LoadAllSnoc(w, [first] + rest[..n], rest[n], depth, l);
      LoadSourceGrows(w, rest[n], depth, LoadAll(w, [first] + rest[..n], depth, l));
    }
  }

  /** A chain of six sources with distinct keys, each naming the next before anything else. */
  ghost predicate LeadsDown(w: World, p: seq<string>) {
    && |p| == 6 && DistinctKeys(p)
    && forall i :: 0 <= i <= 4 ==> Children(w, p[i]) != [] && Children(w, p[i])[0] == p[i + 1]
  }

  /** Down the chain, one fetch at a time, to the last source one hop too deep. */
  lemma {:induction false} Descend(w: World, p: seq<string>, i: nat, l: Load)
    requires LeadsDown(w, p) && i <= 5 && l.visited == KeySet(p[..i])
    ensures p[5] in LoadSource(w, p[i], i, l).skipped
    decreases 5 - i
  {
    assert Normalize(p[i]) !in KeySet(p[..i]);
    if i <= 4 {
      var named := Children(w, p[i]);
      assert p[..i + 1] == p[..i] + [p[i]] && named == [p[i + 1]] + named[1..];
      KeySetSnoc(p[..i], p[i]);
      Descend(w, p, i + 1, Fetching(l, p[i]));
      FirstIsLoadedFirst(w, p[i + 1], named[1..], i + 1, Fetching(l, p[i]));
    }
  }

  lemma ChainEndSkipped(w: World, roots: seq<string>, p: seq<string>)
    requires LeadsDown(w, p) && roots != [] && roots[0] == p[0]
    ensures p[5] in LoadSources(w, roots).skipped
  {
    assert roots == [p[0]] + roots[1..] && p[..0] == [] && KeySet([]) == {};
    Descend(w, p, 0, NOTHING);
    FirstIsLoadedFirst(w, p[0], roots[1..], 0, NOTHING);
  }

  /**
   * A source is marked visited before its depth is checked.  If the first configured source starts a
   * chain of five lists that each name the next one first, the sixth source is met one hop too
   * deep and a name only it holds is not loaded, even where that source is configured as well.
   */
  lemma ConfiguredSourceLost(w: World, roots: seq<string>, p: seq<string>, name: string)
    requires LeadsDown(w, p) && roots != [] && roots[0] == p[0]
    requires var last := p[5];
      && last in w && w[last].Hosts? && name in w[last].names
      && forall s :: s in w && w[s].Hosts? && name in w[s].names ==> s == last
    ensures Listed(w, roots, name) && name !in LoadSources(w, roots).entries
  {
    assert IsChain(w, roots, p);
    assert Reachable(w, roots, p[5]);
    ChainEndSkipped(w, roots, p);
    LoaderSound(w, roots);
    SkippedIsNotFetched(LoadSources(w, roots), p[5]);
  }

  /** Keys are lowercased, so of two paths that differ only in case the second is never fetched. */
  lemma CaseCollapsedSourceLost(w: World, a: string, b: string)
    requires a != b && Normalize(a) == Normalize(b)
    ensures LoadSources(w, [a, b]) == LoadSources(w, [a])
  {
    assert [] + [a] == [a] && [a] + [b] == [a, b];
    LoadAllSnoc(w, [], a, 0, NOTHING);
    LoadAllSnoc(w, [a], b, 0, NOTHING);
    LoadSourceGrows(w, a, 0, NOTHING);
  }

  // ----- The code -----

  /** The snapshot of fetched texts, read as pages. */
  function WorldOf(addresses: Addresses, texts: map<string, string>): World {
    map s | s in texts :: ReadPage(addresses, texts[s])
  }

  /** A file of two or more links, one to a line. */
  ghost predicate ListFile(texts: map<string, string>, s: string, links: seq<string>) {
    s in texts && |links| >= 2 && (forall l :: l in links ==> IsLink(l)) && texts[s] == Render(links, "\n")
  }

  lemma ChildrenOfText(addresses: Addresses, texts: map<string, string>, s: string, links: seq<string>)
    requires ListFile(texts, s, links)
    ensures Children(WorldOf(addresses, texts), s) == links
  {
    MetaListReadBack(addresses, links);
  }

  /** Ordinary list files make up such a chain. */
  lemma ChainOfTexts(addresses: Addresses, texts: map<string, string>, p: seq<string>, named: seq<seq<string>>)
    requires |p| == 6 && DistinctKeys(p) && |named| == 5
    requires forall i :: 0 <= i <= 4 ==> ListFile(texts, p[i], named[i]) && named[i][0] == p[i + 1]
    ensures LeadsDown(WorldOf(addresses, texts), p)
  {
    var w := WorldOf(addresses, texts);
    forall i | 0 <= i <= 4 ensures Children(w, p[i]) != [] && Children(w, p[i])[0] == p[i + 1] {
      ChildrenOfText(addresses, texts, p[i], named[i]);
    }
  }

  class Blocklist {
    var entries: set<string>

    constructor ()
      ensures entries == {}
    {
      entries := {};
    }

    method ParseHosts(addresses: Addresses, text: string)
      modifies this
      ensures entries == old(entries) + NamesIn(addresses, Lines(text))
    {
      var lines := Lines(text);
      for i := 0 to |lines|
        invariant entries == old(entries) + NamesIn(addresses, lines[..i])
      {
        assert lines[..i + 1] == lines[..i] + [lines[i]];
        var name := ParseHostsLine(addresses, lines[i]);
        if name.Some? {
          entries := entries + {name.value};
        }
      }
      assert lines[..|lines|] == lines;
    }
  }

  /** What a fetched page adds. */
  function PageLoaded(w: World, page: Page, depth: nat, l: Load): Load
    requires depth <= META_MAX_DEPTH
  {
    match page
    case Meta(children) => LoadAll(w, children, depth + 1, l)
    case Hosts(names) => l.(entries := l.entries + names)
  }

  lemma FetchedPage(addresses: Addresses, texts: map<string, string>, src: string, depth: nat, l: Load)
    requires src in texts && depth <= META_MAX_DEPTH && Normalize(src) !in l.visited
    ensures var w := WorldOf(addresses, texts);
      LoadSource(w, src, depth, l) == PageLoaded(w, ReadPage(addresses, texts[src]), depth, Fetching(l, src))
  {
    assert WorldOf(addresses, texts)[src] == ReadPage(addresses, texts[src]);
  }

  /** `load_source` over the texts themselves; `log` carries the fetch history along for the specification. */
  method LoadOne(addresses: Addresses, texts: map<string, string>, src: string, bl: Blocklist,
                 visited: set<string>, depth: nat, ghost log: Load)
    returns (visited': set<string>, ghost log': Load)
    requires depth <= META_MAX_DEPTH + 1
    requires log.visited == visited && log.entries == bl.entries
    modifies bl
    ensures log' == LoadSource(WorldOf(addresses, texts), src, depth, log)
    ensures visited' == log'.visited && bl.entries == log'.entries
    decreases META_MAX_DEPTH + 1 - depth, 1
  {
    var key := Normalize(src);
    if key in visited {
      return visited, log;
    }
    visited' := visited + {key};
    if depth > META_MAX_DEPTH {
      return visited', Skipping(log, src);
    }
    log' := Fetching(log, src);
    if src !in texts {
      return;
    }
    visited', log' := LoadPage(addresses, texts, texts[src], bl, visited', depth, log');
    FetchedPage(addresses, texts, src, depth, log);
  }

  /** The part of `load_source` after a successful fetch. */
  method LoadPage(addresses: Addresses, texts: map<string, string>, text: string, bl: Blocklist,
                  visited: set<string>, depth: nat, ghost log: Load)
    returns (visited': set<string>, ghost log': Load)
    requires depth <= META_MAX_DEPTH
    requires log.visited == visited && log.entries == bl.entries
    modifies bl
    ensures log' == PageLoaded(WorldOf(addresses, texts), ReadPage(addresses, text), depth, log)
    ensures visited' == log'.visited && bl.entries == log'.entries
    decreases META_MAX_DEPTH + 1 - depth, 0
  {
    var meta := LooksLikeMetaList(addresses, text);
    if meta {
      visited', log' := LoadNamed(addresses, texts, Lines(text), bl, visited, depth + 1, log);
    } else {
      visited', log' := visited, log;
      bl.ParseHosts(addresses, text);
      log' := log'.(entries := bl.entries);
    }
  }

  /** The loop of `load_source` over the lines of a meta-list. */
  method LoadNamed(addresses: Addresses, texts: map<string, string>, lines: seq<string>, bl: Blocklist,
                   visited: set<string>, depth: nat, ghost log: Load)
    returns (visited': set<string>, ghost log': Load)
    requires depth <= META_MAX_DEPTH + 1
    requires log.visited == visited && log.entries == bl.entries
    modifies bl
    ensures log' == LoadAll(WorldOf(addresses, texts), SourcesIn(lines), depth, log)
    ensures visited' == log'.visited && bl.entries == log'.entries
    decreases META_MAX_DEPTH + 1 - depth, 2
  {
    visited', log' := visited, log;
    ghost var w := WorldOf(addresses, texts);
    for i := 0 to |lines|
      invariant visited' == log'.visited && bl.entries == log'.entries
      invariant log' == LoadAll(w, SourcesIn(lines[..i]), depth, log)
    {
      assert lines[..i + 1][..i] == lines[..i];
      var trimmed := Trim(lines[i]);
      if IsUrl(trimmed) || "/" <= trimmed {
        LoadAllSnoc(w, SourcesIn(lines[..i]), trimmed, depth, log);
        visited', log' := LoadOne(addresses, texts, trimmed, bl, visited', depth, log');
      } else {
        assert SourcesIn(lines[..i + 1]) == SourcesIn(lines[..i]);
      }
    }
    assert lines[..|lines|] == lines;
  }

  method LoadConfigured(addresses: Addresses, texts: map<string, string>, sources: seq<string>)
    returns (bl: Blocklist)
    ensures fresh(bl)
    ensures bl.entries == LoadSources(WorldOf(addresses, texts), sources).entries
  {
    bl := new Blocklist();
    var visited: set<string> := {};
    ghost var log := NOTHING;
    for i := 0 to |sources|
      invariant fresh(bl) && visited == log.visited && bl.entries == log.entries
      invariant log == LoadAll(WorldOf(addresses, texts), sources[..i], 0, NOTHING)
    {
      assert sources[..i + 1][..i] == sources[..i];
      visited, log := LoadOne(addresses, texts, sources[i], bl, visited, 0, log);
    }
    assert sources[..|sources|] == sources;
  }
}
