/**
 * Suffix matching of query names against a set of names (src/core/filter/blocklist.rs,
 * `is_blocked`, `is_allowed`, `blocked`).
 */
module BlocklistMatch {
  import opened Prelude
  import opened DomainText

  /** Some entry's labels end the labels of the normalized query name. */
  ghost predicate Covers(entries: set<string>, qname: string) {
    Matches(entries, Normalize(qname))
  }

  ghost predicate Matches(entries: set<string>, name: string) {
    EndsWithEntry(entries, Labels(name))
  }

  ghost predicate EndsWithEntry(entries: set<string>, labels: seq<string>) {
    exists e :: e in entries && IsSuffix(Labels(e), labels)
  }

  lemma SuffixOfCons(a: seq<string>, first: string, rest: seq<string>)
    requires a != [first] + rest
    ensures IsSuffix(a, [first] + rest) <==> IsSuffix(a, rest)
  {
  }

  lemma LabelsDiffer(a: string, b: string)
    requires a != b
    ensures Labels(a) != Labels(b)
  {
    if Labels(a) == Labels(b) {
      LabelsInjective(a, b);
    }
  }

  /** A name that is not itself an entry matches exactly if what is left after its first label does. */
  lemma DropFirstLabel(entries: set<string>, cur: string, labels: seq<string>, first: string, rest: seq<string>)
    requires cur !in entries && labels == Labels(cur) && labels == [first] + rest
    ensures EndsWithEntry(entries, labels) <==> EndsWithEntry(entries, rest)
  {
    forall e | e in entries ensures IsSuffix(Labels(e), labels) <==> IsSuffix(Labels(e), rest) {
      LabelsDiffer(e, cur);
      SuffixOfCons(Labels(e), first, rest);
    }
  }

  lemma EntryMatches(entries: set<string>, cur: string)
    requires cur in entries
    ensures Matches(entries, cur)
  {
  }

  lemma WalkEnd(entries: set<string>, cur: string)
    requires cur !in entries && FirstDot(cur) == |cur|
    ensures !Matches(entries, cur)
  {
  }

  lemma WalkOn(entries: set<string>, cur: string)
    requires cur !in entries && FirstDot(cur) < |cur|
    ensures Matches(entries, cur) <==> Matches(entries, cur[FirstDot(cur) + 1..])
  {
    var first, tail := cur[..FirstDot(cur)], cur[FirstDot(cur) + 1..];
    LabelsOfTail(cur, first, tail);
    DropFirstLabel(entries, cur, Labels(cur), first, Labels(tail));
  }

  lemma LabelsOfTail(cur: string, first: string, tail: string)
    requires FirstDot(cur) < |cur| && first == cur[..FirstDot(cur)] && tail == cur[FirstDot(cur) + 1..]
    ensures Labels(cur) == [first] + Labels(tail)
  {
  }

  /** The loop of `is_blocked` and `is_allowed`: drop one leading label at a time until the rest is an entry. */
  method WalkSuffixes(entries: set<string>, qname: string) returns (found: bool)
    ensures found <==> Covers(entries, qname)
  {
    if entries == {} {
      return false;
    }
    var cur := Normalize(qname);
    while true
      invariant Covers(entries, qname) <==> Matches(entries, cur)
      decreases |cur|
    {
      if cur in entries {
        EntryMatches(entries, cur);
        return true;
      }
      var idx := FirstDot(cur);
      if idx == |cur| {
        WalkEnd(entries, cur);
        return false;
      }
      WalkOn(entries, cur);
      cur := cur[idx + 1..];
    }
  }

  /** On the blocklist and not on the allowlist, however long the matching entries are. */
  method Blocked(blocklist: set<string>, allowlist: set<string>, qname: string) returns (blocked: bool)
    ensures blocked <==> Covers(blocklist, qname) && !Covers(allowlist, qname)
  {
    var allowed := WalkSuffixes(allowlist, qname);
    if allowed {
      return false;
    }
    blocked := WalkSuffixes(blocklist, qname);
  }

  /** ASCII case and trailing dots make no difference. */
  lemma CoversInsensitive(entries: set<string>, a: string, b: string, dots: nat)
    requires EqualIgnoringCase(a, b)
    ensures Covers(entries, a) <==> Covers(entries, b + seq(dots, _ => '.'))
  {
    NormalizeInsensitive(a, b, dots);
  }

  /** An entry as text: the name is the entry, or ends in a dot and the entry. */
  ghost predicate EndsAtDot(name: string, entry: string) {
    name == entry || exists p: string :: name == p + "." + entry
  }

  lemma LabelSuffixIsTextSuffix(name: string, entry: string)
    ensures IsSuffix(Labels(entry), Labels(name)) <==> EndsAtDot(name, entry)
  {
    var labels := Labels(name);
    if IsSuffix(Labels(entry), labels) && name != entry {
      LabelsDiffer(name, entry);
      var k := |labels| - |Labels(entry)|;
      assert k > 0;
      assert labels == labels[..k] + Labels(entry);
      JoinConcat(labels[..k], Labels(entry));
      JoinLabels(name);
      JoinLabels(entry);
    }
    if name != entry && EndsAtDot(name, entry) {
      var p: string :| name == p + "." + entry;
      LabelsOfSubdomain(p, entry);
    }
  }

  /** What matching means on the texts: some entry is the name, or ends it right after a dot. */
  lemma CoversExactly(entries: set<string>, qname: string)
    ensures Covers(entries, qname) <==> exists e :: e in entries && EndsAtDot(Normalize(qname), e)
  {
    forall e ensures IsSuffix(Labels(e), Labels(Normalize(qname))) <==> EndsAtDot(Normalize(qname), e) {
      LabelSuffixIsTextSuffix(Normalize(qname), e);
    }
  }

  /** Closed under subdomains of every name but the root. */
  lemma CoversSubdomains(entries: set<string>, p: string, q: string)
    requires Normalize(q) != "" && Covers(entries, q)
    ensures Covers(entries, p + "." + q)
  {
    NormalizeSubdomain(p, q);
    LabelsOfSubdomain(Lower(p), Normalize(q));
    var e :| e in entries && IsSuffix(Labels(e), Labels(Normalize(q)));
    assert IsSuffix(Labels(e), Labels(Normalize(p + "." + q)));
  }

  /**
   * The root is the exception: a bare dot in a list becomes the empty entry, which covers the root
   * name and no other, so it is the one entry that does not cover the names below it.
   */
  lemma RootEntryCoversRootOnly(qname: string)
    ensures Covers({""}, qname) <==> Normalize(qname) == ""
  {
    var n := Normalize(qname);
    LastLabel(n);
    assert Labels("") == [""];
    if n == "" {
      assert "" in {""} && IsSuffix(Labels(""), Labels(n));
    }
  }
}
