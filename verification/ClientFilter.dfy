/**
 * The filter decision (src/core/filter/mod.rs, `Filter::is_blocked`): first-match rules per client
 * subnet, then regular expressions, then the block and allow lists.  A compiled regular
 * expression is an uninterpreted predicate on the query name.
 */
module ClientFilter {
  import opened Prelude
  import opened AddressMask
  import opened BlocklistMatch
  import opened MetricsRegistry

  datatype Rule = Rule(net: Ipv4Cidr, block: bool)

  /** The flag of the first rule that contains the address. */
  function FirstMatch(rules: seq<Rule>, ip: V4): Option<bool> {
    if rules == [] then None
    else if rules[0].net.Contains(ip) then Some(rules[0].block)
    else FirstMatch(rules[1..], ip)
  }

  /** Rules are for IPv4 clients only. */
  predicate Applies(rule: Rule, client: IpAddr) {
    client.Ipv4? && rule.net.Contains(client.v4)
  }

  predicate FirstContaining(rules: seq<Rule>, client: IpAddr, i: int) {
    && 0 <= i < |rules| && Applies(rules[i], client)
    && forall j :: 0 <= j < i ==> !Applies(rules[j], client)
  }

  class Filter {
    const blocklist: set<string>
    const allowlist: set<string>
    const perClient: seq<Rule>
    const regexBlocklist: seq<string -> bool>

    constructor (blocklist: set<string>, allowlist: set<string>, perClient: seq<Rule>, regexBlocklist: seq<string -> bool>)
      ensures this.blocklist == blocklist && this.allowlist == allowlist
      ensures this.perClient == perClient && this.regexBlocklist == regexBlocklist
    {
      this.blocklist, this.allowlist, this.perClient := blocklist, allowlist, perClient;
      this.regexBlocklist := regexBlocklist;
    }

    /**
     * The first rule whose block contains an IPv4 client decides; with no such rule, and for IPv6, a matching
     * expression or a block entry without an allow entry does.  Only a list match reaches the
     * global counter; blocks by rule or by expression do not.
     */
    method IsBlocked(qname: string, client: IpAddr, metrics: Metrics) returns (blocked: bool)
      modifies metrics`blockedTotal
      ensures blocked == Verdict(perClient, regexBlocklist, blocklist, allowlist, qname, client)
      ensures forall i :: FirstContaining(perClient, client, i) ==>
        blocked == perClient[i].block && metrics.blockedTotal == old(metrics.blockedTotal)
      ensures (forall i :: 0 <= i < |perClient| ==> !Applies(perClient[i], client)) ==>
        && (blocked <==> (exists i :: 0 <= i < |regexBlocklist| && regexBlocklist[i](qname))
                         || (Covers(blocklist, qname) && !Covers(allowlist, qname)))
        && metrics.blockedTotal == old(metrics.blockedTotal) +
             (if blocked && forall i :: 0 <= i < |regexBlocklist| ==> !regexBlocklist[i](qname) then 1 else 0)
    {
      if client.Ipv4? {
        for i := 0 to |perClient|
          invariant FirstMatch(perClient, client.v4) == FirstMatch(perClient[i..], client.v4)
          invariant forall j :: 0 <= j < i ==> !Applies(perClient[j], client)
        {
          if perClient[i].net.Contains(client.v4) {
            assert FirstContaining(perClient, client, i);
            return perClient[i].block;
          }
        }
      }
      for i := 0 to |regexBlocklist|
        invariant forall j :: 0 <= j < i ==> !regexBlocklist[j](qname)
      {
        if regexBlocklist[i](qname) {
          return true;
        }
      }
      blocked := Blocked(blocklist, allowlist, qname);
      if blocked {
        metrics.blockedTotal := metrics.blockedTotal + 1;
      }
    }
  }

  function ClientRule(rules: seq<Rule>, client: IpAddr): Option<bool> {
    match client
    case Ipv4(v4) => FirstMatch(rules, v4)
    case Ipv6(_) => None
  }

  ghost predicate AnyMatches(regexes: seq<string -> bool>, qname: string) {
    exists i :: 0 <= i < |regexes| && regexes[i](qname)
  }

  ghost predicate Verdict(rules: seq<Rule>, regexes: seq<string -> bool>, blocklist: set<string>, allowlist: set<string>,
                          qname: string, client: IpAddr)
  {
    match ClientRule(rules, client)
    case Some(block) => block
    case None => AnyMatches(regexes, qname) || (Covers(blocklist, qname) && !Covers(allowlist, qname))
  }

  // ----- Order independence -----

  /** Rules that share an address carry the same flag. */
  ghost predicate OverlapsAgree(rules: seq<Rule>) {
    forall r, s, ip: V4 :: r in rules && s in rules && r.net.Contains(ip) && s.net.Contains(ip) ==> r.block == s.block
  }

  lemma {:induction false} FirstMatchMeaning(rules: seq<Rule>, ip: V4)
    ensures FirstMatch(rules, ip).None? <==> forall r :: r in rules ==> !r.net.Contains(ip)
    ensures FirstMatch(rules, ip).Some? ==> exists i ::
      && 0 <= i < |rules| && rules[i].net.Contains(ip) && rules[i].block == FirstMatch(rules, ip).value
      && forall j :: 0 <= j < i ==> !rules[j].net.Contains(ip)
  {
    if rules != [] {
      var rest := rules[1..];
      FirstMatchMeaning(rest, ip);
      assert rules[0] in rules;
      assert forall r :: r in rules <==> r == rules[0] || r in rest;
      if !rules[0].net.Contains(ip) && FirstMatch(rest, ip).Some? {
        var i :| 0 <= i < |rest| && rest[i].net.Contains(ip) && rest[i].block == FirstMatch(rest, ip).value
                 && forall j :: 0 <= j < i ==> !rest[j].net.Contains(ip);
        assert rules[i + 1] == rest[i] && forall j :: 1 <= j < i + 1 ==> rules[j] == rest[j - 1];
      }
    }
  }

  /** The rule list comes out of a hash map in any order; where overlapping rules agree, no order matters. */
  lemma OrderIrrelevant(rules: seq<Rule>, other: seq<Rule>, regexes: seq<string -> bool>,
                        blocklist: set<string>, allowlist: set<string>, qname: string, client: IpAddr)
    requires OverlapsAgree(rules) && multiset(rules) == multiset(other)
    ensures Verdict(rules, regexes, blocklist, allowlist, qname, client)
         == Verdict(other, regexes, blocklist, allowlist, qname, client)
  {
    if client.Ipv4? {
      assert forall r :: r in rules <==> r in multiset(rules);
      assert forall r :: r in other <==> r in multiset(other);
      FirstMatchMeaning(rules, client.v4);
      FirstMatchMeaning(other, client.v4);
    }
  }

  /** And where two overlapping rules disagree, some client is answered differently under two orders, whatever is asked. */
  lemma OrderMatters(rules: seq<Rule>, regexes: seq<string -> bool>, blocklist: set<string>, allowlist: set<string>, qname: string)
    requires !OverlapsAgree(rules)
    ensures exists a, b, client ::
      && multiset(a) == multiset(rules) == multiset(b)
      && Verdict(a, regexes, blocklist, allowlist, qname, client) != Verdict(b, regexes, blocklist, allowlist, qname, client)
  {
    var r, s, ip: V4 :| r in rules && s in rules && r.net.Contains(ip) && s.net.Contains(ip) && r.block != s.block;
    var i :| 0 <= i < |rules| && rules[i] == r;
    var j :| 0 <= j < |rules| && rules[j] == s;
    PromotedIsPermutation(rules, i);
    PromotedIsPermutation(rules, j);
    var a, b := Promoted(rules, i), Promoted(rules, j);
    var client := Ipv4(ip);
    assert Verdict(a, regexes, blocklist, allowlist, qname, client) != Verdict(b, regexes, blocklist, allowlist, qname, client);
  }
}
