/**
 * Reading list files (src/core/filter/blocklist.rs): lines, hosts-format entries and the test
 * that tells a meta-list from a hosts list.  Address parsing belongs to the standard library and
 * is a parameter.
 */
module ListText {
  import opened Prelude
  import opened DomainText

  /** Which tokens parse as an IPv4 address, and which as an address of either family. */
  datatype Addresses = Addresses(isV4: string -> bool, isIp: string -> bool)

  /** The characters with the Unicode White_Space property, as used by `trim` and `split_whitespace`. */
  predicate IsWhitespace(c: char) {
    var n := c as int;
    || 0x09 <= n <= 0x0D || n == 0x20 || n == 0x85 || n == 0xA0 || n == 0x1680
    || 0x2000 <= n <= 0x200A || n == 0x2028 || n == 0x2029 || n == 0x202F || n == 0x205F || n == 0x3000
  }

  function TrimStart(s: string): string {
    if s != "" && IsWhitespace(s[0]) then TrimStart(s[1..]) else s
  }

  function TrimEnd(s: string): string {
    if s != "" && IsWhitespace(s[|s| - 1]) then TrimEnd(s[..|s| - 1]) else s
  }

  function Trim(s: string): string {
    TrimEnd(TrimStart(s))
  }

  function TrimCarets(s: string): string {
    if s != "" && s[|s| - 1] == '^' then TrimCarets(s[..|s| - 1]) else s
  }

  /** Length of the leading run without white space. */
  function WordLength(s: string): (n: nat)
    ensures n <= |s|
  {
    if s == "" || IsWhitespace(s[0]) then 0 else 1 + WordLength(s[1..])
  }

  /** `split_whitespace` */
  function Words(s: string): seq<string>
    decreases |s|
  {
    if s == "" then []
    else if IsWhitespace(s[0]) then Words(s[1..])
    else [s[..WordLength(s)]] + Words(s[WordLength(s)..])
  }

  function LineLength(s: string): (n: nat)
    ensures n <= |s|
  {
    if s == "" || s[0] == '\n' then 0 else 1 + LineLength(s[1..])
  }

  /** `str::lines`: a line ends at a newline, with one carriage return before it dropped. */
  function Lines(text: string): seq<string>
    decreases |text|
  {
    var n := LineLength(text);
    if text == "" then []
    else if n == |text| then [text]
    else [if n > 0 && text[n - 1] == '\r' then text[..n - 1] else text[..n]] + Lines(text[n + 1..])
  }

  predicate IsUrl(s: string) {
    "http://" <= s || "https://" <= s
  }

  /** A trimmed line that names another list: a URL or an absolute path. */
  predicate IsSourceLine(trimmed: string) {
    IsUrl(trimmed) || "/" <= trimmed
  }

  predicate IsBlankOrComment(trimmed: string) {
    trimmed == "" || "#" <= trimmed
  }

  /** A trimmed line counted as a host entry when lists are told apart. */
  predicate IsHostsLine(addresses: Addresses, trimmed: string) {
    || "||" <= trimmed || "@@||" <= trimmed
    || (Words(trimmed) != [] && addresses.isV4(Words(trimmed)[0]))
  }

  predicate IsRejectedName(name: string) {
    name == "" || name == "localhost" || name == "localhost.localdomain" || '/' in name
  }

  function ParseHostsLine(addresses: Addresses, line: string): Option<string> {
    var trimmed := Trim(line);
    if IsBlankOrComment(trimmed) then None
    else if "||" <= trimmed || "@@||" <= trimmed then
      var words := Words(TrimCarets(if "||" <= trimmed then trimmed[2..] else trimmed[4..]));
      if words == [] || IsRejectedName(words[0]) then None else Some(Normalize(words[0]))
    else
      var words := Words(trimmed);
      if |words| < 2 || IsUrl(words[0]) || !addresses.isIp(words[0]) || IsRejectedName(words[1]) then None
      else Some(Normalize(words[1]))
  }

  // ----- What a page is, as a whole -----

  function SourceCount(lines: seq<string>): nat {
    if lines == [] then 0
    else
      var last := Trim(lines[|lines| - 1]);
      SourceCount(lines[..|lines| - 1]) + (if !IsBlankOrComment(last) && IsSourceLine(last) then 1 else 0)
  }

  function HostsCount(addresses: Addresses, lines: seq<string>): nat {
    if lines == [] then 0
    else
      var last := Trim(lines[|lines| - 1]);
      HostsCount(addresses, lines[..|lines| - 1])
      + (if !IsBlankOrComment(last) && !IsSourceLine(last) && IsHostsLine(addresses, last) then 1 else 0)
  }

  predicate IsMetaList(addresses: Addresses, lines: seq<string>) {
    SourceCount(lines) >= 2 && SourceCount(lines) > HostsCount(addresses, lines)
  }

  /** The sources a meta-list names, in order and with repetitions. */
  function SourcesIn(lines: seq<string>): seq<string> {
    if lines == [] then []
    else
      var last := Trim(lines[|lines| - 1]);
      SourcesIn(lines[..|lines| - 1]) + (if IsSourceLine(last) then [last] else [])
  }

  function NamesIn(addresses: Addresses, lines: seq<string>): set<string> {
    set line | line in lines && ParseHostsLine(addresses, line).Some? :: ParseHostsLine(addresses, line).value
  }

  datatype Page = Meta(children: seq<string>) | Hosts(names: set<string>)

  function ReadPage(addresses: Addresses, text: string): Page {
    var lines := Lines(text);
    if IsMetaList(addresses, lines) then Meta(SourcesIn(lines)) else Hosts(NamesIn(addresses, lines))
  }

  method LooksLikeMetaList(addresses: Addresses, text: string) returns (meta: bool)
    ensures meta <==> ReadPage(addresses, text).Meta?
  {
    var lines := Lines(text);
    var sources, hosts := 0, 0;
    for i := 0 to |lines|
      invariant sources == SourceCount(lines[..i])
      invariant hosts == HostsCount(addresses, lines[..i])
    {
      assert lines[..i + 1][..i] == lines[..i];
      var trimmed := Trim(lines[i]);
      if IsBlankOrComment(trimmed) {
        continue;
      }
      if IsUrl(trimmed) || "/" <= trimmed {
        sources := sources + 1;
      } else if IsHostsLine(addresses, trimmed) {
        hosts := hosts + 1;
      }
    }
    assert lines[..|lines|] == lines;
    meta := sources >= 2 && sources > hosts;
  }

  /** Every source line is a line of the page, and a page with a child was a meta-list with two or more. */
  lemma {:induction false} SourcesAreCounted(lines: seq<string>)
    ensures |SourcesIn(lines)| == SourceCount(lines)
    ensures forall s :: s in SourcesIn(lines) ==> IsSourceLine(s) && exists line :: line in lines && s == Trim(line)
  {
    if lines != [] {
      SourcesAreCounted(lines[..|lines| - 1]);
      var last := Trim(lines[|lines| - 1]);
      assert lines[|lines| - 1] in lines;
      assert IsSourceLine(last) ==> last != "" && (last[0] == 'h' || last[0] == '/');
    }
  }

  /** What a hosts line contributes is in the form that queries are matched in. */
  lemma ParsedNamesNormalized(addresses: Addresses, line: string)
    requires ParseHostsLine(addresses, line).Some?
    ensures Normalize(ParseHostsLine(addresses, line).value) == ParseHostsLine(addresses, line).value
  {
  }
}
