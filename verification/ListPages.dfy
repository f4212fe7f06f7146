/**
 * List files written out and read back (src/core/filter/blocklist.rs): what the reader of `ListText` makes of a
 * page, told from the lines its author wrote.
 */
module ListPages {
  import opened Prelude
  import opened DomainText
  import opened ListText

  // ----- Lines -----

  function Render(lines: seq<string>, eol: string): string {
    if lines == [] then "" else lines[0] + eol + Render(lines[1..], eol)
  }

  /** The line survives being written with this line end: no newline in it, and no carriage return before a bare newline. */
  predicate Writable(line: string, eol: string) {
    && '\n' !in line
    && (eol == "\r\n" || (eol == "\n" && (line == "" || line[|line| - 1] != '\r')))
  }

  lemma {:induction false} LineLengthOf(line: string, rest: string)
    requires '\n' !in line
    ensures LineLength(line + "\n" + rest) == |line|
  {
    var s := line + "\n" + rest;
    if line != "" {
      assert s[0] == line[0] && line[0] in line;
      assert forall c :: c in line[1..] ==> c in line;
      LineLengthOf(line[1..], rest);
      assert s[1..] == line[1..] + "\n" + rest;
    }
  }

  lemma LinesCons(line: string, eol: string, rest: string)
    requires Writable(line, eol)
    ensures Lines(line + eol + rest) == [line] + Lines(rest)
  {
    var s := line + eol + rest;
    if eol == "\n" {
      LineLengthOf(line, rest);
      assert s[..|line|] == line && s[|line| + 1..] == rest;
    } else {
      var full := line + "\r";
      LineLengthOf(full, rest);
      assert s == full + "\n" + rest;
      assert s[|full| - 1] == '\r' && s[..|full| - 1] == line && s[|full| + 1..] == rest;
    }
  }

  /** A text without a newline is one line, or none if it is empty. */
  lemma {:induction false} LastLine(last: string)
    requires '\n' !in last
    ensures LineLength(last) == |last| && Lines(last) == (if last == "" then [] else [last])
  {
    if last != "" {
      assert last[0] in last && forall c :: c in last[1..] ==> c in last;
      LastLine(last[1..]);
    }
  }

  /** Lines written out with either line end, with or without one after the last, read back as they are. */
  lemma {:induction false} LinesReadBack(lines: seq<string>, eol: string, last: string)
    requires (forall line :: line in lines ==> Writable(line, eol)) && '\n' !in last
    ensures Lines(Render(lines, eol) + last) == lines + (if last == "" then [] else [last])
  {
    if lines == [] {
      LastLine(last);
      assert Render(lines, eol) + last == last;
    } else {
      assert lines[0] in lines;
      LinesReadBack(lines[1..], eol, last);
      LinesCons(lines[0], eol, Render(lines[1..], eol) + last);
      assert Render(lines, eol) + last == lines[0] + eol + (Render(lines[1..], eol) + last);
    }
  }

  // ----- White space -----

  predicate IsBlank(s: string) {
    forall i :: 0 <= i < |s| ==> IsWhitespace(s[i])
  }

  predicate IsToken(s: string) {
    s != "" && forall i :: 0 <= i < |s| ==> !IsWhitespace(s[i])
  }

  lemma {:induction false} TrimStartPadded(pad: string, s: string)
    requires IsBlank(pad)
    ensures TrimStart(pad + s) == TrimStart(s)
  {
    if pad == "" {
      assert pad + s == s;
    } else {
      TrimStartPadded(pad[1..], s);
      assert (pad + s)[1..] == pad[1..] + s;
    }
  }

  lemma {:induction false} TrimEndPadded(s: string, pad: string)
    requires IsBlank(pad)
    ensures TrimEnd(s + pad) == TrimEnd(s)
  {
    if pad == "" {
      assert s + pad == s;
    } else {
      var n := |pad| - 1;
      TrimEndPadded(s, pad[..n]);
      assert (s + pad)[..|s + pad| - 1] == s + pad[..n];
    }
  }

  lemma {:induction false} TrimBlank(s: string)
    requires IsBlank(s)
    ensures TrimStart(s) == "" && TrimEnd(s) == ""
  {
    if s != "" {
      TrimBlank(s[1..]);
      TrimBlank(s[..|s| - 1]);
    }
  }

  /** Either the text is blank, or trimming its start stops before its last solid character. */
  lemma {:induction false} TrimStartKeepsEnd(s: string, pad: string)
    requires !IsBlank(s)
    ensures TrimStart(s + pad) == TrimStart(s) + pad
  {
    assert (s + pad)[0] == s[0];
    if IsWhitespace(s[0]) {
      assert !IsBlank(s[1..]);
      TrimStartKeepsEnd(s[1..], pad);
      assert (s + pad)[1..] == s[1..] + pad;
    }
  }

  /** White space around a line makes no difference to what it says. */
  lemma PaddingIgnored(before: string, line: string, after: string)
    requires IsBlank(before) && IsBlank(after)
    ensures Trim(before + line + after) == Trim(line)
  {
    TrimStartPadded(before, line + after);
    assert before + line + after == before + (line + after);
    if IsBlank(line) {
      TrimBlank(line);
      TrimBlank(line + after);
    } else {
      TrimStartKeepsEnd(line, after);
      TrimEndPadded(TrimStart(line), after);
    }
  }

  lemma TrimOfSolid(s: string)
    requires s != "" && !IsWhitespace(s[0]) && !IsWhitespace(s[|s| - 1])
    ensures Trim(s) == s
  {
  }

  lemma {:induction false} WordLengthOf(word: string, rest: string)
    requires IsToken(word) && (rest == "" || IsWhitespace(rest[0]))
    ensures WordLength(word + rest) == |word|
  {
    var s := word + rest;
    if |word| == 1 {
      assert s[1..] == rest;
    } else {
      WordLengthOf(word[1..], rest);
      assert s[1..] == word[1..] + rest;
    }
  }

  /** A token up to the end or to white space is the first word. */
  lemma WordsCons(word: string, rest: string)
    requires IsToken(word) && (rest == "" || IsWhitespace(rest[0]))
    ensures Words(word + rest) == [word] + Words(rest)
  {
    WordLengthOf(word, rest);
    assert (word + rest)[..|word|] == word && (word + rest)[|word|..] == rest;
  }

  lemma {:induction false} WordsOfBlank(gap: string, rest: string)
    requires IsBlank(gap)
    ensures Words(gap + rest) == Words(rest)
  {
    if gap == "" {
      assert gap + rest == rest;
    } else {
      WordsOfBlank(gap[1..], rest);
      assert (gap + rest)[1..] == gap[1..] + rest;
    }
  }

  lemma WordsOfToken(word: string)
    requires IsToken(word)
    ensures Words(word) == [word]
  {
    WordsCons(word, "");
    assert word + "" == word;
  }

  /** The first two words of a line. */
  lemma WordsOfPair(a: string, gap: string, b: string, more: string)
    requires IsToken(a) && IsToken(b) && gap != "" && IsBlank(gap) && (more == "" || IsWhitespace(more[0]))
    ensures Words(a + gap + b + more) == [a, b] + Words(more)
  {
    assert a + gap + b + more == a + (gap + (b + more));
    WordsCons(a, gap + (b + more));
    WordsOfBlank(gap, b + more);
    WordsCons(b, more);
  }

  // ----- What a line says -----

  /** A line as its author means it. */
  datatype Line =
    | Remark(text: string)
    | Link(source: string)
    | Host(ip: string, gap: string, name: string, more: string)
    | Rule(name: string)
    | Exception(name: string)

  function Text(line: Line): string {
    match line
    case Remark(text) => text
    case Link(source) => source
    case Host(ip, gap, name, more) => ip + gap + name + more
    case Rule(name) => "||" + name + "^"
    case Exception(name) => "@@||" + name + "^"
  }

  predicate IsLink(s: string) {
    IsToken(s) && ("http://" <= s || "https://" <= s || "/" <= s)
  }

  /** A token that cannot be taken for a comment, a rule or a link. */
  predicate IsPlainToken(s: string) {
    IsToken(s) && s[0] != '#' && !("||" <= s) && !("@@||" <= s) && !("http://" <= s) && !("https://" <= s) && s[0] != '/'
  }

  predicate WellFormed(addresses: Addresses, line: Line) {
    match line
    case Remark(text) => text == "" || (text[0] == '#' && !IsWhitespace(text[|text| - 1]) && '\n' !in text)
    case Link(source) => IsLink(source)
    case Host(ip, gap, name, more) =>
      && IsPlainToken(ip) && addresses.isIp(ip) && gap != "" && IsBlank(gap) && IsToken(name) && '\n' !in gap + more
      && (more == "" || (IsWhitespace(more[0]) && !IsWhitespace(more[|more| - 1])))
    case Rule(name) => IsToken(name) && name[|name| - 1] != '^'
    case Exception(name) => IsToken(name) && name[|name| - 1] != '^'
  }

  /**
   * The name a line is for, normalized, aliases after it being ignored; the local host and anything with a
   * slash in it are no names.
   */
  function NameOf(line: Line): Option<string> {
    if line.Remark? || line.Link? || line.name == "localhost" || line.name == "localhost.localdomain" || '/' in line.name
    then None else Some(Normalize(line.name))
  }

  /** The lines that speak for a hosts list: rules, and names at an IPv4 address. */
  predicate SpeaksForHosts(addresses: Addresses, line: Line) {
    line.Rule? || line.Exception? || (line.Host? && addresses.isV4(line.ip))
  }

  /** A prefix without white space is within the first word. */
  lemma PrefixOfFirstWord(prefix: string, word: string, gap: string, rest: string)
    requires IsToken(prefix) && prefix <= word + gap + rest && gap != "" && IsWhitespace(gap[0])
    ensures prefix <= word
  {
    var s := word + gap + rest;
    assert s[|word|] == gap[0];
    assert forall i :: 0 <= i < |prefix| ==> prefix[i] == s[i];
  }

  lemma PlainLine(word: string, gap: string, rest: string)
    requires IsPlainToken(word) && gap != "" && IsWhitespace(gap[0])
    ensures var s := word + gap + rest;
      !IsBlankOrComment(s) && !("||" <= s) && !("@@||" <= s) && !IsSourceLine(s)
  {
    var s := word + gap + rest;
    if "#" <= s { PrefixOfFirstWord("#", word, gap, rest); }
    if "||" <= s { PrefixOfFirstWord("||", word, gap, rest); }
    if "@@||" <= s { PrefixOfFirstWord("@@||", word, gap, rest); }
    if "/" <= s { PrefixOfFirstWord("/", word, gap, rest); }
    if "http://" <= s { PrefixOfFirstWord("http://", word, gap, rest); }
    if "https://" <= s { PrefixOfFirstWord("https://", word, gap, rest); }
  }

  /** The reader understands the line: what it contributes, and how it counts when lists are told apart. */
  ghost predicate Understood(addresses: Addresses, line: Line) {
    var text := Text(line);
    && Trim(text) == text
    && (IsBlankOrComment(text) <==> line.Remark?)
    && (IsSourceLine(text) <==> line.Link?)
    && (!line.Remark? && !line.Link? ==> (IsHostsLine(addresses, text) <==> SpeaksForHosts(addresses, line)))
    && ParseHostsLine(addresses, text) == NameOf(line)
  }

  lemma RemarkUnderstood(addresses: Addresses, text: string)
    requires WellFormed(addresses, Remark(text))
    ensures Understood(addresses, Remark(text))
  {
    if text != "" {
      TrimOfSolid(text) by { assert !IsWhitespace('#'); }
    }
  }

  lemma LinkUnderstood(addresses: Addresses, source: string)
    requires IsLink(source)
    ensures Understood(addresses, Link(source))
  {
    TrimOfSolid(source);
    WordsOfToken(source);
    assert source[0] == 'h' || source[0] == '/';
  }

  lemma HostLine(ip: string, gap: string, name: string, more: string)
    requires IsPlainToken(ip) && gap != "" && IsBlank(gap) && IsToken(name)
    requires more == "" || (IsWhitespace(more[0]) && !IsWhitespace(more[|more| - 1]))
    ensures var s := ip + gap + name + more;
      && Trim(s) == s && Words(s) == [ip, name] + Words(more)
      && !IsBlankOrComment(s) && !("||" <= s) && !("@@||" <= s) && !IsSourceLine(s)
  {
    SolidEnds(ip, gap + name, more, name);
    assert ip + (gap + name) + more == ip + gap + name + more by { ConcatAssociative(ip, gap, name); }
    TrimOfSolid(ip + gap + name + more);
    WordsOfPair(ip, gap, name, more);
    PlainLine(ip, gap, name + more);
    ConcatAssociative(ip + gap, name, more);
  }

  lemma SolidEnds(first: string, middle: string, more: string, last: string)
    requires IsToken(first) && IsToken(last) && |last| <= |middle| && middle[|middle| - |last|..] == last
    requires more == "" || !IsWhitespace(more[|more| - 1])
    ensures var s := first + middle + more; s != "" && !IsWhitespace(s[0]) && !IsWhitespace(s[|s| - 1])
  {
    var s := first + middle + more;
    assert s[0] == first[0];
    if more == "" {
      assert s[|s| - 1] == middle[|middle| - 1] == last[|last| - 1];
    } else {
      assert s[|s| - 1] == more[|more| - 1];
    }
  }

  lemma HostUnderstood(addresses: Addresses, ip: string, gap: string, name: string, more: string)
    requires WellFormed(addresses, Host(ip, gap, name, more))
    ensures Understood(addresses, Host(ip, gap, name, more))
  {
    HostLine(ip, gap, name, more);
  }

  lemma TrimmedCaret(name: string)
    requires name != "" && name[|name| - 1] != '^'
    ensures TrimCarets(name + "^") == name
  {
    assert (name + "^")[..|name|] == name;
    assert TrimCarets(name) == name;
  }

  lemma RuleUnderstood(addresses: Addresses, name: string)
    requires IsToken(name) && name[|name| - 1] != '^'
    ensures Understood(addresses, Rule(name))
  {
    var s := "||" + name + "^";
    assert s[0] == '|' && s[|s| - 1] == '^';
    TrimOfSolid(s);
    assert s[2..] == name + "^" && "||" <= s;
    TrimmedCaret(name);
    WordsOfToken(name);
  }

  lemma ExceptionUnderstood(addresses: Addresses, name: string)
    requires IsToken(name) && name[|name| - 1] != '^'
    ensures Understood(addresses, Exception(name))
  {
    var s := "@@||" + name + "^";
    assert s[0] == '@' && s[|s| - 1] == '^';
    TrimOfSolid(s);
    assert s[4..] == name + "^" && "@@||" <= s;
    TrimmedCaret(name);
    WordsOfToken(name);
  }

  /** Every well-formed line is understood. */
  lemma LineExactly(addresses: Addresses, line: Line)
    requires WellFormed(addresses, line)
    ensures Understood(addresses, line)
  {
    match line
    case Remark(text) => RemarkUnderstood(addresses, text);
    case Link(source) => LinkUnderstood(addresses, source);
    case Host(ip, gap, name, more) => HostUnderstood(addresses, ip, gap, name, more);
    case Rule(name) => RuleUnderstood(addresses, name);
    case Exception(name) => ExceptionUnderstood(addresses, name);
  }

  /** A pair of tokens that does not start with an address contributes nothing. */
  lemma NoAddressNoName(addresses: Addresses, word: string, gap: string, name: string)
    requires IsPlainToken(word) && !addresses.isIp(word) && gap != "" && IsBlank(gap) && IsToken(name)
    ensures ParseHostsLine(addresses, word + gap + name) == None
  {
    HostLine(word, gap, name, "");
    assert word + gap + name + "" == word + gap + name;
  }

  // ----- What a page says -----

  function Texts(page: seq<Line>): (r: seq<string>)
    ensures |r| == |page| && forall i :: 0 <= i < |page| ==> r[i] == Text(page[i])
  {
    seq(|page|, i requires 0 <= i < |page| => Text(page[i]))
  }

  function Links(page: seq<Line>): seq<string> {
    if page == [] then []
    else Links(page[..|page| - 1]) + (if page[|page| - 1].Link? then [page[|page| - 1].source] else [])
  }

  function HostSpeakers(addresses: Addresses, page: seq<Line>): nat {
    if page == [] then 0
    else HostSpeakers(addresses, page[..|page| - 1]) + (if SpeaksForHosts(addresses, page[|page| - 1]) then 1 else 0)
  }

  function NamesOn(page: seq<Line>): set<string> {
    set line | line in page && NameOf(line).Some? :: NameOf(line).value
  }

  lemma {:induction false} PageCounts(addresses: Addresses, page: seq<Line>)
    requires forall line :: line in page ==> WellFormed(addresses, line)
    ensures SourcesIn(Texts(page)) == Links(page) && SourceCount(Texts(page)) == |Links(page)|
    ensures HostsCount(addresses, Texts(page)) == HostSpeakers(addresses, page)
  {
    if page != [] {
      var n := |page| - 1;
      assert page[n] in page;
      PageCounts(addresses, page[..n]);
      LineExactly(addresses, page[n]);
      assert Texts(page)[..n] == Texts(page[..n]);
    }
  }

  lemma PageNames(addresses: Addresses, page: seq<Line>)
    requires forall line :: line in page ==> WellFormed(addresses, line)
    ensures NamesIn(addresses, Texts(page)) == NamesOn(page)
  {
    forall i | 0 <= i < |page| ensures ParseHostsLine(addresses, Texts(page)[i]) == NameOf(page[i]) {
      assert page[i] in page;
      LineExactly(addresses, page[i]);
    }
    forall x | x in NamesOn(page) ensures x in NamesIn(addresses, Texts(page)) {
      var i :| 0 <= i < |page| && NameOf(page[i]) == Some(x);
      assert Texts(page)[i] in Texts(page);
    }
    forall x | x in NamesIn(addresses, Texts(page)) ensures x in NamesOn(page) {
      var i :| 0 <= i < |page| && ParseHostsLine(addresses, Texts(page)[i]) == Some(x);
      assert page[i] in page;
    }
  }

  lemma TextsWritable(addresses: Addresses, page: seq<Line>, eol: string)
    requires (eol == "\n" || eol == "\r\n") && forall line :: line in page ==> WellFormed(addresses, line)
    ensures forall text :: text in Texts(page) ==> Writable(text, eol)
  {
    forall i | 0 <= i < |page| ensures Writable(Texts(page)[i], eol) {
      assert page[i] in page;
      TextWritable(addresses, page[i], eol);
    }
  }

  lemma TextWritable(addresses: Addresses, line: Line, eol: string)
    requires (eol == "\n" || eol == "\r\n") && WellFormed(addresses, line)
    ensures Writable(Text(line), eol)
  {
    assert IsWhitespace('\n') && IsWhitespace('\r');
  }

  /**
   * A page of comments, links, hosts and rules in any order, written with either line end: it is a meta-list
   * naming its links in order exactly if there are two or more of them and more than lines that
   * speak for hosts; otherwise it holds the names of its lines, normalized, and no other.
   */
  lemma PageExactly(addresses: Addresses, page: seq<Line>, eol: string)
    requires (eol == "\n" || eol == "\r\n") && forall line :: line in page ==> WellFormed(addresses, line)
    ensures ReadPage(addresses, Render(Texts(page), eol)) ==
      if |Links(page)| >= 2 && |Links(page)| > HostSpeakers(addresses, page) then Meta(Links(page)) else Hosts(NamesOn(page))
  {
    assert Lines(Render(Texts(page), eol)) == Texts(page) by { TextsReadBack(addresses, page, eol); }
    PageCounts(addresses, page);
    PageNames(addresses, page);
  }

  lemma TextsReadBack(addresses: Addresses, page: seq<Line>, eol: string)
    requires (eol == "\n" || eol == "\r\n") && forall line :: line in page ==> WellFormed(addresses, line)
    ensures Lines(Render(Texts(page), eol)) == Texts(page)
  {
    TextsWritable(addresses, page, eol);
    LinesReadBack(Texts(page), eol, "");
    assert Render(Texts(page), eol) + "" == Render(Texts(page), eol);
  }

  function LinkLines(sources: seq<string>): (r: seq<Line>)
    ensures |r| == |sources| && forall i :: 0 <= i < |r| ==> r[i] == Link(sources[i])
  {
    seq(|sources|, i requires 0 <= i < |sources| => Link(sources[i]))
  }

  lemma {:induction false} LinksOfLinkLines(addresses: Addresses, sources: seq<string>)
    ensures Links(LinkLines(sources)) == sources && HostSpeakers(addresses, LinkLines(sources)) == 0
  {
    if sources != [] {
      var n := |sources| - 1;
      LinksOfLinkLines(addresses, sources[..n]);
      assert LinkLines(sources)[..n] == LinkLines(sources[..n]);
      assert sources == sources[..n] + [sources[n]];
    }
  }

  /** A list of two or more links, one to a line, reads back as a meta-list naming exactly those. */
  lemma MetaListReadBack(addresses: Addresses, sources: seq<string>)
    requires |sources| >= 2 && forall s :: s in sources ==> IsLink(s)
    ensures ReadPage(addresses, Render(sources, "\n")) == Meta(sources)
  {
    var page := LinkLines(sources);
    forall line | line in page ensures WellFormed(addresses, line) {
      var i :| 0 <= i < |page| && page[i] == line;
      assert sources[i] in sources;
    }
    assert Texts(page) == sources;
    LinksOfLinkLines(addresses, sources);
    PageExactly(addresses, page, "\n");
  }
}
