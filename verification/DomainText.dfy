/** Domain names as text: normalisation, dot-separated labels and the label-suffix relation. */
module DomainText {
  import opened Prelude

  predicate IsAsciiUpper(c: char) {
    'A' <= c <= 'Z'
  }

  function LowerChar(c: char): char {
    if IsAsciiUpper(c) then (c as int + 32) as char else c
  }

  function Lower(s: string): (r: string)
    ensures |r| == |s| && forall i :: 0 <= i < |s| ==> r[i] == LowerChar(s[i])
  {
    seq(|s|, i requires 0 <= i < |s| => LowerChar(s[i]))
  }

  /** `trim_end_matches('.')` */
  function TrimDots(s: string): (r: string)
    ensures r <= s
    ensures r == "" || r[|r| - 1] != '.'
  {
    if s != "" && s[|s| - 1] == '.' then TrimDots(s[..|s| - 1]) else s
  }

  function Normalize(name: string): string {
    Lower(TrimDots(name))
  }

  /** Index of the first dot, or the length. */
  function FirstDot(s: string): (i: nat)
    ensures i <= |s|
    ensures i < |s| ==> s[i] == '.'
  {
    if s == "" || s[0] == '.' then 0 else 1 + FirstDot(s[1..])
  }

  function Labels(s: string): (r: seq<string>)
    ensures r != []
    decreases |s|
  {
    var i := FirstDot(s);
    if i == |s| then [s] else [s[..i]] + Labels(s[i + 1..])
  }

  function Join(labels: seq<string>): string
    requires labels != []
  {
    if |labels| == 1 then labels[0] else labels[0] + "." + Join(labels[1..])
  }

  lemma JoinCons(first: string, rest: seq<string>)
    requires rest != []
    ensures Join([first] + rest) == first + "." + Join(rest)
  {
  }

  lemma {:induction false} JoinConcat(a: seq<string>, b: seq<string>)
    requires a != [] && b != []
    ensures Join(a + b) == Join(a) + "." + Join(b)
  {
    assert a + b == [a[0]] + (a[1..] + b);
    JoinCons(a[0], a[1..] + b);
    if |a| == 1 {
      assert a[1..] + b == b;
    } else {
      JoinConcat(a[1..], b);
    }
  }

  lemma SplitAt(s: string, i: nat)
    requires i < |s|
    ensures s == s[..i] + [s[i]] + s[i + 1..]
  {
  }

  /** `Labels` loses nothing, so two texts with the same labels are the same text. */
  lemma {:induction false} JoinLabels(s: string)
    ensures Join(Labels(s)) == s
    decreases |s|
  {
    var i := FirstDot(s);
    if i < |s| {
      JoinLabels(s[i + 1..]);
      JoinCons(s[..i], Labels(s[i + 1..]));
      SplitAt(s, i);
    }
  }

  lemma LabelsInjective(a: string, b: string)
    requires Labels(a) == Labels(b)
    ensures a == b
  {
    JoinLabels(a);
    JoinLabels(b);
  }

  lemma {:induction false} FirstDotOfSubdomain(p: string, q: string)
    ensures FirstDot(p + "." + q) == FirstDot(p)
  {
    if p != "" && p[0] != '.' {
      FirstDotOfSubdomain(p[1..], q);
      assert (p + "." + q)[1..] == p[1..] + "." + q;
    }
  }

  lemma {:induction false} LabelsOfSubdomain(p: string, q: string)
    ensures Labels(p + "." + q) == Labels(p) + Labels(q)
    decreases |p|
  {
    var s := p + "." + q;
    var i := FirstDot(p);
    FirstDotOfSubdomain(p, q);
    if i == |p| {
      assert s[..i] == p && s[i + 1..] == q;
    } else {
      LabelsOfSubdomain(p[i + 1..], q);
      assert s[i + 1..] == p[i + 1..] + "." + q && s[..i] == p[..i];
      ConcatAssociative([p[..i]], Labels(p[i + 1..]), Labels(q));
    }
  }

  lemma {:induction false} TrimDotsOfSubdomain(p: string, q: string)
    requires TrimDots(q) != ""
    ensures TrimDots(p + q) == p + TrimDots(q)
  {
    if q[|q| - 1] == '.' {
      TrimDotsOfSubdomain(p, q[..|q| - 1]);
      assert (p + q)[..|p + q| - 1] == p + q[..|q| - 1];
    }
  }

  lemma {:induction false} TrimDotsOfDots(s: string, n: nat)
    ensures TrimDots(s + seq(n, _ => '.')) == TrimDots(s)
  {
    var all := s + seq(n, _ => '.');
    if n == 0 {
      assert all == s;
    } else {
      TrimDotsOfDots(s, n - 1);
      assert all[..|all| - 1] == s + seq(n - 1, _ => '.');
    }
  }

  /** The same character, or the capital and the small form of one ASCII letter: their codes differ by 32. */
  predicate SameLetter(c: char, d: char) {
    || c == d
    || ('A' <= c <= 'Z' && d as int == c as int + 32)
    || ('A' <= d <= 'Z' && c as int == d as int + 32)
  }

  predicate EqualIgnoringCase(a: string, b: string) {
    |a| == |b| && forall i :: 0 <= i < |a| ==> SameLetter(a[i], b[i])
  }

  lemma {:induction false} TrimDotsIgnoresCase(a: string, b: string)
    requires EqualIgnoringCase(a, b)
    ensures EqualIgnoringCase(TrimDots(a), TrimDots(b))
  {
    if a != "" {
      var n := |a| - 1;
      assert SameLetter(a[n], b[n]);
      if a[n] == '.' {
        TrimDotsIgnoresCase(a[..n], b[..n]);
      }
    }
  }

  lemma NormalizeInsensitive(a: string, b: string, dots: nat)
    requires EqualIgnoringCase(a, b)
    ensures Normalize(b + seq(dots, _ => '.')) == Normalize(a)
  {
    TrimDotsOfDots(b, dots);
    TrimDotsIgnoresCase(a, b);
  }

  /** `trim_end_matches` takes off dots only, and all of them. */
  lemma {:induction false} TrimDotsExactly(s: string, k: nat)
    requires k <= |s|
    ensures |TrimDots(s)| == k <==> (forall i :: k <= i < |s| ==> s[i] == '.') && (k == 0 || s[k - 1] != '.')
  {
    var n := |s| - 1;
    if s != "" && s[n] == '.' {
      if k <= n {
        TrimDotsExactly(s[..n], k);
        assert forall i :: k <= i < n ==> s[..n][i] == s[i];
      }
    }
  }

  /**
   * What normalizing leaves, character by character: the text up to its trailing dots, every ASCII
   * capital replaced by its small form and every other character as it was.
   */
  lemma NormalizeExactly(name: string, k: nat)
    requires k <= |name| && (forall i :: k <= i < |name| ==> name[i] == '.') && (k == 0 || name[k - 1] != '.')
    ensures |Normalize(name)| == k
    ensures forall i :: 0 <= i < k ==>
      && !('A' <= Normalize(name)[i] <= 'Z')
      && (if 'A' <= name[i] <= 'Z' then Normalize(name)[i] as int == name[i] as int + 32 else Normalize(name)[i] == name[i])
  {
    TrimDotsExactly(name, k);
    assert TrimDots(name) == name[..k];
  }

  /** Two names normalize to the same text exactly if they are equal up to ASCII case and trailing dots. */
  lemma NormalizeEqualExactly(a: string, b: string)
    ensures Normalize(a) == Normalize(b) <==> EqualIgnoringCase(TrimDots(a), TrimDots(b))
  {
    var x, y := TrimDots(a), TrimDots(b);
    assert forall i :: 0 <= i < |x| && i < |y| ==> (Lower(x)[i] == Lower(y)[i] <==> SameLetter(x[i], y[i]));
    if Lower(x) == Lower(y) {
      assert |x| == |y|;
      forall i | 0 <= i < |x| ensures SameLetter(x[i], y[i]) {
        assert Lower(x)[i] == Lower(y)[i];
      }
    }
  }

  lemma NormalizeSubdomain(p: string, q: string)
    requires Normalize(q) != ""
    ensures Normalize(p + "." + q) == Lower(p) + "." + Normalize(q)
  {
    TrimDotsOfSubdomain(p + ".", q);
  }

  /** Normalizing again changes nothing. */
  lemma NormalizeIdempotent(name: string)
    ensures Normalize(Normalize(name)) == Normalize(name)
  {
  }

  /** A normalized name has no empty last label unless it is the root. */
  lemma {:induction false} LastLabel(s: string)
    ensures Labels(s)[|Labels(s)| - 1] == "" <==> s == "" || s[|s| - 1] == '.'
    decreases |s|
  {
    var i := FirstDot(s);
    if i < |s| {
      var rest := s[i + 1..];
      LastLabel(rest);
      assert Labels(s)[|Labels(s)| - 1] == Labels(rest)[|Labels(rest)| - 1];
      assert rest != "" ==> rest[|rest| - 1] == s[|s| - 1];
    } else if s != "" {
      NoDot(s);
    }
  }

  lemma NoDot(s: string)
    requires FirstDot(s) == |s|
    ensures '.' !in s
  {
    BeforeFirstDot(s);
    assert s[..|s|] == s;
  }

  /** `Labels` is the one way to cut a text at its dots. */
  lemma LabelsExactly(s: string, labels: seq<string>)
    ensures Labels(s) == labels <==> labels != [] && Join(labels) == s && forall l :: l in labels ==> '.' !in l
  {
    JoinLabels(s);
    LabelsAreDotFree(s);
    if labels != [] && Join(labels) == s && forall l :: l in labels ==> '.' !in l {
      LabelsOfJoin(labels);
    }
  }

  lemma {:induction false} LabelsOfJoin(labels: seq<string>)
    requires labels != [] && forall l :: l in labels ==> '.' !in l
    ensures Labels(Join(labels)) == labels
  {
    assert labels[0] in labels;
    DotFree(labels[0]);
    if |labels| > 1 {
      var rest := labels[1..];
      LabelsOfJoin(rest);
      LabelsOfSubdomain(labels[0], Join(rest));
      assert Labels(labels[0]) == [labels[0]];
    } else {
      assert labels == [labels[0]];
    }
  }

  lemma {:induction false} DotFree(s: string)
    requires '.' !in s
    ensures FirstDot(s) == |s|
  {
    if s != "" {
      assert s[0] in s && forall c :: c in s[1..] ==> c in s;
      DotFree(s[1..]);
    }
  }

  lemma {:induction false} LabelsAreDotFree(s: string)
    ensures forall l :: l in Labels(s) ==> '.' !in l
    decreases |s|
  {
    var i := FirstDot(s);
    BeforeFirstDot(s);
    if i < |s| {
      LabelsAreDotFree(s[i + 1..]);
    } else {
      assert s[..i] == s;
    }
  }

  lemma {:induction false} BeforeFirstDot(s: string)
    ensures '.' !in s[..FirstDot(s)]
  {
    if s != "" && s[0] != '.' {
      BeforeFirstDot(s[1..]);
      assert s[..FirstDot(s)] == [s[0]] + s[1..][..FirstDot(s[1..])];
    }
  }
}
