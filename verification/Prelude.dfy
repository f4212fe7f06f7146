/** Result types, bytes and the few sequence operations every component shares. */
module Prelude {

  datatype Option<+T> = None | Some(value: T)

  datatype Result<+T, +E> = Ok(value: T) | Err(error: E)

  type Byte = b: int | 0 <= b < 256

  predicate Distinct<T(==)>(s: seq<T>) {
    forall i, j :: 0 <= i < j < |s| ==> s[i] != s[j]
  }

  function Elements<T>(s: seq<T>): set<T> {
    set x | x in s
  }

  /** The elements of `s` outside `out`, in order: what `Vec::retain` leaves. */
  function Minus<T>(s: seq<T>, out: set<T>): (r: seq<T>)
    ensures |r| <= |s|
  {
    if s == [] then []
    else if s[0] in out then Minus(s[1..], out)
    else [s[0]] + Minus(s[1..], out)
  }

  predicate IsSuffix<T(==)>(a: seq<T>, b: seq<T>) {
    |a| <= |b| && a == b[|b| - |a|..]
  }

  /** The same elements with the one at `i` first. */
  function Promoted<T>(s: seq<T>, i: nat): seq<T>
    requires i < |s|
  {
    [s[i]] + s[..i] + s[i + 1..]
  }

  lemma PromotedIsPermutation<T>(s: seq<T>, i: nat)
    requires i < |s|
    ensures multiset(Promoted(s, i)) == multiset(s)
  {
    assert s == s[..i] + [s[i]] + s[i + 1..];
  }

  function Flatten<T>(ss: seq<seq<T>>): seq<T> {
    if ss == [] then [] else ss[0] + Flatten(ss[1..])
  }

  lemma ConcatAssociative<T>(a: seq<T>, b: seq<T>, c: seq<T>)
    ensures a + (b + c) == a + b + c
  {
  }

  lemma TakeSnoc<T>(s: seq<T>)
    requires s != []
    ensures s[..|s| - 1] + [s[|s| - 1]] == s
  {
  }

  lemma {:induction false} FlattenConcat<T>(a: seq<seq<T>>, b: seq<seq<T>>)
    ensures Flatten(a + b) == Flatten(a) + Flatten(b)
  {
    if a == [] {
      assert a + b == b;
    } else {
      FlattenConcat(a[1..], b);
      assert (a + b)[0] == a[0] && (a + b)[1..] == a[1..] + b;
      ConcatAssociative(a[0], Flatten(a[1..]), Flatten(b));
    }
  }

  lemma FlattenSnoc<T>(a: seq<seq<T>>, x: seq<T>)
    ensures Flatten(a + [x]) == Flatten(a) + x
  {
    FlattenConcat(a, [x]);
    assert Flatten([x]) == x + Flatten([x][1..]);
  }

  lemma {:induction false} MinusMembers<T>(s: seq<T>, out: set<T>)
    ensures forall x :: x in Minus(s, out) ==> x in s && x !in out
    ensures forall x :: x in s && x !in out ==> x in Minus(s, out)
  {
    if s != [] {
      MinusMembers(s[1..], out);
      assert s == [s[0]] + s[1..];
    }
  }

  lemma {:induction false} MinusConcat<T>(a: seq<T>, b: seq<T>, out: set<T>)
    ensures Minus(a + b, out) == Minus(a, out) + Minus(b, out)
  {
    if a == [] {
      assert a + b == b;
    } else {
      MinusConcat(a[1..], b, out);
      assert (a + b)[0] == a[0] && (a + b)[1..] == a[1..] + b;
      ConcatAssociative([a[0]], Minus(a[1..], out), Minus(b, out));
    }
  }

  lemma {:induction false} MinusAbsent<T>(s: seq<T>, out: set<T>)
    requires forall x :: x in s ==> x !in out
    ensures Minus(s, out) == s
  {
    if s != [] {
      assert s[0] in s;
      forall x | x in s[1..] ensures x !in out { assert x in s; }
      MinusAbsent(s[1..], out);
    }
  }

  lemma {:induction false} MinusTwice<T>(s: seq<T>, a: set<T>, b: set<T>)
    ensures Minus(Minus(s, a), b) == Minus(s, a + b)
  {
    if s != [] {
      MinusTwice(s[1..], a, b);
      if s[0] !in a {
        assert Minus(s, a) == [s[0]] + Minus(s[1..], a);
        assert Minus(s, a)[1..] == Minus(s[1..], a);
      }
    }
  }

  lemma {:induction false} MinusDistinct<T>(s: seq<T>, out: set<T>)
    requires Distinct(s)
    ensures Distinct(Minus(s, out))
  {
    if s != [] {
      MinusDistinct(s[1..], out);
      MinusMembers(s[1..], out);
      assert s[0] !in s[1..];
    }
  }

  /** Removing one element of a duplicate-free sequence shortens it by one. */
  lemma {:induction false} MinusOneLength<T>(s: seq<T>, x: T)
    requires Distinct(s) && x in s
    ensures |Minus(s, {x})| == |s| - 1
  {
    if s[0] == x {
      assert x !in s[1..];
      MinusAbsent(s[1..], {x});
    } else {
      MinusOneLength(s[1..], x);
    }
  }

  lemma {:induction false} DistinctCardinality<T>(s: seq<T>)
    requires Distinct(s)
    ensures |Elements(s)| == |s|
  {
    if s != [] {
      DistinctCardinality(s[1..]);
      assert s[0] !in s[1..];
      assert Elements(s) == {s[0]} + Elements(s[1..]);
    } else {
      assert Elements(s) == {};
    }
  }

  function Min(a: nat, b: nat): nat {
    if a < b then a else b
  }

  function Max(a: nat, b: nat): nat {
    if a < b then b else a
  }
}
