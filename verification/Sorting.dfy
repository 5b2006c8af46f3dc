/** `sort.Strings`: byte order on strings, and a sorted listing of a set of keys. */
module Sorting {

  predicate StrLess(a: string, b: string) {
    if b == "" then false
    else if a == "" then true
    else if a[0] != b[0] then a[0] < b[0]
    else StrLess(a[1..], b[1..])
  }

  /** `a` is a proper prefix of `b`, or has the smaller character where the two first differ. */
  ghost predicate Before(a: string, b: string) {
    a < b || exists i :: 0 <= i < |a| && i < |b| && a[..i] == b[..i] && a[i] < b[i]
  }

  lemma BeforeWithHead(c: char, x: string, y: string)
    requires Before(x, y)
    ensures Before([c] + x, [c] + y)
  {
    if i :| 0 <= i < |x| && i < |y| && x[..i] == y[..i] && x[i] < y[i] {
      assert ([c] + x)[..i + 1] == [c] + x[..i] == ([c] + y)[..i + 1];
    }
  }

  lemma BeforeWithoutHead(c: char, x: string, y: string)
    requires Before([c] + x, [c] + y)
    ensures Before(x, y)
  {
    var a, b := [c] + x, [c] + y;
    if i :| 0 <= i < |a| && i < |b| && a[..i] == b[..i] && a[i] < b[i] {
      assert a[0] == b[0] == c;
      assert a[..i][1..] == x[..i - 1] && b[..i][1..] == y[..i - 1];
      assert x[i - 1] == a[i] && y[i - 1] == b[i];
    } else {
      assert a[1..] == x && b[1..] == y;
    }
  }

  lemma BeforeTails(a: string, b: string)
    requires a != "" && b != "" && a[0] == b[0]
    ensures Before(a, b) <==> Before(a[1..], b[1..])
  {
    assert a == [a[0]] + a[1..] && b == [a[0]] + b[1..];
    if Before(a, b) {
      BeforeWithoutHead(a[0], a[1..], b[1..]);
    }
    if Before(a[1..], b[1..]) {
      BeforeWithHead(a[0], a[1..], b[1..]);
    }
  }

  /** That is what comparing the first characters and then the rest decides. */
  lemma {:induction false} StrLessExactlyWhen(a: string, b: string)
    ensures StrLess(a, b) <==> Before(a, b)
    decreases |a|
  {
    if a != "" && b != "" {
      if a[0] == b[0] {
        BeforeTails(a, b);
        StrLessExactlyWhen(a[1..], b[1..]);
      } else {
        assert a[..0] == b[..0];
      }
    }
  }

  lemma {:induction false} StrLessTotal(a: string, b: string)
    ensures a != b ==> StrLess(a, b) || StrLess(b, a)
    ensures !(StrLess(a, b) && StrLess(b, a)) && !StrLess(a, a)
    decreases |a|
  {
    if a != "" {
      StrLessTotal(a[1..], a[1..]);
      if b != "" {
        StrLessTotal(a[1..], b[1..]);
        assert a == [a[0]] + a[1..] && b == [b[0]] + b[1..];
      }
    }
  }

  lemma {:induction false} StrLessTransitive(a: string, b: string, c: string)
    requires StrLess(a, b) && StrLess(b, c)
    ensures StrLess(a, c)
    decreases |a|
  {
    if a != "" && a[0] == b[0] == c[0] {
      StrLessTransitive(a[1..], b[1..], c[1..]);
    }
  }

  /** Ascending, each string once. */
  ghost predicate StrictlySorted(s: seq<string>) {
    forall i, j :: 0 <= i < j < |s| ==> StrLess(s[i], s[j])
  }

  /** The same without the comparison of the program. */
  ghost predicate InByteOrder(s: seq<string>) {
    forall i, j :: 0 <= i < j < |s| ==> Before(s[i], s[j])
  }

  lemma SortedIsInByteOrder(s: seq<string>)
    ensures StrictlySorted(s) <==> InByteOrder(s)
  {
    forall i, j | 0 <= i < j < |s|
      ensures StrLess(s[i], s[j]) <==> Before(s[i], s[j])
    {
      StrLessExactlyWhen(s[i], s[j]);
    }
  }

  function Insert(s: seq<string>, x: string): seq<string> {
    if s == [] then [x]
    else if StrLess(x, s[0]) then [x] + s
    else [s[0]] + Insert(s[1..], x)
  }

  function SortStrings(s: seq<string>): seq<string> {
    if s == [] then [] else Insert(SortStrings(s[..|s| - 1]), s[|s| - 1])
  }

  lemma {:induction false} InsertElements(s: seq<string>, x: string)
    ensures |Insert(s, x)| == |s| + 1
    ensures forall y :: y in Insert(s, x) <==> y in s || y == x
    decreases |s|
  {
    if s != [] && !StrLess(x, s[0]) {
      InsertElements(s[1..], x);
      assert s == [s[0]] + s[1..];
    }
  }

  lemma {:induction false} InsertSorted(s: seq<string>, x: string)
    requires StrictlySorted(s) && x !in s
    ensures StrictlySorted(Insert(s, x))
    decreases |s|
  {
    if s == [] {
    } else if StrLess(x, s[0]) {
      forall j | 0 < j < |s|
        ensures StrLess(x, s[j])
      {
        StrLessTransitive(x, s[0], s[j]);
      }
    } else {
      StrLessTotal(x, s[0]);
      var rest := Insert(s[1..], x);
      InsertSorted(s[1..], x);
      InsertElements(s[1..], x);
      forall j | 0 <= j < |rest|
        ensures StrLess(s[0], rest[j])
      {
        assert rest[j] in rest;
        if rest[j] != x {
          var k :| 0 <= k < |s[1..]| && s[1..][k] == rest[j];
          assert s[k + 1] == rest[j];
        }
      }
    }
  }

  ghost predicate Distinct(s: seq<string>) {
    forall i, j :: 0 <= i < j < |s| ==> s[i] != s[j]
  }

  /** Sorting a list without repetitions gives the same elements in strictly ascending order. */
  lemma {:induction false} SortStringsSorts(s: seq<string>)
    requires Distinct(s)
    ensures StrictlySorted(SortStrings(s)) && |SortStrings(s)| == |s|
    ensures forall y :: y in SortStrings(s) <==> y in s
    decreases |s|
  {
    if s != [] {
      var init, x := s[..|s| - 1], s[|s| - 1];
      SortStringsSorts(init);
      assert s == init + [x];
      assert x !in init;
      InsertSorted(SortStrings(init), x);
      InsertElements(SortStrings(init), x);
    }
  }

  /** A set of strings has only one listing in byte order, so the order in which a map was walked
      leaves no trace in the sorted result. */
  lemma SortedListingIsUnique(a: seq<string>, b: seq<string>)
    requires InByteOrder(a) && InByteOrder(b)
    requires forall y :: y in a <==> y in b
    ensures a == b
  {
    SortedIsInByteOrder(a);
    SortedIsInByteOrder(b);
    SortedIsUnique(a, b);
  }

  lemma {:induction false} SortedIsUnique(a: seq<string>, b: seq<string>)
    requires StrictlySorted(a) && StrictlySorted(b)
    requires forall y :: y in a <==> y in b
    ensures a == b
    decreases |a|
  {
    if a == [] {
      HeadIn(b);
    } else {
      assert a[0] in b;
      SameHead(a, b);
      forall y
        ensures y in a[1..] <==> y in b[1..]
      {
        TailMember(a, y);
        TailMember(b, y);
      }
      SortedIsUnique(a[1..], b[1..]);
      assert a == [a[0]] + a[1..] && b == [b[0]] + b[1..];
    }
  }

  lemma HeadIn(b: seq<string>)
    ensures b != [] ==> b[0] in b
  {
  }

  lemma SameHead(a: seq<string>, b: seq<string>)
    requires StrictlySorted(a) && StrictlySorted(b) && a != [] && b != []
    requires a[0] in b && b[0] in a
    ensures a[0] == b[0]
  {
    var i :| 0 <= i < |b| && b[i] == a[0];
    var j :| 0 <= j < |a| && a[j] == b[0];
    StrLessTotal(a[0], b[0]);
  }

  lemma TailMember(a: seq<string>, y: string)
    requires StrictlySorted(a) && a != []
    ensures y in a[1..] <==> y in a && y != a[0]
  {
    StrLessTotal(a[0], a[0]);
    assert a == [a[0]] + a[1..];
    if y in a[1..] {
      var k :| 0 <= k < |a[1..]| && a[1..][k] == y;
      assert StrLess(a[0], a[k + 1]);
    }
  }

  /** Collects the keys of a map in whatever order they come and sorts them. */
  method SortedKeys<V>(m: map<string, V>) returns (r: seq<string>)
    ensures InByteOrder(r) && (forall k :: k in r <==> k in m) && |r| == |m|
  {
    var list: seq<string> := [];
    var rest := m.Keys;
    while rest != {}
      invariant rest <= m.Keys && Distinct(list) && |list| + |rest| == |m|
      invariant forall k :: k in list <==> k in m && k !in rest
      decreases rest
    {
      var k :| k in rest;
      assert k !in list;
      list := list + [k];
      rest := rest - {k};
    }
    r := SortStrings(list);
    SortStringsSorts(list);
    SortedIsInByteOrder(r);
  }
}
