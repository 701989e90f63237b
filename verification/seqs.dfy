/** Sequence helpers shared by the query and store modules. */
module Seqs {

  /** The elements of s that satisfy p, in their order in s. */
  function Filter<T(==,!new)>(s: seq<T>, p: T -> bool): (r: seq<T>)
    ensures |r| <= |s|
    ensures forall i :: 0 <= i < |r| ==> p(r[i])
    ensures forall x :: x in r <==> x in s && p(x)
    ensures multiset(r) <= multiset(s)
  {
    if s == [] then []
    else
      assert s == [s[0]] + s[1..];
      if p(s[0]) then [s[0]] + Filter(s[1..], p)
      else Filter(s[1..], p)
  }

  /** Filtering keeps every copy of an element that satisfies p and no copy of one that does not. */
  lemma {:induction false} FilterCount<T(!new)>(s: seq<T>, p: T -> bool, x: T)
    ensures multiset(Filter(s, p))[x] == if p(x) then multiset(s)[x] else 0
  {
    if s != [] {
      assert s == [s[0]] + s[1..];
      FilterCount(s[1..], p, x);
    }
  }

  /** Filtering works piecewise, so the kept elements keep their relative order. */
  lemma {:induction false} FilterAppend<T(!new)>(a: seq<T>, b: seq<T>, p: T -> bool)
    ensures Filter(a + b, p) == Filter(a, p) + Filter(b, p)
  {
    if a != [] {
      assert a + b == [a[0]] + (a[1..] + b);
      FilterCons(a[0], a[1..] + b, p);
      FilterCons(a[0], a[1..], p);
      FilterAppend(a[1..], b, p);
    } else {
      assert a + b == b;
    }
  }

  lemma FilterCons<T(!new)>(x: T, s: seq<T>, p: T -> bool)
    ensures Filter([x] + s, p) == if p(x) then [x] + Filter(s, p) else Filter(s, p)
  {
    assert ([x] + s)[0] == x;
    assert ([x] + s)[1..] == s;
  }

  predicate Distinct<T(==,!new)>(s: seq<T>)
  {
    forall i, j :: 0 <= i < j < |s| ==> s[i] != s[j]
  }

  /** s with every occurrence of x taken out, the rest in order. */
  function Without<T(==,!new)>(s: seq<T>, x: T): (r: seq<T>)
    ensures forall y :: y in r <==> y in s && y != x
    ensures forall y :: multiset(r)[y] == if y == x then 0 else multiset(s)[y]
    ensures Distinct(s) ==> Distinct(r)
  {
    if s == [] then []
    else
      assert s == [s[0]] + s[1..];
      if s[0] == x then Without(s[1..], x)
      else
        var rest := Without(s[1..], x);
        assert Distinct(s) ==> s[0] !in rest && Distinct(s[1..]) by {
          if Distinct(s) {
            forall i, j | 0 <= i < j < |s[1..]| ensures s[1..][i] != s[1..][j] {
              assert s[1..][i] == s[i + 1] && s[1..][j] == s[j + 1];
            }
            assert s[0] !in s[1..];
          }
        }
        [s[0]] + rest
  }

  /** Taking out an element works piecewise, so the other elements keep their relative order. */
  lemma {:induction false} WithoutAppend<T(!new)>(a: seq<T>, b: seq<T>, x: T)
    ensures Without(a + b, x) == Without(a, x) + Without(b, x)
  {
    if a != [] {
      assert a + b == [a[0]] + (a[1..] + b);
      WithoutCons(a[0], a[1..] + b, x);
      WithoutCons(a[0], a[1..], x);
      WithoutAppend(a[1..], b, x);
    } else {
      assert a + b == b;
    }
  }

  lemma WithoutCons<T(!new)>(y: T, s: seq<T>, x: T)
    ensures Without([y] + s, x) == if y == x then Without(s, x) else [y] + Without(s, x)
  {
    assert ([y] + s)[0] == y;
    assert ([y] + s)[1..] == s;
  }

  /** Taking out an element that is not there changes nothing. */
  lemma {:induction false} WithoutAbsent<T(!new)>(s: seq<T>, x: T)
    requires x !in s
    ensures Without(s, x) == s
  {
    if s != [] {
      WithoutAbsent(s[1..], x);
      assert s == [s[0]] + s[1..];
    }
  }
}
