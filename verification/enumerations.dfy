/** Sequences that stand for the iteration of a Go map: every key exactly
    once, in an order the program does not control. */
module Enumerations {

  /** No element occurs twice. */
  predicate Distinct<T(==)>(s: seq<T>) {
    forall i, j | 0 <= i < j < |s| :: s[i] != s[j]
  }

  /** `s` visits every element of `keys` exactly once, as a `range` loop
      over a map with those keys does. */
  predicate IsEnumeration<T(==)>(s: seq<T>, keys: set<T>) {
    && Distinct(s)
    && (forall x | x in s :: x in keys)
    && (forall x | x in keys :: x in s)
  }

  lemma DistinctCons<T>(x: T, s: seq<T>)
    requires Distinct(s) && x !in s
    ensures Distinct([x] + s)
  {
    forall i, j | 0 <= i < j < |[x] + s|
      ensures ([x] + s)[i] != ([x] + s)[j]
    {
      assert ([x] + s)[j] == s[j - 1];
    }
  }

  /** Sum of `f` over the elements of `s`, left to right. */
  function Sum<T>(s: seq<T>, f: T -> nat): nat
    decreases |s|
  {
    if |s| == 0 then 0 else f(s[0]) + Sum(s[1..], f)
  }

  /** `s` with every occurrence of `x` dropped, order kept. */
  function Without<T(==,!new)>(s: seq<T>, x: T): (r: seq<T>)
    ensures forall y :: y in r <==> y in s && y != x
    ensures Distinct(s) ==> Distinct(r)
    ensures |r| <= |s|
    decreases |s|
  {
    if |s| == 0 then []
    else if s[0] == x then Without(s[1..], x)
    else
      var rest := Without(s[1..], x);
      assert Distinct(s) ==> s[0] !in s[1..];
      [s[0]] + rest
  }

  /** Removing the element at `i` takes exactly its term out of the sum. */
  lemma {:induction false} SumRemoveAt<T>(s: seq<T>, i: nat, f: T -> nat)
    requires i < |s|
    ensures Sum(s, f) == f(s[i]) + Sum(s[..i] + s[i+1..], f)
    decreases |s|
  {
    if i == 0 {
      assert s[..0] + s[1..] == s[1..];
    } else {
      var t := s[1..];
      SumRemoveAt(t, i - 1, f);
      assert s[..i] + s[i+1..] == [s[0]] + (t[..i-1] + t[i..]);
      assert ([s[0]] + (t[..i-1] + t[i..]))[1..] == t[..i-1] + t[i..];
    }
  }

  lemma HeadIsElement<T>(s: seq<T>)
    requires |s| > 0
    ensures s[0] in s
  {
  }

  /** A sum over an enumeration does not depend on the enumeration order. */
  lemma {:induction false} SumOrderIndependent<T(!new)>(s: seq<T>, t: seq<T>, f: T -> nat)
    requires Distinct(s) && Distinct(t)
    requires forall x :: x in s <==> x in t
    ensures Sum(s, f) == Sum(t, f)
    decreases |s|
  {
    if |s| == 0 {
      if |t| != 0 {
        HeadIsElement(t);
        assert false;
      }
    } else {
      var x := s[0];
      assert x in t;
      var i :| 0 <= i < |t| && t[i] == x;
      var t' := t[..i] + t[i+1..];
      SumRemoveAt(t, i, f);
      forall y
        ensures y in s[1..] <==> y in t'
      {
        if y in s[1..] {
          var k :| 0 <= k < |s[1..]| && s[1..][k] == y;
          assert s[k+1] == y;
          assert y != x;
          assert y in t;
          var m :| 0 <= m < |t| && t[m] == y;
          assert m != i;
          if m < i { assert t'[m] == y; } else { assert t'[m-1] == y; }
        }
        if y in t' {
          var m :| 0 <= m < |t'| && t'[m] == y;
          if m < i {
            assert t[m] == y;
            assert m != i;
          } else {
            assert t[m+1] == y;
          }
          assert y != x;
          assert y in s;
          var k :| 0 <= k < |s| && s[k] == y;
          assert k != 0;
          assert s[1..][k-1] == y;
        }
      }
      assert Distinct(t') by {
        forall a, b | 0 <= a < b < |t'|
          ensures t'[a] != t'[b]
        {
          var a' := if a < i then a else a + 1;
          var b' := if b < i then b else b + 1;
          assert t'[a] == t[a'] && t'[b] == t[b'];
        }
      }
      SumOrderIndependent(s[1..], t', f);
    }
  }

  /** A subset is no larger than its superset. */
  lemma SubsetSize<T>(a: set<T>, b: set<T>)
    requires a <= b
    ensures |a| <= |b|
  {
    if a != {} {
      var x :| x in a;
      SubsetSize(a - {x}, b - {x});
    }
  }
}
