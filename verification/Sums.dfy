/** Sums of a measure over the elements of a sequence. */
module Sums {
  ghost function Sum<T>(f: T -> nat, s: seq<T>): nat {
    if s == [] then 0 else f(s[0]) + Sum(f, s[1..])
  }

  lemma {:induction false} SumConcat<T>(f: T -> nat, a: seq<T>, b: seq<T>)
    ensures Sum(f, a + b) == Sum(f, a) + Sum(f, b)
  {
    if a == [] {
      assert a + b == b;
    } else {
      assert (a + b)[1..] == a[1..] + b;
      SumConcat(f, a[1..], b);
    }
  }

  /** Replacing one element changes the sum by the difference of the two measures. */
  lemma {:induction false} SumUpdate<T>(f: T -> nat, s: seq<T>, i: nat, x: T)
    requires i < |s|
    ensures Sum(f, s[i := x]) + f(s[i]) == Sum(f, s) + f(x)
  {
    if i == 0 {
      assert s[0 := x][1..] == s[1..];
    } else {
      assert s[i := x][1..] == s[1..][i - 1 := x];
      SumUpdate(f, s[1..], i - 1, x);
    }
  }

  lemma SumAppend<T>(f: T -> nat, s: seq<T>, x: T)
    ensures Sum(f, s + [x]) == Sum(f, s) + f(x)
  {
    SumConcat(f, s, [x]);
    assert [x][1..] == [];
  }

  lemma SumPush<T>(f: T -> nat, x: T, s: seq<T>)
    ensures Sum(f, [x] + s) == f(x) + Sum(f, s)
  {
    assert ([x] + s)[1..] == s;
  }

  lemma {:induction false} SumBounds<T>(f: T -> nat, s: seq<T>, i: nat)
    requires i < |s|
    ensures f(s[i]) <= Sum(f, s)
  {
    if i > 0 { SumBounds(f, s[1..], i - 1); }
  }

  /** A sum of zeros is zero. */
  lemma {:induction false} SumZero<T>(f: T -> nat, s: seq<T>)
    requires forall i :: 0 <= i < |s| ==> f(s[i]) == 0
    ensures Sum(f, s) == 0
  {
    if s != [] {
      forall i | 0 <= i < |s[1..]| ensures f(s[1..][i]) == 0 { assert s[1..][i] == s[i + 1]; }
      SumZero(f, s[1..]);
    }
  }

  /** If one measure lies below another everywhere, and `d` below it at one place, so do the sums. */
  lemma {:induction false} SumGap<T>(f: T -> nat, g: T -> nat, s: seq<T>, i: nat, d: nat)
    requires i < |s|
    requires forall j :: 0 <= j < |s| ==> f(s[j]) <= g(s[j])
    requires f(s[i]) + d <= g(s[i])
    ensures Sum(f, s) + d <= Sum(g, s)
  {
    var rest := s[1..];
    assert forall j :: 0 <= j < |rest| ==> rest[j] == s[j + 1];
    if i == 0 {
      SumLe(f, g, rest);
    } else {
      SumGap(f, g, rest, i - 1, d);
    }
  }

  lemma {:induction false} SumLe<T>(f: T -> nat, g: T -> nat, s: seq<T>)
    requires forall j :: 0 <= j < |s| ==> f(s[j]) <= g(s[j])
    ensures Sum(f, s) <= Sum(g, s)
  {
    if s != [] {
      var rest := s[1..];
      assert forall j :: 0 <= j < |rest| ==> rest[j] == s[j + 1];
      SumLe(f, g, rest);
    }
  }
}
