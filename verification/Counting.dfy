/** Sums over the threads, children or descriptors of a model. */
module Counting {

  function Sum<T>(f: T -> int, s: seq<T>): int {
    if s == [] then 0 else f(s[0]) + Sum(f, s[1..])
  }

  /** Changing one element changes the sum by the difference at that element. */
  lemma {:induction false} SumUpdate<T>(f: T -> int, s: seq<T>, i: nat, t: T)
    requires i < |s|
    ensures Sum(f, s[i := t]) == Sum(f, s) - f(s[i]) + f(t)
  {
    if i == 0 {
      assert s[i := t][1..] == s[1..];
    } else {
      SumUpdate(f, s[1..], i - 1, t);
      assert s[i := t][1..] == s[1..][i - 1 := t];
    }
  }

  lemma {:induction false} SumAppend<T>(f: T -> int, a: seq<T>, b: seq<T>)
    ensures Sum(f, a + b) == Sum(f, a) + Sum(f, b)
  {
    if a == [] {
      assert a + b == b;
    } else {
      SumAppend(f, a[1..], b);
      assert (a + b)[1..] == a[1..] + b;
    }
  }

  lemma {:induction false} SumSnoc<T>(f: T -> int, s: seq<T>, t: T)
    ensures Sum(f, s + [t]) == Sum(f, s) + f(t)
  {
    SumAppend(f, s, [t]);
    assert [t][1..] == [];
  }

  /** Pointwise comparison carries over to sums. */
  lemma {:induction false} SumMonotone<T, U>(f: T -> int, s: seq<T>, g: U -> int, t: seq<U>)
    requires |s| == |t|
    requires forall i :: 0 <= i < |s| ==> f(s[i]) <= g(t[i])
    ensures Sum(f, s) <= Sum(g, t)
  {
    if s != [] {
      forall i | 0 <= i < |s| - 1 ensures f(s[1..][i]) <= g(t[1..][i]) {
        assert f(s[i + 1]) <= g(t[i + 1]);
      }
      SumMonotone(f, s[1..], g, t[1..]);
    }
  }

  /** A sum of constants is a product. */
  lemma {:induction false} SumConstant<T>(f: T -> int, s: seq<T>, k: int)
    requires forall i :: 0 <= i < |s| ==> f(s[i]) == k
    ensures Sum(f, s) == |s| * k
  {
    if s != [] {
      forall i | 0 <= i < |s| - 1 ensures f(s[1..][i]) == k {
        assert f(s[i + 1]) == k;
      }
      SumConstant(f, s[1..], k);
    }
  }

  lemma {:induction false} SumNonNegative<T>(f: T -> int, s: seq<T>)
    requires forall i :: 0 <= i < |s| ==> f(s[i]) >= 0
    ensures Sum(f, s) >= 0
    ensures forall i :: 0 <= i < |s| ==> f(s[i]) <= Sum(f, s)
  {
    if s != [] {
      forall i | 0 <= i < |s| - 1 ensures f(s[1..][i]) >= 0 {
        assert f(s[i + 1]) >= 0;
      }
      SumNonNegative(f, s[1..]);
      forall i | 0 < i < |s| ensures f(s[i]) <= Sum(f, s) {
        assert s[i] == s[1..][i - 1];
      }
    }
  }

  /** A positive sum has a positive summand. */
  lemma {:induction false} SumPositive<T>(f: T -> int, s: seq<T>) returns (i: nat)
    requires Sum(f, s) > 0
    ensures i < |s| && f(s[i]) > 0
  {
    if f(s[0]) > 0 {
      i := 0;
    } else {
      var k := SumPositive(f, s[1..]);
      i := k + 1;
    }
  }

  /** A smaller sum is smaller at some position. */
  lemma {:induction false} SumSmaller<T, U>(f: T -> int, s: seq<T>, g: U -> int, t: seq<U>) returns (i: nat)
    requires |s| == |t| && Sum(f, s) < Sum(g, t)
    ensures i < |s| && f(s[i]) < g(t[i])
  {
    if f(s[0]) < g(t[0]) {
      i := 0;
    } else {
      var k := SumSmaller(f, s[1..], g, t[1..]);
      i := k + 1;
    }
  }
}
