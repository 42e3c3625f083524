/** Sums over lists, and why their order does not matter. */
module Sums {
  ghost function SumOver<T>(s: seq<T>, f: T -> nat): nat {
    if |s| == 0 then 0 else SumOver(s[..|s| - 1], f) + f(s[|s| - 1])
  }

  lemma {:induction false} SumOverConcat<T>(a: seq<T>, b: seq<T>, f: T -> nat)
    ensures SumOver(a + b, f) == SumOver(a, f) + SumOver(b, f)
  {
    if |b| == 0 {
      assert a + b == a;
    } else {
      SumOverConcat(a, b[..|b| - 1], f);
      assert (a + b)[..|a + b| - 1] == a + b[..|b| - 1];
    }
  }

  lemma SumOverOne<T>(s: seq<T>, x: T, f: T -> nat)
    ensures SumOver(s + [x], f) == SumOver(s, f) + f(x)
  {
    assert (s + [x])[..|s|] == s;
  }

  lemma SumMiddle<T>(front: seq<T>, x: T, back: seq<T>, f: T -> nat)
    ensures SumOver(front + [x] + back, f) == SumOver(front + back, f) + f(x)
  {
    SumOverConcat(front + [x], back, f);
    SumOverOne(front, x, f);
    SumOverConcat(front, back, f);
  }

  /** `b` is `a` with its last element somewhere else. */
  lemma FindLast<T>(a: seq<T>, b: seq<T>) returns (front: seq<T>, back: seq<T>)
    requires multiset(a) == multiset(b) && |a| > 0
    ensures b == front + [a[|a| - 1]] + back
    ensures multiset(front + back) == multiset(a[..|a| - 1])
  {
    var x := a[|a| - 1];
    assert a == a[..|a| - 1] + [x];
    assert x in multiset(a) && x in b;
    var i :| 0 <= i < |b| && b[i] == x;
    front, back := b[..i], b[i + 1..];
    assert b == front + [x] + back;
    assert multiset(front + back) == multiset(b) - multiset{x};
  }

  lemma {:induction false} SumOverPermutation<T>(a: seq<T>, b: seq<T>, f: T -> nat)
    requires multiset(a) == multiset(b)
    ensures SumOver(a, f) == SumOver(b, f)
    decreases |a|
  {
    if |a| == 0 {
      assert |b| == |multiset(b)| == 0;
    } else {
      var front, back := FindLast(a, b);
      SumOverPermutation(a[..|a| - 1], front + back, f);
      SumMiddle(front, a[|a| - 1], back, f);
    }
  }
}
