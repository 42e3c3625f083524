/** Stable sorting, largest key first. */
module Sorting {
  import opened Sums

  /** Places `x` after everything whose key is at least its own. */
  function Insert<T>(sorted: seq<T>, x: T, key: T -> nat): seq<T> {
    if |sorted| == 0 || key(sorted[|sorted| - 1]) >= key(x) then sorted + [x]
    else Insert(sorted[..|sorted| - 1], x, key) + [sorted[|sorted| - 1]]
  }

  function SortDesc<T>(s: seq<T>, key: T -> nat): seq<T> {
    if |s| == 0 then [] else Insert(SortDesc(s[..|s| - 1], key), s[|s| - 1], key)
  }

  ghost predicate Nonincreasing<T>(s: seq<T>, key: T -> nat) {
    forall i, j | 0 <= i <= j < |s| :: key(s[i]) >= key(s[j])
  }

  /** The elements with this key, in order. */
  function WithKey<T>(s: seq<T>, key: T -> nat, k: nat): seq<T> {
    if |s| == 0 then []
    else WithKey(s[..|s| - 1], key, k) + if key(s[|s| - 1]) == k then [s[|s| - 1]] else []
  }

  lemma WithKeyPush<T>(s: seq<T>, x: T, key: T -> nat, k: nat)
    ensures WithKey(s + [x], key, k) == WithKey(s, key, k) + if key(x) == k then [x] else []
  {
    assert (s + [x])[..|s|] == s;
  }

  lemma {:induction false} InsertPermutes<T>(s: seq<T>, x: T, key: T -> nat)
    ensures multiset(Insert(s, x, key)) == multiset(s + [x])
  {
    if |s| > 0 && key(s[|s| - 1]) < key(x) {
      var front, y := s[..|s| - 1], s[|s| - 1];
      InsertPermutes(front, x, key);
      assert s == front + [y];
    }
  }

  lemma {:induction false} InsertKeepsOrder<T>(s: seq<T>, x: T, key: T -> nat)
    requires Nonincreasing(s, key)
    ensures Nonincreasing(Insert(s, x, key), key)
  {
    if |s| > 0 && key(s[|s| - 1]) < key(x) {
      var front, y := s[..|s| - 1], s[|s| - 1];
      InsertKeepsOrder(front, x, key);
      InsertPermutes(front, x, key);
      var r := Insert(front, x, key);
      forall i | 0 <= i < |r| ensures key(r[i]) >= key(y) {
        assert r[i] in multiset(front + [x]);
      }
    }
  }

  lemma {:induction false} InsertIsStable<T>(s: seq<T>, x: T, key: T -> nat, k: nat)
    requires Nonincreasing(s, key)
    ensures WithKey(Insert(s, x, key), key, k) == WithKey(s + [x], key, k)
  {
    if |s| > 0 && key(s[|s| - 1]) < key(x) {
      var front, y := s[..|s| - 1], s[|s| - 1];
      InsertIsStable(front, x, key, k);
      WithKeyPush(Insert(front, x, key), y, key, k);
      WithKeyPush(front, x, key, k);
      WithKeyPush(s, x, key, k);
    }
  }

  /** The result is sorted, has the same elements, and keeps ties in their original order. */
  lemma {:induction false} SortDescSorts<T>(s: seq<T>, key: T -> nat)
    ensures Nonincreasing(SortDesc(s, key), key)
    ensures multiset(SortDesc(s, key)) == multiset(s)
    ensures forall k :: WithKey(SortDesc(s, key), key, k) == WithKey(s, key, k)
  {
    if |s| > 0 {
      var front, x := s[..|s| - 1], s[|s| - 1];
      SortDescSorts(front, key);
      InsertKeepsOrder(SortDesc(front, key), x, key);
      InsertPermutes(SortDesc(front, key), x, key);
      assert s == front + [x];
      forall k ensures WithKey(SortDesc(s, key), key, k) == WithKey(s, key, k) {
        InsertIsStable(SortDesc(front, key), x, key, k);
        WithKeyPush(SortDesc(front, key), x, key, k);
      }
    }
  }

  lemma {:induction false} WithKeyFinds<T>(s: seq<T>, key: T -> nat, k: nat)
    ensures WithKey(s, key, k) != [] <==> exists i :: 0 <= i < |s| && key(s[i]) == k
  {
    if |s| > 0 {
      WithKeyFinds(s[..|s| - 1], key, k);
    }
  }

  /** As many elements of each key. */
  ghost predicate SameCounts<T>(a: seq<T>, b: seq<T>, key: T -> nat) {
    forall k :: |WithKey(a, key, k)| == |WithKey(b, key, k)|
  }

  lemma LastKeyIsLeast<T>(a: seq<T>, b: seq<T>, key: T -> nat)
    requires |b| > 0 && Nonincreasing(a, key) && SameCounts(a, b, key)
    ensures |a| > 0 && key(a[|a| - 1]) <= key(b[|b| - 1])
  {
    var k := key(b[|b| - 1]);
    WithKeyFinds(b, key, k);
    assert |WithKey(a, key, k)| == |WithKey(b, key, k)|;
    WithKeyFinds(a, key, k);
  }

  /** Two descending sorts of the same elements show the same keys at the same ranks. */
  lemma {:induction false} RanksAgree<T>(a: seq<T>, b: seq<T>, key: T -> nat)
    requires Nonincreasing(a, key) && Nonincreasing(b, key) && SameCounts(a, b, key)
    ensures |a| == |b| && forall i | 0 <= i < |a| :: key(a[i]) == key(b[i])
  {
    if |a| > 0 {
      LastKeyIsLeast(b, a, key);
      LastKeyIsLeast(a, b, key);
      var a', b' := a[..|a| - 1], b[..|b| - 1];
      forall k ensures |WithKey(a', key, k)| == |WithKey(b', key, k)| {
        assert |WithKey(a, key, k)| == |WithKey(b, key, k)|;
      }
      RanksAgree(a', b', key);
    } else if |b| > 0 {
      LastKeyIsLeast(a, b, key);
    }
  }

  lemma {:induction false} CountsAreSums<T>(s: seq<T>, key: T -> nat, k: nat)
    ensures |WithKey(s, key, k)| == SumOver(s, (x: T) => if key(x) == k then 1 else 0)
  {
    if |s| > 0 {
      CountsAreSums(s[..|s| - 1], key, k);
    }
  }

  lemma PermutationsHaveSameCounts<T>(a: seq<T>, b: seq<T>, key: T -> nat)
    requires multiset(a) == multiset(b)
    ensures SameCounts(a, b, key)
  {
    forall k ensures |WithKey(a, key, k)| == |WithKey(b, key, k)| {
      CountsAreSums(a, key, k);
      CountsAreSums(b, key, k);
      SumOverPermutation(a, b, (x: T) => if key(x) == k then 1 else 0);
    }
  }

  lemma PrefixesEqual<T>(a: seq<T>, b: seq<T>, x: T, y: T)
    requires a + [x] == b + [y]
    ensures a == b && x == y
  {
    assert |a + [x]| == |b + [y]|;
    assert (a + [x])[..|a|] == a && (b + [y])[..|b|] == b;
    assert (a + [x])[|a|] == x && (b + [y])[|b|] == y;
  }

  /** Sorted order and order among ties leave nothing open: any stable descending sort of `s`
      gives `SortDesc(s)`. */
  lemma StableSortIsUnique<T>(a: seq<T>, s: seq<T>, key: T -> nat)
    requires Nonincreasing(a, key) && forall k :: WithKey(a, key, k) == WithKey(s, key, k)
    ensures a == SortDesc(s, key)
  {
    var b := SortDesc(s, key);
    SortDescSorts(s, key);
    SameTiesSameOrder(a, b, key);
  }

  lemma {:induction false} SameTiesSameOrder<T>(a: seq<T>, b: seq<T>, key: T -> nat)
    requires Nonincreasing(a, key) && Nonincreasing(b, key)
    requires forall k :: WithKey(a, key, k) == WithKey(b, key, k)
    ensures a == b
  {
    RanksAgree(a, b, key);
    if |a| > 0 {
      var x, y := a[|a| - 1], b[|b| - 1];
      var a', b' := a[..|a| - 1], b[..|b| - 1];
      assert WithKey(a, key, key(x)) == WithKey(b, key, key(x));
      PrefixesEqual(WithKey(a', key, key(x)), WithKey(b', key, key(x)), x, y);
      forall k ensures WithKey(a', key, k) == WithKey(b', key, k) {
        assert WithKey(a, key, k) == WithKey(b, key, k);
        if k == key(x) {
          PrefixesEqual(WithKey(a', key, k), WithKey(b', key, k), x, y);
        } else {
          assert WithKey(a, key, k) == WithKey(a', key, k) && WithKey(b, key, k) == WithKey(b', key, k);
        }
      }
      SameTiesSameOrder(a', b', key);
    }
  }
}
