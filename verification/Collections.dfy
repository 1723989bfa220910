/** Small shared vocabulary: optional values, results, and facts about sequences. */
module Collections {

  datatype Option<+T> = None | Some(value: T)

  datatype Result<+T, +E> = Ok(value: T) | Err(error: E)

  ghost predicate Distinct<T>(s: seq<T>) {
    forall i, j :: 0 <= i < j < |s| ==> s[i] != s[j]
  }

  function RemoveAt<T>(s: seq<T>, k: nat): seq<T>
    requires k < |s|
  {
    s[..k] + s[k + 1..]
  }

  function InsertAt<T>(s: seq<T>, k: nat, x: T): seq<T>
    requires k <= |s|
  {
    s[..k] + [x] + s[k..]
  }

  ghost function Elements<T>(s: seq<T>): set<T> {
    set x | x in s
  }

  lemma RemoveAtKeepsDistinct<T>(s: seq<T>, k: nat)
    requires k < |s| && Distinct(s)
    ensures Distinct(RemoveAt(s, k))
    ensures forall x :: x in RemoveAt(s, k) <==> x in s && x != s[k]
  {
    var r := RemoveAt(s, k);
    forall x | x in s && x != s[k]
      ensures x in r
    {
      var i :| 0 <= i < |s| && s[i] == x;
      assert r[if i < k then i else i - 1] == x;
    }
    forall x | x in r
      ensures x in s && x != s[k]
    {
      var i :| 0 <= i < |r| && r[i] == x;
      assert s[if i < k then i else i + 1] == x;
    }
  }

  lemma ElementsConcat<T>(a: seq<T>, b: seq<T>)
    ensures Elements(a + b) == Elements(a) + Elements(b)
  {
    forall x | x in Elements(a) + Elements(b)
      ensures x in a + b
    {
      if x in a {
        var i :| 0 <= i < |a| && a[i] == x;
        assert (a + b)[i] == x;
      } else {
        var i :| 0 <= i < |b| && b[i] == x;
        assert (a + b)[|a| + i] == x;
      }
    }
  }

  lemma DistinctCardinality<T>(s: seq<T>)
    requires Distinct(s)
    ensures |Elements(s)| == |s|
  {
    if s == [] {
      assert Elements(s) == {};
    } else {
      var init, last := s[..|s| - 1], s[|s| - 1];
      DistinctCardinality(init);
      assert s == init + [last];
      ElementsConcat(init, [last]);
      assert last !in Elements(init);
      assert Elements([last]) == {last};
    }
  }

  lemma ConcatAssoc<T>(a: seq<T>, b: seq<T>, c: seq<T>)
    ensures a + b + c == a + (b + c)
  {}

  /** The sequence without any occurrence of x, order kept. */
  function Without<T(==)>(s: seq<T>, x: T): seq<T> {
    if s == [] then []
    else Without(s[..|s| - 1], x) + (if s[|s| - 1] == x then [] else [s[|s| - 1]])
  }

  lemma {:induction false} WithoutElements<T(!new)>(s: seq<T>, x: T)
    ensures forall y :: y in Without(s, x) <==> y in s && y != x
  {
    if s == [] {
    } else {
      assert s == s[..|s| - 1] + [s[|s| - 1]];
      WithoutElements(s[..|s| - 1], x);
    }
  }

  lemma {:induction false} WithoutAbsent<T>(s: seq<T>, x: T)
    requires x !in s
    ensures Without(s, x) == s
  {
    if s == [] {
    } else {
      assert s == s[..|s| - 1] + [s[|s| - 1]];
      WithoutAbsent(s[..|s| - 1], x);
    }
  }

  lemma {:induction false} WithoutConcat<T>(a: seq<T>, b: seq<T>, x: T)
    ensures Without(a + b, x) == Without(a, x) + Without(b, x)
  {
    if b == [] {
      assert a + b == a;
    } else {
      WithoutConcat(a, b[..|b| - 1], x);
      assert (a + b)[..|a + b| - 1] == a + b[..|b| - 1];
    }
  }

  lemma WithoutMiddle<T>(a: seq<T>, x: T, b: seq<T>)
    requires x !in a && x !in b
    ensures Without(a + [x] + b, x) == a + b
  {
    WithoutConcat(a + [x], b, x);
    WithoutAbsent(b, x);
    WithoutLast(a, x);
  }

  lemma WithoutLast<T>(a: seq<T>, x: T)
    requires x !in a
    ensures Without(a + [x], x) == a
  {
    assert (a + [x])[..|a|] == a;
    WithoutAbsent(a, x);
  }

  /** In a sequence of distinct elements, dropping x is removing its one position. */
  lemma WithoutDistinct<T>(s: seq<T>, k: nat)
    requires Distinct(s) && k < |s|
    ensures Without(s, s[k]) == RemoveAt(s, k)
  {
    assert s == s[..k] + [s[k]] + s[k + 1..];
    WithoutMiddle(s[..k], s[k], s[k + 1..]);
  }

  lemma WithoutKeepsDistinct<T>(s: seq<T>, x: T)
    requires Distinct(s)
    ensures Distinct(Without(s, x))
  {
    if x in s {
      var k :| 0 <= k < |s| && s[k] == x;
      WithoutDistinct(s, k);
      RemoveAtKeepsDistinct(s, k);
    } else {
      WithoutAbsent(s, x);
    }
  }

  lemma RemoveAtMultiset<T>(s: seq<T>, k: nat)
    requires k < |s|
    ensures multiset(s) == multiset{s[k]} + multiset(RemoveAt(s, k))
  {
    assert s == s[..k] + ([s[k]] + s[k + 1..]);
  }

  lemma SmallerSet<T>(a: set<T>, b: set<T>, x: T)
    requires a <= b && x in b && x !in a
    ensures |a| < |b|
  {
    assert b == a + (b - a) && x in b - a;
  }

  /** Clear bits of a map of used places. */
  function CountFree(bitmap: seq<bool>): nat {
    if bitmap == [] then 0 else CountFree(bitmap[..|bitmap| - 1]) + (if bitmap[|bitmap| - 1] then 0 else 1)
  }

  lemma {:induction false} CountFreeUpdate(bitmap: seq<bool>, i: nat, v: bool)
    requires i < |bitmap|
    ensures CountFree(bitmap[i := v]) == CountFree(bitmap) + (if v then 0 else 1) - (if bitmap[i] then 0 else 1)
  {
    var n := |bitmap| - 1;
    if i == n {
      assert bitmap[i := v][..n] == bitmap[..n];
    } else {
      CountFreeUpdate(bitmap[..n], i, v);
      assert bitmap[i := v][..n] == bitmap[..n][i := v];
    }
  }

  lemma {:induction false} CountFreeZero(bitmap: seq<bool>)
    ensures CountFree(bitmap) == 0 <==> forall i :: 0 <= i < |bitmap| ==> bitmap[i]
    ensures CountFree(bitmap) <= |bitmap|
  {
    if bitmap == [] {
    } else {
      CountFreeZero(bitmap[..|bitmap| - 1]);
      assert forall i :: 0 <= i < |bitmap| - 1 ==> bitmap[..|bitmap| - 1][i] == bitmap[i];
    }
  }

  lemma {:induction false} CountFreeAll(bitmap: seq<bool>)
    requires forall i :: 0 <= i < |bitmap| ==> !bitmap[i]
    ensures CountFree(bitmap) == |bitmap|
  {
    if bitmap == [] {
    } else {
      CountFreeAll(bitmap[..|bitmap| - 1]);
    }
  }

  /** The position k steps after h going round n positions. */
  function Around(h: nat, k: nat, n: nat): nat
    requires h < n && k <= n
  {
    if h + k < n then h + k else h + k - n
  }

  lemma AroundIsModulo(h: nat, k: nat, n: nat)
    requires h < n && k <= n
    ensures (h + k) % n == Around(h, k, n)
  {
    var q, r := (h + k) / n, (h + k) % n;
    MultipleBounds(q, n);
    assert q * n + r == h + k;
    assert q == if h + k < n then 0 else 1;
  }

  lemma MultipleBounds(q: int, n: nat)
    ensures q <= 0 ==> q * n <= 0
    ensures q >= 2 ==> q * n >= 2 * n
  {}
}
