/** Sorting by a key is stable, so the outcome depends only on the order among equal keys. */
module Stability {
  import opened Ordering

  /** The elements with key `k`, in order. */
  function Of<T, K(==)>(s: seq<T>, key: T -> K, k: K): seq<T> {
    if s == [] then []
    else (if key(s[0]) == k then [s[0]] else []) + Of(s[1..], key, k)
  }

  function By<T, K>(lt: (K, K) -> bool, key: T -> K): (T, T) -> bool {
    (x, y) => lt(key(x), key(y))
  }

  lemma {:induction false} OfAppend<T, K>(a: seq<T>, b: seq<T>, key: T -> K, k: K)
    ensures Of(a + b, key, k) == Of(a, key, k) + Of(b, key, k)
  {
    if a == [] {
      assert a + b == b;
    } else {
      OfAppend(a[1..], b, key, k);
      assert (a + b)[1..] == a[1..] + b;
    }
  }

  lemma ByIsWeak<T(!new), K(!new)>(lt: (K, K) -> bool, key: T -> K)
    requires StrictTotal(lt)
    ensures WeakOrder(By(lt, key))
  {
    TotalIsWeak(lt);
  }

  lemma {:induction false} InsertStable<T(!new), K(!new)>(lt: (K, K) -> bool, key: T -> K, x: T, s: seq<T>, k: K)
    requires StrictTotal(lt)
    ensures Of(Insert(By(lt, key), x, s), key, k) == Of([x] + s, key, k)
  {
    if s != [] && lt(key(s[0]), key(x)) {
      InsertStable(lt, key, x, s[1..], k);
      var t := Insert(By(lt, key), x, s[1..]);
      assert ([s[0]] + t)[1..] == t;
      assert ([x] + s)[1..] == s && ([x] + s[1..])[1..] == s[1..];
    }
  }

  lemma {:induction false} SortStable<T(!new), K(!new)>(lt: (K, K) -> bool, key: T -> K, s: seq<T>, k: K)
    requires StrictTotal(lt)
    ensures Of(Sort(By(lt, key), s), key, k) == Of(s, key, k)
  {
    if s != [] {
      var t := Sort(By(lt, key), s[1..]);
      SortStable(lt, key, s[1..], k);
      InsertStable(lt, key, s[0], t, k);
      assert ([s[0]] + t)[1..] == t;
    }
  }

  lemma {:induction false} OfEmpty<T, K>(s: seq<T>, key: T -> K, k: K)
    ensures Of(s, key, k) == [] <==> forall i :: 0 <= i < |s| ==> key(s[i]) != k
  {
    if s != [] {
      OfEmpty(s[1..], key, k);
      assert forall i :: 0 < i < |s| ==> s[i] == s[1..][i - 1];
      if Of(s, key, k) == [] {
        assert key(s[0]) != k;
      }
      if forall i :: 0 <= i < |s| ==> key(s[i]) != k {
        assert forall i :: 0 <= i < |s[1..]| ==> s[1..][i] == s[i + 1];
      }
    }
  }

  /** The first elements of two sorted sequences with the same order among equal keys. */
  lemma FirstKeys<T(!new), K(!new)>(lt: (K, K) -> bool, key: T -> K, a: seq<T>, b: seq<T>)
    requires StrictTotal(lt) && a != [] && b != []
    requires Sorted(By(lt, key), b)
    requires Of(a, key, key(a[0])) == Of(b, key, key(a[0]))
    ensures !lt(key(a[0]), key(b[0]))
  {
    OfEmpty(b, key, key(a[0]));
    var i :| 0 <= i < |b| && key(b[i]) == key(a[0]);
    assert i > 0 ==> !By(lt, key)(b[i], b[0]);
  }

  lemma {:induction false} SortedStableUnique<T(!new), K(!new)>(lt: (K, K) -> bool, key: T -> K, a: seq<T>, b: seq<T>)
    requires StrictTotal(lt) && Sorted(By(lt, key), a) && Sorted(By(lt, key), b)
    requires forall k :: Of(a, key, k) == Of(b, key, k)
    ensures a == b
  {
    if a == [] {
      assert b != [] ==> Of(b, key, key(b[0])) != [];
    } else {
      assert Of(a, key, key(a[0])) == Of(b, key, key(a[0]));
      assert b != [];
      assert Of(b, key, key(b[0])) == Of(a, key, key(b[0]));
      FirstKeys(lt, key, a, b);
      FirstKeys(lt, key, b, a);
      assert Of(a, key, key(a[0]))[0] == a[0] && Of(b, key, key(a[0]))[0] == b[0];
      forall k
        ensures Of(a[1..], key, k) == Of(b[1..], key, k)
      {
        assert Of(a, key, k) == (if key(a[0]) == k then [a[0]] else []) + Of(a[1..], key, k);
        assert Of(b, key, k) == (if key(b[0]) == k then [b[0]] else []) + Of(b[1..], key, k);
        var n := if key(a[0]) == k then 1 else 0;
        assert Of(a[1..], key, k) == Of(a, key, k)[n..] && Of(b[1..], key, k) == Of(b, key, k)[n..];
      }
      SortedStableUnique(lt, key, a[1..], b[1..]);
      assert a == [a[0]] + a[1..] && b == [b[0]] + b[1..];
    }
  }

  /** Sequences that agree on the order among equal keys sort to the same result. */
  lemma SortAgree<T(!new), K(!new)>(lt: (K, K) -> bool, key: T -> K, a: seq<T>, b: seq<T>)
    requires StrictTotal(lt)
    requires forall k :: Of(a, key, k) == Of(b, key, k)
    ensures Sort(By(lt, key), a) == Sort(By(lt, key), b)
  {
    ByIsWeak(lt, key);
    SortSorts(By(lt, key), a);
    SortSorts(By(lt, key), b);
    forall k
      ensures Of(Sort(By(lt, key), a), key, k) == Of(Sort(By(lt, key), b), key, k)
    {
      SortStable(lt, key, a, k);
      SortStable(lt, key, b, k);
      assert Of(a, key, k) == Of(b, key, k);
    }
    SortedStableUnique(lt, key, Sort(By(lt, key), a), Sort(By(lt, key), b));
  }
}
