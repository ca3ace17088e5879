/** Strict total orders, the lexicographic order of sequences, and stable sorting. */
module Ordering {

  ghost predicate StrictTotal<T(!new)>(lt: (T, T) -> bool) {
    && (forall x :: !lt(x, x))
    && (forall x, y, z :: lt(x, y) && lt(y, z) ==> lt(x, z))
    && (forall x, y :: x != y ==> lt(x, y) || lt(y, x))
  }

  // ---------------------------------------------------------------- lexicographic order

  predicate LexLt<T(==)>(lt: (T, T) -> bool, a: seq<T>, b: seq<T>) {
    b != [] && (a == [] || lt(a[0], b[0]) || (a[0] == b[0] && LexLt(lt, a[1..], b[1..])))
  }

  function Lex<T(==)>(lt: (T, T) -> bool): (seq<T>, seq<T>) -> bool {
    (a, b) => LexLt(lt, a, b)
  }

  lemma {:induction false} LexTransitive<T(!new)>(lt: (T, T) -> bool, a: seq<T>, b: seq<T>, c: seq<T>)
    requires StrictTotal(lt) && LexLt(lt, a, b) && LexLt(lt, b, c)
    ensures LexLt(lt, a, c)
  {
    if a != [] && a[0] == b[0] == c[0] {
      LexTransitive(lt, a[1..], b[1..], c[1..]);
    }
  }

  lemma {:induction false} LexConnected<T(!new)>(lt: (T, T) -> bool, a: seq<T>, b: seq<T>)
    requires StrictTotal(lt)
    ensures !LexLt(lt, a, a)
    ensures a != b ==> LexLt(lt, a, b) || LexLt(lt, b, a)
  {
    if a != [] {
      if b != [] {
        LexConnected(lt, a[1..], b[1..]);
        assert a == [a[0]] + a[1..] && b == [b[0]] + b[1..];
      } else {
        LexConnected(lt, a[1..], a[1..]);
      }
    }
  }

  lemma LexStrictTotal<T(!new)>(lt: (T, T) -> bool)
    requires StrictTotal(lt)
    ensures StrictTotal(Lex(lt))
  {
    forall a, b, c | LexLt(lt, a, b) && LexLt(lt, b, c)
      ensures LexLt(lt, a, c)
    {
      LexTransitive(lt, a, b, c);
    }
    forall a, b
      ensures !LexLt(lt, a, a)
      ensures a != b ==> LexLt(lt, a, b) || LexLt(lt, b, a)
    {
      LexConnected(lt, a, b);
    }
  }

  /** Comparing `a + x` with `b + y` when `a` and `b` are equally long. */
  lemma {:induction false} LexAppend<T(!new)>(lt: (T, T) -> bool, a: seq<T>, b: seq<T>, x: seq<T>, y: seq<T>)
    requires StrictTotal(lt) && |a| == |b|
    ensures LexLt(lt, a + x, b + y) <==> LexLt(lt, a, b) || (a == b && LexLt(lt, x, y))
  {
    if a == [] {
      assert a + x == x && b + y == y;
    } else {
      LexAppend(lt, a[1..], b[1..], x, y);
      assert (a + x)[1..] == a[1..] + x && (b + y)[1..] == b[1..] + y;
      assert a == [a[0]] + a[1..] && b == [b[0]] + b[1..];
    }
  }

  function CharLt(): (char, char) -> bool {
    (c, d) => c < d
  }

  /** The byte order of names: code point order, which is also the order of the UTF-8 bytes. */
  predicate StrLt(a: string, b: string) {
    LexLt(CharLt(), a, b)
  }

  lemma StrTotal()
    ensures StrictTotal(CharLt())
    ensures StrictTotal(Lex(CharLt()))
    ensures forall a :: !StrLt(a, a)
    ensures forall a, b, c :: StrLt(a, b) && StrLt(b, c) ==> StrLt(a, c)
    ensures forall a, b :: a != b ==> StrLt(a, b) || StrLt(b, a)
  {
    LexStrictTotal(CharLt());
    assert forall a, b :: StrLt(a, b) <==> Lex(CharLt())(a, b);
  }

  lemma StrIrreflexive(a: string)
    ensures !StrLt(a, a)
  {
    StrTotal();
  }

  // ---------------------------------------------------------------- sorting

  ghost predicate Sorted<T>(lt: (T, T) -> bool, s: seq<T>) {
    forall i, j :: 0 <= i < j < |s| ==> !lt(s[j], s[i])
  }

  function Insert<T>(lt: (T, T) -> bool, x: T, s: seq<T>): seq<T> {
    if s == [] || !lt(s[0], x) then [x] + s else [s[0]] + Insert(lt, x, s[1..])
  }

  /** A stable sort. */
  function Sort<T>(lt: (T, T) -> bool, s: seq<T>): seq<T> {
    if s == [] then [] else Insert(lt, s[0], Sort(lt, s[1..]))
  }

  lemma {:induction false} InsertKeeps<T(!new)>(lt: (T, T) -> bool, x: T, s: seq<T>)
    ensures multiset(Insert(lt, x, s)) == multiset(s) + multiset{x}
  {
    if s != [] && lt(s[0], x) {
      InsertKeeps(lt, x, s[1..]);
      assert s == [s[0]] + s[1..];
    }
  }

  /** Asymmetry and transitivity of "not above" are all that sorting needs. */
  ghost predicate WeakOrder<T(!new)>(lt: (T, T) -> bool) {
    && (forall x, y :: lt(x, y) ==> !lt(y, x))
    && (forall x, y, z :: !lt(y, x) && !lt(z, y) ==> !lt(z, x))
  }

  lemma {:induction false} InsertSorted<T(!new)>(lt: (T, T) -> bool, x: T, s: seq<T>)
    requires WeakOrder(lt) && Sorted(lt, s)
    ensures Sorted(lt, Insert(lt, x, s))
  {
    if s != [] && lt(s[0], x) {
      InsertSorted(lt, x, s[1..]);
      InsertKeeps(lt, x, s[1..]);
      var t := Insert(lt, x, s[1..]);
      forall j | 0 <= j < |t|
        ensures !lt(t[j], s[0])
      {
        assert t[j] in multiset(t);
        if t[j] != x {
          assert t[j] in s[1..];
          var k :| 0 <= k < |s[1..]| && s[1..][k] == t[j];
          assert s[k + 1] == t[j];
        }
      }
    } else if s != [] {
      assert forall j :: 0 <= j < |s| ==> !lt(s[j], s[0]) || j == 0;
    }
  }

  lemma {:induction false} SortSorts<T(!new)>(lt: (T, T) -> bool, s: seq<T>)
    requires WeakOrder(lt)
    ensures Sorted(lt, Sort(lt, s)) && multiset(Sort(lt, s)) == multiset(s)
  {
    if s != [] {
      SortSorts(lt, s[1..]);
      InsertSorted(lt, s[0], Sort(lt, s[1..]));
      InsertKeeps(lt, s[0], Sort(lt, s[1..]));
      assert s == [s[0]] + s[1..];
    }
  }

  lemma TotalIsWeak<T(!new)>(lt: (T, T) -> bool)
    requires StrictTotal(lt)
    ensures WeakOrder(lt)
  {
    forall x, y, z | !lt(y, x) && !lt(z, y)
      ensures !lt(z, x)
    {
      assert x == y || lt(x, y);
      assert y == z || lt(y, z);
    }
  }

  /** A total order leaves no choice: two sorted arrangements of the same elements are equal. */
  lemma {:induction false} SortedUnique<T(!new)>(lt: (T, T) -> bool, a: seq<T>, b: seq<T>)
    requires StrictTotal(lt) && Sorted(lt, a) && Sorted(lt, b) && multiset(a) == multiset(b)
    ensures a == b
  {
    if a == [] {
      assert |multiset(b)| == 0;
    } else {
      assert a[0] in multiset(b);
      SameLeast(lt, a, b);
      TailMultiset(a);
      TailMultiset(b);
      TailSorted(lt, a);
      TailSorted(lt, b);
      hide StrictTotal, Sorted;
      SortedUnique(lt, a[1..], b[1..]);
      assert a == [a[0]] + a[1..] && b == [b[0]] + b[1..];
    }
  }

  lemma SameLeast<T(!new)>(lt: (T, T) -> bool, a: seq<T>, b: seq<T>)
    requires StrictTotal(lt) && Sorted(lt, a) && Sorted(lt, b) && multiset(a) == multiset(b)
    requires a != [] && b != []
    ensures a[0] == b[0]
  {
    assert a[0] in multiset(b) && b[0] in multiset(a);
    var i :| 0 <= i < |b| && b[i] == a[0];
    var j :| 0 <= j < |a| && a[j] == b[0];
    assert i > 0 ==> !lt(b[i], b[0]);
    assert j > 0 ==> !lt(a[j], a[0]);
  }

  lemma TailSorted<T>(lt: (T, T) -> bool, s: seq<T>)
    requires Sorted(lt, s) && s != []
    ensures Sorted(lt, s[1..])
  {
  }

  lemma TailMultiset<T>(s: seq<T>)
    requires s != []
    ensures multiset(s[1..]) == multiset(s) - multiset{s[0]}
  {
    assert s == [s[0]] + s[1..];
  }
}
