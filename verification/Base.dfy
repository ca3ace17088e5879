/** Vocabulary shared by every other module: optional values, results, bytes, and counting rows. */
module Base {

  datatype Option<+T> = None | Some(value: T)

  datatype Result<+T, +E> = Ok(value: T) | Err(error: E)

  newtype byte = x: int | 0 <= x < 256

  type Bytes = seq<byte>

  /** How a plain overwrite of a file ends: done, failed before it began, or stopped after the old
      contents were cut off and before the new ones were complete. */
  datatype Overwrite = Done | Untouched | Torn

  const U32_LIMIT := 0x1_0000_0000
  const U64_LIMIT := 0x1_0000_0000_0000_0000

  function Min(a: int, b: int): int {
    if a <= b then a else b
  }

  /** `saturating_sub` on unsigned integers. */
  function SaturatingSub(a: nat, b: nat): nat {
    if a <= b then 0 else a - b
  }

  /** `saturating_add` on u64. */
  function SaturatingAddU64(a: nat, b: nat): nat {
    if a + b < U64_LIMIT then a + b else U64_LIMIT - 1
  }

  /** The `as i64` cast of a u64, and the `as u64` cast back. */
  function AsI64(x: nat): int {
    if x < 0x8000_0000_0000_0000 then x else x - U64_LIMIT
  }

  function AsU64(x: int): nat {
    x % U64_LIMIT
  }
}

/** Counting the rows of a table that satisfy a predicate. */
module Counting {

  ghost function Matching<K, V>(m: map<K, V>, p: V -> bool): set<K> {
    set k | k in m && p(m[k])
  }

  ghost function Count<K, V>(m: map<K, V>, p: V -> bool): nat {
    |Matching(m, p)|
  }

  ghost function One(b: bool): nat {
    if b then 1 else 0
  }

  lemma CountPut<K, V>(m: map<K, V>, k: K, v: V, p: V -> bool)
    ensures Count(m[k := v], p) == Count(m, p) - One(k in m && p(m[k])) + One(p(v))
  {
    var m' := m[k := v];
    CountRemove(m, k, p);
    CountRemove(m', k, p);
    assert m' - {k} == m - {k};
  }

  lemma CountRemove<K, V>(m: map<K, V>, k: K, p: V -> bool)
    ensures Count(m - {k}, p) == Count(m, p) - One(k in m && p(m[k]))
  {
    assert Matching(m - {k}, p) == Matching(m, p) - {k};
  }

  /** Weakening the predicate never lowers the count. */
  lemma CountWeaken<K, V>(m: map<K, V>, p: V -> bool, q: V -> bool)
    requires forall k :: k in m && p(m[k]) ==> q(m[k])
    ensures Count(m, p) <= Count(m, q)
  {
    SubsetCardinality(Matching(m, p), Matching(m, q));
  }

  lemma CountZero<K, V>(m: map<K, V>, p: V -> bool)
    requires forall k :: k in m ==> !p(m[k])
    ensures Count(m, p) == 0
  {
    assert Matching(m, p) == {};
  }

  lemma SubsetCardinality<T>(a: set<T>, b: set<T>)
    requires a <= b
    ensures |a| <= |b|
  {
    assert b == a + (b - a);
  }

  lemma FreshNat(s: set<nat>) returns (n: nat)
    ensures n !in s
  {
    n := 0;
    var seen: set<nat> := {};
    while n in s
      invariant seen <= s && forall i :: i in seen <==> 0 <= i < n
      decreases s - seen
    {
      seen := seen + {n};
      n := n + 1;
    }
  }
}
