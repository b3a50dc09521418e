/**
 * The array operations the stores are built from: `filter` by a predicate, `filter` by
 * "key not in a set", and `map` that swaps the elements carrying one key.
 */
module Seqs {

  /** `Array.prototype.filter`: the elements of `s` that `keep` accepts, in their order. */
  function Filter<T(!new)>(s: seq<T>, keep: T -> bool): (r: seq<T>)
    ensures |r| <= |s|
    ensures forall x :: x in r <==> x in s && keep(x)
  {
    if s == [] then []
    else
      assert s == [s[0]] + s[1..];
      (if keep(s[0]) then [s[0]] else []) + Filter(s[1..], keep)
  }

  /** Each accepted element occurs as often as in `s`; the others not at all. */
  lemma {:induction false} FilterCounts<T(!new)>(s: seq<T>, keep: T -> bool)
    ensures forall x :: multiset(Filter(s, keep))[x] == if keep(x) then multiset(s)[x] else 0
  {
    if s != [] {
      assert s == [s[0]] + s[1..];
      FilterCounts(s[1..], keep);
    }
  }

  /** Nothing is dropped when `keep` accepts every element. */
  lemma {:induction false} FilterAll<T(!new)>(s: seq<T>, keep: T -> bool)
    requires forall x :: x in s ==> keep(x)
    ensures Filter(s, keep) == s
  {
    if s != [] {
      FilterAll(s[1..], keep);
    }
  }

  /** Filtering a concatenation concatenates the filtered parts. */
  lemma {:induction false} FilterAppend<T(!new)>(a: seq<T>, b: seq<T>, keep: T -> bool)
    ensures Filter(a + b, keep) == Filter(a, keep) + Filter(b, keep)
  {
    if a == [] {
      assert a + b == b;
    } else {
      var head := if keep(a[0]) then [a[0]] else [];
      assert (a + b)[0] == a[0] && (a + b)[1..] == a[1..] + b;
      assert Filter(a + b, keep) == head + Filter(a[1..] + b, keep);
      assert Filter(a, keep) == head + Filter(a[1..], keep);
      FilterAppend(a[1..], b, keep);
    }
  }

  /**
   * `s.filter(x => !drop.has(key(x)))`: the elements of `s` whose key is not in `drop`,
   * in their order.
   */
  function Without<T(!new), K>(s: seq<T>, key: T -> K, drop: set<K>): (r: seq<T>)
    ensures |r| <= |s|
    ensures forall x :: x in r <==> x in s && key(x) !in drop
  {
    if s == [] then []
    else
      assert s == [s[0]] + s[1..];
      (if key(s[0]) in drop then [] else [s[0]]) + Without(s[1..], key, drop)
  }

  /**
   * `Without` is the homomorphism over concatenation that keeps or drops each single
   * element, which is what makes it an order-preserving filter.
   */
  lemma {:induction false} WithoutAppend<T(!new), K>(a: seq<T>, b: seq<T>, key: T -> K, drop: set<K>)
    ensures Without(a + b, key, drop) == Without(a, key, drop) + Without(b, key, drop)
  {
    if a == [] {
      assert a + b == b;
    } else {
      assert (a + b)[1..] == a[1..] + b;
      WithoutAppend(a[1..], b, key, drop);
    }
  }

  /** Each element whose key is kept occurs as often as in `s`; the others not at all. */
  lemma {:induction false} WithoutCounts<T(!new), K>(s: seq<T>, key: T -> K, drop: set<K>)
    ensures forall x :: multiset(Without(s, key, drop))[x] == if key(x) in drop then 0 else multiset(s)[x]
  {
    if s != [] {
      assert s == [s[0]] + s[1..];
      WithoutCounts(s[1..], key, drop);
    }
  }

  lemma WithoutSingle<T(!new), K>(x: T, key: T -> K, drop: set<K>)
    ensures Without([x], key, drop) == if key(x) in drop then [] else [x]
  {
    assert [x][1..] == [];
  }

  /** Nothing is dropped when no key is in `drop`. */
  lemma {:induction false} WithoutNothing<T(!new), K>(s: seq<T>, key: T -> K, drop: set<K>)
    requires forall x :: x in s ==> key(x) !in drop
    ensures Without(s, key, drop) == s
  {
    if s != [] {
      WithoutNothing(s[1..], key, drop);
    }
  }

  /** Everything is dropped when every key is in `drop`. */
  lemma {:induction false} WithoutEverything<T(!new), K>(s: seq<T>, key: T -> K, drop: set<K>)
    requires forall x :: x in s ==> key(x) in drop
    ensures Without(s, key, drop) == []
  {
    if s != [] {
      WithoutEverything(s[1..], key, drop);
    }
  }

  /** `s.map(x => key(x) === k ? v : x)`. */
  function ReplaceKey<T, K(==)>(s: seq<T>, key: T -> K, k: K, v: T): (r: seq<T>)
    ensures |r| == |s|
    ensures forall i :: 0 <= i < |s| ==> r[i] == if key(s[i]) == k then v else s[i]
  {
    seq(|s|, i requires 0 <= i < |s| => if key(s[i]) == k then v else s[i])
  }

  /** No two elements of `s` have the same key. */
  ghost predicate DistinctKeys<T, K>(s: seq<T>, key: T -> K) {
    forall i, j :: 0 <= i < j < |s| ==> key(s[i]) != key(s[j])
  }

  /** The set of keys of the elements of `s`. */
  function KeySet<T(==), K>(s: seq<T>, key: T -> K): set<K> {
    set x | x in s :: key(x)
  }

  /** Filtering keeps keys distinct. */
  lemma {:induction false} WithoutDistinct<T(!new), K>(s: seq<T>, key: T -> K, drop: set<K>)
    requires DistinctKeys(s, key)
    ensures DistinctKeys(Without(s, key, drop), key)
  {
    if s != [] {
      var rest := Without(s[1..], key, drop);
      WithoutDistinct(s[1..], key, drop);
      if key(s[0]) !in drop {
        forall j | 0 <= j < |rest|
          ensures key(s[0]) != key(rest[j])
        {
          assert rest[j] in s[1..];
          var k :| 0 <= k < |s[1..]| && s[1..][k] == rest[j];
          assert s[k + 1] == rest[j];
        }
        var r := [s[0]] + rest;
        forall i, j | 0 <= i < j < |r|
          ensures key(r[i]) != key(r[j])
        {
          if i > 0 {
            assert r[i] == rest[i - 1] && r[j] == rest[j - 1];
          } else {
            assert r[j] == rest[j - 1];
          }
        }
      }
    }
  }

  /** Two lists with distinct keys and no key in common concatenate to one with distinct keys. */
  lemma AppendDistinct<T(!new), K>(a: seq<T>, b: seq<T>, key: T -> K)
    requires DistinctKeys(a, key) && DistinctKeys(b, key)
    requires forall x, y :: x in a && y in b ==> key(x) != key(y)
    ensures DistinctKeys(a + b, key)
  {
    var r := a + b;
    forall i, j | 0 <= i < j < |r|
      ensures key(r[i]) != key(r[j])
    {
      if j < |a| {
        assert r[i] == a[i] && r[j] == a[j];
      } else if i >= |a| {
        assert r[i] == b[i - |a|] && r[j] == b[j - |a|];
      } else {
        assert r[i] == a[i] && r[j] == b[j - |a|];
      }
    }
  }
}
