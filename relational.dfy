/**
 * The relational operations the SQL queries of the core are built from, as
 * functions on sequences of rows: WHERE (Filter), ORDER BY (Sort under a total
 * preorder, so rows with equal keys may come in either order), LIMIT (Take) and
 * GROUP BY ... SUM / COUNT (GroupSum).
 */
module Relational {
  import opened Options

  /**
   * The first row whose key is `k`: what a lookup by id or code finds, whether it is
   * a SELECT read with one rs.next() or a JavaScript Array.prototype.find.
   */
  function FindFirst<T, K(==)>(s: seq<T>, key: T -> K, k: K): (r: Option<T>)
    ensures r.Some? ==> r.value in s && key(r.value) == k
    ensures r.None? <==> forall i :: 0 <= i < |s| ==> key(s[i]) != k
  {
    if s == [] then None
    else if key(s[0]) == k then Some(s[0])
    else FindFirst(s[1..], key, k)
  }

  /** With keys that no two rows share, the lookup of a row's key finds that row. */
  lemma {:induction false} FindFirstUnique<T, K>(s: seq<T>, key: T -> K, j: int)
    requires forall a, b :: 0 <= a < b < |s| ==> key(s[a]) != key(s[b])
    requires 0 <= j < |s|
    ensures FindFirst(s, key, key(s[j])) == Some(s[j])
  {
    if j > 0 {
      assert key(s[0]) != key(s[j]);
      FindFirstUnique(s[1..], key, j - 1);
    }
  }

  /** A comparison usable by ORDER BY: every two rows compare, and transitively. */
  ghost predicate TotalPreorder<T(!new)>(le: (T, T) -> bool) {
    && (forall a, b :: le(a, b) || le(b, a))
    && (forall a, b, c :: le(a, b) && le(b, c) ==> le(a, c))
  }

  predicate Sorted<T(!new)>(s: seq<T>, le: (T, T) -> bool) {
    forall i, j :: 0 <= i < j < |s| ==> le(s[i], s[j])
  }

  /** WHERE p: the rows of `s` that satisfy `p`, in their original order. */
  function Filter<T(!new)>(s: seq<T>, p: T -> bool): (r: seq<T>)
    ensures |r| <= |s|
    ensures forall x :: x in r <==> x in s && p(x)
  {
    if s == [] then []
    else
      var last := s[|s| - 1];
      assert forall x :: x in s <==> x in s[..|s| - 1] || x == last by {
        assert s == s[..|s| - 1] + [last];
      }
      Filter(s[..|s| - 1], p) + (if p(last) then [last] else [])
  }

  lemma {:induction false} FilterMultiset<T(!new)>(s: seq<T>, p: T -> bool, x: T)
    ensures multiset(Filter(s, p))[x] == if p(x) then multiset(s)[x] else 0
  {
    if s != [] {
      var init, last := s[..|s| - 1], s[|s| - 1];
      assert s == init + [last];
      FilterMultiset(init, p, x);
    }
  }

  /** Filtering sequences that are permutations of each other gives permutations. */
  lemma FilterPreservesPermutation<T(!new)>(s: seq<T>, t: seq<T>, p: T -> bool)
    requires multiset(s) == multiset(t)
    ensures multiset(Filter(s, p)) == multiset(Filter(t, p))
  {
    forall x ensures multiset(Filter(s, p))[x] == multiset(Filter(t, p))[x] {
      FilterMultiset(s, p, x);
      FilterMultiset(t, p, x);
    }
  }

  /** A filter every row passes keeps the whole sequence. */
  lemma {:induction false} FilterKeepsAll<T(!new)>(s: seq<T>, p: T -> bool)
    requires forall i :: 0 <= i < |s| ==> p(s[i])
    ensures Filter(s, p) == s
  {
    if s != [] {
      FilterKeepsAll(s[..|s| - 1], p);
    }
  }

  /** A filtered sorted sequence stays sorted. */
  lemma {:induction false} FilterSorted<T(!new)>(s: seq<T>, p: T -> bool, le: (T, T) -> bool)
    requires Sorted(s, le)
    ensures Sorted(Filter(s, p), le)
  {
    if s != [] {
      var init, last := s[..|s| - 1], s[|s| - 1];
      FilterSorted(init, p, le);
      var fi := Filter(init, p);
      forall x | x in fi ensures le(x, last) {
        var k :| 0 <= k < |init| && init[k] == x;
        assert s[k] == x;
      }
    }
  }

  /** Inserting into a sorted sequence keeps it sorted and adds exactly one row. */
  function Insert<T(!new)>(x: T, s: seq<T>, le: (T, T) -> bool): (r: seq<T>)
    requires TotalPreorder(le) && Sorted(s, le)
    ensures Sorted(r, le)
    ensures multiset(r) == multiset(s) + multiset{x}
    ensures |r| == |s| + 1
  {
    if s == [] then [x]
    else if le(x, s[0]) then
      assert forall j :: 0 < j < |s| ==> le(s[0], s[j]);
      [x] + s
    else
      var tail := s[1..];
      var rest := Insert(x, tail, le);
      assert s == [s[0]] + tail;
      forall k | 0 <= k < |rest| ensures le(s[0], rest[k]) {
        assert rest[k] in multiset(rest);
        if rest[k] != x {
          assert rest[k] in multiset(tail);
          var j :| 0 <= j < |tail| && tail[j] == rest[k];
          assert s[j + 1] == rest[k];
        }
      }
      [s[0]] + rest
  }

  /** ORDER BY le: a sorted permutation of the rows. */
  function Sort<T(!new)>(s: seq<T>, le: (T, T) -> bool): (r: seq<T>)
    requires TotalPreorder(le)
    ensures Sorted(r, le)
    ensures multiset(r) == multiset(s)
    ensures |r| == |s|
  {
    if s == [] then []
    else
      assert s == [s[0]] + s[1..];
      Insert(s[0], Sort(s[1..], le), le)
  }

  lemma SortSameElements<T(!new)>(s: seq<T>, le: (T, T) -> bool)
    requires TotalPreorder(le)
    ensures forall x :: x in Sort(s, le) <==> x in s
  {
    var r := Sort(s, le);
    forall x ensures x in r <==> x in s {
      assert x in r <==> x in multiset(r);
      assert x in s <==> x in multiset(s);
    }
  }

  function Min(a: int, b: int): int {
    if a <= b then a else b
  }

  /** LIMIT n: the first n rows, or all of them when there are fewer. */
  function Take<T(!new)>(s: seq<T>, n: nat): (r: seq<T>)
    ensures |r| == Min(n, |s|)
    ensures r == s[..|r|]
  {
    s[..Min(n, |s|)]
  }

  lemma TakeSorted<T(!new)>(s: seq<T>, n: nat, le: (T, T) -> bool)
    requires Sorted(s, le)
    ensures Sorted(Take(s, n), le)
  {
  }

  /** The keys of a sequence of (key, value) rows. */
  function KeysOf<K(!new), V>(es: seq<(K, V)>): (ks: seq<K>)
    ensures |ks| == |es| && forall i :: 0 <= i < |es| ==> ks[i] == es[i].0
  {
    seq(|es|, i requires 0 <= i < |es| => es[i].0)
  }

  lemma MemberKeyIn<K(!new), V(!new)>(es: seq<(K, V)>, x: (K, V))
    ensures x in es ==> x.0 in KeysOf(es)
  {
    if x in es {
      var i :| 0 <= i < |es| && es[i] == x;
      assert KeysOf(es)[i] == x.0;
    }
  }

  predicate Distinct<K(==)>(ks: seq<K>) {
    forall i, j :: 0 <= i < j < |ks| ==> ks[i] != ks[j]
  }

  lemma {:induction false} DistinctCountAtMostOne<T(!new)>(s: seq<T>, x: T)
    requires Distinct(s)
    ensures multiset(s)[x] <= 1
  {
    if s != [] {
      var init := s[..|s| - 1];
      assert s == init + [s[|s| - 1]];
      DistinctCountAtMostOne(init, x);
      if s[|s| - 1] == x {
        assert x !in init;
      }
    }
  }

  lemma RepeatCountsTwice<T(!new)>(s: seq<T>, a: int, b: int)
    requires 0 <= a < b < |s| && s[a] == s[b]
    ensures multiset(s)[s[a]] >= 2
  {
    assert s == s[..b] + [s[b]] + s[b + 1..];
    assert s[a] == s[..b][a];
    assert s[a] in multiset(s[..b]);
  }

  /** A permutation of rows with pairwise distinct keys has pairwise distinct keys. */
  lemma PermutationKeepsDistinctKeys<K(!new), V(!new)>(g: seq<(K, V)>, t: seq<(K, V)>)
    requires multiset(g) == multiset(t) && Distinct(KeysOf(g))
    ensures Distinct(KeysOf(t))
  {
    var kt := KeysOf(t);
    forall a, b | 0 <= a < b < |t| ensures kt[a] != kt[b] {
      if kt[a] == kt[b] {
        assert t[a] in multiset(g) && t[b] in multiset(g);
        var i :| 0 <= i < |g| && g[i] == t[a];
        var j :| 0 <= j < |g| && g[j] == t[b];
        assert KeysOf(g)[i] == KeysOf(g)[j];
        assert i == j;
        assert Distinct(g) by {
          forall x, y | 0 <= x < y < |g| ensures g[x] != g[y] {
            assert KeysOf(g)[x] != KeysOf(g)[y];
          }
        }
        DistinctCountAtMostOne(g, t[a]);
        RepeatCountsTwice(t, a, b);
        assert false;
      }
    }
  }

  /** The distinct keys, in the order of their first occurrence. */
  function DistinctKeys<K(==,!new)>(ks: seq<K>): (r: seq<K>)
    ensures Distinct(r)
    ensures forall k :: k in r <==> k in ks
  {
    if ks == [] then []
    else
      var init, last := ks[..|ks| - 1], ks[|ks| - 1];
      assert ks == init + [last];
      var r := DistinctKeys(init);
      if last in r then r else r + [last]
  }

  /** SUM(value) over the rows whose key is k. */
  function SumFor<K(==,!new)>(es: seq<(K, int)>, k: K): int {
    if es == [] then 0
    else
      var last := es[|es| - 1];
      SumFor(es[..|es| - 1], k) + (if last.0 == k then last.1 else 0)
  }

  lemma {:induction false} SumForAbsent<K(!new)>(es: seq<(K, int)>, k: K)
    requires k !in KeysOf(es)
    ensures SumFor(es, k) == 0
  {
    if es != [] {
      var init := es[..|es| - 1];
      assert forall i :: 0 <= i < |init| ==> KeysOf(init)[i] == KeysOf(es)[i];
      SumForAbsent(init, k);
    }
  }

  /**
   * GROUP BY key with SUM(value): one row per distinct key, in first-occurrence
   * order, carrying the sum of the values of that key's rows.
   */
  function GroupSum<K(==,!new)>(es: seq<(K, int)>): (g: seq<(K, int)>)
    ensures Distinct(KeysOf(g))
    ensures forall k :: k in KeysOf(g) <==> k in KeysOf(es)
    ensures forall i :: 0 <= i < |g| ==> g[i].1 == SumFor(es, g[i].0)
  {
    var ks := DistinctKeys(KeysOf(es));
    var g := seq(|ks|, i requires 0 <= i < |ks| => (ks[i], SumFor(es, ks[i])));
    assert KeysOf(g) == ks;
    g
  }

  /**
   * LIMIT n over a sorted sequence keeps the top rows: a row is either kept, or the
   * limit was reached and every kept row comes before it.
   */
  lemma TakeOfSortedIsTop<T(!new)>(s: seq<T>, n: nat, le: (T, T) -> bool, x: T)
    requires Sorted(s, le) && x in s
    ensures x in Take(s, n) || (|Take(s, n)| == n && forall y :: y in Take(s, n) ==> le(y, x))
  {
    var j :| 0 <= j < |s| && s[j] == x;
    var t := Take(s, n);
    if j < |t| {
      assert t[j] == x;
    } else {
      forall y | y in t ensures le(y, x) {
        var i :| 0 <= i < |t| && t[i] == y;
        assert s[i] == y;
      }
    }
  }

  lemma TakeKeepsDistinctKeys<K(!new), V(!new)>(g: seq<(K, V)>, n: nat)
    requires Distinct(KeysOf(g))
    ensures Distinct(KeysOf(Take(g, n)))
  {
    var t := Take(g, n);
    assert forall i :: 0 <= i < |t| ==> KeysOf(t)[i] == KeysOf(g)[i];
  }

  /** GROUP BY ... ORDER BY: the sorted groups keep one row per key, each with its sum. */
  lemma SortedGroupFacts<K(!new)>(es: seq<(K, int)>, le: ((K, int), (K, int)) -> bool)
    requires TotalPreorder(le)
    ensures Distinct(KeysOf(Sort(GroupSum(es), le)))
    ensures forall k :: k in KeysOf(Sort(GroupSum(es), le)) <==> k in KeysOf(es)
    ensures forall i :: 0 <= i < |Sort(GroupSum(es), le)| ==>
      Sort(GroupSum(es), le)[i].1 == SumFor(es, Sort(GroupSum(es), le)[i].0)
  {
    var g := GroupSum(es);
    var r := Sort(g, le);
    PermutationKeepsDistinctKeys(g, r);
    forall i | 0 <= i < |r| ensures r[i] in g {
      assert r[i] in multiset(g);
    }
    forall k ensures k in KeysOf(r) <==> k in KeysOf(g) {
      if k in KeysOf(g) {
        var j :| 0 <= j < |g| && KeysOf(g)[j] == k;
        assert g[j] in multiset(r);
        var i :| 0 <= i < |r| && r[i] == g[j];
        assert KeysOf(r)[i] == k;
      }
      if k in KeysOf(r) {
        var i :| 0 <= i < |r| && KeysOf(r)[i] == k;
        var j :| 0 <= j < |g| && g[j] == r[i];
        assert KeysOf(g)[j] == k;
      }
    }
  }
}
