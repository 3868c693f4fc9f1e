/** Sequence operations that stand for the DataFrame operations the
    dashboard uses: boolean-mask filtering, group-by with a sum, sorting in
    descending order and taking the first rows. */
module Seqs {

  /** `a` can be obtained from `b` by deleting elements: same order, no
      element used twice. */
  ghost predicate IsSubsequence<T>(a: seq<T>, b: seq<T>)
    decreases |b|
  {
    a == [] || (b != [] && ((a[0] == b[0] && IsSubsequence(a[1..], b[1..])) || IsSubsequence(a, b[1..])))
  }

  lemma {:induction false} SubsequenceOfEmpty<T>(a: seq<T>)
    requires IsSubsequence(a, [])
    ensures a == []
  {
  }

  lemma {:induction false} SubsequenceReflexive<T>(a: seq<T>)
    ensures IsSubsequence(a, a)
    decreases |a|
  {
    if a != [] {
      SubsequenceReflexive(a[1..]);
    }
  }

  lemma {:induction false} SubsequenceTransitive<T>(a: seq<T>, b: seq<T>, c: seq<T>)
    requires IsSubsequence(a, b) && IsSubsequence(b, c)
    ensures IsSubsequence(a, c)
    decreases |a| + |b| + |c|
  {
    if a == [] {
    } else if b == [] {
      SubsequenceOfEmpty(a);
    } else if IsSubsequence(b, c[1..]) {
      SubsequenceTransitive(a, b, c[1..]);
    } else {
      assert b[0] == c[0] && IsSubsequence(b[1..], c[1..]);
      if a[0] == b[0] && IsSubsequence(a[1..], b[1..]) {
        SubsequenceTransitive(a[1..], b[1..], c[1..]);
      } else {
        SubsequenceTransitive(a, b[1..], c[1..]);
      }
    }
  }

  /** The rows of `s` that satisfy `p`, in their order: `df[mask]`. */
  function Filter<T(!new)>(s: seq<T>, p: T -> bool): (r: seq<T>)
    ensures forall x :: x in r <==> x in s && p(x)
    ensures forall x :: multiset(r)[x] == if p(x) then multiset(s)[x] else 0
    ensures IsSubsequence(r, s)
    decreases |s|
  {
    if s == [] then []
    else
      assert s == [s[0]] + s[1..];
      if p(s[0]) then [s[0]] + Filter(s[1..], p)
      else Filter(s[1..], p)
  }

  /** The first `n` elements, or all of them when there are fewer:
      `head(n)`. */
  function Take<T>(s: seq<T>, n: nat): (r: seq<T>)
    ensures |r| <= n && |r| <= |s|
    ensures |r| == n || r == s
    ensures r == s[..|r|]
  {
    if |s| <= n then s else s[..n]
  }

  // ---------------------------------------------------------------------
  // Group-by with a sum

  /** The sum of the values paired with key `k`. */
  function SumFor<K(==)>(ps: seq<(K, int)>, k: K): int
    decreases |ps|
  {
    if ps == [] then 0
    else SumFor(ps[..|ps| - 1], k) + (if ps[|ps| - 1].0 == k then ps[|ps| - 1].1 else 0)
  }

  function KeySet<K>(ps: seq<(K, int)>): set<K> {
    set i | 0 <= i < |ps| :: ps[i].0
  }

  predicate KeysDistinct<K(==)>(g: seq<(K, int)>) {
    forall i, j :: 0 <= i < j < |g| ==> g[i].0 != g[j].0
  }

  /** The value paired with the first occurrence of `k`, or 0. */
  function ValueOf<K(==)>(g: seq<(K, int)>, k: K): int
    decreases |g|
  {
    if g == [] then 0 else if g[0].0 == k then g[0].1 else ValueOf(g[1..], k)
  }

  lemma {:induction false} ValueOfAt<K>(g: seq<(K, int)>, i: nat)
    requires KeysDistinct(g) && i < |g|
    ensures ValueOf(g, g[i].0) == g[i].1
    decreases |g|
  {
    if i > 0 {
      assert g[0].0 != g[i].0;
      assert g[1..][i - 1] == g[i];
      ValueOfAt(g[1..], i - 1);
    }
  }

  lemma {:induction false} ValueOfAbsent<K>(g: seq<(K, int)>, k: K)
    requires k !in KeySet(g)
    ensures ValueOf(g, k) == 0
    decreases |g|
  {
    if g != [] {
      assert KeySet(g[1..]) <= KeySet(g) by {
        forall x | x in KeySet(g[1..]) ensures x in KeySet(g) {
          var i :| 0 <= i < |g[1..]| && g[1..][i].0 == x;
          assert g[i + 1].0 == x;
        }
      }
      ValueOfAbsent(g[1..], k);
    }
  }

  lemma HeadNotInTail<K>(g: seq<(K, int)>)
    requires KeysDistinct(g) && g != []
    ensures g[0].0 !in KeySet(g[1..])
  {
    forall x | x in KeySet(g[1..]) ensures x != g[0].0 {
      var i :| 0 <= i < |g[1..]| && g[1..][i].0 == x;
      assert g[i + 1].0 == x;
    }
  }

  /** Adds one (key, value) pair to a grouped table: to the entry of its key
      if there is one, as a new last entry otherwise. */
  function Accumulate<K(==, !new)>(g: seq<(K, int)>, kv: (K, int)): (r: seq<(K, int)>)
    requires KeysDistinct(g)
    ensures KeysDistinct(r)
    ensures KeySet(r) == KeySet(g) + {kv.0}
    ensures forall k :: ValueOf(r, k) == ValueOf(g, k) + (if k == kv.0 then kv.1 else 0)
    decreases |g|
  {
    if g == [] then
      ConsKeySet(kv, []);
      assert [kv] + [] == [kv];
      [kv]
    else
      var t := g[1..];
      assert g == [g[0]] + t;
      TailKeys(g);
      HeadNotInTail(g);
      ConsKeySet(g[0], t);
      if g[0].0 == kv.0 then
        var r := [(kv.0, g[0].1 + kv.1)] + t;
        assert r[1..] == t;
        ConsKeySet(r[0], t);
        ConsDistinct(r[0], t);
        ValueOfAbsent(t, kv.0);
        r
      else
        var rest := Accumulate(t, kv);
        var r := [g[0]] + rest;
        assert r[1..] == rest;
        ConsKeySet(g[0], rest);
        ConsDistinct(g[0], rest);
        r
  }

  /** Prepending an entry adds exactly its key. */
  lemma ConsKeySet<K>(y: (K, int), t: seq<(K, int)>)
    ensures KeySet([y] + t) == {y.0} + KeySet(t)
  {
    forall k ensures k in KeySet([y] + t) <==> k in {y.0} + KeySet(t) {
      if k in KeySet([y] + t) {
        var i :| 0 <= i < |[y] + t| && ([y] + t)[i].0 == k;
        if i > 0 { assert t[i - 1].0 == k; }
      }
      if k in KeySet(t) {
        var i :| 0 <= i < |t| && t[i].0 == k;
        assert ([y] + t)[i + 1].0 == k;
      }
      if k == y.0 { assert ([y] + t)[0].0 == k; }
    }
  }

  /** `groupby(key)[value].sum()`: one entry per key, in order of first
      appearance, holding the sum of that key's values. */
  function GroupSum<K(==, !new)>(ps: seq<(K, int)>): (r: seq<(K, int)>)
    ensures KeysDistinct(r)
    ensures KeySet(r) == KeySet(ps)
    ensures forall k :: ValueOf(r, k) == SumFor(ps, k)
    decreases |ps|
  {
    if ps == [] then []
    else
      var init := ps[..|ps| - 1];
      var r := Accumulate(GroupSum(init), ps[|ps| - 1]);
      assert KeySet(ps) == KeySet(init) + {ps[|ps| - 1].0} by {
        forall x ensures x in KeySet(ps) <==> x in KeySet(init) + {ps[|ps| - 1].0} {
          if x in KeySet(ps) {
            var i :| 0 <= i < |ps| && ps[i].0 == x;
            if i < |ps| - 1 { assert init[i].0 == x; }
          }
          if x in KeySet(init) {
            var i :| 0 <= i < |init| && init[i].0 == x;
            assert ps[i].0 == x;
          }
        }
      }
      r
  }

  /** Each entry of a grouped table holds the sum for its key. */
  lemma GroupSumEntry<K(!new)>(ps: seq<(K, int)>, i: nat)
    requires i < |GroupSum(ps)|
    ensures GroupSum(ps)[i].1 == SumFor(ps, GroupSum(ps)[i].0)
  {
    ValueOfAt(GroupSum(ps), i);
  }

  // ---------------------------------------------------------------------
  // Sorting by value, descending

  predicate SortedDesc<K>(s: seq<(K, int)>) {
    forall i, j :: 0 <= i < j < |s| ==> s[i].1 >= s[j].1
  }

  function InsertDesc<K>(x: (K, int), s: seq<(K, int)>): (r: seq<(K, int)>)
    requires SortedDesc(s)
    ensures SortedDesc(r)
    ensures multiset(r) == multiset(s) + multiset{x}
    decreases |s|
  {
    if s == [] then [x]
    else if x.1 >= s[0].1 then [x] + s
    else
      var rest := InsertDesc(x, s[1..]);
      var r := [s[0]] + rest;
      assert multiset(s[1..] + [x]) == multiset(s[1..]) + multiset{x};
      MultisetBound(s[0].1, rest, s[1..] + [x]);
      assert multiset(r) == multiset(s) + multiset{x} by {
        assert s == [s[0]] + s[1..];
      }
      r
  }

  /** A bound on every value carries over to any reordering. */
  lemma MultisetBound<K>(v: int, a: seq<(K, int)>, b: seq<(K, int)>)
    requires multiset(a) == multiset(b)
    requires forall j :: 0 <= j < |b| ==> v >= b[j].1
    ensures forall j :: 0 <= j < |a| ==> v >= a[j].1
  {
    forall j | 0 <= j < |a| ensures v >= a[j].1 {
      assert a[j] in multiset(b);
      var k :| 0 <= k < |b| && b[k] == a[j];
    }
  }

  /** `sort_values(ascending=False)`: the same entries, largest value
      first. Pandas leaves the order of equal values open; so does this
      contract. */
  function SortDesc<K>(s: seq<(K, int)>): (r: seq<(K, int)>)
    ensures SortedDesc(r)
    ensures multiset(r) == multiset(s)
    decreases |s|
  {
    if s == [] then []
    else
      assert s == [s[0]] + s[1..];
      InsertDesc(s[0], SortDesc(s[1..]))
  }

  // ---------------------------------------------------------------------
  // Ranked group sums

  /** Every entry of `g` holds the sum of its key's values in `ps`. */
  predicate EntriesAreSums<K(==)>(g: seq<(K, int)>, ps: seq<(K, int)>) {
    forall i :: 0 <= i < |g| ==> g[i].1 == SumFor(ps, g[i].0)
  }

  lemma GroupSumEntries<K(!new)>(ps: seq<(K, int)>)
    ensures EntriesAreSums(GroupSum(ps), ps)
  {
    forall i | 0 <= i < |GroupSum(ps)| ensures GroupSum(ps)[i].1 == SumFor(ps, GroupSum(ps)[i].0) {
      GroupSumEntry(ps, i);
    }
  }

  /** Reordering keeps the keys and the entries. */
  lemma PermutationKeeps<K>(a: seq<(K, int)>, b: seq<(K, int)>, ps: seq<(K, int)>)
    requires multiset(a) == multiset(b)
    ensures KeySet(a) == KeySet(b)
    ensures EntriesAreSums(a, ps) ==> EntriesAreSums(b, ps)
  {
    forall k | k in KeySet(a) ensures k in KeySet(b) {
      var i :| 0 <= i < |a| && a[i].0 == k;
      assert a[i] in multiset(b);
      var j :| 0 <= j < |b| && b[j] == a[i];
    }
    forall k | k in KeySet(b) ensures k in KeySet(a) {
      var i :| 0 <= i < |b| && b[i].0 == k;
      assert b[i] in multiset(a);
      var j :| 0 <= j < |a| && a[j] == b[i];
    }
    if EntriesAreSums(a, ps) {
      forall i | 0 <= i < |b| ensures b[i].1 == SumFor(ps, b[i].0) {
        assert b[i] in multiset(a);
        var j :| 0 <= j < |a| && a[j] == b[i];
      }
    }
  }

  lemma ConsDistinct<K>(x: (K, int), t: seq<(K, int)>)
    requires KeysDistinct(t) && x.0 !in KeySet(t)
    ensures KeysDistinct([x] + t)
  {
    forall i, j | 0 <= i < j < |[x] + t| ensures ([x] + t)[i].0 != ([x] + t)[j].0 {
      if i == 0 {
        assert t[j - 1].0 in KeySet(t);
      }
    }
  }

  /** Dropping the head keeps keys distinct and only removes keys. */
  lemma TailKeys<K>(s: seq<(K, int)>)
    requires s != [] && KeysDistinct(s)
    ensures KeysDistinct(s[1..]) && KeySet(s[1..]) <= KeySet(s)
  {
    var t := s[1..];
    forall i, j | 0 <= i < j < |t| ensures t[i].0 != t[j].0 {
      assert t[i] == s[i + 1] && t[j] == s[j + 1];
    }
    forall k | k in KeySet(t) ensures k in KeySet(s) {
      var i :| 0 <= i < |t| && t[i].0 == k;
      assert s[i + 1].0 == k;
    }
  }

  /** Appending an entry adds exactly its key. */
  lemma KeySetSnoc<K>(t: seq<(K, int)>, x: (K, int))
    ensures KeySet(t + [x]) == KeySet(t) + {x.0}
  {
    forall k ensures k in KeySet(t + [x]) <==> k in KeySet(t) + {x.0} {
      if k in KeySet(t + [x]) {
        var i :| 0 <= i < |t + [x]| && (t + [x])[i].0 == k;
        if i < |t| { assert t[i].0 == k; }
      }
      if k in KeySet(t) {
        var i :| 0 <= i < |t| && t[i].0 == k;
        assert (t + [x])[i].0 == k;
      }
      if k == x.0 { assert (t + [x])[|t|].0 == k; }
    }
  }

  lemma {:induction false} InsertDescDistinct<K>(x: (K, int), s: seq<(K, int)>)
    requires SortedDesc(s) && KeysDistinct(s) && x.0 !in KeySet(s)
    ensures KeysDistinct(InsertDesc(x, s))
    decreases |s|
  {
    if s != [] && x.1 < s[0].1 {
      var t := s[1..];
      TailKeys(s);
      InsertDescDistinct(x, t);
      var rest := InsertDesc(x, t);
      PermutationKeeps(rest, t + [x], []);
      KeySetSnoc(t, x);
      HeadNotInTail(s);
      assert s[0].0 in KeySet(s);
      ConsDistinct(s[0], rest);
    } else if s != [] {
      ConsDistinct(x, s);
    }
  }

  lemma {:induction false} SortDescDistinct<K>(s: seq<(K, int)>)
    requires KeysDistinct(s)
    ensures KeysDistinct(SortDesc(s))
    decreases |s|
  {
    if s != [] {
      var t := s[1..];
      assert KeysDistinct(t) by {
        forall i, j | 0 <= i < j < |t| ensures t[i].0 != t[j].0 {
          assert t[i] == s[i + 1] && t[j] == s[j + 1];
        }
      }
      SortDescDistinct(t);
      PermutationKeeps(SortDesc(t), t, []);
      HeadNotInTail(s);
      InsertDescDistinct(s[0], SortDesc(t));
    }
  }

  /** `groupby(key)[value].sum().sort_values(ascending=False)`: one entry
      per key, holding its sum, largest first. */
  function Ranked<K(==, !new)>(ps: seq<(K, int)>): (r: seq<(K, int)>)
    ensures SortedDesc(r) && KeysDistinct(r)
    ensures KeySet(r) == KeySet(ps)
    ensures EntriesAreSums(r, ps)
  {
    var g := GroupSum(ps);
    GroupSumEntries(ps);
    PermutationKeeps(g, SortDesc(g), ps);
    SortDescDistinct(g);
    SortDesc(g)
  }

  /** The ranking cut to its first `n` entries (`head(n)`): a key left out
      only when `n` entries are shown, each at least as large as its sum. */
  function TopN<K(==, !new)>(ps: seq<(K, int)>, n: nat): (r: seq<(K, int)>)
    ensures |r| <= n && SortedDesc(r) && KeysDistinct(r) && EntriesAreSums(r, ps)
    ensures KeySet(r) <= KeySet(ps)
    ensures forall k :: k in KeySet(ps) && k !in KeySet(r) ==>
              |r| == n && forall i :: 0 <= i < |r| ==> SumFor(ps, k) <= r[i].1
  {
    var g := Ranked(ps);
    var r := Take(g, n);
    assert forall i :: 0 <= i < |r| ==> r[i] == g[i];
    assert KeySet(r) <= KeySet(ps) by {
      forall k | k in KeySet(r) ensures k in KeySet(g) {
        var i :| 0 <= i < |r| && r[i].0 == k;
        assert g[i].0 == k;
      }
    }
    assert forall k :: k in KeySet(ps) && k !in KeySet(r) ==>
             |r| == n && forall i :: 0 <= i < |r| ==> SumFor(ps, k) <= r[i].1 by {
      forall k | k in KeySet(ps) && k !in KeySet(r)
        ensures |r| == n && forall i :: 0 <= i < |r| ==> SumFor(ps, k) <= r[i].1
      {
        var m :| 0 <= m < |g| && g[m].0 == k;
      }
    }
    r
  }

  /** The grouped sums that are positive, in first-appearance order. */
  function PositiveGroups<K(==, !new)>(ps: seq<(K, int)>): (f: seq<(K, int)>)
    ensures KeysDistinct(f) && EntriesAreSums(f, ps)
    ensures forall k :: k in KeySet(f) <==> k in KeySet(ps) && SumFor(ps, k) > 0
  {
    var g := GroupSum(ps);
    GroupSumEntries(ps);
    var f := Filter(g, (e: (K, int)) => e.1 > 0);
    FilterDistinct(g, (e: (K, int)) => e.1 > 0);
    assert EntriesAreSums(f, ps) by {
      forall i | 0 <= i < |f| ensures f[i].1 == SumFor(ps, f[i].0) {
        assert f[i] in g;
      }
    }
    assert forall k :: k in KeySet(f) <==> k in KeySet(ps) && SumFor(ps, k) > 0 by {
      forall k ensures k in KeySet(f) <==> k in KeySet(ps) && SumFor(ps, k) > 0 {
        if k in KeySet(f) {
          var i :| 0 <= i < |f| && f[i].0 == k;
          assert f[i] in g;
          var j :| 0 <= j < |g| && g[j] == f[i];
        }
        if k in KeySet(ps) && SumFor(ps, k) > 0 {
          var j :| 0 <= j < |g| && g[j].0 == k;
          assert g[j] in f;
          var i :| 0 <= i < |f| && f[i] == g[j];
        }
      }
    }
    f
  }

  /** The entries with a positive sum, largest first: a key is listed
      exactly when its sum is positive. */
  function PositiveRanked<K(==, !new)>(ps: seq<(K, int)>): (r: seq<(K, int)>)
    ensures SortedDesc(r) && KeysDistinct(r) && EntriesAreSums(r, ps)
    ensures forall k :: k in KeySet(r) <==> k in KeySet(ps) && SumFor(ps, k) > 0
  {
    var f := PositiveGroups(ps);
    PermutationKeeps(f, SortDesc(f), ps);
    SortDescDistinct(f);
    SortDesc(f)
  }

  lemma {:induction false} FilterDistinct<K(!new)>(s: seq<(K, int)>, p: ((K, int)) -> bool)
    requires KeysDistinct(s)
    ensures KeysDistinct(Filter(s, p))
    decreases |s|
  {
    if s != [] {
      var t := s[1..];
      assert KeysDistinct(t) by {
        forall i, j | 0 <= i < j < |t| ensures t[i].0 != t[j].0 {
          assert t[i] == s[i + 1] && t[j] == s[j + 1];
        }
      }
      FilterDistinct(t, p);
      if p(s[0]) {
        HeadNotInTail(s);
        var f := Filter(t, p);
        forall k | k in KeySet(f) ensures k in KeySet(t) {
          var i :| 0 <= i < |f| && f[i].0 == k;
          assert f[i] in t;
          var j :| 0 <= j < |t| && t[j] == f[i];
        }
        ConsDistinct(s[0], f);
      }
    }
  }

  /** With no negative values, a key's sum is positive exactly when one of
      its values is. */
  lemma {:induction false} SumForPositive<K>(ps: seq<(K, int)>, k: K)
    requires forall i :: 0 <= i < |ps| ==> ps[i].1 >= 0
    ensures SumFor(ps, k) >= 0
    ensures SumFor(ps, k) > 0 <==> exists i :: 0 <= i < |ps| && ps[i].0 == k && ps[i].1 > 0
    decreases |ps|
  {
    if ps != [] {
      var init := ps[..|ps| - 1];
      SumForPositive(init, k);
      if SumFor(init, k) > 0 {
        var i :| 0 <= i < |init| && init[i].0 == k && init[i].1 > 0;
        assert ps[i] == init[i];
      }
      if exists i :: 0 <= i < |ps| && ps[i].0 == k && ps[i].1 > 0 {
        var i :| 0 <= i < |ps| && ps[i].0 == k && ps[i].1 > 0;
        if i < |ps| - 1 { assert init[i] == ps[i]; }
      }
    }
  }

  /** Each label paired with a count of one. */
  function Tally<K>(ls: seq<K>): (r: seq<(K, int)>)
    ensures |r| == |ls| && forall i :: 0 <= i < |ls| ==> r[i] == (ls[i], 1)
    decreases |ls|
  {
    if ls == [] then [] else Tally(ls[..|ls| - 1]) + [(ls[|ls| - 1], 1)]
  }

  lemma {:induction false} TallyCounts<K>(ls: seq<K>, k: K)
    ensures SumFor(Tally(ls), k) == multiset(ls)[k]
    decreases |ls|
  {
    if ls != [] {
      var init := ls[..|ls| - 1];
      TallyCounts(init, k);
      assert Tally(ls)[..|ls| - 1] == Tally(init);
      assert ls == init + [ls[|ls| - 1]];
    }
  }

  /** `value_counts()`: one entry per distinct label with the number of
      times it occurs, most frequent first. */
  function ValueCounts<K(==, !new)>(ls: seq<K>): (r: seq<(K, int)>)
    ensures SortedDesc(r) && KeysDistinct(r)
    ensures forall k :: k in KeySet(r) <==> k in ls
    ensures forall i :: 0 <= i < |r| ==> r[i].1 == multiset(ls)[r[i].0]
  {
    var r := Ranked(Tally(ls));
    assert forall k :: k in KeySet(Tally(ls)) <==> k in ls by {
      forall k ensures k in KeySet(Tally(ls)) <==> k in ls {
        if k in ls {
          var i :| 0 <= i < |ls| && ls[i] == k;
          assert Tally(ls)[i].0 == k;
        }
      }
    }
    forall i | 0 <= i < |r| ensures r[i].1 == multiset(ls)[r[i].0] {
      TallyCounts(ls, r[i].0);
    }
    r
  }

  // ---------------------------------------------------------------------
  // Counting rows

  /** The number of elements satisfying `p`: `SELECT COUNT(*) ... WHERE`. */
  function Count<T>(s: seq<T>, p: T -> bool): nat
    decreases |s|
  {
    if s == [] then 0 else Count(s[..|s| - 1], p) + (if p(s[|s| - 1]) then 1 else 0)
  }

  lemma {:induction false} CountZero<T>(s: seq<T>, p: T -> bool)
    ensures Count(s, p) == 0 <==> forall i :: 0 <= i < |s| ==> !p(s[i])
    decreases |s|
  {
    if s != [] {
      var init := s[..|s| - 1];
      CountZero(init, p);
      assert forall i :: 0 <= i < |init| ==> init[i] == s[i];
    }
  }

  lemma CountAppend<T>(s: seq<T>, x: T, p: T -> bool)
    ensures Count(s + [x], p) == Count(s, p) + (if p(x) then 1 else 0)
  {
    assert (s + [x])[..|s|] == s;
  }

  /** Appending rows never lowers a count. */
  lemma {:induction false} CountPrefix<T>(a: seq<T>, b: seq<T>, p: T -> bool)
    requires a <= b
    ensures Count(a, p) <= Count(b, p)
    decreases |b|
  {
    if |a| < |b| {
      var init := b[..|b| - 1];
      assert a <= init;
      CountPrefix(a, init, p);
    } else {
      assert a == b;
    }
  }
}
