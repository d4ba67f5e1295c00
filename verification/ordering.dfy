/**
 * Orderings used across the model: Python's lexicographic `<` on `str`,
 * `sorted(set(xs))`, and the stable descending sort that `sorted(...,
 * reverse=True)` and `Counter.most_common` perform, together with slicing and
 * subsequences.
 */
module Ordering {

  /* ---------------- Lexicographic order on strings ---------------- */

  /** Python's `a < b` on `str`: lexicographic by code point. */
  predicate LexLess(a: string, b: string) {
    if a == [] then b != []
    else if b == [] then false
    else if a[0] != b[0] then a[0] < b[0]
    else LexLess(a[1..], b[1..])
  }

  lemma {:induction false} LexLessIrreflexive(a: string)
    ensures !LexLess(a, a)
  {
    if a != [] {
      LexLessIrreflexive(a[1..]);
    }
  }

  lemma {:induction false} LexLessTransitive(a: string, b: string, c: string)
    requires LexLess(a, b) && LexLess(b, c)
    ensures LexLess(a, c)
  {
    if a != [] && b != [] && c != [] && a[0] == b[0] && b[0] == c[0] {
      LexLessTransitive(a[1..], b[1..], c[1..]);
    }
  }

  lemma {:induction false} LexLessTotal(a: string, b: string)
    ensures a == b || LexLess(a, b) || LexLess(b, a)
  {
    if a != [] && b != [] && a[0] == b[0] {
      LexLessTotal(a[1..], b[1..]);
      if a[1..] == b[1..] {
        assert a == [a[0]] + a[1..] && b == [b[0]] + b[1..];
      }
    }
  }

  lemma LexLessAsymmetric(a: string, b: string)
    requires LexLess(a, b)
    ensures !LexLess(b, a)
  {
    if LexLess(b, a) {
      LexLessTransitive(a, b, a);
      LexLessIrreflexive(a);
    }
  }

  predicate StrictlySorted(s: seq<string>) {
    forall i, j :: 0 <= i < j < |s| ==> LexLess(s[i], s[j])
  }

  /** A strictly sorted sequence holds no element twice. */
  lemma StrictlySortedDistinct(s: seq<string>, i: int, j: int)
    requires StrictlySorted(s) && 0 <= i < |s| && 0 <= j < |s| && i != j
    ensures s[i] != s[j]
  {
    if i < j {
      LexLessIrreflexive(s[i]);
    } else {
      LexLessIrreflexive(s[j]);
    }
  }

  function InsertSorted(x: string, s: seq<string>): (r: seq<string>)
    requires StrictlySorted(s)
    ensures StrictlySorted(r)
    ensures forall y :: y in r <==> y == x || y in s
  {
    if s == [] then [x]
    else if x == s[0] then s
    else if LexLess(x, s[0]) then
      assert forall j :: 0 < j < |s| ==> LexLess(x, s[j]) by {
        forall j | 0 < j < |s| { LexLessTransitive(x, s[0], s[j]); }
      }
      [x] + s
    else
      LexLessTotal(x, s[0]);
      var t := InsertSorted(x, s[1..]);
      assert forall y :: y in t ==> LexLess(s[0], y);
      [s[0]] + t
  }

  /** `sorted(set(xs))` */
  function SortedUnique(xs: seq<string>): (r: seq<string>)
    ensures StrictlySorted(r)
    ensures forall y :: y in r <==> y in xs
  {
    if xs == [] then [] else InsertSorted(xs[|xs| - 1], SortedUnique(xs[..|xs| - 1]))
  }

  /* ---------------- Stable descending sort by key ---------------- */

  /** A sort key: compared lexicographically, as Python compares tuples. */
  type Key = (real, real)

  predicate KeyGt(a: Key, b: Key) {
    a.0 > b.0 || (a.0 == b.0 && a.1 > b.1)
  }

  predicate KeyGe(a: Key, b: Key) {
    KeyGt(a, b) || a == b
  }

  predicate SortedDesc<T>(s: seq<T>, key: T -> Key) {
    forall i, j :: 0 <= i < j < |s| ==> KeyGe(key(s[i]), key(s[j]))
  }

  /** The elements of `s` whose key is `k`, in their order in `s`. */
  function WithKey<T>(s: seq<T>, key: T -> Key, k: Key): (r: seq<T>)
    ensures |r| <= |s|
  {
    if s == [] then []
    else (if key(s[0]) == k then [s[0]] else []) + WithKey(s[1..], key, k)
  }

  lemma {:induction false} WithKeyAppend<T>(a: seq<T>, b: seq<T>, key: T -> Key, k: Key)
    ensures WithKey(a + b, key, k) == WithKey(a, key, k) + WithKey(b, key, k)
  {
    if a != [] {
      assert (a + b)[0] == a[0] && (a + b)[1..] == a[1..] + b;
      WithKeyAppend(a[1..], b, key, k);
    } else {
      assert a + b == b;
    }
  }

  /** Puts `x` in front of the first element whose key is not greater than its own. */
  function InsertByKey<T>(x: T, s: seq<T>, key: T -> Key): (r: seq<T>)
    ensures multiset(r) == multiset(s) + multiset{x}
    ensures |r| == |s| + 1
  {
    if s == [] then [x]
    else if !KeyGt(key(s[0]), key(x)) then [x] + s
    else
      assert s == [s[0]] + s[1..];
      [s[0]] + InsertByKey(x, s[1..], key)
  }

  /** `sorted(s, key=key, reverse=True)`: Python's sort is stable, so equal keys keep their order. */
  function SortDesc<T>(s: seq<T>, key: T -> Key): (r: seq<T>)
    ensures multiset(r) == multiset(s)
    ensures |r| == |s|
  {
    if s == [] then []
    else
      assert s == [s[0]] + s[1..];
      InsertByKey(s[0], SortDesc(s[1..], key), key)
  }

  /** An element whose key dominates a descending sequence may head it. */
  lemma ConsSortedDesc<T>(h: T, t: seq<T>, key: T -> Key)
    requires SortedDesc(t, key)
    requires forall j :: 0 <= j < |t| ==> KeyGe(key(h), key(t[j]))
    ensures SortedDesc([h] + t, key)
  {
    var r := [h] + t;
    forall i, j | 0 <= i < j < |r| ensures KeyGe(key(r[i]), key(r[j])) {
      assert r[j] == t[j - 1];
      if i > 0 {
        assert r[i] == t[i - 1];
      }
    }
  }

  lemma {:induction false} InsertByKeySorted<T>(x: T, s: seq<T>, key: T -> Key)
    requires SortedDesc(s, key)
    ensures SortedDesc(InsertByKey(x, s, key), key)
  {
    if s != [] && KeyGt(key(s[0]), key(x)) {
      var t := InsertByKey(x, s[1..], key);
      InsertByKeySorted(x, s[1..], key);
      forall j | 0 <= j < |t| ensures KeyGe(key(s[0]), key(t[j])) {
        var y := t[j];
        assert y in multiset(t);
        if y != x {
          assert y in multiset(s[1..]);
          var m :| 0 <= m < |s[1..]| && s[1..][m] == y;
          assert s[m + 1] == y;
        }
      }
      ConsSortedDesc(s[0], t, key);
      assert InsertByKey(x, s, key) == [s[0]] + t;
    } else if s != [] {
      forall j | 0 <= j < |s| ensures KeyGe(key(x), key(s[j])) {
        assert j == 0 || KeyGe(key(s[0]), key(s[j]));
      }
      ConsSortedDesc(x, s, key);
    }
  }

  lemma WithKeyCons<T>(h: T, t: seq<T>, key: T -> Key, k: Key)
    ensures WithKey([h] + t, key, k) == (if key(h) == k then [h] else []) + WithKey(t, key, k)
  {
    assert ([h] + t)[0] == h && ([h] + t)[1..] == t;
  }

  lemma {:induction false} InsertByKeyStable<T>(x: T, s: seq<T>, key: T -> Key, k: Key)
    ensures WithKey(InsertByKey(x, s, key), key, k)
         == (if key(x) == k then [x] else []) + WithKey(s, key, k)
  {
    if s != [] && KeyGt(key(s[0]), key(x)) {
      var t := InsertByKey(x, s[1..], key);
      var rest := WithKey(s[1..], key, k);
      var head := if key(s[0]) == k then [s[0]] else [];
      var mid := if key(x) == k then [x] else [];
      InsertByKeyStable(x, s[1..], key, k);
      assert WithKey(InsertByKey(x, s, key), key, k) == head + (mid + rest) by {
        assert InsertByKey(x, s, key) == [s[0]] + t;
        WithKeyCons(s[0], t, key, k);
      }
      assert WithKey(s, key, k) == head + rest by {
        WithKeyCons(s[0], s[1..], key, k);
        assert s == [s[0]] + s[1..];
      }
      if key(s[0]) == k {
        assert mid == [];
      } else {
        assert head == [];
      }
    } else {
      assert InsertByKey(x, s, key) == [x] + s;
      WithKeyCons(x, s, key, k);
    }
  }

  /** The result of `SortDesc` is ordered by descending key. */
  lemma {:induction false} SortDescSorted<T>(s: seq<T>, key: T -> Key)
    ensures SortedDesc(SortDesc(s, key), key)
  {
    if s != [] {
      SortDescSorted(s[1..], key);
      InsertByKeySorted(s[0], SortDesc(s[1..], key), key);
    }
  }

  /** `SortDesc` is stable: the elements that share a key keep their relative order. */
  lemma {:induction false} SortDescStable<T>(s: seq<T>, key: T -> Key, k: Key)
    ensures WithKey(SortDesc(s, key), key, k) == WithKey(s, key, k)
  {
    if s != [] {
      SortDescStable(s[1..], key, k);
      InsertByKeyStable(s[0], SortDesc(s[1..], key), key, k);
    }
  }

  /* ---------------- Slices and subsequences ---------------- */

  /** Python's `s[:n]` for the non-negative `n` this model uses; a non-positive `n` gives `[]`. */
  function Take<T>(s: seq<T>, n: int): (r: seq<T>)
    ensures |r| <= |s| && (n >= 0 ==> |r| <= n)
    ensures r == s[..|r|]
    ensures n >= |s| ==> r == s
    ensures 0 <= n <= |s| ==> |r| == n
  {
    if n <= 0 then [] else if n >= |s| then s else s[..n]
  }

  /**
   * `sorted(s, key=key, reverse=True)[:n]`: the `n` elements with the
   * greatest keys, in descending order, ties in their original order.
   */
  lemma TopSpec<T>(s: seq<T>, key: T -> Key, n: int, k: Key)
    ensures var r := Take(SortDesc(s, key), n);
      && SortedDesc(r, key)
      && multiset(r) <= multiset(s)
      && |r| == (if n <= 0 then 0 else if n < |s| then n else |s|)
      && WithKey(r, key, k) == Take(WithKey(s, key, k), |WithKey(r, key, k)|)
  {
    var t := SortDesc(s, key);
    var r := Take(t, n);
    SortDescSorted(s, key);
    SortDescStable(s, key, k);
    assert t == r + t[|r|..];
    assert multiset(t) == multiset(r) + multiset(t[|r|..]);
    WithKeyAppend(r, t[|r|..], key, k);
  }

  /** Nothing left out of the top `n` has a greater key than anything kept. */
  lemma TopMaximal<T>(s: seq<T>, key: T -> Key, n: int, x: T, y: T)
    requires x in s && x !in Take(SortDesc(s, key), n) && y in Take(SortDesc(s, key), n)
    ensures KeyGe(key(y), key(x))
  {
    var t := SortDesc(s, key);
    var r := Take(t, n);
    SortDescSorted(s, key);
    assert x in multiset(t);
    var j :| 0 <= j < |t| && t[j] == x;
    var i :| 0 <= i < |r| && r[i] == y;
    assert t[i] == y;
    assert forall m :: 0 <= m < |r| ==> r[m] != x;
  }

  /** `a` can be obtained from `b` by deleting elements. */
  predicate IsSubseq<T(==)>(a: seq<T>, b: seq<T>)
    decreases |b|
  {
    if a == [] then true
    else if b == [] then false
    else (a[0] == b[0] && IsSubseq(a[1..], b[1..])) || IsSubseq(a, b[1..])
  }

  lemma AppendAssoc<T>(a: seq<T>, b: seq<T>, c: seq<T>)
    ensures (a + b) + c == a + (b + c)
  {
  }

  /** The first `k + 1` elements are the first `k` and `s[k]`. */
  lemma PrefixSnocMembers<T>(s: seq<T>, k: nat)
    requires k < |s|
    ensures forall u :: u in s[..k + 1] <==> u in s[..k] || u == s[k]
  {
    assert s[..k + 1] == s[..k] + [s[k]];
  }

  lemma {:induction false} PrefixIsSubseq<T>(a: seq<T>, b: seq<T>)
    requires |a| <= |b| && a == b[..|a|]
    ensures IsSubseq(a, b)
    decreases |b|
  {
    if a != [] {
      PrefixIsSubseq(a[1..], b[1..]);
    }
  }

  lemma {:induction false} SubseqTransitive<T>(a: seq<T>, b: seq<T>, c: seq<T>)
    requires IsSubseq(a, b) && IsSubseq(b, c)
    ensures IsSubseq(a, c)
    decreases |c|
  {
    if a != [] && c != [] {
      if b[0] == c[0] && IsSubseq(b[1..], c[1..]) {
        if a[0] == b[0] && IsSubseq(a[1..], b[1..]) {
          SubseqTransitive(a[1..], b[1..], c[1..]);
        } else {
          SubseqTransitive(a, b[1..], c[1..]);
        }
      } else {
        SubseqTransitive(a, b, c[1..]);
      }
    }
  }

  lemma {:induction false} SubseqMembers<T>(a: seq<T>, b: seq<T>)
    requires IsSubseq(a, b)
    ensures forall x :: x in a ==> x in b
    decreases |b|
  {
    if a != [] && b != [] {
      assert a == [a[0]] + a[1..];
      assert b == [b[0]] + b[1..];
      if a[0] == b[0] && IsSubseq(a[1..], b[1..]) {
        SubseqMembers(a[1..], b[1..]);
      } else {
        SubseqMembers(a, b[1..]);
      }
    }
  }

  lemma {:induction false} SubseqExtendLeft<T>(c: seq<T>, b: seq<T>, d: seq<T>)
    requires IsSubseq(c, d)
    ensures IsSubseq(c, b + d)
    decreases |b|
  {
    if b != [] {
      SubseqExtendLeft(c, b[1..], d);
      assert (b + d)[1..] == b[1..] + d;
    } else {
      assert b + d == d;
    }
  }

  /** Subsequences concatenate. */
  lemma {:induction false} SubseqAppend<T>(a: seq<T>, b: seq<T>, c: seq<T>, d: seq<T>)
    requires IsSubseq(a, b) && IsSubseq(c, d)
    ensures IsSubseq(a + c, b + d)
    decreases |b|
  {
    if a == [] {
      SubseqExtendLeft(c, b, d);
      assert a + c == c;
    } else if a[0] == b[0] && IsSubseq(a[1..], b[1..]) {
      SubseqAppend(a[1..], b[1..], c, d);
      assert (a + c)[1..] == a[1..] + c;
      assert (b + d)[1..] == b[1..] + d;
    } else {
      SubseqAppend(a, b[1..], c, d);
      assert (b + d)[1..] == b[1..] + d;
    }
  }

  lemma {:induction false} SubseqRefl<T>(a: seq<T>)
    ensures IsSubseq(a, a)
    decreases |a|
  {
    if a != [] {
      SubseqRefl(a[1..]);
    }
  }

  /** Deleting elements keeps a sequence sorted. */
  lemma {:induction false} SubseqSortedDesc<T>(a: seq<T>, b: seq<T>, key: T -> Key)
    requires IsSubseq(a, b) && SortedDesc(b, key)
    ensures SortedDesc(a, key)
    decreases |b|
  {
    if a != [] {
      assert SortedDesc(b[1..], key);
      if a[0] == b[0] && IsSubseq(a[1..], b[1..]) {
        SubseqSortedDesc(a[1..], b[1..], key);
        SubseqMembers(a[1..], b[1..]);
        forall j | 0 < j < |a| ensures KeyGe(key(a[0]), key(a[j])) {
          assert a[j] == a[1..][j - 1];
          assert a[j] in b[1..];
        }
      } else {
        SubseqSortedDesc(a, b[1..], key);
      }
    }
  }

  /** `[f(x) for x in xs]` */
  function MapSeq<T, U>(f: T -> U, xs: seq<T>): (r: seq<U>)
    ensures |r| == |xs|
    ensures forall i :: 0 <= i < |xs| ==> r[i] == f(xs[i])
  {
    if xs == [] then [] else MapSeq(f, xs[..|xs| - 1]) + [f(xs[|xs| - 1])]
  }

  /** `[f(x) for x in xs if keep(x)]` */
  function FilterMap<T, U>(xs: seq<T>, keep: T -> bool, f: T -> U): (r: seq<U>)
    ensures |r| <= |xs|
  {
    if xs == [] then []
    else FilterMap(xs[..|xs| - 1], keep, f) + (if keep(xs[|xs| - 1]) then [f(xs[|xs| - 1])] else [])
  }

  /** `y` is kept exactly when some kept element maps to it. */
  lemma {:induction false} FilterMapMembers<T, U>(xs: seq<T>, keep: T -> bool, f: T -> U, y: U)
    ensures y in FilterMap(xs, keep, f) <==> exists i :: 0 <= i < |xs| && keep(xs[i]) && f(xs[i]) == y
  {
    if xs != [] {
      var n := |xs| - 1;
      var init := xs[..n];
      var head := FilterMap(init, keep, f);
      var tail := if keep(xs[n]) then [f(xs[n])] else [];
      assert FilterMap(xs, keep, f) == head + tail;
      FilterMapMembers(init, keep, f, y);
      if y in head {
        var i :| 0 <= i < |init| && keep(init[i]) && f(init[i]) == y;
        assert xs[i] == init[i];
      } else if y in tail {
        assert keep(xs[n]) && f(xs[n]) == y;
      } else {
        forall i | 0 <= i < |xs| && keep(xs[i]) ensures f(xs[i]) != y {
          if i < n {
            assert init[i] == xs[i];
          }
        }
      }
    }
  }

  predicate Distinct<T(==)>(s: seq<T>) {
    forall i, j :: 0 <= i < j < |s| ==> s[i] != s[j]
  }

  /** An element of a duplicate-free sequence occurs in it exactly once. */
  lemma {:induction false} DistinctCountOne<T>(s: seq<T>, a: int)
    requires Distinct(s) && 0 <= a < |s|
    ensures multiset(s)[s[a]] == 1
  {
    assert s == [s[0]] + s[1..];
    if a == 0 {
      assert s[0] !in s[1..];
    } else {
      DistinctCountOne(s[1..], a - 1);
      assert s[0] != s[a];
    }
  }

  /** Reordering a sequence keeps the images of its elements under `f` pairwise distinct. */
  lemma PermutationKeepsDistinct<T, K>(es: seq<T>, s: seq<T>, f: T -> K, i: int, j: int)
    requires forall a, b :: 0 <= a < b < |es| ==> f(es[a]) != f(es[b])
    requires multiset(s) == multiset(es)
    requires 0 <= i < j < |s|
    ensures f(s[i]) != f(s[j])
  {
    assert Distinct(es);
    assert s[i] in multiset(es) && s[j] in multiset(es);
    var a :| 0 <= a < |es| && es[a] == s[i];
    var b :| 0 <= b < |es| && es[b] == s[j];
    DistinctCountOne(es, a);
    CountTwo(s, i, j);
    assert a != b;
  }

  /** An element found at two positions occurs at least twice. */
  lemma CountTwo<T>(s: seq<T>, i: int, j: int)
    requires 0 <= i < j < |s|
    ensures multiset(s)[s[i]] >= 1 + (if s[j] == s[i] then 1 else 0)
  {
    var pre, post := s[..j], s[j..];
    assert s == pre + post;
    assert pre[i] == s[i] && post[0] == s[j];
    assert s[i] in multiset(pre) && s[j] in multiset(post);
  }

  /** The elements of `s` in order of first appearance, each once. */
  function Unique<T(==,!new)>(s: seq<T>): (r: seq<T>)
    ensures Distinct(r)
    ensures forall x :: x in r <==> x in s
    ensures |r| <= |s|
  {
    if s == [] then []
    else
      var u := Unique(s[..|s| - 1]);
      assert s == s[..|s| - 1] + [s[|s| - 1]];
      if s[|s| - 1] in u then u else u + [s[|s| - 1]]
  }

  /** Extending the input only appends to the list of first appearances. */
  lemma {:induction false} UniquePrefix<T(!new)>(a: seq<T>, b: seq<T>)
    ensures |Unique(a)| <= |Unique(a + b)|
    ensures Unique(a) == Unique(a + b)[..|Unique(a)|]
    decreases |b|
  {
    if b == [] {
      assert a + b == a;
    } else {
      var c := a + b[..|b| - 1];
      UniquePrefix(a, b[..|b| - 1]);
      assert (a + b)[..|a + b| - 1] == c;
    }
  }

  /** `x` comes before `y` in the list of first appearances iff its first appearance in `s` does. */
  lemma {:induction false} UniqueOrder<T(!new)>(s: seq<T>, i: int, j: int)
    requires 0 <= i < j < |Unique(s)|
    ensures exists p, q :: 0 <= p < q < |s| && s[p] == Unique(s)[i] && s[q] == Unique(s)[j]
                           && (forall m :: 0 <= m < q ==> s[m] != Unique(s)[j])
    decreases |s|
  {
    var init := s[..|s| - 1];
    var u := Unique(init);
    assert s == init + [s[|s| - 1]];
    if j < |u| {
      UniqueOrder(init, i, j);
      var p, q :| 0 <= p < q < |init| && init[p] == u[i] && init[q] == u[j]
                  && (forall m :: 0 <= m < q ==> init[m] != u[j]);
      assert s[p] == Unique(s)[i] && s[q] == Unique(s)[j];
    } else {
      // the last element of s is new
      assert Unique(s) == u + [s[|s| - 1]];
      var x := u[i];
      assert x in init;
      var p :| 0 <= p < |init| && init[p] == x;
      var q := |s| - 1;
      assert s[p] == Unique(s)[i];
      forall m | 0 <= m < q ensures s[m] != Unique(s)[j] {
        assert s[m] == init[m];
        assert init[m] in u;
      }
    }
  }
}
