/**
 * Python's `collections.Counter` as an insertion-ordered list of entries, and
 * `Counter.most_common(n)`: the entries sorted by descending count, ties kept
 * in first-insertion order, cut to `n` (`[]` when `n <= 0`).
 */
module Counter {
  import opened Ordering

  datatype Entry<K> = Entry(key: K, count: nat)

  function KeysOf<K>(es: seq<Entry<K>>): (ks: seq<K>)
    ensures |ks| == |es|
    ensures forall i :: 0 <= i < |es| ==> ks[i] == es[i].key
  {
    if es == [] then [] else [es[0].key] + KeysOf(es[1..])
  }

  predicate DistinctKeys<K(==,!new)>(es: seq<Entry<K>>) {
    forall i, j :: 0 <= i < j < |es| ==> es[i].key != es[j].key
  }

  /** `counter[k]`: a missing key counts 0. */
  function CountOf<K(==,!new)>(es: seq<Entry<K>>, k: K): nat {
    if es == [] then 0 else if es[0].key == k then es[0].count else CountOf(es[1..], k)
  }

  lemma {:induction false} CountOfAt<K(!new)>(es: seq<Entry<K>>, i: nat)
    requires DistinctKeys(es) && i < |es|
    ensures CountOf(es, es[i].key) == es[i].count
  {
    if i > 0 {
      CountOfAt(es[1..], i - 1);
    }
  }

  /** `counter[k] += 1` */
  function Bump<K(==,!new)>(es: seq<Entry<K>>, k: K): (r: seq<Entry<K>>)
    ensures |r| == |es| || |r| == |es| + 1
  {
    if es == [] then [Entry(k, 1)]
    else if es[0].key == k then [Entry(k, es[0].count + 1)] + es[1..]
    else [es[0]] + Bump(es[1..], k)
  }

  /** Bumping adds one to the count of `k` and leaves every other count as it was. */
  lemma {:induction false} BumpCount<K(!new)>(es: seq<Entry<K>>, k: K, k': K)
    requires DistinctKeys(es)
    ensures CountOf(Bump(es, k), k') == CountOf(es, k') + (if k' == k then 1 else 0)
  {
    if es != [] && es[0].key != k {
      BumpCount(es[1..], k, k');
    } else if es != [] && k' == k {
      CountOfAbsent(es[1..], k);
    }
  }

  lemma {:induction false} CountOfAbsent<K(!new)>(es: seq<Entry<K>>, k: K)
    requires k !in KeysOf(es)
    ensures CountOf(es, k) == 0
  {
    if es != [] {
      assert KeysOf(es) == [es[0].key] + KeysOf(es[1..]);
      CountOfAbsent(es[1..], k);
    }
  }

  /**
   * Bumping keeps the keys distinct: an existing key stays in place, a new key
   * goes at the end, and no count drops to zero.
   */
  lemma {:induction false} BumpKeys<K(!new)>(es: seq<Entry<K>>, k: K)
    requires DistinctKeys(es)
    ensures DistinctKeys(Bump(es, k))
    ensures KeysOf(Bump(es, k)) == if k in KeysOf(es) then KeysOf(es) else KeysOf(es) + [k]
    ensures (forall i :: 0 <= i < |es| ==> es[i].count > 0)
        ==> forall i :: 0 <= i < |Bump(es, k)| ==> Bump(es, k)[i].count > 0
  {
    var r := Bump(es, k);
    BumpKeysOf(es, k);
    BumpPositive(es, k);
    forall i, j | 0 <= i < j < |r| ensures r[i].key != r[j].key {
      assert r[i].key == KeysOf(r)[i] && r[j].key == KeysOf(r)[j];
      if k !in KeysOf(es) && j == |es| {
        assert KeysOf(r)[i] == KeysOf(es)[i];
      }
    }
  }

  /** Bumping keeps the keys in place and appends `k` when it is new. */
  lemma {:induction false} BumpKeysOf<K(!new)>(es: seq<Entry<K>>, k: K)
    ensures KeysOf(Bump(es, k)) == if k in KeysOf(es) then KeysOf(es) else KeysOf(es) + [k]
  {
    if es != [] {
      assert KeysOf(es) == [es[0].key] + KeysOf(es[1..]);
      if es[0].key == k {
        assert KeysOf(Bump(es, k)) == [k] + KeysOf(es[1..]);
      } else {
        BumpKeysOf(es[1..], k);
        assert KeysOf(Bump(es, k)) == [es[0].key] + KeysOf(Bump(es[1..], k));
      }
    }
  }

  lemma {:induction false} BumpPositive<K(!new)>(es: seq<Entry<K>>, k: K)
    ensures (forall i :: 0 <= i < |es| ==> es[i].count > 0)
        ==> forall i :: 0 <= i < |Bump(es, k)| ==> Bump(es, k)[i].count > 0
  {
    if es != [] && es[0].key != k {
      BumpPositive(es[1..], k);
      var r := Bump(es, k);
      if forall i :: 0 <= i < |es| ==> es[i].count > 0 {
        forall i | 0 < i < |r| ensures r[i].count > 0 {
          assert r[i] == Bump(es[1..], k)[i - 1];
          assert forall i :: 0 <= i < |es[1..]| ==> es[1..][i].count > 0;
        }
      }
    }
  }

  /** `Counter(ks)`: counts every element, keys in order of first appearance. */
  function Tally<K(==,!new)>(ks: seq<K>): seq<Entry<K>> {
    if ks == [] then [] else Bump(Tally(ks[..|ks| - 1]), ks[|ks| - 1])
  }

  /** `counter[k] += 1` after counting `ks` is the counter of `ks + [k]`. */
  lemma TallySnoc<K(!new)>(ks: seq<K>, k: K)
    ensures Tally(ks + [k]) == Bump(Tally(ks), k)
  {
    assert (ks + [k])[..|ks|] == ks;
  }

  /** The counter holds each element of `ks` once, each with a positive count. */
  lemma TallyKeys<K(!new)>(ks: seq<K>)
    ensures DistinctKeys(Tally(ks))
    ensures forall k :: k in KeysOf(Tally(ks)) <==> k in ks
    ensures forall i :: 0 <= i < |Tally(ks)| ==> Tally(ks)[i].count > 0
  {
    TallyDistinct(ks);
    TallyMembers(ks);
  }

  lemma {:induction false} TallyDistinct<K(!new)>(ks: seq<K>)
    ensures DistinctKeys(Tally(ks))
    ensures forall i :: 0 <= i < |Tally(ks)| ==> Tally(ks)[i].count > 0
  {
    if ks != [] {
      var n := |ks| - 1;
      TallyDistinct(ks[..n]);
      BumpKeys(Tally(ks[..n]), ks[n]);
    }
  }

  lemma {:induction false} TallyMembers<K(!new)>(ks: seq<K>)
    ensures forall k :: k in KeysOf(Tally(ks)) <==> k in ks
  {
    if ks != [] {
      var n := |ks| - 1;
      var init, x := ks[..n], ks[n];
      TallyMembers(init);
      BumpMembers(Tally(init), x);
      PrefixSnocMembers(ks, n);
      assert ks[..n + 1] == ks;
    }
  }

  /** After bumping `k`, the keys are the old ones and `k`. */
  lemma BumpMembers<K(!new)>(es: seq<Entry<K>>, k: K)
    ensures forall t :: t in KeysOf(Bump(es, k)) <==> t in KeysOf(es) || t == k
  {
    BumpKeysOf(es, k);
  }

  /** `Counter(ks)[k]` is the number of occurrences of `k` in `ks`. */
  lemma {:induction false} TallyCount<K(!new)>(ks: seq<K>, k: K)
    ensures CountOf(Tally(ks), k) == multiset(ks)[k]
  {
    if ks != [] {
      var init := ks[..|ks| - 1];
      TallyCount(init, k);
      TallyKeys(init);
      BumpCount(Tally(init), ks[|ks| - 1], k);
      assert ks == init + [ks[|ks| - 1]];
    }
  }

  function ByCount<K>(e: Entry<K>): Key {
    (e.count as real, 0.0)
  }

  /** `counter.most_common(n)` */
  function MostCommon<K>(es: seq<Entry<K>>, n: int): seq<Entry<K>> {
    Take(SortDesc(es, ByCount), n)
  }

  /** `most_common(n)` returns `min(n, len)` entries, and all of them when `n` reaches the size. */
  lemma MostCommonSize<K>(es: seq<Entry<K>>, n: int)
    ensures var r := MostCommon(es, n);
      && |r| <= |es| && (n >= 0 ==> |r| <= n) && (0 <= n <= |es| ==> |r| == n)
      && (n <= 0 ==> r == [])
      && (n >= |es| ==> multiset(r) == multiset(es))
  {
  }

  /** The entries returned come from the counter, once each, in descending count order. */
  lemma MostCommonSorted<K(!new)>(es: seq<Entry<K>>, n: int)
    requires DistinctKeys(es)
    ensures var r := MostCommon(es, n);
      && (forall e :: e in r ==> e in es)
      && DistinctKeys(r)
      && SortedDesc(r, ByCount)
  {
    var s := SortDesc(es, ByCount);
    var r := MostCommon(es, n);
    SortDescSorted(es, ByCount);
    assert r == s[..|r|];
    forall e | e in r ensures e in es {
      assert e in multiset(s);
    }
    forall i, j | 0 <= i < j < |r| ensures r[i].key != r[j].key {
      SortedDistinct(es, s, i, j);
    }
  }

  /** Entries with equal counts come out in insertion order (`most_common` is stable). */
  lemma MostCommonStable<K>(es: seq<Entry<K>>, n: int, c: Key)
    ensures var r := MostCommon(es, n);
      WithKey(r, ByCount, c) == Take(WithKey(es, ByCount, c), |WithKey(r, ByCount, c)|)
  {
    var s := SortDesc(es, ByCount);
    var r := MostCommon(es, n);
    SortDescStable(es, ByCount, c);
    assert s == r + s[|r|..];
    WithKeyAppend(r, s[|r|..], ByCount, c);
  }

  /** Nothing left out is more frequent than anything kept. */
  lemma MostCommonTop<K>(es: seq<Entry<K>>, n: int, e: Entry<K>, f: Entry<K>)
    requires e in es && e !in MostCommon(es, n) && f in MostCommon(es, n)
    ensures e.count <= f.count
  {
    var s := SortDesc(es, ByCount);
    var r := MostCommon(es, n);
    SortDescSorted(es, ByCount);
    assert r == s[..|r|];
    assert e in multiset(s);
    var j :| 0 <= j < |s| && s[j] == e;
    var i :| 0 <= i < |r| && r[i] == f;
    assert s[i] == f;
    assert forall m :: 0 <= m < |r| ==> r[m] != e;
  }

  /** A reordering of entries with distinct keys still has distinct keys. */
  lemma SortedDistinct<K(!new)>(es: seq<Entry<K>>, s: seq<Entry<K>>, i: int, j: int)
    requires DistinctKeys(es) && multiset(s) == multiset(es)
    requires 0 <= i < j < |s|
    ensures s[i].key != s[j].key
  {
    assert s[i] in multiset(es) && s[j] in multiset(es);
    var a :| 0 <= a < |es| && es[a] == s[i];
    var b :| 0 <= b < |es| && es[b] == s[j];
    DistinctKeysCountOne(es, a);
    CountTwo(s, i, j);
    assert a != b;
  }

  lemma {:induction false} DistinctKeysCountOne<K(!new)>(es: seq<Entry<K>>, a: int)
    requires DistinctKeys(es) && 0 <= a < |es|
    ensures multiset(es)[es[a]] == 1
  {
    if a == 0 {
      assert es == [es[0]] + es[1..];
      assert es[0] !in es[1..];
    } else {
      DistinctKeysCountOne(es[1..], a - 1);
      assert es == [es[0]] + es[1..];
      assert es[0] != es[a];
    }
  }

  /** The keys `most_common(n)` returns: at most `n`, each once, each counted. */
  lemma MostCommonKeys<K(!new)>(ks: seq<K>, n: int)
    ensures var r := KeysOf(MostCommon(Tally(ks), n));
      && (n >= 0 ==> |r| <= n)
      && Distinct(r)
      && (forall t :: t in r ==> t in ks)
  {
    var es := Tally(ks);
    var mc := MostCommon(es, n);
    var r := KeysOf(mc);
    TallyKeys(ks);
    MostCommonSize(es, n);
    MostCommonSorted(es, n);
    KeysOfSubset(mc, es);
  }

  /** Entries drawn from `b` have keys drawn from `b`'s keys. */
  lemma KeysOfSubset<K>(a: seq<Entry<K>>, b: seq<Entry<K>>)
    requires forall e :: e in a ==> e in b
    ensures forall t :: t in KeysOf(a) ==> t in KeysOf(b)
  {
    forall t | t in KeysOf(a) ensures t in KeysOf(b) {
      var i :| 0 <= i < |a| && KeysOf(a)[i] == t;
      assert a[i] in b;
      var j :| 0 <= j < |b| && b[j] == a[i];
      assert KeysOf(b)[j] == t;
    }
  }

}
