/**
 * `build_relationships`: the co-mention graph of metrics. Two metrics are
 * linked when one asset names both; an edge counts the assets that do and
 * carries up to five of them as evidence.
 */
module Relationships {
  import opened Wrappers
  import opened Text
  import opened Ordering
  import opened Counter
  import opened Schemas
  import opened Synthesize

  /** An ordered pair of canonical metric names, `(a, b)` with `a < b`. */
  type Pair = (string, string)

  datatype EdgeEvidence = EdgeEvidence(assetId: string, filename: string, page: Option<int>)

  /** `support_level`: `"supported"` or `"likely"`. */
  datatype Support = Supported | Likely

  datatype Edge = Edge(fromMetric: string, toMetric: string, support: Support, count: nat, evidence: seq<EdgeEvidence>)

  /** An edge keeps at most this many evidence entries. */
  const MaxEdgeEvidence: int := 5

  /** An edge with at least this many co-mentions is "supported", otherwise "likely". */
  const SupportedCount: int := 2

  /** A metric whose name is not blank. */
  predicate Named(m: Metric) {
    Strip(m.name) != []
  }

  function CanonicalName(m: Metric): string {
    CanonicalMetricName(m.name)
  }

  /** The canonical names of the metrics whose name is not blank, in order. */
  function MetricNames(ms: seq<Metric>): (r: seq<string>)
    ensures |r| <= |ms|
  {
    FilterMap(ms, Named, CanonicalName)
  }

  /** A name is listed exactly when some non-blank metric canonicalises to it. */
  lemma MetricNamesMembers(ms: seq<Metric>, x: string)
    ensures x in MetricNames(ms) <==> exists i :: 0 <= i < |ms| && Named(ms[i]) && CanonicalName(ms[i]) == x
  {
    FilterMapMembers(ms, Named, CanonicalName, x);
  }

  /** `sorted(set(names))` for one asset. */
  function UniqueNames(ex: AssetExtraction): (r: seq<string>)
    ensures StrictlySorted(r)
    ensures forall x :: x in r <==> x in MetricNames(ex.metrics)
  {
    SortedUnique(MetricNames(ex.metrics))
  }

  /** `(x, y)` for every `y` of `ys`, in order. */
  function Row(x: string, ys: seq<string>): (r: seq<Pair>)
    ensures |r| == |ys|
  {
    if ys == [] then [] else Row(x, ys[..|ys| - 1]) + [(x, ys[|ys| - 1])]
  }

  /** The pairs `(u[i], u[j])` with `i < n` and `i < j`, in the order of the nested `i`, `j` loops. */
  function Rows(u: seq<string>, n: nat): seq<Pair>
    requires n <= |u|
  {
    if n == 0 then [] else Rows(u, n - 1) + Row(u[n - 1], u[n..])
  }

  /** Every pair `(u[i], u[j])` with `i < j`. */
  function PairsOf(u: seq<string>): seq<Pair> {
    Rows(u, |u|)
  }

  /** Every pair of every asset, asset by asset. */
  function AllPairs(exs: seq<AssetExtraction>): seq<Pair> {
    if exs == [] then [] else AllPairs(exs[..|exs| - 1]) + PairsOf(UniqueNames(exs[|exs| - 1]))
  }

  /** The evidence entry an asset contributes. */
  function AssetEvidence(ex: AssetExtraction): EdgeEvidence {
    EdgeEvidence(ex.assetId, ex.sourceRef.filename, ex.sourceRef.page)
  }

  /** `pair_evidence[p]`, or `[]` for a pair not yet seen (`defaultdict(list)`). */
  function EvidenceAt(ev: map<Pair, seq<EdgeEvidence>>, p: Pair): seq<EdgeEvidence> {
    if p in ev then ev[p] else []
  }

  /** Appends `e` to the evidence of each pair of `ps`, in order. */
  function AddPairs(ev: map<Pair, seq<EdgeEvidence>>, ps: seq<Pair>, e: EdgeEvidence): map<Pair, seq<EdgeEvidence>> {
    if ps == [] then ev
    else
      var m := AddPairs(ev, ps[..|ps| - 1], e);
      var p := ps[|ps| - 1];
      m[p := EvidenceAt(m, p) + [e]]
  }

  /** `pair_evidence` after the asset loop. */
  function EvidenceMap(exs: seq<AssetExtraction>): map<Pair, seq<EdgeEvidence>> {
    if exs == [] then map[]
    else
      var ex := exs[|exs| - 1];
      AddPairs(EvidenceMap(exs[..|exs| - 1]), PairsOf(UniqueNames(ex)), AssetEvidence(ex))
  }

  /** The asset has a metric named `a` and one named `b`, after canonicalisation. */
  predicate NamesBoth(ex: AssetExtraction, a: string, b: string) {
    a in MetricNames(ex.metrics) && b in MetricNames(ex.metrics)
  }

  /** The reference meaning of an edge's evidence: every asset naming both metrics, in asset order. */
  function EvidenceFor(exs: seq<AssetExtraction>, a: string, b: string): (r: seq<EdgeEvidence>)
    ensures |r| <= |exs|
  {
    if exs == [] then []
    else
      var ex := exs[|exs| - 1];
      EvidenceFor(exs[..|exs| - 1], a, b) + (if NamesBoth(ex, a, b) then [AssetEvidence(ex)] else [])
  }

  function EdgeOf(e: Entry<Pair>, ev: map<Pair, seq<EdgeEvidence>>): Edge {
    Edge(e.key.0, e.key.1, if e.count >= SupportedCount then Support.Supported else Likely, e.count,
         Take(EvidenceAt(ev, e.key), MaxEdgeEvidence))
  }

  function EdgesOf(es: seq<Entry<Pair>>, ev: map<Pair, seq<EdgeEvidence>>): (r: seq<Edge>)
    ensures |r| == |es|
    ensures forall i :: 0 <= i < |es| ==> r[i] == EdgeOf(es[i], ev)
  {
    if es == [] then [] else EdgesOf(es[..|es| - 1], ev) + [EdgeOf(es[|es| - 1], ev)]
  }

  /** The edges `build_relationships(extractions, max_edges=maxEdges)` returns. */
  function Relationships(exs: seq<AssetExtraction>, maxEdges: int): seq<Edge> {
    EdgesOf(MostCommon(Tally(AllPairs(exs)), maxEdges), EvidenceMap(exs))
  }

  /* ---------------- The method ---------------- */

  lemma RowsSnoc(u: seq<string>, i: nat)
    requires i < |u|
    ensures Rows(u, i + 1) == Rows(u, i) + Row(u[i], u[i + 1..])
  {
  }

  lemma RowSnoc(x: string, ys: seq<string>, j: int)
    requires 0 <= j < |ys|
    ensures Row(x, ys[..j + 1]) == Row(x, ys[..j]) + [(x, ys[j])]
  {
    assert ys[..j + 1][..j] == ys[..j];
  }

  /** The pairs before `ys[..j + 1]`'s row are those before `ys[..j]`'s and one more. */
  lemma RowStep(before: seq<Pair>, x: string, ys: seq<string>, j: int)
    requires 0 <= j < |ys|
    ensures before + Row(x, ys[..j + 1]) == (before + Row(x, ys[..j])) + [(x, ys[j])]
  {
    RowSnoc(x, ys, j);
    AppendAssoc(before, Row(x, ys[..j]), [(x, ys[j])]);
  }

  /** Appending the asset's evidence to one more pair. */
  lemma AddPairsSnoc(ev: map<Pair, seq<EdgeEvidence>>, ps: seq<Pair>, p: Pair, e: EdgeEvidence)
    ensures AddPairs(ev, ps + [p], e) == AddPairs(ev, ps, e)[p := EvidenceAt(AddPairs(ev, ps, e), p) + [e]]
  {
    assert (ps + [p])[..|ps|] == ps;
  }

  /** The innermost loop: the pairs `(x, y)` for each `y` of `ys`, counted and given evidence `e`. */
  method CountRow(
    pairCount: seq<Entry<Pair>>, pairEvidence: map<Pair, seq<EdgeEvidence>>, x: string, ys: seq<string>,
    e: EdgeEvidence, ghost counted: seq<Pair>, ghost evBefore: map<Pair, seq<EdgeEvidence>>, ghost done: seq<Pair>)
    returns (counts: seq<Entry<Pair>>, evidence: map<Pair, seq<EdgeEvidence>>)
    requires pairCount == Tally(counted) && pairEvidence == AddPairs(evBefore, done, e)
    ensures counts == Tally(counted + Row(x, ys))
    ensures evidence == AddPairs(evBefore, done + Row(x, ys), e)
  {
    counts, evidence := pairCount, pairEvidence;
    ghost var cs, ds := counted, done;
    assert cs == counted + Row(x, ys[..0]) && ds == done + Row(x, ys[..0]);
    for j := 0 to |ys|
      invariant cs == counted + Row(x, ys[..j]) && ds == done + Row(x, ys[..j])
      invariant counts == Tally(cs)
      invariant evidence == AddPairs(evBefore, ds, e)
    {
      var p := (x, ys[j]);
      RowStep(counted, x, ys, j);
      RowStep(done, x, ys, j);
      TallySnoc(cs, p);
      AddPairsSnoc(evBefore, ds, p, e);
      counts := Bump(counts, p);
      evidence := evidence[p := EvidenceAt(evidence, p) + [e]];
      cs, ds := cs + [p], ds + [p];
    }
    assert ys[..|ys|] == ys;
  }

  /** The two inner loops of `build_relationships` for one asset whose sorted distinct names are `uniq`. */
  method CountAssetPairs(
    pairCount: seq<Entry<Pair>>, pairEvidence: map<Pair, seq<EdgeEvidence>>, uniq: seq<string>, e: EdgeEvidence,
    ghost before: seq<Pair>)
    returns (counts: seq<Entry<Pair>>, evidence: map<Pair, seq<EdgeEvidence>>)
    requires pairCount == Tally(before)
    ensures counts == Tally(before + PairsOf(uniq))
    ensures evidence == AddPairs(pairEvidence, PairsOf(uniq), e)
  {
    counts, evidence := pairCount, pairEvidence;
    ghost var cs, rs := before, [];
    assert cs == before + Rows(uniq, 0);
    for i := 0 to |uniq|
      invariant rs == Rows(uniq, i) && cs == before + rs
      invariant counts == Tally(cs)
      invariant evidence == AddPairs(pairEvidence, rs, e)
    {
      ghost var row := Row(uniq[i], uniq[i + 1..]);
      RowsSnoc(uniq, i);
      AppendAssoc(before, rs, row);
      counts, evidence := CountRow(counts, evidence, uniq[i], uniq[i + 1..], e, cs, pairEvidence, rs);
      cs, rs := cs + row, rs + row;
    }
  }

  /** `build_relationships`, loop for loop. */
  method BuildRelationships(exs: seq<AssetExtraction>, maxEdges: int) returns (edges: seq<Edge>)
    ensures edges == Relationships(exs, maxEdges)
  {
    var pairCount: seq<Entry<Pair>> := [];
    var pairEvidence: map<Pair, seq<EdgeEvidence>> := map[];
    for k := 0 to |exs|
      invariant pairCount == Tally(AllPairs(exs[..k]))
      invariant pairEvidence == EvidenceMap(exs[..k])
    {
      var ex := exs[k];
      assert exs[..k + 1][..k] == exs[..k];
      pairCount, pairEvidence := CountAssetPairs(pairCount, pairEvidence, UniqueNames(ex), AssetEvidence(ex), AllPairs(exs[..k]));
    }
    assert exs[..|exs|] == exs;
    edges := MakeEdges(MostCommon(pairCount, maxEdges), pairEvidence);
  }

  /** The final loop over `pair_count.most_common(max_edges)`. */
  method MakeEdges(top: seq<Entry<Pair>>, pairEvidence: map<Pair, seq<EdgeEvidence>>) returns (edges: seq<Edge>)
    ensures edges == EdgesOf(top, pairEvidence)
  {
    edges := [];
    for i := 0 to |top|
      invariant edges == EdgesOf(top[..i], pairEvidence)
    {
      assert top[..i + 1][..i] == top[..i];
      edges := edges + [EdgeOf(top[i], pairEvidence)];
    }
    assert top[..|top|] == top;
  }

  /* ---------------- What the edges mean ---------------- */

  /** A strictly sorted list holds `y` at most once, so one row holds each pair at most once. */
  lemma {:induction false} RowCount(x: string, ys: seq<string>, a: string, b: string)
    requires StrictlySorted(ys)
    ensures multiset(Row(x, ys))[(a, b)] == if a == x && b in ys then 1 else 0
    decreases |ys|
  {
    if ys != [] {
      var init := ys[..|ys| - 1];
      var y := ys[|ys| - 1];
      assert StrictlySorted(init);
      RowCount(x, init, a, b);
      assert ys == init + [y];
      assert y !in init by {
        forall k | 0 <= k < |init| ensures init[k] != y {
          StrictlySortedDistinct(ys, k, |ys| - 1);
        }
      }
    }
  }

  /** The first `n` names of a strictly sorted list: the first `n - 1` and then `u[n - 1]`, which is not among them. */
  lemma SortedPrefixStep(u: seq<string>, n: nat, a: string)
    requires StrictlySorted(u) && 0 < n <= |u|
    ensures a in u[..n] <==> a in u[..n - 1] || a == u[n - 1]
    ensures u[n - 1] !in u[..n - 1]
    ensures StrictlySorted(u[n..])
  {
    assert u[..n] == u[..n - 1] + [u[n - 1]];
    forall k | 0 <= k < n - 1 ensures u[k] != u[n - 1] {
      StrictlySortedDistinct(u, k, n - 1);
    }
  }

  /** The first `n` rows of a strictly sorted list hold `(a, b)` once exactly when `a` is among the first `n` names and `a < b`. */
  lemma {:induction false} RowsCount(u: seq<string>, n: nat, a: string, b: string)
    requires StrictlySorted(u) && n <= |u|
    ensures multiset(Rows(u, n))[(a, b)] == if a in u[..n] && b in u && LexLess(a, b) then 1 else 0
  {
    if n > 0 {
      var x := u[n - 1];
      SortedPrefixStep(u, n, a);
      RowsCount(u, n - 1, a, b);
      RowCount(x, u[n..], a, b);
      SortedSuffix(u, n, b);
      var before := multiset(Rows(u, n - 1))[(a, b)];
      var here := multiset(Row(x, u[n..]))[(a, b)];
      assert multiset(Rows(u, n))[(a, b)] == before + here;
      if a == x {
        assert before == 0;
      } else {
        assert here == 0;
      }
    }
  }

  /** In a strictly sorted list, the names after position `n - 1` are exactly those greater than `u[n - 1]`. */
  lemma SortedSuffix(u: seq<string>, n: nat, b: string)
    requires StrictlySorted(u) && 0 < n <= |u|
    ensures b in u[n..] <==> b in u && LexLess(u[n - 1], b)
  {
    if b in u && LexLess(u[n - 1], b) {
      var k :| 0 <= k < |u| && u[k] == b;
      if k < n - 1 {
        LexLessAsymmetric(u[n - 1], b);
      } else if k == n - 1 {
        LexLessIrreflexive(b);
      } else {
        assert b == u[n..][k - n];
      }
    }
    if b in u[n..] {
      var k :| 0 <= k < |u[n..]| && u[n..][k] == b;
      assert u[k + n] == b;
    }
  }

  /** Within one asset each pair `(a, b)` with `a < b` of its names occurs once, and no other pair does. */
  lemma PairsOfCount(u: seq<string>, a: string, b: string)
    requires StrictlySorted(u)
    ensures multiset(PairsOf(u))[(a, b)] == if a in u && b in u && LexLess(a, b) then 1 else 0
  {
    RowsCount(u, |u|, a, b);
    assert u[..|u|] == u;
  }

  /** `pair_count[(a, b)]`: the number of assets naming both, for `a < b`, and zero otherwise. */
  lemma {:induction false} AllPairsCount(exs: seq<AssetExtraction>, a: string, b: string)
    ensures multiset(AllPairs(exs))[(a, b)] == if LexLess(a, b) then |EvidenceFor(exs, a, b)| else 0
  {
    if exs != [] {
      var ex := exs[|exs| - 1];
      AllPairsCount(exs[..|exs| - 1], a, b);
      PairsOfCount(UniqueNames(ex), a, b);
    }
  }

  /** Appending evidence along a list of pairs that holds `p` at most once appends it to `p` at most once. */
  lemma {:induction false} AddPairsAt(ev: map<Pair, seq<EdgeEvidence>>, ps: seq<Pair>, e: EdgeEvidence, p: Pair)
    requires multiset(ps)[p] <= 1
    ensures EvidenceAt(AddPairs(ev, ps, e), p) == EvidenceAt(ev, p) + (if p in ps then [e] else [])
  {
    if ps != [] {
      var init := ps[..|ps| - 1];
      var last := ps[|ps| - 1];
      assert ps == init + [last];
      assert multiset(ps) == multiset(init) + multiset{last};
      AddPairsAt(ev, init, e, p);
      var m := AddPairs(ev, init, e);
      assert AddPairs(ev, ps, e) == m[last := EvidenceAt(m, last) + [e]];
      if last == p {
        assert p !in init by {
          assert multiset(init)[p] == 0;
        }
      } else {
        assert p in ps <==> p in init;
      }
    }
  }

  /** `pair_evidence[(a, b)]` holds the evidence of every asset naming both, for `a < b`. */
  lemma {:induction false} EvidenceMapAt(exs: seq<AssetExtraction>, a: string, b: string)
    ensures EvidenceAt(EvidenceMap(exs), (a, b)) == if LexLess(a, b) then EvidenceFor(exs, a, b) else []
  {
    if exs != [] {
      var ex := exs[|exs| - 1];
      EvidenceMapAt(exs[..|exs| - 1], a, b);
      PairsOfCount(UniqueNames(ex), a, b);
      AddPairsAt(EvidenceMap(exs[..|exs| - 1]), PairsOf(UniqueNames(ex)), AssetEvidence(ex), (a, b));
    }
  }

  /** Every evidence entry is that of an asset naming both metrics. */
  lemma {:induction false} EvidenceForAssets(exs: seq<AssetExtraction>, a: string, b: string, x: EdgeEvidence)
    returns (k: nat)
    requires x in EvidenceFor(exs, a, b)
    ensures k < |exs| && x == AssetEvidence(exs[k]) && NamesBoth(exs[k], a, b)
  {
    assert exs != [];
    var init := exs[..|exs| - 1];
    var last := exs[|exs| - 1];
    var pre := EvidenceFor(init, a, b);
    var extra := if NamesBoth(last, a, b) then [AssetEvidence(last)] else [];
    assert EvidenceFor(exs, a, b) == pre + extra;
    if x in pre {
      k := EvidenceForAssets(init, a, b, x);
      assert init[k] == exs[k];
    } else {
      assert x in extra;
      k := |exs| - 1;
    }
  }

  /** The count and evidence behind the `i`-th pair that `most_common` keeps. */
  lemma TopEntry(exs: seq<AssetExtraction>, maxEdges: int, i: int)
    requires 0 <= i < |MostCommon(Tally(AllPairs(exs)), maxEdges)|
    ensures var e := MostCommon(Tally(AllPairs(exs)), maxEdges)[i];
      && LexLess(e.key.0, e.key.1)
      && e.count == |EvidenceFor(exs, e.key.0, e.key.1)| > 0
  {
    var t := Tally(AllPairs(exs));
    var top := MostCommon(t, maxEdges);
    var e := top[i];
    TallyKeys(AllPairs(exs));
    MostCommonSorted(t, maxEdges);
    assert e in top;
    assert e in t;
    var k :| 0 <= k < |t| && t[k] == e;
    CountOfAt(t, k);
    TallyCount(AllPairs(exs), e.key);
    AllPairsCount(exs, e.key.0, e.key.1);
  }

  /**
   * Each edge links two distinct canonical names `a < b` named by one asset;
   * its count is the number of assets naming both, it is supported exactly
   * when that count is at least two, and its evidence is that of the first
   * five such assets.
   */
  lemma RelationshipsEdge(exs: seq<AssetExtraction>, maxEdges: int, i: int)
    requires 0 <= i < |Relationships(exs, maxEdges)|
    ensures var r := Relationships(exs, maxEdges)[i];
      var all := EvidenceFor(exs, r.fromMetric, r.toMetric);
      && LexLess(r.fromMetric, r.toMetric)
      && r.count == |all| >= 1
      && (r.support == Support.Supported <==> r.count >= 2)
      && r.evidence == Take(all, MaxEdgeEvidence)
      && |r.evidence| == (if r.count < MaxEdgeEvidence then r.count else MaxEdgeEvidence)
      && (exists k :: 0 <= k < |exs| && NamesBoth(exs[k], r.fromMetric, r.toMetric))
  {
    var top := MostCommon(Tally(AllPairs(exs)), maxEdges);
    var e := top[i];
    var r := Relationships(exs, maxEdges)[i];
    TopEntry(exs, maxEdges, i);
    assert r == EdgeOf(e, EvidenceMap(exs));
    EvidenceMapAt(exs, e.key.0, e.key.1);
    var all := EvidenceFor(exs, e.key.0, e.key.1);
    var k := EvidenceForAssets(exs, e.key.0, e.key.1, all[0]);
  }

  /**
   * At most `max_edges` edges, none when it is not positive, each pair once,
   * in non-increasing order of count.
   */
  lemma RelationshipsShape(exs: seq<AssetExtraction>, maxEdges: int)
    ensures var r := Relationships(exs, maxEdges);
      && (maxEdges >= 0 ==> |r| <= maxEdges)
      && (maxEdges <= 0 ==> r == [])
      && (forall i, j :: 0 <= i < j < |r| ==> (r[i].fromMetric, r[i].toMetric) != (r[j].fromMetric, r[j].toMetric))
      && (forall i, j :: 0 <= i < j < |r| ==> r[i].count >= r[j].count)
  {
    var t := Tally(AllPairs(exs));
    var top := MostCommon(t, maxEdges);
    var ev := EvidenceMap(exs);
    var r := EdgesOf(top, ev);
    MostCommonSize(t, maxEdges);
    TallyKeys(AllPairs(exs));
    MostCommonSorted(t, maxEdges);
    forall i, j | 0 <= i < j < |r| ensures (r[i].fromMetric, r[i].toMetric) != (r[j].fromMetric, r[j].toMetric) {
      assert r[i] == EdgeOf(top[i], ev) && r[j] == EdgeOf(top[j], ev);
      assert top[i].key != top[j].key;
    }
    forall i, j | 0 <= i < j < |r| ensures r[i].count >= r[j].count {
      assert r[i] == EdgeOf(top[i], ev) && r[j] == EdgeOf(top[j], ev);
      assert KeyGe(ByCount(top[i]), ByCount(top[j]));
    }
  }

  /** A co-mentioned pair left out of the edges is mentioned no more often than any edge kept. */
  lemma RelationshipsTop(exs: seq<AssetExtraction>, maxEdges: int, a: string, b: string, i: int)
    requires LexLess(a, b) && EvidenceFor(exs, a, b) != []
    requires forall j :: 0 <= j < |Relationships(exs, maxEdges)| ==>
      (Relationships(exs, maxEdges)[j].fromMetric, Relationships(exs, maxEdges)[j].toMetric) != (a, b)
    requires 0 <= i < |Relationships(exs, maxEdges)|
    ensures |EvidenceFor(exs, a, b)| <= Relationships(exs, maxEdges)[i].count
  {
    var ps := AllPairs(exs);
    var t := Tally(ps);
    var top := MostCommon(t, maxEdges);
    AllPairsCount(exs, a, b);
    TallyKeys(ps);
    assert (a, b) in ps;
    var k :| 0 <= k < |t| && t[k].key == (a, b);
    CountOfAt(t, k);
    TallyCount(ps, (a, b));
    assert t[k] !in top;
    MostCommonTop(t, maxEdges, t[k], top[i]);
  }
}
