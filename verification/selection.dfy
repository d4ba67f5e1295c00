/**
 * The second half of `generate_insights`: one candidate insight per metric
 * (or per asset without metrics), de-duplication of near-identical
 * headlines, the capped selection, the final topic list; and
 * `build_input_summary`.
 */
module Selection {
  import opened Wrappers
  import opened Text
  import opened Ordering
  import opened Counter
  import opened Schemas
  import opened Synthesize

  /* ---------------- Candidate insights ---------------- */

  /** Python truthiness of an optional string: present and non-empty. */
  predicate Truthy(o: Option<string>) {
    o.Some? && o.value != []
  }

  /** `c.delta_pct or c.delta_abs` is truthy. */
  predicate HasDelta(c: Comparison) {
    Truthy(c.deltaPct) || Truthy(c.deltaAbs)
  }

  /** The comparison `best_cmp` settles on: the first one that carries a delta. */
  function FirstWithDelta(cs: seq<Comparison>): (r: Option<Comparison>)
    ensures r.None? <==> forall i :: 0 <= i < |cs| ==> !HasDelta(cs[i])
    ensures r.Some? ==> exists i :: 0 <= i < |cs| && cs[i] == r.value && HasDelta(cs[i])
                          && forall j :: 0 <= j < i ==> !HasDelta(cs[j])
  {
    if cs == [] then None
    else if HasDelta(cs[0]) then Some(cs[0])
    else
      var r := FirstWithDelta(cs[1..]);
      assert forall i :: 0 < i < |cs| ==> cs[i] == cs[1..][i - 1];
      r
  }

  /** The `for c in m.comparisons` loop, which stops at the first comparison with a delta. */
  method BestComparison(cs: seq<Comparison>) returns (best: Option<Comparison>)
    ensures best == FirstWithDelta(cs)
  {
    best := None;
    for i := 0 to |cs|
      invariant FirstWithDelta(cs) == FirstWithDelta(cs[i..])
    {
      if HasDelta(cs[i]) {
        best := Some(cs[i]);
        break;
      }
      assert cs[i..][1..] == cs[i + 1..];
    }
  }

  /** `best_cmp.delta_pct or best_cmp.delta_abs or ""`: the percentage is preferred, empty only when neither is set. */
  function DeltaText(c: Comparison): (r: string)
    ensures Truthy(c.deltaPct) ==> r == c.deltaPct.value
    ensures !Truthy(c.deltaPct) && Truthy(c.deltaAbs) ==> r == c.deltaAbs.value
    ensures r == [] <==> !Truthy(c.deltaPct) && !Truthy(c.deltaAbs)
  {
    if Truthy(c.deltaPct) then c.deltaPct.value
    else if Truthy(c.deltaAbs) then c.deltaAbs.value
    else ""
  }

  /** `delta_snip`: the comparison type and the stripped delta, or empty when there is none. */
  function DeltaSnip(best: Option<Comparison>): string {
    if best.None? then ""
    else
      var d := Strip(DeltaText(best.value));
      if d == [] then "" else ComparisonTypeName(best.value.ctype) + " " + d
  }

  /** The stripped metric name, or its canonical name when that is empty. */
  function DisplayName(m: Metric): string {
    if Strip(m.name) != [] then Strip(m.name) else CanonicalMetricName(m.name)
  }

  /** The headline: the display name, followed by the delta snippet in parentheses if there is one. */
  function Headline(m: Metric, snip: string): (r: string)
    ensures StartsWith(r, DisplayName(m))
    ensures snip == [] <==> r == DisplayName(m)
    ensures snip != [] ==> Contains(r, snip) && EndsWith(r, ")")
  {
    var d := DisplayName(m);
    if snip == [] then d
    else
      Parenthesised(d, snip);
      d + " (" + snip + ")"
  }

  /** `d (s)` starts with `d`, contains `s` and ends with the closing parenthesis. */
  lemma Parenthesised(d: string, s: string)
    ensures var h := d + " (" + s + ")";
      StartsWith(h, d) && Contains(h, s) && EndsWith(h, ")") && |h| > |d|
  {
    var h := d + " (" + s + ")";
    assert h[..|d|] == d;
    assert h[|d| + 2..|d| + 2 + |s|] == s;
    ContainsAt(h, s, |d| + 2);
  }

  /** `base_val`: value and unit run together and stripped, or empty when both are empty. */
  function BaseVal(m: Metric): string {
    if m.value != [] || m.unit != [] then Strip(m.value + m.unit) else ""
  }

  const NeedsDataWhat: string := ": [NEEDS DATA] value/delta not extracted."
  const WhyMetric: string := "Why it matters: keep focus on the few KPIs that moved and align on drivers."
  const QuestionMetric: string := "Question: what are the top 1-2 drivers behind this move?"
  const NoTrend: string := "[NEEDS DATA] No trend extracted."
  const WhyTrend: string := "Why it matters: [NEEDS DATA] missing structured metrics in extraction."
  const QuestionTrend: string := "Question: which metric(s) on this dashboard should anchor the discussion?"

  /** At most this many metrics of one asset become candidates (`ex.metrics[:6]`). */
  const MetricsPerAsset: int := 6

  /**
   * The one `what_changed` line, in the first of four formats that applies:
   * it opens with the metric's name, carries the value and the delta snippet
   * that were extracted, says "[NEEDS DATA]" when neither was, and ends with
   * a full stop.
   */
  function WhatChanged(m: Metric, base: string, snip: string): (r: string)
    ensures StartsWith(r, m.name) && r != [] && r[|r| - 1] == '.'
    ensures base != [] ==> Contains(r, base)
    ensures snip != [] ==> Contains(r, snip)
    ensures base == [] && snip == [] ==> EndsWith(r, NeedsDataWhat)
  {
    var n := m.name;
    if base != [] && snip != [] then
      var r := n + ": " + base + "; " + snip + ".";
      assert r[..|n|] == n;
      assert r[|n| + 2..|n| + 2 + |base|] == base;
      ContainsAt(r, base, |n| + 2);
      assert r[|n| + 4 + |base|..|n| + 4 + |base| + |snip|] == snip;
      ContainsAt(r, snip, |n| + 4 + |base|);
      r
    else if base != [] || snip != [] then
      var v := if base != [] then base else snip;
      var r := n + ": " + v + ".";
      assert r[..|n|] == n;
      assert r[|n| + 2..|n| + 2 + |v|] == v;
      ContainsAt(r, v, |n| + 2);
      r
    else
      var r := n + NeedsDataWhat;
      assert r[..|n|] == n;
      assert r[|r| - |NeedsDataWhat|..] == NeedsDataWhat;
      r
  }

  /**
   * What the candidate loop reads besides the extractions: the topics,
   * `metric_freq`, the agenda notes, the thumbnail of each asset, the number
   * search inside `_parse_pct`, and the identifier `uuid4().hex` gives the
   * n-th candidate.
   */
  datatype Context = Context(
    topics: seq<string>,
    metricFreq: map<string, int>,
    agendaNotes: Option<string>,
    assetThumbs: map<string, string>,
    numberIn: string -> Option<real>,
    newId: nat -> string)

  /** `_topic_for_extraction(ex)`, replaced by the leading topic when it is not a topic. */
  function ExTopic(ex: AssetExtraction, topics: seq<string>): (r: string)
    requires topics != []
    ensures r in topics
    ensures ex.tags != [] && ex.tags[0] in topics ==> r == ex.tags[0]
    ensures ex.tags == [] && "misc" in topics ==> r == "misc"
  {
    var t := if ex.tags != [] then ex.tags[0] else "misc";
    if t in topics then t else topics[0]
  }

  /** The evidence every candidate of an asset cites. */
  function EvidenceOf(ex: AssetExtraction, thumbs: map<string, string>): Evidence {
    Evidence(
      ex.assetId, ex.sourceRef.filename, ex.sourceRef.page,
      if ex.assetId in thumbs then Some(thumbs[ex.assetId]) else None,
      None)
  }

  /** `metric_freq.get(canon, 1)` */
  function FreqOf(freq: map<string, int>, canon: string): int {
    if canon in freq then freq[canon] else 1
  }

  /**
   * The importance of a metric candidate, scored from the best comparison's
   * percentage and absolute delta, the metric's frequency, the agenda bonus
   * and the extraction's confidence; it never exceeds 90.
   */
  function MetricImportance(ctx: Context, ex: AssetExtraction, topic: string, m: Metric, best: Option<Comparison>): (r: int)
    ensures 0 <= r <= 90
  {
    var pct := if best.Some? then ParsePct(best.value.deltaPct, ctx.numberIn) else None;
    var hasAbs := best.Some? && Truthy(best.value.deltaAbs);
    var freq := FreqOf(ctx.metricFreq, CanonicalMetricName(m.name));
    var bonus := AgendaBonus(topic, ctx.agendaNotes);
    MetricScoreRange(pct, hasAbs, freq, bonus, ex.confidence);
    MetricScore(pct, hasAbs, freq, bonus, ex.confidence)
  }

  /** The candidate for metric `m` of asset `ex`, given its best comparison. */
  function MetricInsight(ctx: Context, ex: AssetExtraction, topic: string, m: Metric, best: Option<Comparison>, id: string): Insight {
    var snip := DeltaSnip(best);
    var base := BaseVal(m);
    Insight(
      id, topic, Headline(m, snip),
      [WhatChanged(m, base, snip)], [WhyMetric], [QuestionMetric], [m.name],
      [EvidenceOf(ex, ctx.assetThumbs)],
      if base != [] || snip != [] then [Supported] else [NeedsData],
      MetricImportance(ctx, ex, topic, m, best))
  }

  /** The candidate for an asset without metrics: its first notable trend, labelled as needing data. */
  function TrendInsight(ctx: Context, ex: AssetExtraction, topic: string, id: string): Insight {
    var trend := if ex.notableTrends != [] then ex.notableTrends[0] else NoTrend;
    Insight(
      id, topic, trend, [trend], [WhyTrend], [QuestionTrend], [],
      [EvidenceOf(ex, ctx.assetThumbs)], [NeedsData],
      5 + AgendaBonus(topic, ctx.agendaNotes))
  }

  /** `f` applied to each element of `xs` and its number, counting from `base`. */
  function Numbered<T, U>(f: (T, nat) -> U, xs: seq<T>, base: nat): (r: seq<U>)
    ensures |r| == |xs|
  {
    if xs == [] then [] else Numbered(f, xs[..|xs| - 1], base) + [f(xs[|xs| - 1], base + |xs| - 1)]
  }

  lemma NumberedSnoc<T, U>(f: (T, nat) -> U, xs: seq<T>, t: nat, base: nat)
    requires t < |xs|
    ensures Numbered(f, xs[..t + 1], base) == Numbered(f, xs[..t], base) + [f(xs[t], base + t)]
  {
    assert xs[..t + 1][..t] == xs[..t];
  }

  /** The candidate for a metric of `ex` that is the `n`-th candidate overall. */
  function MetricCandidate(ctx: Context, ex: AssetExtraction, topic: string): (Metric, nat) -> Insight {
    (m: Metric, n: nat) => MetricInsight(ctx, ex, topic, m, FirstWithDelta(m.comparisons), ctx.newId(n))
  }

  /** The candidates for the metrics `ms` of `ex`, numbered from `base`. */
  function MetricInsights(ctx: Context, ex: AssetExtraction, topic: string, ms: seq<Metric>, base: nat): (r: seq<Insight>)
    ensures |r| == |ms|
  {
    Numbered(MetricCandidate(ctx, ex, topic), ms, base)
  }

  /** The candidates of one asset, numbered from `base`. */
  function ExCandidates(ctx: Context, ex: AssetExtraction, base: nat): seq<Insight>
    requires ctx.topics != []
  {
    var topic := ExTopic(ex, ctx.topics);
    if ex.metrics == [] then [TrendInsight(ctx, ex, topic, ctx.newId(base))]
    else MetricInsights(ctx, ex, topic, Take(ex.metrics, MetricsPerAsset), base)
  }

  /** Every candidate, asset by asset. */
  function Candidates(ctx: Context, exs: seq<AssetExtraction>): seq<Insight>
    requires ctx.topics != []
  {
    if exs == [] then []
    else
      var c := Candidates(ctx, exs[..|exs| - 1]);
      c + ExCandidates(ctx, exs[|exs| - 1], |c|)
  }

  lemma MetricCandidatesStep(ctx: Context, ex: AssetExtraction, topic: string, ms: seq<Metric>, t: nat, base: nat,
                             best: Option<Comparison>)
    requires t < |ms| && best == FirstWithDelta(ms[t].comparisons)
    ensures MetricInsights(ctx, ex, topic, ms[..t + 1], base)
         == MetricInsights(ctx, ex, topic, ms[..t], base) + [MetricInsight(ctx, ex, topic, ms[t], best, ctx.newId(base + t))]
  {
    NumberedSnoc(MetricCandidate(ctx, ex, topic), ms, t, base);
  }

  /** The inner loop over `ex.metrics[:6]`: one candidate per metric, numbered from `base`. */
  method MetricCandidates(ctx: Context, ex: AssetExtraction, topic: string, ms: seq<Metric>, base: nat)
    returns (out: seq<Insight>)
    ensures out == MetricInsights(ctx, ex, topic, ms, base)
  {
    out := [];
    for t := 0 to |ms|
      invariant out == MetricInsights(ctx, ex, topic, ms[..t], base)
    {
      var m := ms[t];
      var best := BestComparison(m.comparisons);
      MetricCandidatesStep(ctx, ex, topic, ms, t, base, best);
      out := out + [MetricInsight(ctx, ex, topic, m, best, ctx.newId(base + t))];
    }
    assert ms[..|ms|] == ms;
  }

  /** The candidate loop of `generate_insights`. */
  method BuildCandidates(ctx: Context, exs: seq<AssetExtraction>) returns (cands: seq<Insight>)
    requires ctx.topics != []
    ensures cands == Candidates(ctx, exs)
  {
    cands := [];
    for k := 0 to |exs|
      invariant cands == Candidates(ctx, exs[..k])
    {
      var ex := exs[k];
      var topic := ExTopic(ex, ctx.topics);
      var more: seq<Insight>;
      if ex.metrics != [] {
        more := MetricCandidates(ctx, ex, topic, Take(ex.metrics, MetricsPerAsset), |cands|);
      } else {
        more := [TrendInsight(ctx, ex, topic, ctx.newId(|cands|))];
      }
      assert exs[..k + 1][..k] == exs[..k];
      cands := cands + more;
    }
    assert exs[..|exs|] == exs;
  }

  lemma {:induction false} NumberedAt<T, U>(f: (T, nat) -> U, xs: seq<T>, base: nat, i: nat)
    requires i < |xs|
    ensures Numbered(f, xs, base)[i] == f(xs[i], base + i)
    decreases |xs|
  {
    if i < |xs| - 1 {
      NumberedAt(f, xs[..|xs| - 1], base, i);
    }
  }

  /** The shape every candidate has: one line of each text field, one piece of evidence, one label. */
  predicate WellFormedCandidate(c: Insight, topics: seq<string>) {
    && ValidInsight(c)
    && c.topic in topics
    && |c.whatChanged| == 1 && |c.whyItMatters| == 1 && |c.discussionQuestions| == 1
    && |c.metricsMentioned| <= 1
    && |c.evidence| == 1 && c.evidence[0].note.None?
    && (c.labels == [Supported] || c.labels == [NeedsData])
  }

  /**
   * A metric candidate is labelled `needs_data` exactly when neither a value
   * nor a delta was extracted, and then says so; its score never needs the
   * clamp.
   */
  lemma MetricInsightFacts(ctx: Context, ex: AssetExtraction, topic: string, m: Metric, best: Option<Comparison>, id: string)
    requires topic in ctx.topics
    ensures var c := MetricInsight(ctx, ex, topic, m, best, id);
      && WellFormedCandidate(c, ctx.topics)
      && c.id == id && c.topic == topic && c.evidence[0].assetId == ex.assetId && c.metricsMentioned == [m.name]
      && (c.labels == [NeedsData] <==> BaseVal(m) == [] && DeltaSnip(best) == [])
      && (c.labels == [NeedsData] ==> c.whatChanged == [m.name + NeedsDataWhat])
      && (DeltaSnip(best) != [] ==> best.Some? && HasDelta(best.value))
  {
  }

  /** An asset without metrics gives one `needs_data` candidate scored 5, or 15 with the agenda bonus. */
  lemma TrendInsightFacts(ctx: Context, ex: AssetExtraction, topic: string, id: string)
    requires topic in ctx.topics
    ensures var c := TrendInsight(ctx, ex, topic, id);
      && WellFormedCandidate(c, ctx.topics)
      && c.id == id && c.topic == topic && c.evidence[0].assetId == ex.assetId
      && c.labels == [NeedsData] && c.metricsMentioned == []
      && (c.importanceScore == 5 || c.importanceScore == 15)
      && c.headline == (if ex.notableTrends != [] then ex.notableTrends[0] else NoTrend)
  {
  }

  /** Each asset gives at least one candidate and at most six. */
  lemma {:induction false} CandidatesCount(ctx: Context, exs: seq<AssetExtraction>)
    requires ctx.topics != []
    ensures |exs| <= |Candidates(ctx, exs)| <= MetricsPerAsset * |exs|
  {
    if exs != [] {
      CandidatesCount(ctx, exs[..|exs| - 1]);
    }
  }

  lemma ExCandidatesShape(ctx: Context, ex: AssetExtraction, base: nat, k: nat)
    requires ctx.topics != [] && k < |ExCandidates(ctx, ex, base)|
    ensures var c := ExCandidates(ctx, ex, base)[k];
      WellFormedCandidate(c, ctx.topics) && c.id == ctx.newId(base + k) && c.evidence[0].assetId == ex.assetId
  {
    var topic := ExTopic(ex, ctx.topics);
    if ex.metrics == [] {
      TrendInsightFacts(ctx, ex, topic, ctx.newId(base));
    } else {
      var ms := Take(ex.metrics, MetricsPerAsset);
      NumberedAt(MetricCandidate(ctx, ex, topic), ms, base, k);
      MetricInsightFacts(ctx, ex, topic, ms[k], FirstWithDelta(ms[k].comparisons), ctx.newId(base + k));
    }
  }

  /**
   * The `i`-th candidate is well formed, carries the `i`-th identifier, a
   * topic from the topic list, and cites one of the assets.
   */
  lemma {:induction false} CandidatesShape(ctx: Context, exs: seq<AssetExtraction>, i: nat)
    requires ctx.topics != [] && i < |Candidates(ctx, exs)|
    ensures var c := Candidates(ctx, exs)[i];
      && WellFormedCandidate(c, ctx.topics)
      && c.id == ctx.newId(i)
      && exists j :: 0 <= j < |exs| && c.evidence[0].assetId == exs[j].assetId
  {
    var n := |exs| - 1;
    var init := exs[..n];
    var pre := Candidates(ctx, init);
    var more := ExCandidates(ctx, exs[n], |pre|);
    assert Candidates(ctx, exs) == pre + more;
    if i < |pre| {
      assert Candidates(ctx, exs)[i] == pre[i];
      CandidatesShape(ctx, init, i);
      var j :| 0 <= j < |init| && pre[i].evidence[0].assetId == init[j].assetId;
      assert exs[j] == init[j];
    } else {
      assert Candidates(ctx, exs)[i] == more[i - |pre|];
      ExCandidatesShape(ctx, exs[n], |pre|, i - |pre|);
      assert more[i - |pre|].evidence[0].assetId == exs[n].assetId;
    }
  }

  /* ---------------- De-duplication ---------------- */

  /** `(ins.topic.lower(), canonical_metric_name(ins.headline))`: insights with the same key are near-identical. */
  function KeyOf(x: Insight): (string, string) {
    (Lower(x.topic), CanonicalMetricName(x.headline))
  }

  /** The sort key `lambda i: i.importance_score`. */
  function ByImportance(x: Insight): Key {
    (x.importanceScore as real, 0.0)
  }

  /** The elements of `xs` whose key is neither in `seen` nor on an earlier element of `xs`. */
  function Dedup<T, K(==)>(xs: seq<T>, key: T -> K, seen: set<K>): seq<T> {
    if xs == [] then []
    else if key(xs[0]) in seen then Dedup(xs[1..], key, seen)
    else [xs[0]] + Dedup(xs[1..], key, seen + {key(xs[0])})
  }

  /** `deduped`: the candidates by descending importance, keeping the first of each key. */
  function Deduplicated(cands: seq<Insight>): seq<Insight> {
    Dedup(SortDesc(cands, ByImportance), KeyOf, {})
  }

  /** The loop with the `seen` set: keeps each element whose key has not been seen yet. */
  method FirstOfEachKey<T, K(==)>(xs: seq<T>, key: T -> K) returns (kept: seq<T>)
    ensures kept == Dedup(xs, key, {})
  {
    var seen: set<K> := {};
    kept := [];
    for i := 0 to |xs|
      invariant kept + Dedup(xs[i..], key, seen) == Dedup(xs, key, {})
    {
      var x := xs[i];
      var k := key(x);
      DedupStep(xs, key, seen, i);
      if k in seen {
        continue;
      }
      seen := seen + {k};
      kept := kept + [x];
    }
  }

  /** The de-duplication step of `generate_insights`: sort by importance, then keep the first of each key. */
  method Dedupe(cands: seq<Insight>) returns (deduped: seq<Insight>)
    ensures deduped == Deduplicated(cands)
  {
    var sorted := SortDesc(cands, ByImportance);
    deduped := FirstOfEachKey(sorted, KeyOf);
  }

  lemma DedupStep<T, K>(xs: seq<T>, key: T -> K, seen: set<K>, i: nat)
    requires i < |xs|
    ensures Dedup(xs[i..], key, seen)
         == if key(xs[i]) in seen then Dedup(xs[i + 1..], key, seen)
            else [xs[i]] + Dedup(xs[i + 1..], key, seen + {key(xs[i])})
  {
    assert xs[i..][1..] == xs[i + 1..];
  }

  /** No two elements of `r` share a key. */
  predicate KeysDistinct<T, K(==)>(r: seq<T>, key: T -> K) {
    forall i, j :: 0 <= i < j < |r| ==> key(r[i]) != key(r[j])
  }

  /** Every key of `xs` is the key of some element of `r`. */
  predicate KeysCovered<T(==,!new), K(==)>(xs: seq<T>, r: seq<T>, key: T -> K) {
    forall x :: x in xs ==> exists y :: y in r && key(y) == key(x)
  }

  /**
   * What survives: a subsequence of the input, no key of `seen`, no key
   * twice, and a survivor for every key of the input outside `seen`.
   */
  lemma {:induction false} DedupSpec<T, K>(xs: seq<T>, key: T -> K, seen: set<K>)
    ensures var r := Dedup(xs, key, seen);
      && IsSubseq(r, xs)
      && (forall y :: y in r ==> key(y) !in seen)
      && KeysDistinct(r, key)
      && (forall x :: x in xs ==> key(x) in seen || exists y :: y in r && key(y) == key(x))
    decreases |xs|
  {
    if xs != [] {
      var k := key(xs[0]);
      var r := Dedup(xs, key, seen);
      assert xs == [xs[0]] + xs[1..];
      if k in seen {
        DedupSpec(xs[1..], key, seen);
      } else {
        var rest := Dedup(xs[1..], key, seen + {k});
        DedupSpec(xs[1..], key, seen + {k});
        assert r == [xs[0]] + rest && r[1..] == rest;
        forall i, j | 0 <= i < j < |r| ensures key(r[i]) != key(r[j]) {
          if i == 0 {
            assert r[j] in rest;
          } else {
            assert r[i] == rest[i - 1] && r[j] == rest[j - 1];
          }
        }
        forall x | x in xs ensures key(x) in seen || exists y :: y in r && key(y) == key(x) {
          if x != xs[0] {
            assert x in xs[1..];
          }
        }
      }
    }
  }

  /** Over input sorted by descending score, the survivor of each key has the highest score of that key. */
  lemma {:induction false} DedupBest<T, K>(xs: seq<T>, key: T -> K, score: T -> Key, seen: set<K>, x: T, y: T)
    requires SortedDesc(xs, score)
    requires x in xs && y in Dedup(xs, key, seen) && key(x) == key(y)
    ensures KeyGe(score(y), score(x))
    decreases |xs|
  {
    var k := key(xs[0]);
    assert xs == [xs[0]] + xs[1..];
    assert SortedDesc(xs[1..], score);
    if k in seen {
      DedupSpec(xs, key, seen);
      assert x != xs[0];
      DedupBest(xs[1..], key, score, seen, x, y);
    } else if y == xs[0] {
      var p :| 0 <= p < |xs| && xs[p] == x;
      if p == 0 {
        assert x == y;
      }
    } else {
      DedupSpec(xs[1..], key, seen + {k});
      assert y in Dedup(xs[1..], key, seen + {k});
      assert x != xs[0];
      DedupBest(xs[1..], key, score, seen + {k}, x, y);
    }
  }

  /**
   * `deduped` holds candidates in descending order of importance, one per
   * key, and every key of the candidates is represented.
   */
  lemma DeduplicatedSpec(cands: seq<Insight>)
    ensures var r := Deduplicated(cands);
      && SortedDesc(r, ByImportance)
      && (forall y :: y in r ==> y in cands)
      && KeysDistinct(r, KeyOf)
      && KeysCovered(cands, r, KeyOf)
  {
    SortedDedupSpec(cands, KeyOf, ByImportance);
    SortedDedupCovered(cands, KeyOf, ByImportance);
  }

  /** Sorting then keeping the first of each key: sorted, drawn from the input, one per key. */
  lemma SortedDedupSpec<T(!new), K>(xs: seq<T>, key: T -> K, score: T -> Key)
    ensures var r := Dedup(SortDesc(xs, score), key, {});
      && SortedDesc(r, score)
      && (forall y :: y in r ==> y in xs)
      && KeysDistinct(r, key)
  {
    var sorted := SortDesc(xs, score);
    var r := Dedup(sorted, key, {});
    SortDescSorted(xs, score);
    DedupSpec(sorted, key, {});
    SubseqSortedDesc(r, sorted, score);
    SubseqMembers(r, sorted);
    forall y | y in r ensures y in xs {
      assert y in multiset(sorted);
    }
  }

  /** Sorting then keeping the first of each key leaves a survivor for every key of the input. */
  lemma SortedDedupCovered<T(!new), K>(xs: seq<T>, key: T -> K, score: T -> Key)
    ensures KeysCovered(xs, Dedup(SortDesc(xs, score), key, {}), key)
  {
    var sorted := SortDesc(xs, score);
    var r := Dedup(sorted, key, {});
    DedupSpec(sorted, key, {});
    forall x | x in xs ensures exists y :: y in r && key(y) == key(x) {
      assert x in multiset(xs);
      assert x in sorted;
    }
  }

  /** The insight kept for a key has the highest importance among the candidates with that key. */
  lemma DeduplicatedBest(cands: seq<Insight>, x: Insight, y: Insight)
    requires x in cands && y in Deduplicated(cands) && KeyOf(x) == KeyOf(y)
    ensures x.importanceScore <= y.importanceScore
  {
    var sorted := SortDesc(cands, ByImportance);
    SortDescSorted(cands, ByImportance);
    assert x in multiset(cands);
    DedupBest(sorted, KeyOf, ByImportance, {}, x, y);
  }

  /* ---------------- Capped selection ---------------- */

  /** At most this many insights per topic (`per_topic_cap`). */
  const PerTopicCap: nat := 5

  /** `per_topic_counts[t]` for the insights `s`. */
  function TopicCount(s: seq<Insight>, t: string): nat {
    if s == [] then 0
    else TopicCount(s[..|s| - 1], t) + (if s[|s| - 1].topic == t then 1 else 0)
  }

  /** `selected` after visiting `xs`: an insight is taken while there is room overall and in its topic. */
  function Select(xs: seq<Insight>, maxInsights: int): seq<Insight> {
    if xs == [] then []
    else
      var s := Select(xs[..|xs| - 1], maxInsights);
      var x := xs[|xs| - 1];
      if |s| >= maxInsights || TopicCount(s, x.topic) >= PerTopicCap then s else s + [x]
  }

  lemma TopicCountSnoc(s: seq<Insight>, x: Insight, t: string)
    ensures TopicCount(s + [x], t) == TopicCount(s, t) + (if x.topic == t then 1 else 0)
  {
    assert (s + [x])[..|s|] == s;
  }

  /**
   * The selection keeps the order of its input, holds at most
   * `max_insights` insights and at most five per topic.
   */
  lemma {:induction false} SelectSpec(xs: seq<Insight>, maxInsights: int)
    ensures var r := Select(xs, maxInsights);
      && IsSubseq(r, xs)
      && (maxInsights >= 0 ==> |r| <= maxInsights)
      && (maxInsights <= 0 ==> r == [])
      && forall t :: TopicCount(r, t) <= PerTopicCap
  {
    if xs != [] {
      var init := xs[..|xs| - 1];
      var x := xs[|xs| - 1];
      var s := Select(init, maxInsights);
      SelectSpec(init, maxInsights);
      assert xs == init + [x];
      if |s| >= maxInsights || TopicCount(s, x.topic) >= PerTopicCap {
        SubseqAppend(s, init, [], [x]);
        assert s + [] == s;
      } else {
        SubseqRefl([x]);
        SubseqAppend(s, init, [x], [x]);
        forall t ensures TopicCount(s + [x], t) <= PerTopicCap {
          TopicCountSnoc(s, x, t);
        }
      }
    }
  }

  /**
   * When the selection stops short of `max_insights`, every insight left out
   * belongs to a topic that already has five.
   */
  lemma {:induction false} SelectMaximal(xs: seq<Insight>, maxInsights: int, x: Insight)
    requires x in xs && |Select(xs, maxInsights)| < maxInsights
    ensures x in Select(xs, maxInsights) || TopicCount(Select(xs, maxInsights), x.topic) == PerTopicCap
  {
    var init := xs[..|xs| - 1];
    var last := xs[|xs| - 1];
    var s := Select(init, maxInsights);
    var r := Select(xs, maxInsights);
    assert xs == init + [last];
    SelectSpec(xs, maxInsights);
    assert |s| <= |r|;
    if x != last || x in init {
      assert x in init;
      SelectMaximal(init, maxInsights, x);
      if r != s {
        TopicCountSnoc(s, last, x.topic);
      }
    }
  }

  /** The number of insights selected never drops as more are visited. */
  lemma {:induction false} SelectStays(xs: seq<Insight>, maxInsights: int, i: nat, j: nat)
    requires i <= j <= |xs| && |Select(xs[..i], maxInsights)| >= maxInsights
    ensures Select(xs[..j], maxInsights) == Select(xs[..i], maxInsights)
    decreases j
  {
    if j > i {
      SelectStays(xs, maxInsights, i, j - 1);
      assert xs[..j][..j - 1] == xs[..j - 1];
    }
  }

  /** `per_topic_counts.get(t, 0)` */
  function CountIn(counts: map<string, nat>, t: string): nat {
    if t in counts then counts[t] else 0
  }

  /** The selection loop of `generate_insights`, with its `break` and `continue`. */
  method SelectInsights(deduped: seq<Insight>, maxInsights: int) returns (selected: seq<Insight>)
    ensures selected == Select(deduped, maxInsights)
  {
    selected := [];
    var counts: map<string, nat> := map[];
    for i := 0 to |deduped|
      invariant selected == Select(deduped[..i], maxInsights)
      invariant forall t :: CountIn(counts, t) == TopicCount(selected, t)
    {
      if |selected| >= maxInsights {
        SelectStays(deduped, maxInsights, i, |deduped|);
        assert deduped[..|deduped|] == deduped;
        break;
      }
      var ins := deduped[i];
      assert deduped[..i + 1][..i] == deduped[..i];
      if CountIn(counts, ins.topic) >= PerTopicCap {
        continue;
      }
      forall t ensures TopicCount(selected + [ins], t) == TopicCount(selected, t) + (if ins.topic == t then 1 else 0) {
        TopicCountSnoc(selected, ins, t);
      }
      selected := selected + [ins];
      counts := counts[ins.topic := CountIn(counts, ins.topic) + 1];
    }
    assert deduped[..|deduped|] == deduped;
  }

  /* ---------------- Final topics ---------------- */

  /** The topic of each insight, in order. */
  function TopicsOf(s: seq<Insight>): (r: seq<string>)
    ensures |r| == |s|
  {
    seq(|s|, i requires 0 <= i < |s| => s[i].topic)
  }

  /** `final_topics`: the distinct topics of the selection in first-seen order, at most `max(1, max_topics)`. */
  function FinalTopics(selected: seq<Insight>, maxTopics: int): seq<string> {
    Take(Unique(TopicsOf(selected)), if maxTopics < 1 then 1 else maxTopics)
  }

  lemma UniqueSnoc<T(!new)>(s: seq<T>, x: T)
    ensures Unique(s + [x]) == if x in Unique(s) then Unique(s) else Unique(s) + [x]
  {
    assert (s + [x])[..|s|] == s;
  }

  /** Listing the topics of one more selected insight adds its topic when it is new. */
  lemma TopicsPrefixSnoc(selected: seq<Insight>, i: nat)
    requires i < |selected|
    ensures var u := Unique(TopicsOf(selected)[..i]); var t := selected[i].topic;
      Unique(TopicsOf(selected)[..i + 1]) == if t in u then u else u + [t]
  {
    var all := TopicsOf(selected);
    assert all[..i + 1] == all[..i] + [selected[i].topic];
    UniqueSnoc(all[..i], selected[i].topic);
  }

  /** Once `max(1, max_topics)` topics are listed, the rest of the selection adds none. */
  lemma FinalTopicsStop(selected: seq<Insight>, maxTopics: int, i: nat)
    requires i <= |selected|
    requires |Unique(TopicsOf(selected)[..i])| >= maxTopics || i == |selected|
    requires |Unique(TopicsOf(selected)[..i])| <= (if maxTopics < 1 then 1 else maxTopics)
    requires i > 0 || selected == []
    ensures Unique(TopicsOf(selected)[..i]) == FinalTopics(selected, maxTopics)
  {
    var all := TopicsOf(selected);
    var cap := if maxTopics < 1 then 1 else maxTopics;
    UniquePrefix(all[..i], all[i..]);
    assert all[..i] + all[i..] == all;
    var ui := Unique(all[..i]);
    var u := Unique(all);
    if i > 0 {
      assert all[..i][0] in ui;
    }
    if |ui| == cap {
      assert Take(u, cap) == u[..cap];
    } else {
      assert i == |selected| && all[..i] == all;
    }
  }

  /** The final-topics loop: appends each new topic and stops once `max_topics` are listed. */
  method FinalTopicsLoop(selected: seq<Insight>, maxTopics: int) returns (final: seq<string>)
    ensures final == FinalTopics(selected, maxTopics)
  {
    final := [];
    ghost var all := TopicsOf(selected);
    for i := 0 to |selected|
      invariant final == Unique(all[..i])
      invariant |final| < (if maxTopics < 1 then 1 else maxTopics)
    {
      var t := selected[i].topic;
      TopicsPrefixSnoc(selected, i);
      if t !in final {
        final := final + [t];
      }
      if |final| >= maxTopics {
        FinalTopicsStop(selected, maxTopics, i + 1);
        break;
      }
    }
    if |final| < maxTopics {
      FinalTopicsStop(selected, maxTopics, |selected|);
    }
  }

  /**
   * The final topics are distinct topics of the selected insights, at most
   * `max(1, max_topics)` of them, none when nothing was selected and at least
   * one otherwise; when there is room, every selected topic is listed.
   */
  lemma FinalTopicsSpec(selected: seq<Insight>, maxTopics: int)
    ensures var r := FinalTopics(selected, maxTopics);
      && Distinct(r)
      && (forall t :: t in r ==> exists i :: 0 <= i < |selected| && selected[i].topic == t)
      && |r| <= (if maxTopics < 1 then 1 else maxTopics)
      && (selected == [] <==> r == [])
      && (|Unique(TopicsOf(selected))| <= maxTopics ==> forall i :: 0 <= i < |selected| ==> selected[i].topic in r)
  {
    var all := TopicsOf(selected);
    var u := Unique(all);
    var r := FinalTopics(selected, maxTopics);
    forall t | t in r ensures exists i :: 0 <= i < |selected| && selected[i].topic == t {
      assert t in all;
    }
    forall i, j | 0 <= i < j < |r| ensures r[i] != r[j] {
      assert r[i] == u[i] && r[j] == u[j];
    }
    if selected != [] {
      assert all[0] in u;
    }
    if |u| <= maxTopics {
      forall i | 0 <= i < |selected| ensures selected[i].topic in r {
        assert all[i] in u;
      }
    }
  }

  /** A topic comes before another in the final list iff it first appears earlier among the selected insights. */
  lemma FinalTopicsOrder(selected: seq<Insight>, maxTopics: int, i: nat, j: nat)
    requires i < j < |FinalTopics(selected, maxTopics)|
    ensures var r := FinalTopics(selected, maxTopics);
      exists p, q :: 0 <= p < q < |selected| && selected[p].topic == r[i] && selected[q].topic == r[j]
                     && forall m :: 0 <= m < q ==> selected[m].topic != r[j]
  {
    var all := TopicsOf(selected);
    var u := Unique(all);
    var r := FinalTopics(selected, maxTopics);
    assert r[i] == u[i] && r[j] == u[j];
    UniqueOrder(all, i, j);
    var p, q :| 0 <= p < q < |all| && all[p] == u[i] && all[q] == u[j] && (forall m :: 0 <= m < q ==> all[m] != u[j]);
    assert selected[p].topic == r[i] && selected[q].topic == r[j];
    forall m | 0 <= m < q ensures selected[m].topic != r[j] {
      assert all[m] == selected[m].topic;
    }
  }

  /* ---------------- generate_insights ---------------- */

  /** Deleting elements keeps keys distinct. */
  lemma {:induction false} SubseqKeysDistinct<T, K>(a: seq<T>, b: seq<T>, key: T -> K)
    requires IsSubseq(a, b) && KeysDistinct(b, key)
    ensures KeysDistinct(a, key)
    decreases |b|
  {
    if a != [] {
      assert KeysDistinct(b[1..], key);
      if a[0] == b[0] && IsSubseq(a[1..], b[1..]) {
        SubseqKeysDistinct(a[1..], b[1..], key);
        SubseqMembers(a[1..], b[1..]);
        forall j | 0 < j < |a| ensures key(a[0]) != key(a[j]) {
          assert a[j] == a[1..][j - 1];
          assert a[j] in b[1..];
        }
      } else {
        SubseqKeysDistinct(a, b[1..], key);
      }
    }
  }

  /** The context the candidate loop runs in, built from the extractions and the caller's arguments. */
  function InsightContext(
    exs: seq<AssetExtraction>, maxTopics: int, agendaNotes: Option<string>, assetThumbs: map<string, string>,
    numberIn: string -> Option<real>, newId: nat -> string): (ctx: Context)
    ensures ctx.topics != []
  {
    Context(Topics(exs, maxTopics), MetricFreq(IndexOf(MetricRecords(exs))), agendaNotes, assetThumbs, numberIn, newId)
  }

  /** Every candidate is well formed. */
  lemma CandidatesWellFormed(ctx: Context, exs: seq<AssetExtraction>, c: Insight)
    requires ctx.topics != [] && c in Candidates(ctx, exs)
    ensures WellFormedCandidate(c, ctx.topics)
  {
    var i :| 0 <= i < |Candidates(ctx, exs)| && Candidates(ctx, exs)[i] == c;
    CandidatesShape(ctx, exs, i);
  }

  /**
   * The selected insights: well-formed candidates on the topic list, in
   * descending order of importance, no two near-identical, at most
   * `max_insights` and at most five per topic.
   */
  lemma SelectedSpec(ctx: Context, exs: seq<AssetExtraction>, maxInsights: int)
    requires ctx.topics != []
    ensures var sel := Select(Deduplicated(Candidates(ctx, exs)), maxInsights);
      && (forall x :: x in sel ==> x in Candidates(ctx, exs) && WellFormedCandidate(x, ctx.topics))
      && SortedDesc(sel, ByImportance)
      && KeysDistinct(sel, KeyOf)
      && (maxInsights >= 0 ==> |sel| <= maxInsights)
      && (forall t :: TopicCount(sel, t) <= PerTopicCap)
  {
    var cands := Candidates(ctx, exs);
    var deduped := Deduplicated(cands);
    var sel := Select(deduped, maxInsights);
    DeduplicatedSpec(cands);
    SelectSpec(deduped, maxInsights);
    SubseqMembers(sel, deduped);
    SubseqSortedDesc(sel, deduped, ByImportance);
    SubseqKeysDistinct(sel, deduped, KeyOf);
    forall x | x in sel ensures x in cands && WellFormedCandidate(x, ctx.topics) {
      CandidatesWellFormed(ctx, exs, x);
    }
  }

  /** Every final topic is the topic of some selected insight, hence on any list holding all of theirs. */
  lemma FinalTopicsWithin(selected: seq<Insight>, maxTopics: int, topics: seq<string>)
    requires forall x :: x in selected ==> x.topic in topics
    ensures forall t :: t in FinalTopics(selected, maxTopics) ==> t in topics
  {
    FinalTopicsSpec(selected, maxTopics);
  }

  /**
   * `generate_insights`: the final topics, the selected insights and
   * `all_metrics`. The identifiers `uuid4().hex` would draw come from
   * `newId`, and the number search of `_parse_pct` from `numberIn`.
   */
  method GenerateInsights(
    exs: seq<AssetExtraction>, maxTopics: int, maxInsights: int, agendaNotes: Option<string>,
    assetThumbs: map<string, string>, numberIn: string -> Option<real>, newId: nat -> string)
    returns (finalTopics: seq<string>, selected: seq<Insight>, allMetrics: seq<MetricSummary>)
    ensures var ctx := InsightContext(exs, maxTopics, agendaNotes, assetThumbs, numberIn, newId);
      && selected == Select(Deduplicated(Candidates(ctx, exs)), maxInsights)
      && finalTopics == FinalTopics(selected, maxTopics)
      && (forall t :: t in finalTopics ==> t in ctx.topics)
    ensures var idx := IndexOf(MetricRecords(exs));
      allMetrics == AllMetrics(idx, SortedUnique(idx.order))
  {
    var topics := Topics(exs, maxTopics);
    var idx := IndexMetrics(exs);
    var ctx := Context(topics, MetricFreq(idx), agendaNotes, assetThumbs, numberIn, newId);
    var cands := BuildCandidates(ctx, exs);
    var deduped := Dedupe(cands);
    selected := SelectInsights(deduped, maxInsights);
    finalTopics := FinalTopicsLoop(selected, maxTopics);
    SelectedSpec(ctx, exs, maxInsights);
    FinalTopicsWithin(selected, maxTopics, topics);
    allMetrics := AllMetrics(idx, SortedUnique(idx.order));
  }

  /* ---------------- build_input_summary ---------------- */

  datatype InputSummary = InputSummary(assetsTotal: nat, images: nat, pdfPages: nat, topicsFound: seq<string>)

  /** At most this many tags are reported in `topics_found`. */
  const TopicsFoundLimit: int := 12

  /** The number of extractions whose source is a PDF page. */
  function CountPdf(exs: seq<AssetExtraction>): (n: nat)
    ensures n <= |exs|
  {
    if exs == [] then 0
    else CountPdf(exs[..|exs| - 1]) + (if exs[|exs| - 1].sourceType == PdfPage then 1 else 0)
  }

  /** `tags.update(more)` on a counter that tallies `before`. */
  method TallyMore(tally: seq<Entry<string>>, ghost before: seq<string>, more: seq<string>) returns (r: seq<Entry<string>>)
    requires tally == Tally(before)
    ensures r == Tally(before + more)
  {
    r := tally;
    assert before + more[..0] == before;
    for t := 0 to |more|
      invariant r == Tally(before + more[..t])
    {
      assert before + more[..t + 1] == (before + more[..t]) + [more[t]];
      TallySnoc(before + more[..t], more[t]);
      r := Bump(r, more[t]);
    }
    assert more[..|more|] == more;
  }

  /**
   * `build_input_summary`: every extraction counted once, as a PDF page or
   * else as an image, and the most frequent tags.
   */
  method BuildInputSummary(exs: seq<AssetExtraction>) returns (r: InputSummary)
    ensures r.assetsTotal == |exs|
    ensures r.pdfPages == CountPdf(exs) && r.images + r.pdfPages == r.assetsTotal
    ensures r.topicsFound == KeysOf(MostCommon(Tally(AllTags(exs)), TopicsFoundLimit))
  {
    var total, images, pdfPages := 0, 0, 0;
    var tags: seq<Entry<string>> := [];
    for k := 0 to |exs|
      invariant total == k && pdfPages == CountPdf(exs[..k]) && images + pdfPages == total
      invariant tags == Tally(AllTags(exs[..k]))
    {
      var ex := exs[k];
      assert exs[..k + 1][..k] == exs[..k];
      total := total + 1;
      if ex.sourceType == PdfPage {
        pdfPages := pdfPages + 1;
      } else {
        images := images + 1;
      }
      assert AllTags(exs[..k + 1]) == AllTags(exs[..k]) + ex.tags;
      tags := TallyMore(tags, AllTags(exs[..k]), ex.tags);
    }
    assert exs[..|exs|] == exs;
    r := InputSummary(total, images, pdfPages, KeysOf(MostCommon(tags, TopicsFoundLimit)));
  }

  /**
   * `topics_found` lists at most twelve distinct tags, none exactly when
   * there are no tags, and otherwise the same list as the topics for
   * `max_topics = 12`.
   */
  lemma TopicsFoundSpec(exs: seq<AssetExtraction>)
    ensures var f := KeysOf(MostCommon(Tally(AllTags(exs)), TopicsFoundLimit));
      && |f| <= TopicsFoundLimit
      && Distinct(f)
      && (forall t :: t in f ==> t in AllTags(exs))
      && (f == [] <==> AllTags(exs) == [])
      && (AllTags(exs) != [] ==> f == Topics(exs, TopicsFoundLimit))
  {
    var tags := AllTags(exs);
    TopicsFallback(exs, TopicsFoundLimit);
    MostCommonSize(Tally(tags), TopicsFoundLimit);
    if tags != [] {
      TopicsAreTags(exs, TopicsFoundLimit);
    } else {
      assert Tally(tags) == [];
    }
  }
}
