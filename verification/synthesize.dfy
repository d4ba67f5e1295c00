/**
 * Insight synthesis of the deck agent: metric-name canonicalisation, the
 * agenda bonus, topic selection from tag frequency, the importance heuristic,
 * candidate generation, de-duplication, capped selection, the final topic
 * list and the input summary.
 */
module Synthesize {
  import opened Wrappers
  import opened Text
  import opened Ordering
  import opened Counter
  import opened Schemas

  /* ---------------- canonical_metric_name ---------------- */

  /** A character of the class `[a-z0-9]`. */
  predicate IsWordChar(c: char) {
    IsLowerAlpha(c) || IsDigit(c)
  }

  /** Drops the leading characters outside `[a-z0-9]`. */
  function DropNonWord(s: string): (r: string)
    ensures |r| <= |s| && r == s[|s| - |r|..]
    ensures r == [] || IsWordChar(r[0])
  {
    if s != [] && !IsWordChar(s[0]) then
      var t := s[1..];
      var r := DropNonWord(t);
      assert t[|t| - |r|..] == s[|s| - |r|..];
      r
    else s
  }

  /** Only `[a-z0-9]` and single spaces between them. */
  predicate SingleSpaced(s: string) {
    && (forall i :: 0 <= i < |s| ==> IsWordChar(s[i]) || s[i] == ' ')
    && (forall i :: 0 <= i < |s| - 1 && s[i] == ' ' ==> s[i + 1] != ' ')
  }

  /** Prepending a word character, or a space before something that is not a space, keeps a string single-spaced. */
  lemma SingleSpacedCons(c: char, t: string)
    requires SingleSpaced(t)
    requires IsWordChar(c) || (c == ' ' && (t == [] || t[0] != ' '))
    ensures SingleSpaced([c] + t)
  {
    var r := [c] + t;
    forall i | 0 < i < |r| ensures r[i] == t[i - 1] { }
  }

  /** `re.sub(r"[^a-z0-9]+", " ", s)`: every maximal run outside `[a-z0-9]` becomes one space. */
  function SubNonWordRuns(s: string): (r: string)
    ensures (s == [] || IsWordChar(s[0])) ==> (r == [] || IsWordChar(r[0]))
    decreases |s|
  {
    if s == [] then []
    else if IsWordChar(s[0]) then [s[0]] + SubNonWordRuns(s[1..])
    else [' '] + SubNonWordRuns(DropNonWord(s[1..]))
  }

  /** The substitution leaves only word characters and single spaces. */
  lemma {:induction false} SubNonWordRunsSingleSpaced(s: string)
    ensures SingleSpaced(SubNonWordRuns(s))
    decreases |s|
  {
    if s != [] {
      if IsWordChar(s[0]) {
        SubNonWordRunsSingleSpaced(s[1..]);
        SingleSpacedCons(s[0], SubNonWordRuns(s[1..]));
      } else {
        var d := DropNonWord(s[1..]);
        SubNonWordRunsSingleSpaced(d);
        SingleSpacedCons(' ', SubNonWordRuns(d));
      }
    }
  }

  function DropLetterS(s: string): (r: string)
    ensures |r| <= |s|
  {
    if s != [] && s[0] == 's' then DropLetterS(s[1..]) else s
  }

  /**
   * `re.sub(r"\\s+", " ", s)` exactly as written: in a raw string the pattern
   * `\\s+` is a literal backslash followed by one or more letters `s`.
   */
  function SubBackslashS(s: string): string
    decreases |s|
  {
    if |s| >= 2 && s[0] == '\\' && s[1] == 's' then " " + SubBackslashS(DropLetterS(s[2..]))
    else if s == [] then []
    else [s[0]] + SubBackslashS(s[1..])
  }

  /** Without a backslash the second substitution changes nothing. */
  lemma {:induction false} SubBackslashSNoBackslash(s: string)
    requires forall i :: 0 <= i < |s| ==> s[i] != '\\'
    ensures SubBackslashS(s) == s
  {
    if s != [] {
      SubBackslashSNoBackslash(s[1..]);
    }
  }

  /**
   * `canonical_metric_name(name)`: "unknown_metric", or lowercase `[a-z0-9]`
   * words joined by single spaces.
   */
  function CanonicalMetricName(name: string): (r: string)
    ensures r == "unknown_metric" || CanonicalShape(r)
  {
    var s := SubNonWordRuns(Lower(Strip(name)));
    SubNonWordRunsSingleSpaced(Lower(Strip(name)));
    SingleSpacedChars(s);
    SubBackslashSNoBackslash(s);
    StripSingleSpaced(s);
    var t := Strip(SubBackslashS(s));
    if t == [] then "unknown_metric" else t
  }

  /** Non-empty lowercase `[a-z0-9]` words separated by single spaces, no space at either end. */
  predicate CanonicalShape(r: string) {
    r != [] && SingleSpaced(r) && r[0] != ' ' && r[|r| - 1] != ' '
  }

  /** Any slice of a single-spaced string is single-spaced. */
  lemma SingleSpacedSlice(s: string, lo: nat, hi: nat)
    requires SingleSpaced(s) && lo <= hi <= |s|
    ensures SingleSpaced(s[lo..hi])
  {
    var t := s[lo..hi];
    forall i | 0 <= i < |t| - 1 && t[i] == ' ' ensures t[i + 1] != ' ' {
      assert t[i] == s[lo + i] && t[i + 1] == s[lo + i + 1];
    }
  }

  /** Stripping a single-spaced string keeps it single-spaced and removes the end spaces. */
  lemma StripSingleSpaced(s: string)
    requires SingleSpaced(s)
    ensures Strip(s) == [] || CanonicalShape(Strip(s))
  {
    var l := StripLeft(s);
    var r := StripRight(l);
    assert SingleSpaced(l) by {
      SingleSpacedSlice(s, |s| - |l|, |s|);
    }
    assert SingleSpaced(r) by {
      SingleSpacedSlice(l, 0, |r|);
    }
    assert r == Strip(s);
    if r != [] {
      assert !IsSpace(r[0]) && !IsSpace(r[|r| - 1]) && IsSpace(' ');
    }
  }

  /** A single-spaced string starting with a word character is left alone by the first substitution. */
  lemma {:induction false} SubNonWordRunsFixed(s: string)
    requires SingleSpaced(s) && (s == [] || IsWordChar(s[0]))
    ensures SubNonWordRuns(s) == s
    decreases |s|, 0
  {
    if s != [] {
      SingleSpacedSlice(s, 1, |s|);
      SubNonWordRunsFixedTail(s[1..]);
      assert s == [s[0]] + s[1..];
    }
  }

  /** The same for any single-spaced string. */
  lemma {:induction false} SubNonWordRunsFixedTail(t: string)
    requires SingleSpaced(t)
    ensures SubNonWordRuns(t) == t
    decreases |t|, 2
  {
    if t != [] && t[0] == ' ' {
      SubNonWordRunsFixedSpace(t);
    } else if t != [] {
      SubNonWordRunsFixed(t);
    }
  }

  /** A leading single space stays one space. */
  lemma {:induction false} SubNonWordRunsFixedSpace(t: string)
    requires SingleSpaced(t) && t != [] && t[0] == ' '
    ensures SubNonWordRuns(t) == t
    decreases |t|, 1
  {
    var u := t[1..];
    assert u == [] || IsWordChar(u[0]) by {
      if u != [] {
        assert u[0] == t[1];
      }
    }
    assert DropNonWord(u) == u by {
      DropNonWordFixed(u);
    }
    assert SubNonWordRuns(u) == u by {
      SingleSpacedSlice(t, 1, |t|);
      SubNonWordRunsFixed(u);
    }
    assert t == [' '] + u;
  }

  lemma DropNonWordFixed(u: string)
    requires u == [] || IsWordChar(u[0])
    ensures DropNonWord(u) == u
  {
  }

  /** The characters of a single-spaced string: neither capitals nor backslashes. */
  lemma SingleSpacedChars(s: string)
    requires SingleSpaced(s)
    ensures forall i :: 0 <= i < |s| ==> !IsUpperAlpha(s[i]) && s[i] != '\\'
  {
  }

  /** A name already in canonical shape is its own canonical name. */
  lemma CanonicalOfShaped(r: string)
    requires CanonicalShape(r)
    ensures CanonicalMetricName(r) == r
  {
    assert Trimmed(r);
    assert Strip(r) == r;
    SingleSpacedChars(r);
    LowerNoUpper(r);
    SubNonWordRunsFixed(r);
    SubBackslashSNoBackslash(r);
  }

  /** Canonical names are fixed points: canonicalising again changes nothing. */
  lemma CanonicalMetricNameIdempotent(name: string)
    requires CanonicalMetricName(name) != "unknown_metric"
    ensures CanonicalMetricName(CanonicalMetricName(name)) == CanonicalMetricName(name)
  {
    CanonicalOfShaped(CanonicalMetricName(name));
  }

  /* ---------------- _agenda_bonus ---------------- */

  /** `_agenda_bonus(topic, agenda_notes)`: 10 when the topic occurs in the notes, case-insensitively. */
  function AgendaBonus(topic: string, agendaNotes: Option<string>): (r: int)
    ensures r == 0 || r == 10
    ensures agendaNotes.None? || agendaNotes.value == [] ==> r == 0
  {
    if agendaNotes.None? || agendaNotes.value == [] then 0
    else if Contains(Lower(agendaNotes.value), Lower(topic)) then 10
    else 0
  }

  lemma {:induction false} LowerIdempotent(s: string)
    ensures Lower(Lower(s)) == Lower(s)
  {
    assert forall i :: 0 <= i < |s| ==> LowerChar(LowerChar(s[i])) == LowerChar(s[i]);
  }

  /** The bonus ignores case on both sides: a topic and its lowercase form score alike. */
  lemma AgendaBonusCaseInsensitive(topic: string, notes: string)
    ensures AgendaBonus(topic, Some(notes)) == AgendaBonus(Lower(topic), Some(notes))
    ensures AgendaBonus(topic, Some(notes)) == AgendaBonus(topic, Some(Lower(notes)))
  {
    LowerIdempotent(topic);
    LowerIdempotent(notes);
  }

  /** Any topic written inside non-empty notes earns the bonus, and so does the empty topic. */
  lemma AgendaBonusMatches(topic: string, notes: string, k: nat)
    requires notes != [] && k + |topic| <= |notes|
    requires Lower(notes)[k..k + |topic|] == Lower(topic)
    ensures AgendaBonus(topic, Some(notes)) == 10
    ensures AgendaBonus("", Some(notes)) == 10
  {
    ContainsAt(Lower(notes), Lower(topic), k);
    assert StartsWith(Lower(notes), Lower(""));
  }

  /** Notes that lack a character of the lowercased topic give no bonus. */
  lemma AgendaBonusMisses(topic: string, notes: string, c: char)
    requires c in Lower(topic) && c !in Lower(notes)
    ensures AgendaBonus(topic, Some(notes)) == 0
  {
    NotContainsChar(Lower(notes), Lower(topic), c);
  }

  /** The bonus is 10 exactly when the notes are non-empty and the lowercased topic occurs in the lowercased notes. */
  lemma {:induction false} AgendaBonusExactly(topic: string, notes: string)
    ensures AgendaBonus(topic, Some(notes)) == 10 ==> notes != [] && exists k: nat :: OccursAt(Lower(notes), Lower(topic), k)
    ensures (notes != [] && exists k: nat :: OccursAt(Lower(notes), Lower(topic), k)) ==> AgendaBonus(topic, Some(notes)) == 10
  {
    var l, t := Lower(notes), Lower(topic);
    if Contains(l, t) {
      ContainsWitness(l, t);
    }
    forall k: nat | OccursAt(l, t, k)
      ensures Contains(l, t)
    {
      ContainsAt(l, t, k);
    }
  }

  /* ---------------- Topics from tag frequency ---------------- */

  /** Every tag of every extraction, in order. */
  function AllTags(exs: seq<AssetExtraction>): seq<string> {
    if exs == [] then [] else AllTags(exs[..|exs| - 1]) + exs[|exs| - 1].tags
  }

  /** `[t for (t, _c) in Counter(tags).most_common(max_topics)]`, or `["misc"]` when that is empty. */
  function Topics(exs: seq<AssetExtraction>, maxTopics: int): (r: seq<string>)
    ensures r != []
  {
    var top := KeysOf(MostCommon(Tally(AllTags(exs)), maxTopics));
    if top == [] then ["misc"] else top
  }

  /** `Counter(ks)` lists its keys in order of first appearance. */
  lemma {:induction false} TallyKeysUnique<K(!new)>(ks: seq<K>)
    ensures KeysOf(Tally(ks)) == Unique(ks)
  {
    if ks != [] {
      var init := ks[..|ks| - 1];
      TallyKeysUnique(init);
      TallyKeys(init);
      BumpKeys(Tally(init), ks[|ks| - 1]);
    }
  }

  /** The fallback `["misc"]` is taken exactly when there are no tags or no topic is asked for. */
  lemma TopicsFallback(exs: seq<AssetExtraction>, maxTopics: int)
    ensures Topics(exs, maxTopics) == ["misc"] <== AllTags(exs) == [] || maxTopics <= 0
    ensures AllTags(exs) != [] && maxTopics > 0 ==>
              Topics(exs, maxTopics) == KeysOf(MostCommon(Tally(AllTags(exs)), maxTopics))
              && |Topics(exs, maxTopics)| > 0
  {
    var tags := AllTags(exs);
    TallyKeys(tags);
    MostCommonSize(Tally(tags), maxTopics);
    if tags != [] && maxTopics > 0 {
      assert tags[0] in KeysOf(Tally(tags));
    } else if tags == [] {
      assert Tally(tags) == [];
    }
  }

  /** The topics are tags, each once, at most `max_topics` of them. */
  lemma TopicsAreTags(exs: seq<AssetExtraction>, maxTopics: int)
    requires AllTags(exs) != [] && maxTopics > 0
    ensures var r := Topics(exs, maxTopics);
      && |r| <= maxTopics
      && Distinct(r)
      && (forall t :: t in r ==> t in AllTags(exs))
  {
    TopicsFallback(exs, maxTopics);
    MostCommonKeys(AllTags(exs), maxTopics);
  }

  /** No tag left out of the topics occurs more often than a tag kept. */
  lemma TopicsMostFrequent(exs: seq<AssetExtraction>, maxTopics: int, u: string, t: string)
    requires AllTags(exs) != [] && maxTopics > 0
    requires u in AllTags(exs) && u !in Topics(exs, maxTopics) && t in Topics(exs, maxTopics)
    ensures multiset(AllTags(exs))[u] <= multiset(AllTags(exs))[t]
  {
    var tags := AllTags(exs);
    var es := Tally(tags);
    var mc := MostCommon(es, maxTopics);
    var r := Topics(exs, maxTopics);
    TopicsFallback(exs, maxTopics);
    TallyKeys(tags);
    assert r == KeysOf(mc);
    assert u in KeysOf(es);
    var a :| 0 <= a < |es| && KeysOf(es)[a] == u;
    var b :| 0 <= b < |r| && r[b] == t;
    assert es[a] !in mc by {
      assert forall c :: 0 <= c < |mc| ==> mc[c].key == r[c];
    }
    MostCommonTop(es, maxTopics, es[a], mc[b]);
    MostCommonSorted(es, maxTopics);
    assert mc[b] in es;
    var d :| 0 <= d < |es| && es[d] == mc[b];
    CountOfAt(es, a);
    CountOfAt(es, d);
    TallyCount(tags, u);
    TallyCount(tags, t);
  }

  /** The keys of `ks` whose number of occurrences in `tags` is `c`, in order. */
  function WithCount(ks: seq<string>, tags: seq<string>, c: nat): seq<string> {
    if ks == [] then []
    else (if multiset(tags)[ks[0]] == c then [ks[0]] else []) + WithCount(ks[1..], tags, c)
  }

  predicate CountsMatch(es: seq<Entry<string>>, tags: seq<string>) {
    forall i :: 0 <= i < |es| ==> es[i].count == multiset(tags)[es[i].key]
  }

  lemma {:induction false} KeysOfWithKey(es: seq<Entry<string>>, tags: seq<string>, c: nat)
    requires CountsMatch(es, tags)
    ensures KeysOf(WithKey(es, ByCount, (c as real, 0.0))) == WithCount(KeysOf(es), tags, c)
  {
    if es != [] {
      KeysOfWithKey(es[1..], tags, c);
      assert KeysOf(es)[1..] == KeysOf(es[1..]);
      var w := WithKey(es[1..], ByCount, (c as real, 0.0));
      var h: seq<Entry<string>> := if ByCount(es[0]) == (c as real, 0.0) then [es[0]] else [];
      assert KeysOf(h + w) == KeysOf(h) + KeysOf(w);
    }
  }

  lemma KeysOfPrefix<K>(es: seq<Entry<K>>, n: nat)
    requires n <= |es|
    ensures KeysOf(es[..n]) == KeysOf(es)[..n]
  {
  }

  /**
   * Ties keep first-seen order: the topics that occur `c` times are the first
   * few of the tags occurring `c` times, in order of first appearance.
   */
  lemma TopicsTieOrder(exs: seq<AssetExtraction>, maxTopics: int, c: nat)
    requires AllTags(exs) != [] && maxTopics > 0
    ensures var w := WithCount(Topics(exs, maxTopics), AllTags(exs), c);
      var u := WithCount(Unique(AllTags(exs)), AllTags(exs), c);
      |w| <= |u| && w == u[..|w|]
  {
    var tags := AllTags(exs);
    var es := Tally(tags);
    var mc := MostCommon(es, maxTopics);
    var k := (c as real, 0.0);
    TopicsFallback(exs, maxTopics);
    TallyKeys(tags);
    TallyKeysUnique(tags);
    forall i | 0 <= i < |es| ensures es[i].count == multiset(tags)[es[i].key] {
      CountOfAt(es, i);
      TallyCount(tags, es[i].key);
    }
    MostCommonSorted(es, maxTopics);
    forall i | 0 <= i < |mc| ensures mc[i].count == multiset(tags)[mc[i].key] {
      assert mc[i] in es;
    }
    KeysOfWithKey(es, tags, c);
    KeysOfWithKey(mc, tags, c);
    MostCommonStable(es, maxTopics, k);
    var wm := WithKey(mc, ByCount, k);
    var we := WithKey(es, ByCount, k);
    assert wm == we[..|wm|];
    KeysOfPrefix(we, |wm|);
  }

  /* ---------------- Importance heuristic ---------------- */

  /** `_parse_pct(s)`: `None` without text or without `%`; otherwise the first number in the text without commas. */
  function ParsePct(s: Option<string>, numberIn: string -> Option<real>): (r: Option<real>)
    ensures s.None? || s.value == [] || '%' !in s.value ==> r.None?
  {
    if s.None? || s.value == [] then None
    else if '%' !in s.value then None
    else numberIn(DeleteChar(s.value, ','))
  }

  function AbsReal(x: real): real {
    if x < 0.0 then -x else x
  }

  /** Points for the size of the percentage change: 30, 20 or 10, none without a percentage. */
  function PctPoints(pct: Option<real>): int {
    if pct.None? then 0
    else if AbsReal(pct.value) >= 10.0 then 30
    else if AbsReal(pct.value) >= 5.0 then 20
    else 10
  }

  /** `min(20, 5 * max(0, freq - 1))` */
  function FrequencyPoints(freq: int): (r: int)
    ensures 0 <= r <= 20
  {
    var f := if freq - 1 > 0 then freq - 1 else 0;
    if 5 * f < 20 then 5 * f else 20
  }

  function ConfidencePoints(confidence: real): int {
    if confidence >= 0.75 then 10 else if confidence <= 0.35 then -10 else 0
  }

  /** The additive score before clamping. */
  function RawScore(pct: Option<real>, hasDeltaAbs: bool, freq: int, agenda: int, confidence: real): int {
    10 + PctPoints(pct) + (if hasDeltaAbs then 10 else 0) + FrequencyPoints(freq) + agenda + ConfidencePoints(confidence)
  }

  /** `max(0, min(100, score))` */
  function Clamp(x: int): (r: int)
    ensures ValidImportance(r)
    ensures ValidImportance(x) ==> r == x
  {
    if x > 100 then 100 else if x < 0 then 0 else x
  }

  /** The importance of a metric insight: always a valid `importance_score`. */
  function MetricScore(pct: Option<real>, hasDeltaAbs: bool, freq: int, agenda: int, confidence: real): (r: int)
    ensures ValidImportance(r)
  {
    Clamp(RawScore(pct, hasDeltaAbs, freq, agenda, confidence))
  }

  /**
   * The sum never leaves [0, 90], so the clamp to [0, 100] never changes it:
   * the lowest sum is 10 - 10 and the highest 10 + 30 + 10 + 20 + 10 + 10.
   */
  lemma MetricScoreRange(pct: Option<real>, hasDeltaAbs: bool, freq: int, agenda: int, confidence: real)
    requires agenda == 0 || agenda == 10
    ensures 0 <= RawScore(pct, hasDeltaAbs, freq, agenda, confidence) <= 90
    ensures MetricScore(pct, hasDeltaAbs, freq, agenda, confidence) == RawScore(pct, hasDeltaAbs, freq, agenda, confidence)
    ensures ValidImportance(MetricScore(pct, hasDeltaAbs, freq, agenda, confidence))
  {
  }

  /** A larger percentage change never scores less, all else equal. */
  lemma MetricScoreMonotonePct(p: real, q: real, hasDeltaAbs: bool, freq: int, agenda: int, confidence: real)
    requires agenda == 0 || agenda == 10
    requires AbsReal(p) <= AbsReal(q)
    ensures MetricScore(Some(p), hasDeltaAbs, freq, agenda, confidence)
         <= MetricScore(Some(q), hasDeltaAbs, freq, agenda, confidence)
    ensures MetricScore(None, hasDeltaAbs, freq, agenda, confidence)
         < MetricScore(Some(p), hasDeltaAbs, freq, agenda, confidence)
  {
  }

  /* ---------------- Metric index ---------------- */

  /** One entry of `metric_instances[canon]`: where the metric was seen and what it said. */
  datatype MetricInstance = MetricInstance(
    assetId: string,
    filename: string,
    page: Option<int>,
    value: string,
    unit: string,
    directionality: Directionality,
    comparisons: seq<Comparison>)

  datatype MetricRecord = MetricRecord(canon: string, display: string, instance: MetricInstance)

  function RecordOf(ex: AssetExtraction, m: Metric): MetricRecord {
    var canon := CanonicalMetricName(m.name);
    MetricRecord(
      canon,
      if Strip(m.name) != [] then Strip(m.name) else canon,
      MetricInstance(ex.assetId, ex.sourceRef.filename, ex.sourceRef.page, m.value, m.unit, m.directionality, m.comparisons))
  }

  /** One record per metric of `ms`. */
  function RecordsOfMetrics(ex: AssetExtraction, ms: seq<Metric>): (r: seq<MetricRecord>)
    ensures |r| == |ms|
  {
    if ms == [] then [] else RecordsOfMetrics(ex, ms[..|ms| - 1]) + [RecordOf(ex, ms[|ms| - 1])]
  }

  /** Every metric of every extraction, in the order the index loop visits them. */
  function MetricRecords(exs: seq<AssetExtraction>): seq<MetricRecord> {
    if exs == [] then [] else MetricRecords(exs[..|exs| - 1]) + RecordsOfMetrics(exs[|exs| - 1], exs[|exs| - 1].metrics)
  }

  /** The instances recorded under `canon`, in order. */
  function InstancesOf(rs: seq<MetricRecord>, canon: string): (r: seq<MetricInstance>)
    ensures |r| <= |rs|
  {
    if rs == [] then []
    else InstancesOf(rs[..|rs| - 1], canon) + (if rs[|rs| - 1].canon == canon then [rs[|rs| - 1].instance] else [])
  }

  /** The display name `setdefault` keeps: that of the first record under `canon`. */
  function FirstDisplay(rs: seq<MetricRecord>, canon: string): Option<string> {
    if rs == [] then None
    else if rs[0].canon == canon then Some(rs[0].display)
    else FirstDisplay(rs[1..], canon)
  }

  /**
   * The dictionaries `metric_instances` and `metric_display`; `order` is the
   * key order of `metric_instances`, which a Python dictionary keeps as
   * first insertion.
   */
  datatype MetricIndex = MetricIndex(
    instances: map<string, seq<MetricInstance>>,
    display: map<string, string>,
    order: seq<string>)

  function Record(idx: MetricIndex, r: MetricRecord): MetricIndex {
    MetricIndex(
      idx.instances[r.canon := (if r.canon in idx.instances then idx.instances[r.canon] else []) + [r.instance]],
      if r.canon in idx.display then idx.display else idx.display[r.canon := r.display],
      if r.canon in idx.instances then idx.order else idx.order + [r.canon])
  }

  function IndexOf(rs: seq<MetricRecord>): MetricIndex {
    if rs == [] then MetricIndex(map[], map[], []) else Record(IndexOf(rs[..|rs| - 1]), rs[|rs| - 1])
  }

  /**
   * What the index holds: a key for each canonical name seen, its instances in
   * order, and the display name of its first occurrence.
   */
  lemma {:induction false} IndexOfSpec(rs: seq<MetricRecord>, canon: string)
    ensures var idx := IndexOf(rs);
      && (canon in idx.instances <==> canon in idx.display)
      && (canon in idx.instances <==> canon in idx.order)
      && (canon in idx.instances <==> exists i :: 0 <= i < |rs| && rs[i].canon == canon)
      && (canon in idx.instances ==> idx.instances[canon] == InstancesOf(rs, canon) && |idx.instances[canon]| >= 1)
      && (canon in idx.display ==> Some(idx.display[canon]) == FirstDisplay(rs, canon))
  {
    if rs != [] {
      var init := rs[..|rs| - 1];
      var last := rs[|rs| - 1];
      assert rs == init + [last];
      IndexOfSpec(init, canon);
      FirstDisplayAppend(init, last, canon);
      if last.canon == canon && canon !in IndexOf(init).instances {
        assert InstancesOf(init, canon) == [] by {
          InstancesOfAbsent(init, canon);
        }
      }
      if exists i :: 0 <= i < |init| && init[i].canon == canon {
        var i :| 0 <= i < |init| && init[i].canon == canon;
        assert rs[i].canon == canon;
      }
    }
  }

  lemma {:induction false} InstancesOfAbsent(rs: seq<MetricRecord>, canon: string)
    requires forall i :: 0 <= i < |rs| ==> rs[i].canon != canon
    ensures InstancesOf(rs, canon) == []
  {
    if rs != [] {
      InstancesOfAbsent(rs[..|rs| - 1], canon);
    }
  }

  lemma {:induction false} FirstDisplayAppend(rs: seq<MetricRecord>, r: MetricRecord, canon: string)
    ensures FirstDisplay(rs + [r], canon)
         == if FirstDisplay(rs, canon).Some? then FirstDisplay(rs, canon)
            else if r.canon == canon then Some(r.display) else None
    ensures FirstDisplay(rs, canon).None? <==> forall i :: 0 <= i < |rs| ==> rs[i].canon != canon
  {
    if rs != [] {
      FirstDisplayAppend(rs[1..], r, canon);
      assert (rs + [r])[1..] == rs[1..] + [r];
      if rs[0].canon != canon {
        forall i | 0 <= i < |rs| - 1 ensures rs[1..][i] == rs[i + 1] {}
      }
    }
  }

  /** `metric_freq`: the number of instances under each canonical name. */
  function MetricFreq(idx: MetricIndex): (r: map<string, int>)
    ensures r.Keys == idx.instances.Keys
  {
    map k | k in idx.instances :: |idx.instances[k]|
  }

  /** The frequency of a canonical name is the number of metrics that carry it, and at least one. */
  lemma MetricFreqSpec(rs: seq<MetricRecord>, canon: string)
    ensures var f := MetricFreq(IndexOf(rs));
      && (canon in f <==> exists i :: 0 <= i < |rs| && rs[i].canon == canon)
      && (canon in f ==> f[canon] == |InstancesOf(rs, canon)| >= 1)
  {
    IndexOfSpec(rs, canon);
  }

  /** An entry of `all_metrics`: the display name and every instance. */
  datatype MetricSummary = MetricSummary(canon: string, displayName: string, instances: seq<MetricInstance>)

  /** `all_metrics`, keyed by canonical name in sorted order. */
  function AllMetrics(idx: MetricIndex, keys: seq<string>): (r: seq<MetricSummary>)
    ensures |r| == |keys|
    ensures forall i :: 0 <= i < |keys| ==> r[i].canon == keys[i]
  {
    if keys == [] then []
    else
      var c := keys[0];
      [MetricSummary(
        c,
        if c in idx.display then idx.display[c] else c,
        if c in idx.instances then idx.instances[c] else [])]
      + AllMetrics(idx, keys[1..])
  }

  /**
   * `all_metrics` lists every canonical name once, in sorted order, each with
   * all its instances and the display name of its first occurrence.
   */
  lemma AllMetricsSpec(exs: seq<AssetExtraction>)
    ensures var rs := MetricRecords(exs);
      var all := AllMetrics(IndexOf(rs), SortedUnique(IndexOf(rs).order));
      && StrictlySorted(Canons'(all))
      && (forall c :: c in Canons'(all) <==> exists i :: 0 <= i < |rs| && rs[i].canon == c)
      && (forall i :: 0 <= i < |all| ==>
            all[i].instances == InstancesOf(rs, all[i].canon) && Some(all[i].displayName) == FirstDisplay(rs, all[i].canon))
  {
    var rs := MetricRecords(exs);
    var keys := SortedUnique(IndexOf(rs).order);
    var all := AllMetrics(IndexOf(rs), keys);
    assert Canons'(all) == keys;
    forall c ensures c in keys <==> exists i :: 0 <= i < |rs| && rs[i].canon == c {
      IndexOfSpec(rs, c);
    }
    forall i | 0 <= i < |all|
      ensures all[i].instances == InstancesOf(rs, all[i].canon)
      ensures Some(all[i].displayName) == FirstDisplay(rs, all[i].canon)
    {
      IndexOfSpec(rs, keys[i]);
      assert keys[i] in keys;
      AllMetricsAt(IndexOf(rs), keys, i);
    }
  }

  lemma {:induction false} AllMetricsAt(idx: MetricIndex, keys: seq<string>, i: nat)
    requires i < |keys|
    ensures var c := keys[i];
      AllMetrics(idx, keys)[i] == MetricSummary(
        c,
        if c in idx.display then idx.display[c] else c,
        if c in idx.instances then idx.instances[c] else [])
  {
    if i > 0 {
      AllMetricsAt(idx, keys[1..], i - 1);
    }
  }

  function Canons'(all: seq<MetricSummary>): (r: seq<string>)
    ensures |r| == |all| && forall i :: 0 <= i < |all| ==> r[i] == all[i].canon
  {
    if all == [] then [] else [all[0].canon] + Canons'(all[1..])
  }

  lemma RecordsOfMetricsSnoc(ex: AssetExtraction, ms: seq<Metric>, t: nat)
    requires t < |ms|
    ensures RecordsOfMetrics(ex, ms[..t + 1]) == RecordsOfMetrics(ex, ms[..t]) + [RecordOf(ex, ms[t])]
  {
    assert ms[..t + 1][..t] == ms[..t];
  }

  lemma IndexOfSnoc(a: seq<MetricRecord>, b: seq<MetricRecord>, r: MetricRecord)
    ensures IndexOf(a + (b + [r])) == Record(IndexOf(a + b), r)
  {
    AppendAssoc(a, b, [r]);
    assert ((a + b) + [r])[..|a + b|] == a + b;
  }

  /** The body of the inner metric loop: index one metric of `ex`. */
  method AddMetric(idx: MetricIndex, ex: AssetExtraction, m: Metric) returns (next: MetricIndex)
    ensures next == Record(idx, RecordOf(ex, m))
  {
    var canon := CanonicalMetricName(m.name);
    var display := if Strip(m.name) != [] then Strip(m.name) else canon;
    var inst := MetricInstance(ex.assetId, ex.sourceRef.filename, ex.sourceRef.page, m.value, m.unit, m.directionality, m.comparisons);
    var prior := if canon in idx.instances then idx.instances[canon] else [];
    var disp := if canon in idx.display then idx.display else idx.display[canon := display];
    var order := if canon in idx.instances then idx.order else idx.order + [canon];
    next := MetricIndex(idx.instances[canon := prior + [inst]], disp, order);
  }

  lemma MetricRecordsSnoc(exs: seq<AssetExtraction>, k: nat)
    requires k < |exs|
    ensures MetricRecords(exs[..k + 1]) == MetricRecords(exs[..k]) + RecordsOfMetrics(exs[k], exs[k].metrics)
  {
    assert exs[..k + 1][..k] == exs[..k];
  }

  /** The inner metric loop of `generate_insights`: indexes every metric of `ex` after the records `done`. */
  method IndexExtraction(idx: MetricIndex, ex: AssetExtraction, ghost done: seq<MetricRecord>) returns (next: MetricIndex)
    requires idx == IndexOf(done)
    ensures next == IndexOf(done + RecordsOfMetrics(ex, ex.metrics))
  {
    next := idx;
    assert done + RecordsOfMetrics(ex, ex.metrics[..0]) == done;
    for t := 0 to |ex.metrics|
      invariant next == IndexOf(done + RecordsOfMetrics(ex, ex.metrics[..t]))
    {
      ghost var rest := RecordsOfMetrics(ex, ex.metrics[..t]);
      next := AddMetric(next, ex, ex.metrics[t]);
      RecordsOfMetricsSnoc(ex, ex.metrics, t);
      IndexOfSnoc(done, rest, RecordOf(ex, ex.metrics[t]));
    }
    assert ex.metrics[..|ex.metrics|] == ex.metrics;
  }

  /** The metric-index loop of `generate_insights`, filling both dictionaries. */
  method IndexMetrics(exs: seq<AssetExtraction>) returns (idx: MetricIndex)
    ensures idx == IndexOf(MetricRecords(exs))
  {
    idx := MetricIndex(map[], map[], []);
    for k := 0 to |exs|
      invariant idx == IndexOf(MetricRecords(exs[..k]))
    {
      idx := IndexExtraction(idx, exs[k], MetricRecords(exs[..k]));
      MetricRecordsSnoc(exs, k);
    }
    assert exs[..|exs|] == exs;
  }
}
