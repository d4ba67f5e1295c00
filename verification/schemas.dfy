/**
 * The pydantic models of the deck agent's extraction and insight documents.
 *
 * Each model is a datatype; `Parse…` is model validation of a decoded JSON
 * value (`Model.model_validate`) and `Dump…` is `model_dump()`. Every model is
 * declared with `extra="forbid"`, so validation refuses any key the model does
 * not declare; missing optional keys take the declared defaults; the literal
 * and range constraints are checked.
 */
module Schemas {
  import opened Wrappers
  import Text

  /** A decoded JSON value. Objects are maps from key to value. */
  datatype Json =
    | JNull
    | JBool(b: bool)
    | JInt(i: int)
    | JNum(r: real)
    | JStr(s: string)
    | JArr(items: seq<Json>)
    | JObj(fields: map<string, Json>)

  type Fields = map<string, Json>

  /** The error kinds pydantic reports, with the offending field. */
  datatype FieldError =
    | ExtraForbidden
    | Missing(field: string)
    | WrongType(field: string)
    | LiteralError(field: string)
    | OutOfRange(field: string)

  type Parsed<T> = Result<T, FieldError>

  /* ---------------- Field readers ---------------- */

  function AsObject(j: Json, declared: set<string>): (r: Parsed<Fields>)
    ensures r.Ok? <==> j.JObj? && j.fields.Keys <= declared
    ensures r.Ok? ==> r.value == j.fields
  {
    if !j.JObj? then Err(WrongType("")) else if !(j.fields.Keys <= declared) then Err(ExtraForbidden) else Ok(j.fields)
  }

  function Str(j: Json, k: string): Parsed<string> {
    if j.JStr? then Ok(j.s) else Err(WrongType(k))
  }

  /** A required `str` field. */
  function ReqStr(f: Fields, k: string): (r: Parsed<string>)
    ensures r.Ok? <==> k in f && f[k].JStr?
  {
    if k !in f then Err(Missing(k)) else Str(f[k], k)
  }

  /** A `str` field with a default. */
  function DefStr(f: Fields, k: string, d: string): (r: Parsed<string>)
    ensures k !in f ==> r == Ok(d)
  {
    if k !in f then Ok(d) else Str(f[k], k)
  }

  /** An `Optional[str] = None` field. */
  function OptStr(f: Fields, k: string): (r: Parsed<Option<string>>)
    ensures k !in f ==> r == Ok(None)
  {
    if k !in f || f[k].JNull? then Ok(None) else if f[k].JStr? then Ok(Some(f[k].s)) else Err(WrongType(k))
  }

  /* ---------------- Lax-mode number coercion ---------------- */

  /** The sign and the rest of a numeric string: a leading `-` or `+` is consumed. */
  function SplitSign(s: string): (r: (bool, string))
    ensures |r.1| <= |s|
  {
    if s != [] && (s[0] == '-' || s[0] == '+') then (s[0] == '-', s[1..]) else (false, s)
  }

  /** The integer a string of the form `[-+]?[0-9]+` denotes; `None` for any other text. */
  function IntText(s: string): (r: Option<int>)
  {
    var (neg, body) := SplitSign(s);
    if body != [] && Text.AllDigits(body) then
      var v: int := Text.DigitsValue(body);
      Some(if neg then -v else v)
    else None
  }

  /** The index of the first `.` in `s`, or `|s|` when there is none. */
  function PointIndex(s: string): (k: nat)
    ensures k <= |s|
    ensures k < |s| ==> s[k] == '.'
    ensures forall i :: 0 <= i < k ==> s[i] != '.'
  {
    if s == [] || s[0] == '.' then 0 else 1 + PointIndex(s[1..])
  }

  /** The number a string of the form `[-+]?[0-9]+(\.[0-9]+)?` denotes; `None` for any other text. */
  function DecimalText(s: string): (r: Option<real>)
  {
    var (neg, body) := SplitSign(s);
    var k := PointIndex(body);
    var whole := body[..k];
    var frac := if k < |body| then body[k + 1..] else [];
    if whole != [] && Text.AllDigits(whole) && (k < |body| ==> frac != []) && Text.AllDigits(frac) then
      var v := Text.DigitsValue(whole) as real + Text.DigitsValue(frac) as real / Text.Pow10(|frac|) as real;
      Some(if neg then -v else v)
    else None
  }

  /** Integer text is decimal text of the same value. */
  lemma IntTextDecimal(s: string)
    requires IntText(s).Some?
    ensures DecimalText(s) == Some(IntText(s).value as real)
  {
    var (neg, body) := SplitSign(s);
    assert forall i :: 0 <= i < |body| ==> body[i] != '.' by {
      forall i | 0 <= i < |body| ensures body[i] != '.' {
        assert Text.IsDigit(body[i]);
      }
    }
    assert PointIndex(body) == |body|;
    assert body[..|body|] == body;
  }

  /** `str(n)` is read back as `n`. */
  lemma IntTextRoundTrip(n: int)
    ensures IntText(Text.IntToString(n)) == Some(n)
  {
    var s := Text.IntToString(n);
    if n < 0 {
      assert s[1..] == Text.NatToString(-n);
      Text.DigitsValueOfNat(-n);
    } else {
      assert Text.IsDigit(s[0]);
      Text.DigitsValueOfNat(n);
    }
  }

  /**
   * A value pydantic's lax mode accepts for a `float` field: a JSON number,
   * or a string of decimal digits with an optional sign and fraction.
   */
  function LaxFloat(j: Json): (r: Option<real>)
    ensures j.JNum? ==> r == Some(j.r)
    ensures j.JInt? ==> r == Some(j.i as real)
    ensures j.JNull? || j.JBool? || j.JArr? || j.JObj? ==> r == None
  {
    match j
    case JNum(x) => Some(x)
    case JInt(i) => Some(i as real)
    case JStr(s) => DecimalText(s)
    case _ => None
  }

  /**
   * A value pydantic's lax mode accepts for an `int` field: a JSON integer, a
   * JSON number with no fractional part, or a string of decimal digits with an
   * optional sign. Whatever it accepts is the same number as a float.
   */
  function LaxInt(j: Json): (r: Option<int>)
    ensures j.JInt? ==> r == Some(j.i)
    ensures j.JNum? ==> (r.Some? <==> j.r.Floor as real == j.r)
    ensures r.Some? ==> LaxFloat(j) == Some(r.value as real)
  {
    match j
    case JInt(i) => Some(i)
    case JNum(x) => if x.Floor as real == x then Some(x.Floor) else None
    case JStr(s) => if IntText(s).Some? then IntTextDecimal(s); IntText(s) else None
    case _ => None
  }

  /** An `Optional[int] = None` field: absent or null is `None`, otherwise a lax `int`. */
  function OptInt(f: Fields, k: string): (r: Parsed<Option<int>>)
    ensures k !in f || f[k].JNull? ==> r == Ok(None)
    ensures k in f && !f[k].JNull? ==> (r.Ok? <==> LaxInt(f[k]).Some?)
    ensures r.Ok? && k in f && !f[k].JNull? ==> r.value == Some(LaxInt(f[k]).value)
  {
    if k !in f || f[k].JNull? then Ok(None)
    else
      match LaxInt(f[k])
      case Some(n) => Ok(Some(n))
      case None => Err(WrongType(k))
  }

  /** Validates every element of a JSON array with `p`, failing on the first error. */
  function Each<T>(items: seq<Json>, p: Json -> Parsed<T>): (r: Parsed<seq<T>>)
    ensures r.Ok? ==> |r.value| == |items|
    ensures r.Ok? ==> forall i :: 0 <= i < |items| ==> p(items[i]) == Ok(r.value[i])
    ensures (forall i :: 0 <= i < |items| ==> p(items[i]).Ok?) ==> r.Ok?
  {
    if items == [] then Ok([])
    else
      var x :- p(items[0]);
      var xs :- Each(items[1..], p);
      Ok([x] + xs)
  }

  /** A `list[...]` field, `[]` when absent if it has a default. */
  function ListOf<T>(f: Fields, k: string, hasDefault: bool, p: Json -> Parsed<T>): (r: Parsed<seq<T>>)
    ensures hasDefault && k !in f ==> r == Ok([])
    ensures r.Ok? ==> k in f || hasDefault
  {
    if k !in f then (if hasDefault then Ok([]) else Err(Missing(k)))
    else if !f[k].JArr? then Err(WrongType(k))
    else Each(f[k].items, p)
  }

  function StrItem(j: Json): Parsed<string> {
    Str(j, "")
  }

  function DictItem(j: Json): Parsed<Fields> {
    if j.JObj? then Ok(j.fields) else Err(WrongType(""))
  }

  function DumpStrs(xs: seq<string>): (r: seq<Json>)
    ensures |r| == |xs| && forall i :: 0 <= i < |xs| ==> r[i] == JStr(xs[i])
  {
    if xs == [] then [] else [JStr(xs[0])] + DumpStrs(xs[1..])
  }

  function DumpOptStr(o: Option<string>): Json {
    if o.Some? then JStr(o.value) else JNull
  }

  function DumpOptInt(o: Option<int>): Json {
    if o.Some? then JInt(o.value) else JNull
  }

  lemma StrsRoundTrip(xs: seq<string>)
    ensures Each(DumpStrs(xs), StrItem) == Ok(xs)
  {
    var r := Each(DumpStrs(xs), StrItem);
    assert r.Ok?;
    assert r.value == xs;
  }

  /** A field holding the dumped strings `xs` validates back to `xs`. */
  lemma StrListField(f: Fields, k: string, hasDefault: bool, xs: seq<string>)
    requires k in f && f[k] == JArr(DumpStrs(xs))
    ensures ListOf(f, k, hasDefault, StrItem) == Ok(xs)
  {
    StrsRoundTrip(xs);
  }

  /* ---------------- SourceRef ---------------- */

  datatype SourceRef = SourceRef(filename: string, page: Option<int>)

  /** Python truthiness of an optional page number: present and non-zero. */
  predicate PageTruthy(page: Option<int>) {
    page.Some? && page.value != 0
  }

  const SourceRefKeys: set<string> := {"filename", "page"}

  function ParseSourceRef(j: Json): (r: Parsed<SourceRef>)
    ensures r.Ok? ==> j.JObj? && j.fields.Keys <= SourceRefKeys
    ensures r.Ok? ==> "filename" in j.fields
  {
    var f :- AsObject(j, SourceRefKeys);
    var filename :- ReqStr(f, "filename");
    var page :- OptInt(f, "page");
    Ok(SourceRef(filename, page))
  }

  function DumpSourceRef(x: SourceRef): Json {
    JObj(map["filename" := JStr(x.filename), "page" := DumpOptInt(x.page)])
  }

  lemma SourceRefRoundTrip(x: SourceRef)
    ensures ParseSourceRef(DumpSourceRef(x)) == Ok(x)
  {
    var f := DumpSourceRef(x).fields;
    assert f.Keys == SourceRefKeys;
  }

  /* ---------------- Comparison ---------------- */

  datatype ComparisonType = WoW | YoY | VsTarget | VsPriorPeriod

  function ComparisonTypeName(t: ComparisonType): string {
    match t
    case WoW => "WoW"
    case YoY => "YoY"
    case VsTarget => "vs_target"
    case VsPriorPeriod => "vs_prior_period"
  }

  /** `Literal["WoW", "YoY", "vs_target", "vs_prior_period"]` */
  function ParseComparisonType(j: Json, k: string): (r: Parsed<ComparisonType>)
    ensures r.Ok? <==> j.JStr? && j.s in {"WoW", "YoY", "vs_target", "vs_prior_period"}
    ensures r.Ok? ==> ComparisonTypeName(r.value) == j.s
  {
    if !j.JStr? then Err(WrongType(k))
    else if j.s == "WoW" then Ok(WoW)
    else if j.s == "YoY" then Ok(YoY)
    else if j.s == "vs_target" then Ok(VsTarget)
    else if j.s == "vs_prior_period" then Ok(VsPriorPeriod)
    else Err(LiteralError(k))
  }

  lemma ComparisonTypeRoundTrip(t: ComparisonType)
    ensures ParseComparisonType(JStr(ComparisonTypeName(t)), "type") == Ok(t)
  {
  }

  datatype Comparison = Comparison(
    ctype: ComparisonType,
    deltaAbs: Option<string>,
    deltaPct: Option<string>,
    priorValue: Option<string>)

  const ComparisonKeys: set<string> := {"type", "delta_abs", "delta_pct", "prior_value"}

  function ParseComparison(j: Json): (r: Parsed<Comparison>)
    ensures r.Ok? ==> j.JObj? && j.fields.Keys <= ComparisonKeys
  {
    var f :- AsObject(j, ComparisonKeys);
    if "type" !in f then Err(Missing("type"))
    else
      var t :- ParseComparisonType(f["type"], "type");
      var da :- OptStr(f, "delta_abs");
      var dp :- OptStr(f, "delta_pct");
      var pv :- OptStr(f, "prior_value");
      Ok(Comparison(t, da, dp, pv))
  }

  function DumpComparison(x: Comparison): Json {
    JObj(map[
      "type" := JStr(ComparisonTypeName(x.ctype)),
      "delta_abs" := DumpOptStr(x.deltaAbs),
      "delta_pct" := DumpOptStr(x.deltaPct),
      "prior_value" := DumpOptStr(x.priorValue)])
  }

  lemma ComparisonRoundTrip(x: Comparison)
    ensures ParseComparison(DumpComparison(x)) == Ok(x)
  {
    var f := DumpComparison(x).fields;
    assert f.Keys == ComparisonKeys;
    ComparisonTypeRoundTrip(x.ctype);
  }

  function DumpComparisons(xs: seq<Comparison>): (r: seq<Json>)
    ensures |r| == |xs| && forall i :: 0 <= i < |xs| ==> r[i] == DumpComparison(xs[i])
  {
    if xs == [] then [] else [DumpComparison(xs[0])] + DumpComparisons(xs[1..])
  }

  lemma ComparisonsRoundTrip(xs: seq<Comparison>)
    ensures Each(DumpComparisons(xs), ParseComparison) == Ok(xs)
  {
    forall i | 0 <= i < |xs| ensures ParseComparison(DumpComparisons(xs)[i]) == Ok(xs[i]) {
      ComparisonRoundTrip(xs[i]);
    }
    var r := Each(DumpComparisons(xs), ParseComparison);
    assert r.value == xs;
  }

  /* ---------------- Metric ---------------- */

  datatype Directionality = HigherIsBetter | LowerIsBetter | UnknownDirection

  function DirectionalityName(d: Directionality): string {
    match d
    case HigherIsBetter => "higher_is_better"
    case LowerIsBetter => "lower_is_better"
    case UnknownDirection => "unknown"
  }

  /** `Literal["higher_is_better", "lower_is_better", "unknown"] = "unknown"` */
  function ParseDirectionality(f: Fields): (r: Parsed<Directionality>)
    ensures "directionality" !in f ==> r == Ok(UnknownDirection)
    ensures r.Ok? && "directionality" in f ==> f["directionality"] == JStr(DirectionalityName(r.value))
  {
    if "directionality" !in f then Ok(UnknownDirection)
    else
      var j := f["directionality"];
      if !j.JStr? then Err(WrongType("directionality"))
      else if j.s == "higher_is_better" then Ok(HigherIsBetter)
      else if j.s == "lower_is_better" then Ok(LowerIsBetter)
      else if j.s == "unknown" then Ok(UnknownDirection)
      else Err(LiteralError("directionality"))
  }

  datatype Metric = Metric(
    name: string,
    value: string,
    unit: string,
    directionality: Directionality,
    comparisons: seq<Comparison>)

  const MetricKeys: set<string> := {"name", "value", "unit", "directionality", "comparisons"}

  function ParseMetric(j: Json): (r: Parsed<Metric>)
    ensures r.Ok? ==> j.JObj? && j.fields.Keys <= MetricKeys
  {
    var f :- AsObject(j, MetricKeys);
    var name :- ReqStr(f, "name");
    var value :- DefStr(f, "value", "");
    var unit :- DefStr(f, "unit", "");
    var dir :- ParseDirectionality(f);
    var cs :- ListOf(f, "comparisons", true, ParseComparison);
    Ok(Metric(name, value, unit, dir, cs))
  }

  /** A metric given only its name takes the declared defaults. */
  lemma MetricDefaults(name: string)
    ensures ParseMetric(JObj(map["name" := JStr(name)])) == Ok(Metric(name, "", "", UnknownDirection, []))
  {
    var f := map["name" := JStr(name)];
    assert f.Keys == {"name"};
  }

  function DumpMetric(x: Metric): Json {
    JObj(map[
      "name" := JStr(x.name),
      "value" := JStr(x.value),
      "unit" := JStr(x.unit),
      "directionality" := JStr(DirectionalityName(x.directionality)),
      "comparisons" := JArr(DumpComparisons(x.comparisons))])
  }

  lemma MetricRoundTrip(x: Metric)
    ensures ParseMetric(DumpMetric(x)) == Ok(x)
  {
    var f := DumpMetric(x).fields;
    assert f.Keys == MetricKeys;
    assert f["name"] == JStr(x.name) && f["value"] == JStr(x.value) && f["unit"] == JStr(x.unit);
    assert f["directionality"] == JStr(DirectionalityName(x.directionality));
    assert f["comparisons"] == JArr(DumpComparisons(x.comparisons));
    ComparisonsRoundTrip(x.comparisons);
    MetricFromFields(f, x);
  }

  /** An object whose fields hold the parts of `x` validates to `x`. */
  lemma MetricFromFields(f: Fields, x: Metric)
    requires f.Keys == MetricKeys
    requires f["name"] == JStr(x.name) && f["value"] == JStr(x.value) && f["unit"] == JStr(x.unit)
    requires f["directionality"] == JStr(DirectionalityName(x.directionality))
    requires f["comparisons"] == JArr(DumpComparisons(x.comparisons))
    requires Each(DumpComparisons(x.comparisons), ParseComparison) == Ok(x.comparisons)
    ensures ParseMetric(JObj(f)) == Ok(x)
  {
    assert ParseDirectionality(f) == Ok(x.directionality) by {
      assert "directionality" in f;
    }
    assert ListOf(f, "comparisons", true, ParseComparison) == Ok(x.comparisons);
  }

  function DumpMetrics(xs: seq<Metric>): (r: seq<Json>)
    ensures |r| == |xs| && forall i :: 0 <= i < |xs| ==> r[i] == DumpMetric(xs[i])
  {
    if xs == [] then [] else [DumpMetric(xs[0])] + DumpMetrics(xs[1..])
  }

  lemma MetricsRoundTrip(xs: seq<Metric>)
    ensures Each(DumpMetrics(xs), ParseMetric) == Ok(xs)
  {
    forall i | 0 <= i < |xs| ensures ParseMetric(DumpMetrics(xs)[i]) == Ok(xs[i]) {
      MetricRoundTrip(xs[i]);
    }
    var r := Each(DumpMetrics(xs), ParseMetric);
    assert r.value == xs;
  }

  /* ---------------- AssetExtraction ---------------- */

  datatype SourceType = Image | PdfPage

  function SourceTypeName(t: SourceType): string {
    match t
    case Image => "image"
    case PdfPage => "pdf_page"
  }

  /** `Literal["image", "pdf_page"]` */
  function ParseSourceType(j: Json): (r: Parsed<SourceType>)
    ensures r.Ok? <==> j == JStr("image") || j == JStr("pdf_page")
    ensures r.Ok? ==> j == JStr(SourceTypeName(r.value))
  {
    if !j.JStr? then Err(WrongType("source_type"))
    else if j.s == "image" then Ok(Image)
    else if j.s == "pdf_page" then Ok(PdfPage)
    else Err(LiteralError("source_type"))
  }

  lemma SourceTypeRoundTrip(t: SourceType)
    ensures ParseSourceType(JStr(SourceTypeName(t))) == Ok(t)
  {
    match t
    case Image =>
    case PdfPage => assert SourceTypeName(t) != "image";
  }

  datatype AssetExtraction = AssetExtraction(
    assetId: string,
    sourceType: SourceType,
    sourceRef: SourceRef,
    dashboardTitle: string,
    timeRange: string,
    metrics: seq<Metric>,
    notableTrends: seq<string>,
    anomalies: seq<string>,
    tags: seq<string>,
    confidence: real,
    rawEvidenceNotes: seq<string>)

  /** `confidence: float = Field(ge=0.0, le=1.0)` */
  predicate ValidConfidence(c: real) {
    0.0 <= c <= 1.0
  }

  predicate ValidExtraction(x: AssetExtraction) {
    ValidConfidence(x.confidence)
  }

  const AssetExtractionKeys: set<string> := {
    "asset_id", "source_type", "source_ref", "dashboard_title", "time_range", "metrics",
    "notable_trends", "anomalies", "tags", "confidence", "raw_evidence_notes"}

  /** The `confidence` field: a lax `float` in [0, 1], 0.0 when absent. */
  function ParseConfidence(f: Fields): (r: Parsed<real>)
    ensures r.Ok? ==> ValidConfidence(r.value)
    ensures "confidence" !in f ==> r == Ok(0.0)
    ensures "confidence" in f ==>
      (r.Ok? <==> LaxFloat(f["confidence"]).Some? && ValidConfidence(LaxFloat(f["confidence"]).value))
    ensures r.Ok? && "confidence" in f ==> LaxFloat(f["confidence"]) == Some(r.value)
  {
    if "confidence" !in f then Ok(0.0)
    else
      match LaxFloat(f["confidence"])
      case None => Err(WrongType("confidence"))
      case Some(c) => if c < 0.0 || c > 1.0 then Err(OutOfRange("confidence")) else Ok(c)
  }

  /** A numeric string is coerced: `{"confidence": "0.5"}` validates to 0.5. */
  lemma ConfidenceFromText()
    ensures ParseConfidence(map["confidence" := JStr("0.5")]) == Ok(0.5)
  {
    assert PointIndex("0.5") == 1;
    assert Text.DigitsValue("5") == 5;
  }

  function ParseAssetExtraction(j: Json): (r: Parsed<AssetExtraction>)
    ensures r.Ok? ==> j.JObj? && j.fields.Keys <= AssetExtractionKeys
    ensures r.Ok? ==> ValidExtraction(r.value)
    ensures r.Ok? ==> "source_type" in j.fields && j.fields["source_type"] == JStr(SourceTypeName(r.value.sourceType))
    ensures r.Ok? ==> "asset_id" in j.fields && j.fields["asset_id"] == JStr(r.value.assetId)
    ensures r.Ok? ==> "source_ref" in j.fields && ParseSourceRef(j.fields["source_ref"]) == Ok(r.value.sourceRef)
  {
    var f :- AsObject(j, AssetExtractionKeys);
    var assetId :- ReqStr(f, "asset_id");
    if "source_type" !in f then Err(Missing("source_type"))
    else
      var st :- ParseSourceType(f["source_type"]);
      if "source_ref" !in f then Err(Missing("source_ref"))
      else
        var sr :- ParseSourceRef(f["source_ref"]);
        var title :- DefStr(f, "dashboard_title", "");
        var tr :- DefStr(f, "time_range", "");
        var ms :- ListOf(f, "metrics", true, ParseMetric);
        var trends :- ListOf(f, "notable_trends", true, StrItem);
        var anomalies :- ListOf(f, "anomalies", true, StrItem);
        var tags :- ListOf(f, "tags", true, StrItem);
        var conf :- ParseConfidence(f);
        var notes :- ListOf(f, "raw_evidence_notes", true, StrItem);
        Ok(AssetExtraction(assetId, st, sr, title, tr, ms, trends, anomalies, tags, conf, notes))
  }

  /** Only the three required keys: every other field takes its default, confidence 0.0. */
  lemma AssetExtractionDefaults(assetId: string, st: SourceType, sr: SourceRef)
    ensures ParseAssetExtraction(JObj(map[
      "asset_id" := JStr(assetId),
      "source_type" := JStr(SourceTypeName(st)),
      "source_ref" := DumpSourceRef(sr)]))
      == Ok(AssetExtraction(assetId, st, sr, "", "", [], [], [], [], 0.0, []))
  {
    var f := map["asset_id" := JStr(assetId), "source_type" := JStr(SourceTypeName(st)), "source_ref" := DumpSourceRef(sr)];
    assert f.Keys == {"asset_id", "source_type", "source_ref"};
    SourceRefRoundTrip(sr);
  }

  function DumpAssetExtraction(x: AssetExtraction): Json {
    JObj(map[
      "asset_id" := JStr(x.assetId),
      "source_type" := JStr(SourceTypeName(x.sourceType)),
      "source_ref" := DumpSourceRef(x.sourceRef),
      "dashboard_title" := JStr(x.dashboardTitle),
      "time_range" := JStr(x.timeRange),
      "metrics" := JArr(DumpMetrics(x.metrics)),
      "notable_trends" := JArr(DumpStrs(x.notableTrends)),
      "anomalies" := JArr(DumpStrs(x.anomalies)),
      "tags" := JArr(DumpStrs(x.tags)),
      "confidence" := JNum(x.confidence),
      "raw_evidence_notes" := JArr(DumpStrs(x.rawEvidenceNotes))])
  }

  lemma ExtractionObject(x: AssetExtraction)
    ensures AsObject(DumpAssetExtraction(x), AssetExtractionKeys) == Ok(DumpAssetExtraction(x).fields)
  {
    assert DumpAssetExtraction(x).fields.Keys == AssetExtractionKeys;
  }

  lemma ExtractionSourceFields(x: AssetExtraction)
    ensures var f := DumpAssetExtraction(x).fields;
      && "source_type" in f && ParseSourceType(f["source_type"]) == Ok(x.sourceType)
      && "source_ref" in f && ParseSourceRef(f["source_ref"]) == Ok(x.sourceRef)
  {
    ExtractionSourceType(x);
    ExtractionSourceRef(x);
  }

  lemma ExtractionSourceType(x: AssetExtraction)
    ensures var f := DumpAssetExtraction(x).fields;
      "source_type" in f && ParseSourceType(f["source_type"]) == Ok(x.sourceType)
  {
    SourceTypeRoundTrip(x.sourceType);
  }

  lemma ExtractionSourceRef(x: AssetExtraction)
    ensures var f := DumpAssetExtraction(x).fields;
      "source_ref" in f && ParseSourceRef(f["source_ref"]) == Ok(x.sourceRef)
  {
    SourceRefRoundTrip(x.sourceRef);
  }

  lemma ExtractionTextFields(x: AssetExtraction)
    ensures var f := DumpAssetExtraction(x).fields;
      && ReqStr(f, "asset_id") == Ok(x.assetId)
      && DefStr(f, "dashboard_title", "") == Ok(x.dashboardTitle)
      && DefStr(f, "time_range", "") == Ok(x.timeRange)
  {
  }

  lemma ExtractionMetricFields(x: AssetExtraction)
    requires ValidExtraction(x)
    ensures var f := DumpAssetExtraction(x).fields;
      && ListOf(f, "metrics", true, ParseMetric) == Ok(x.metrics)
      && ParseConfidence(f) == Ok(x.confidence)
  {
    var f := DumpAssetExtraction(x).fields;
    MetricsRoundTrip(x.metrics);
    assert f["metrics"] == JArr(DumpMetrics(x.metrics));
    assert f["confidence"] == JNum(x.confidence);
  }

  lemma ExtractionStrFields(x: AssetExtraction)
    ensures var f := DumpAssetExtraction(x).fields;
      && ListOf(f, "notable_trends", true, StrItem) == Ok(x.notableTrends)
      && ListOf(f, "anomalies", true, StrItem) == Ok(x.anomalies)
      && ListOf(f, "tags", true, StrItem) == Ok(x.tags)
      && ListOf(f, "raw_evidence_notes", true, StrItem) == Ok(x.rawEvidenceNotes)
  {
    var f := DumpAssetExtraction(x).fields;
    StrListField(f, "notable_trends", true, x.notableTrends);
    StrListField(f, "anomalies", true, x.anomalies);
    StrListField(f, "tags", true, x.tags);
    StrListField(f, "raw_evidence_notes", true, x.rawEvidenceNotes);
  }

  /** Dumping a valid extraction and validating the result gives it back. */
  lemma AssetExtractionRoundTrip(x: AssetExtraction)
    requires ValidExtraction(x)
    ensures ParseAssetExtraction(DumpAssetExtraction(x)) == Ok(x)
  {
    ExtractionObject(x);
    ExtractionSourceFields(x);
    ExtractionTextFields(x);
    ExtractionMetricFields(x);
    ExtractionStrFields(x);
  }

  /* ---------------- Evidence ---------------- */

  datatype Evidence = Evidence(
    assetId: string,
    filename: string,
    page: Option<int>,
    thumbnailCrop: Option<string>,
    note: Option<string>)

  const EvidenceKeys: set<string> := {"asset_id", "filename", "page", "thumbnail_crop", "note"}

  function ParseEvidence(j: Json): (r: Parsed<Evidence>)
    ensures r.Ok? ==> j.JObj? && j.fields.Keys <= EvidenceKeys
  {
    var f :- AsObject(j, EvidenceKeys);
    var assetId :- ReqStr(f, "asset_id");
    var filename :- ReqStr(f, "filename");
    var page :- OptInt(f, "page");
    var crop :- OptStr(f, "thumbnail_crop");
    var note :- OptStr(f, "note");
    Ok(Evidence(assetId, filename, page, crop, note))
  }

  function DumpEvidence(x: Evidence): Json {
    JObj(map[
      "asset_id" := JStr(x.assetId),
      "filename" := JStr(x.filename),
      "page" := DumpOptInt(x.page),
      "thumbnail_crop" := DumpOptStr(x.thumbnailCrop),
      "note" := DumpOptStr(x.note)])
  }

  lemma EvidenceRoundTrip(x: Evidence)
    ensures ParseEvidence(DumpEvidence(x)) == Ok(x)
  {
    var f := DumpEvidence(x).fields;
    assert f.Keys == EvidenceKeys;
  }

  /* ---------------- Insight ---------------- */

  datatype Label = Supported | Hypothesis | NeedsData

  function LabelName(l: Label): string {
    match l
    case Supported => "supported"
    case Hypothesis => "hypothesis"
    case NeedsData => "needs_data"
  }

  /** `Literal["supported", "hypothesis", "needs_data"]` */
  function ParseLabel(j: Json): (r: Parsed<Label>)
    ensures r.Ok? <==> j.JStr? && j.s in {"supported", "hypothesis", "needs_data"}
    ensures r.Ok? ==> j == JStr(LabelName(r.value))
  {
    if !j.JStr? then Err(WrongType("labels"))
    else if j.s == "supported" then Ok(Supported)
    else if j.s == "hypothesis" then Ok(Hypothesis)
    else if j.s == "needs_data" then Ok(NeedsData)
    else Err(LiteralError("labels"))
  }

  datatype Insight = Insight(
    id: string,
    topic: string,
    headline: string,
    whatChanged: seq<string>,
    whyItMatters: seq<string>,
    discussionQuestions: seq<string>,
    metricsMentioned: seq<string>,
    evidence: seq<Evidence>,
    labels: seq<Label>,
    importanceScore: int)

  /** `importance_score: int = Field(ge=0, le=100)` */
  predicate ValidImportance(n: int) {
    0 <= n <= 100
  }

  predicate ValidInsight(x: Insight) {
    ValidImportance(x.importanceScore)
  }

  const InsightKeys: set<string> := {
    "id", "topic", "headline", "what_changed", "why_it_matters", "discussion_questions",
    "metrics_mentioned", "evidence", "labels", "importance_score"}

  function ParseImportance(f: Fields): (r: Parsed<int>)
    ensures r.Ok? ==> ValidImportance(r.value)
    ensures "importance_score" !in f ==> r == Ok(0)
    ensures "importance_score" in f ==>
      (r.Ok? <==> LaxInt(f["importance_score"]).Some? && ValidImportance(LaxInt(f["importance_score"]).value))
    ensures r.Ok? && "importance_score" in f ==> LaxInt(f["importance_score"]) == Some(r.value)
  {
    if "importance_score" !in f then Ok(0)
    else
      match LaxInt(f["importance_score"])
      case None => Err(WrongType("importance_score"))
      case Some(n) => if n < 0 || n > 100 then Err(OutOfRange("importance_score")) else Ok(n)
  }

  /** Integral floats and integer text are coerced: `3.0` and `"3"` both validate to 3. */
  lemma ImportanceCoerced()
    ensures ParseImportance(map["importance_score" := JNum(3.0)]) == Ok(3)
    ensures ParseImportance(map["importance_score" := JStr("3")]) == Ok(3)
  {
    assert Text.DigitsValue("3") == 3;
  }

  function ParseInsight(j: Json): (r: Parsed<Insight>)
    ensures r.Ok? ==> j.JObj? && j.fields.Keys <= InsightKeys
    ensures r.Ok? ==> ValidInsight(r.value)
  {
    var f :- AsObject(j, InsightKeys);
    var id :- ReqStr(f, "id");
    var topic :- ReqStr(f, "topic");
    var headline :- ReqStr(f, "headline");
    var wc :- ListOf(f, "what_changed", false, StrItem);
    var wim :- ListOf(f, "why_it_matters", false, StrItem);
    var dq :- ListOf(f, "discussion_questions", false, StrItem);
    var mm :- ListOf(f, "metrics_mentioned", true, StrItem);
    var ev :- ListOf(f, "evidence", false, ParseEvidence);
    var labels :- ListOf(f, "labels", true, ParseLabel);
    var score :- ParseImportance(f);
    Ok(Insight(id, topic, headline, wc, wim, dq, mm, ev, labels, score))
  }

  /** An importance score outside [0, 100] is refused. */
  lemma InsightRejectsScore(f: Fields, n: int)
    requires !ValidImportance(n)
    ensures ParseInsight(JObj(f["importance_score" := JInt(n)])).Err?
  {
  }

  function DumpEvidenceList(xs: seq<Evidence>): (r: seq<Json>)
    ensures |r| == |xs| && forall i :: 0 <= i < |xs| ==> r[i] == DumpEvidence(xs[i])
  {
    if xs == [] then [] else [DumpEvidence(xs[0])] + DumpEvidenceList(xs[1..])
  }

  function DumpLabels(xs: seq<Label>): (r: seq<Json>)
    ensures |r| == |xs| && forall i :: 0 <= i < |xs| ==> r[i] == JStr(LabelName(xs[i]))
  {
    if xs == [] then [] else [JStr(LabelName(xs[0]))] + DumpLabels(xs[1..])
  }

  function DumpInsight(x: Insight): Json {
    JObj(map[
      "id" := JStr(x.id),
      "topic" := JStr(x.topic),
      "headline" := JStr(x.headline),
      "what_changed" := JArr(DumpStrs(x.whatChanged)),
      "why_it_matters" := JArr(DumpStrs(x.whyItMatters)),
      "discussion_questions" := JArr(DumpStrs(x.discussionQuestions)),
      "metrics_mentioned" := JArr(DumpStrs(x.metricsMentioned)),
      "evidence" := JArr(DumpEvidenceList(x.evidence)),
      "labels" := JArr(DumpLabels(x.labels)),
      "importance_score" := JInt(x.importanceScore)])
  }

  lemma EvidenceListRoundTrip(xs: seq<Evidence>)
    ensures Each(DumpEvidenceList(xs), ParseEvidence) == Ok(xs)
  {
    forall i | 0 <= i < |xs| ensures ParseEvidence(DumpEvidenceList(xs)[i]) == Ok(xs[i]) {
      EvidenceRoundTrip(xs[i]);
    }
    var r := Each(DumpEvidenceList(xs), ParseEvidence);
    assert r.value == xs;
  }

  lemma LabelRoundTrip(l: Label)
    ensures ParseLabel(JStr(LabelName(l))) == Ok(l)
  {
  }

  lemma LabelsRoundTrip(xs: seq<Label>)
    ensures Each(DumpLabels(xs), ParseLabel) == Ok(xs)
  {
    forall i | 0 <= i < |xs| ensures ParseLabel(DumpLabels(xs)[i]) == Ok(xs[i]) {
      LabelRoundTrip(xs[i]);
    }
    var r := Each(DumpLabels(xs), ParseLabel);
    assert r.value == xs;
  }

  lemma InsightHeadFields(x: Insight)
    ensures var f := DumpInsight(x).fields;
      && AsObject(DumpInsight(x), InsightKeys) == Ok(f)
      && ReqStr(f, "id") == Ok(x.id)
      && ReqStr(f, "topic") == Ok(x.topic)
      && ReqStr(f, "headline") == Ok(x.headline)
  {
    InsightDumpKeys(x);
    InsightDumpId(x);
    InsightDumpTopic(x);
    InsightDumpHeadline(x);
  }

  lemma InsightDumpId(x: Insight)
    ensures DumpInsight(x).fields["id"] == JStr(x.id)
  {
    assert "id" in DumpInsight(x).fields;
  }

  lemma InsightDumpTopic(x: Insight)
    ensures DumpInsight(x).fields["topic"] == JStr(x.topic)
  {
    assert "topic" in DumpInsight(x).fields;
  }

  lemma InsightDumpHeadline(x: Insight)
    ensures DumpInsight(x).fields["headline"] == JStr(x.headline)
  {
    assert "headline" in DumpInsight(x).fields;
  }

  /** The dumped insight has exactly the declared keys. */
  lemma InsightDumpKeys(x: Insight)
    ensures DumpInsight(x).fields.Keys == InsightKeys
  {
    var f := DumpInsight(x).fields;
    assert f.Keys == InsightKeys;
  }

  lemma InsightTextFields(x: Insight)
    ensures var f := DumpInsight(x).fields;
      && ListOf(f, "what_changed", false, StrItem) == Ok(x.whatChanged)
      && ListOf(f, "why_it_matters", false, StrItem) == Ok(x.whyItMatters)
      && ListOf(f, "discussion_questions", false, StrItem) == Ok(x.discussionQuestions)
      && ListOf(f, "metrics_mentioned", true, StrItem) == Ok(x.metricsMentioned)
  {
    var f := DumpInsight(x).fields;
    StrListField(f, "what_changed", false, x.whatChanged);
    StrListField(f, "why_it_matters", false, x.whyItMatters);
    StrListField(f, "discussion_questions", false, x.discussionQuestions);
    StrListField(f, "metrics_mentioned", true, x.metricsMentioned);
  }

  lemma InsightTailFields(x: Insight)
    requires ValidInsight(x)
    ensures var f := DumpInsight(x).fields;
      && ListOf(f, "evidence", false, ParseEvidence) == Ok(x.evidence)
      && ListOf(f, "labels", true, ParseLabel) == Ok(x.labels)
      && ParseImportance(f) == Ok(x.importanceScore)
  {
    EvidenceListRoundTrip(x.evidence);
    LabelsRoundTrip(x.labels);
  }

  /** Dumping a valid insight and validating the result gives it back. */
  lemma InsightRoundTrip(x: Insight)
    requires ValidInsight(x)
    ensures ParseInsight(DumpInsight(x)) == Ok(x)
  {
    InsightHeadFields(x);
    InsightTextFields(x);
    InsightTailFields(x);
  }

  /* ---------------- InsightsDocument ---------------- */

  datatype InsightsDocument = InsightsDocument(
    runId: string,
    week: string,
    generatedAt: string,
    inputSummary: Fields,
    topics: seq<string>,
    insights: seq<Insight>,
    allMetrics: Fields,
    assets: seq<Fields>,
    relationships: seq<Fields>,
    warnings: seq<string>)

  const InsightsDocumentKeys: set<string> := {
    "run_id", "week", "generated_at", "input_summary", "topics", "insights", "all_metrics",
    "assets", "relationships", "warnings"}

  function ReqDict(f: Fields, k: string): (r: Parsed<Fields>)
    ensures r.Ok? ==> k in f && f[k] == JObj(r.value)
  {
    if k !in f then Err(Missing(k)) else if f[k].JObj? then Ok(f[k].fields) else Err(WrongType(k))
  }

  function ParseInsightsDocument(j: Json): (r: Parsed<InsightsDocument>)
    ensures r.Ok? ==> j.JObj? && j.fields.Keys <= InsightsDocumentKeys
    ensures r.Ok? ==> forall i :: 0 <= i < |r.value.insights| ==> ValidInsight(r.value.insights[i])
    ensures r.Ok? && "relationships" !in j.fields ==> r.value.relationships == []
    ensures r.Ok? && "warnings" !in j.fields ==> r.value.warnings == []
  {
    var f :- AsObject(j, InsightsDocumentKeys);
    var runId :- ReqStr(f, "run_id");
    var week :- ReqStr(f, "week");
    var gen :- ReqStr(f, "generated_at");
    var summary :- ReqDict(f, "input_summary");
    var topics :- ListOf(f, "topics", false, StrItem);
    var insights :- ListOf(f, "insights", false, ParseInsight);
    var allMetrics :- ReqDict(f, "all_metrics");
    var assets :- ListOf(f, "assets", false, DictItem);
    var rels :- ListOf(f, "relationships", true, DictItem);
    var warnings :- ListOf(f, "warnings", true, StrItem);
    Ok(InsightsDocument(runId, week, gen, summary, topics, insights, allMetrics, assets, rels, warnings))
  }
}
