# A verified model of the WBR deck agent and the Wyze intel hub

This project models, in Dafny, the deterministic core of two Python programs
that live side by side in one repository, and proves what that code promises.

**The WBR deck agent** turns uploaded dashboard screenshots and PDF pages
into a weekly-business-review deck.

| Dafny module | what it models |
|---|---|
| `Config` | resolves the configured provider, model id and mock mode |
| `Schemas` | the pydantic documents (source references, metrics, extractions, evidence, insights), with their literal, range and `extra="forbid"` constraints |
| `Extract` | per-asset extraction: the base64 size budget of an image upload, mime types, mock tags from file names, the bounded image-shrinking schedule, mock extraction, the provenance fields forced onto a provider's answer, and the choice of an Anthropic model id |
| `Synthesize`, `Relationships`, `Selection` | insight synthesis: metric-name canonicalisation, the metric co-mention graph, topic choice, the importance heuristic, de-duplication, capped selection, the final topic list and the input summary |
| `Deck` | the data handed to the deck template: topic slugs, citation strings, the executive summary and the top insights per topic |
| `Api` | the HTTP run lifecycle: validating a new run, the gates in front of uploads and starts, upload classification, queueing a build, and the output-file path check |

**The intel hub** ingests news and forum posts about Wyze and its
competitors, and renders a TV dashboard.

| Dafny module | what it models |
|---|---|
| `Repository` | the `intel_items` table as an in-memory sequence: the keyed upsert, the retention delete, the latest and since queries, the counts over half-open windows, and refresh-run records |
| `Intelligence` | ingestion: payloads from raw items, the per-batch de-duplicating store and its counters, brand extraction, and the sentiment and emerging-brand filters |
| `Reddit` | the Reddit post mapping and keep-filter |
| `TvMain` | the dashboard's display logic: ages, entity names, brand monograms and hues, delta badges, spike tables, the 30-day sparkline, and the header and banner |
| `Deploy` | the Render deploy script's decisions: archive exclusion, owner choice, deploy-status polling, the service URL, and new-deploy detection |

Shared helpers:

- `Text`: Python `str` operations, with ASCII case mapping.
- `Ordering`: lexicographic order, stable descending sort and `sorted(set(...))`.
- `Counter`: `collections.Counter` and `most_common`.
- `Paths`: the `parts`, `name` and `suffix` of a POSIX path.
- `Wrappers`: `Option` and `Result`.

**How the model is built.**

- Code that computes values becomes functions and lemmas.
- Code that changes state step by step becomes methods with loops, proved against specification functions:
  - the store classes `Repository.IntelTable`, `Repository.RefreshRun` and `Api.RunStore`;
  - the insight dicts that `render_deck_html` updates in place, `Deck.DeckInsight`;
  - the ingestion counters `Intelligence.IngestionStats`;
  - the loops of the source.
- Clocks, uuids, HTTP answers, provider replies, image encoders and floating-point scorers are parameters.
- Instants are integers counting microseconds since the epoch.
- Python floats that are only compared or stored are `real`.

## Model

| member | source | states |
|---|---|---|
| Config.EffectiveProvider | wbr-deck-agent/backend/wbr_deck_agent/core/config.py:29-40 | "anthropic"/"claude" select Anthropic and "openai" OpenAI after trimming and lowercasing; otherwise the first provider holding a key, OpenAI before Anthropic, and OpenAI when neither has one |
| Config.EffectiveModel | wbr-deck-agent/backend/wbr_deck_agent/core/config.py:42-43 | the model id is the one configured for the effective provider |
| Config.EffectiveMockMode | wbr-deck-agent/backend/wbr_deck_agent/core/config.py:45-51 | an explicit mock flag wins; otherwise mock mode holds exactly when the effective provider has no key |
| Config.AnthropicModelOnly | wbr-deck-agent/backend/wbr_deck_agent/core/config.py:29-51 | changing `anthropic_model` leaves the effective provider and mock mode as they were, and on the Anthropic path makes it the effective model |
| Config.ProviderNameInsensitive | wbr-deck-agent/backend/wbr_deck_agent/core/config.py:30 | two provider settings equal up to surrounding space and case resolve to the same provider |
| Config.AutoPrefersKeyedProvider | wbr-deck-agent/backend/wbr_deck_agent/core/config.py:35-40 | in auto mode a provider with a key is chosen whenever one exists, and mock mode (absent a flag) holds exactly when neither key is set |
| Config.DefaultsResolve | wbr-deck-agent/backend/wbr_deck_agent/core/config.py:13-23 | the default settings resolve to OpenAI, model "gpt-4o-mini", in mock mode |
| Config.DefaultsRequestAuto | wbr-deck-agent/backend/wbr_deck_agent/core/config.py:15-30 | the default provider field, trimmed and lower-cased, requests "auto" |
| Schemas.AsObject | wbr-deck-agent/backend/wbr_deck_agent/pipeline/schemas.py:9 | a model accepts exactly the objects whose keys are all declared (`extra="forbid"`) |
| Schemas.ReqStr | wbr-deck-agent/backend/wbr_deck_agent/pipeline/schemas.py:11 | a required `str` field validates exactly when the key is present with a string |
| Schemas.DefStr | wbr-deck-agent/backend/wbr_deck_agent/pipeline/schemas.py:28-29 | a missing optional `str` field takes its declared default |
| Schemas.OptStr | wbr-deck-agent/backend/wbr_deck_agent/pipeline/schemas.py:19-21 | a missing `Optional[str]` field is `None` |
| Schemas.LaxFloat | wbr-deck-agent/backend/wbr_deck_agent/pipeline/schemas.py:46 | a `float` field takes a JSON number or integer as it is, a string of the form `[-+]?[0-9]+(.[0-9]+)?` as the number it denotes, and nothing else |
| Schemas.LaxInt | wbr-deck-agent/backend/wbr_deck_agent/pipeline/schemas.py:72 | an `int` field takes a JSON integer as it is, a number only when it has no fractional part, a string only of the form `[-+]?[0-9]+`; whatever it takes denotes the same number as a float |
| Schemas.IntTextDecimal | wbr-deck-agent/backend/wbr_deck_agent/pipeline/schemas.py:72 | integer text read as a float denotes the same number |
| Schemas.IntTextRoundTrip | wbr-deck-agent/backend/wbr_deck_agent/pipeline/schemas.py:12 | the text `str(n)` is accepted as integer text and denotes `n` |
| Schemas.OptInt | wbr-deck-agent/backend/wbr_deck_agent/pipeline/schemas.py:12 | a missing or null `Optional[int]` field is `None`; any other value is accepted exactly when the lax `int` coercion takes it, as that integer |
| Schemas.Each | wbr-deck-agent/backend/wbr_deck_agent/pipeline/schemas.py:31 | a list validates exactly when every item does, item by item and in order |
| Schemas.ListOf | wbr-deck-agent/backend/wbr_deck_agent/pipeline/schemas.py:31 | a missing list field with a `default_factory` is `[]`; a required one must be present |
| Schemas.DumpStrs | wbr-deck-agent/backend/wbr_deck_agent/pipeline/schemas.py:43 | dumping a `list[str]` gives one JSON string per item |
| Schemas.StrsRoundTrip | wbr-deck-agent/backend/wbr_deck_agent/pipeline/schemas.py:43 | a dumped `list[str]` validates back to itself |
| Schemas.StrListField | wbr-deck-agent/backend/wbr_deck_agent/pipeline/schemas.py:43-47 | a list field holding dumped strings validates to those strings |
| Schemas.ParseSourceRef | wbr-deck-agent/backend/wbr_deck_agent/pipeline/schemas.py:8-12 | a valid `SourceRef` is an object with `filename` and no undeclared key |
| Schemas.SourceRefRoundTrip | wbr-deck-agent/backend/wbr_deck_agent/pipeline/schemas.py:8-12 | `SourceRef.model_validate(model_dump())` gives back the model |
| Schemas.ParseComparisonType | wbr-deck-agent/backend/wbr_deck_agent/pipeline/schemas.py:18 | the comparison type is accepted exactly when it is one of "WoW", "YoY", "vs_target", "vs_prior_period" |
| Schemas.ComparisonTypeRoundTrip | wbr-deck-agent/backend/wbr_deck_agent/pipeline/schemas.py:18 | every comparison type's name validates back to it |
| Schemas.ParseComparison | wbr-deck-agent/backend/wbr_deck_agent/pipeline/schemas.py:15-21 | a valid `Comparison` is an object with no undeclared key |
| Schemas.ComparisonRoundTrip | wbr-deck-agent/backend/wbr_deck_agent/pipeline/schemas.py:15-21 | a dumped `Comparison` validates back to itself |
| Schemas.DumpComparisons | wbr-deck-agent/backend/wbr_deck_agent/pipeline/schemas.py:31 | dumping a list of comparisons dumps each in order |
| Schemas.ComparisonsRoundTrip | wbr-deck-agent/backend/wbr_deck_agent/pipeline/schemas.py:31 | a dumped list of comparisons validates back to itself |
| Schemas.ParseDirectionality | wbr-deck-agent/backend/wbr_deck_agent/pipeline/schemas.py:30 | a missing directionality is "unknown"; a present one is one of the three literals |
| Schemas.ParseMetric | wbr-deck-agent/backend/wbr_deck_agent/pipeline/schemas.py:24-31 | a valid `Metric` is an object with no undeclared key |
| Schemas.MetricDefaults | wbr-deck-agent/backend/wbr_deck_agent/pipeline/schemas.py:24-31 | a metric given only its name has value "", unit "", directionality "unknown" and no comparisons |
| Schemas.MetricRoundTrip | wbr-deck-agent/backend/wbr_deck_agent/pipeline/schemas.py:24-31 | a dumped `Metric` validates back to itself |
| Schemas.MetricFromFields | wbr-deck-agent/backend/wbr_deck_agent/pipeline/schemas.py:24-31 | an object holding the dumped parts of a metric validates to that metric |
| Schemas.DumpMetrics | wbr-deck-agent/backend/wbr_deck_agent/pipeline/schemas.py:42 | dumping a list of metrics dumps each in order |
| Schemas.MetricsRoundTrip | wbr-deck-agent/backend/wbr_deck_agent/pipeline/schemas.py:42 | a dumped list of metrics validates back to itself |
| Schemas.ParseSourceType | wbr-deck-agent/backend/wbr_deck_agent/pipeline/schemas.py:38 | the source type is accepted exactly when it is "image" or "pdf_page" |
| Schemas.SourceTypeRoundTrip | wbr-deck-agent/backend/wbr_deck_agent/pipeline/schemas.py:38 | a dumped source type validates back to the same literal |
| Schemas.ParseConfidence | wbr-deck-agent/backend/wbr_deck_agent/pipeline/schemas.py:46 | confidence defaults to 0.0; a present value is accepted exactly when the lax `float` coercion takes it and the number lies in [0.0, 1.0], and is then that number |
| Schemas.ConfidenceFromText | wbr-deck-agent/backend/wbr_deck_agent/pipeline/schemas.py:46 | the string "0.5" validates to the confidence 0.5 |
| Schemas.ParseAssetExtraction | wbr-deck-agent/backend/wbr_deck_agent/pipeline/schemas.py:34-47 | a valid `AssetExtraction` has no undeclared key, its confidence lies in [0, 1], and its id, source type and source reference are the given ones |
| Schemas.AssetExtractionDefaults | wbr-deck-agent/backend/wbr_deck_agent/pipeline/schemas.py:34-47 | given only the three required keys, every other field takes its default |
| Schemas.ExtractionObject | wbr-deck-agent/backend/wbr_deck_agent/pipeline/schemas.py:34-47 | a dumped extraction is an object of declared keys only |
| Schemas.ExtractionSourceFields | wbr-deck-agent/backend/wbr_deck_agent/pipeline/schemas.py:38-39 | a dumped extraction holds its source type and source reference, each validating back to the original |
| Schemas.ExtractionSourceType | wbr-deck-agent/backend/wbr_deck_agent/pipeline/schemas.py:38 | the dumped `source_type` field validates back to the extraction's source type |
| Schemas.ExtractionSourceRef | wbr-deck-agent/backend/wbr_deck_agent/pipeline/schemas.py:39 | the dumped `source_ref` field validates back to the extraction's source reference |
| Schemas.ExtractionTextFields | wbr-deck-agent/backend/wbr_deck_agent/pipeline/schemas.py:40-41 | a dumped extraction holds its title and time range |
| Schemas.ExtractionMetricFields | wbr-deck-agent/backend/wbr_deck_agent/pipeline/schemas.py:42 | a dumped extraction's metrics validate back to its metrics |
| Schemas.ExtractionStrFields | wbr-deck-agent/backend/wbr_deck_agent/pipeline/schemas.py:43-47 | a dumped extraction's string lists hold its trends, anomalies, tags and notes |
| Schemas.AssetExtractionRoundTrip | wbr-deck-agent/backend/wbr_deck_agent/pipeline/schemas.py:34-47 | a dumped `AssetExtraction` with a valid confidence validates back to itself |
| Schemas.ParseEvidence | wbr-deck-agent/backend/wbr_deck_agent/pipeline/schemas.py:50-57 | a valid `Evidence` is an object with no undeclared key |
| Schemas.EvidenceRoundTrip | wbr-deck-agent/backend/wbr_deck_agent/pipeline/schemas.py:50-57 | a dumped `Evidence` validates back to itself |
| Schemas.ParseLabel | wbr-deck-agent/backend/wbr_deck_agent/pipeline/schemas.py:71 | a label is accepted exactly when it is "supported", "hypothesis" or "needs_data" |
| Schemas.ParseImportance | wbr-deck-agent/backend/wbr_deck_agent/pipeline/schemas.py:72 | the importance score defaults to 0; a present value is accepted exactly when the lax `int` coercion takes it and it lies in [0, 100], and is then that integer |
| Schemas.ImportanceCoerced | wbr-deck-agent/backend/wbr_deck_agent/pipeline/schemas.py:72 | the number 3.0 and the string "3" both validate to the score 3 |
| Schemas.ParseInsight | wbr-deck-agent/backend/wbr_deck_agent/pipeline/schemas.py:60-72 | a valid `Insight` has no undeclared key and an importance score within [0, 100] |
| Schemas.InsightRejectsScore | wbr-deck-agent/backend/wbr_deck_agent/pipeline/schemas.py:72 | an insight whose importance score lies outside [0, 100] is refused |
| Schemas.DumpEvidenceList | wbr-deck-agent/backend/wbr_deck_agent/pipeline/schemas.py:70 | dumping a list of evidence dumps each in order |
| Schemas.DumpLabels | wbr-deck-agent/backend/wbr_deck_agent/pipeline/schemas.py:71 | dumping a list of labels gives their literal names in order |
| Schemas.EvidenceListRoundTrip | wbr-deck-agent/backend/wbr_deck_agent/pipeline/schemas.py:70 | a dumped evidence list validates back to itself |
| Schemas.LabelRoundTrip | wbr-deck-agent/backend/wbr_deck_agent/pipeline/schemas.py:71 | every label's name validates back to it |
| Schemas.LabelsRoundTrip | wbr-deck-agent/backend/wbr_deck_agent/pipeline/schemas.py:71 | a dumped label list validates back to itself |
| Schemas.InsightHeadFields | wbr-deck-agent/backend/wbr_deck_agent/pipeline/schemas.py:60-65 | a dumped insight is an object of declared keys whose id, topic and headline validate back |
| Schemas.InsightDumpId | wbr-deck-agent/backend/wbr_deck_agent/pipeline/schemas.py:63 | a dumped insight holds its id |
| Schemas.InsightDumpTopic | wbr-deck-agent/backend/wbr_deck_agent/pipeline/schemas.py:64 | a dumped insight holds its topic |
| Schemas.InsightDumpHeadline | wbr-deck-agent/backend/wbr_deck_agent/pipeline/schemas.py:65 | a dumped insight holds its headline |
| Schemas.InsightDumpKeys | wbr-deck-agent/backend/wbr_deck_agent/pipeline/schemas.py:60-72 | a dumped insight has exactly the declared keys |
| Schemas.InsightTextFields | wbr-deck-agent/backend/wbr_deck_agent/pipeline/schemas.py:66-69 | a dumped insight's string lists validate back to its lists |
| Schemas.InsightTailFields | wbr-deck-agent/backend/wbr_deck_agent/pipeline/schemas.py:70-72 | a dumped insight's evidence, labels and score validate back |
| Schemas.InsightRoundTrip | wbr-deck-agent/backend/wbr_deck_agent/pipeline/schemas.py:60-72 | a dumped `Insight` with a valid score validates back to itself |
| Schemas.ReqDict | wbr-deck-agent/backend/wbr_deck_agent/pipeline/schemas.py:81 | a required `dict` field validates only when the key holds an object |
| Schemas.ParseInsightsDocument | wbr-deck-agent/backend/wbr_deck_agent/pipeline/schemas.py:75-87 | a valid document has no undeclared key, every insight is valid, and missing relationships and warnings are empty lists |
| Extract.Base64Budget | wbr-deck-agent/backend/wbr_deck_agent/pipeline/extract.py:20-23 | any image within the raw byte budget fits the 5 MiB base64 limit once encoded |
| Extract.Base64BudgetTight | wbr-deck-agent/backend/wbr_deck_agent/pipeline/extract.py:22-23 | the budget is 3932160 bytes and one byte more would overflow the limit |
| Extract.MimeForImage | wbr-deck-agent/backend/wbr_deck_agent/pipeline/extract.py:26-33 | "image/png" exactly for a ".png" suffix, "image/jpeg" exactly for ".jpg"/".jpeg", an octet stream otherwise, ignoring case |
| Extract.MimeCaseInsensitive | wbr-deck-agent/backend/wbr_deck_agent/pipeline/extract.py:27 | the mime type does not depend on the letter case of the file name |
| Extract.TagsOf | wbr-deck-agent/backend/wbr_deck_agent/pipeline/extract.py:114-125 | one tag per rule, in rule order |
| Extract.MatchingTagsSnoc | wbr-deck-agent/backend/wbr_deck_agent/pipeline/extract.py:114-125 | each rule test appends its tag exactly when one of its substrings occurs |
| Extract.MatchingTagsSpec | wbr-deck-agent/backend/wbr_deck_agent/pipeline/extract.py:114-125 | the matching tags keep rule order, include every firing rule's tag and no other, and are distinct when the rule tags are |
| Extract.MatchingTagsSubseq | wbr-deck-agent/backend/wbr_deck_agent/pipeline/extract.py:114-125 | the matching tags are a subsequence of the rule tags |
| Extract.MatchingTagsMembers | wbr-deck-agent/backend/wbr_deck_agent/pipeline/extract.py:114-125 | a tag is emitted exactly when its rule fires |
| Extract.MatchingTagsDistinct | wbr-deck-agent/backend/wbr_deck_agent/pipeline/extract.py:114-125 | distinct rule tags give distinct matching tags |
| Extract.TagRulesDistinct | wbr-deck-agent/backend/wbr_deck_agent/pipeline/extract.py:114-125 | the six rule tags are distinct |
| Extract.MockTagsSpec | wbr-deck-agent/backend/wbr_deck_agent/pipeline/extract.py:111-126 | the mock tags are a duplicate-free subsequence of the six rule tags, a tag present exactly when one of its substrings occurs in the lowercased file name, so `[:6]` never drops one |
| Extract.SubseqLength | wbr-deck-agent/backend/wbr_deck_agent/pipeline/extract.py:126 | a subsequence is no longer than its source |
| Extract.Fires2 | wbr-deck-agent/backend/wbr_deck_agent/pipeline/extract.py:116-118 | a two-substring rule fires exactly when either occurs |
| Extract.Fires3 | wbr-deck-agent/backend/wbr_deck_agent/pipeline/extract.py:114-122 | a three-substring rule fires exactly when one of them occurs |
| Extract.Fires4 | wbr-deck-agent/backend/wbr_deck_agent/pipeline/extract.py:120 | a four-substring rule fires exactly when one of them occurs |
| Extract.MockTagsHead | wbr-deck-agent/backend/wbr_deck_agent/pipeline/extract.py:114-119 | the first three rule tests append their tags as the rules say |
| Extract.MockTags | wbr-deck-agent/backend/wbr_deck_agent/pipeline/extract.py:111-126 | `_mock_tags_from_filename` computes the mock tags of the file name |
| Extract.StartSide | wbr-deck-agent/backend/wbr_deck_agent/pipeline/extract.py:179-185 | the first round's side is at least 1200, and at most the image's longest side unless raised to 1200 |
| Extract.Schedule | wbr-deck-agent/backend/wbr_deck_agent/pipeline/extract.py:188-201 | at most 12 rounds, the first at the starting side |
| Extract.NextSideSmaller | wbr-deck-agent/backend/wbr_deck_agent/pipeline/extract.py:199 | `int(side * 0.85)` is smaller than a positive side |
| Extract.ScheduleShape | wbr-deck-agent/backend/wbr_deck_agent/pipeline/extract.py:188-201 | every round after the first uses 85% of the previous side and none is below 640 |
| Extract.FirstFit | wbr-deck-agent/backend/wbr_deck_agent/pipeline/extract.py:194-197 | the result is the first quality's encoding that fits the budget, absent exactly when none fits |
| Extract.FirstFitting | wbr-deck-agent/backend/wbr_deck_agent/pipeline/extract.py:190-201 | the result fits the budget and is an encoding of some round at some quality; absent exactly when no round and quality fits |
| Extract.FirstFittingStep | wbr-deck-agent/backend/wbr_deck_agent/pipeline/extract.py:198-201 | a round where nothing fits hands over to the next, or ends once the side drops below 640 |
| Extract.FirstFittingHit | wbr-deck-agent/backend/wbr_deck_agent/pipeline/extract.py:194-197 | a round where some quality fits returns that encoding |
| Extract.TryQualities | wbr-deck-agent/backend/wbr_deck_agent/pipeline/extract.py:194-197 | the quality loop returns the first fitting encoding |
| Extract.Shrink | wbr-deck-agent/backend/wbr_deck_agent/pipeline/extract.py:188-201 | the round loop returns the first fitting encoding over the schedule |
| Extract.PrepareImageBytes | wbr-deck-agent/backend/wbr_deck_agent/pipeline/extract.py:153-206 | passes a small png or jpeg through; otherwise needs Pillow and sends the first fitting re-encoding as a JPEG, or fails |
| Extract.PreparedFits | wbr-deck-agent/backend/wbr_deck_agent/pipeline/extract.py:153-206 | a prepared image is within the budget, fits the base64 limit and is a png or jpeg |
| Extract.PreparePassThrough | wbr-deck-agent/backend/wbr_deck_agent/pipeline/extract.py:162-163 | a png or jpeg within the budget comes back unchanged with its own mime type |
| Extract.PrepareReencodes | wbr-deck-agent/backend/wbr_deck_agent/pipeline/extract.py:165-206 | otherwise the image is refused without Pillow, re-encoded as a JPEG from one of at most 12 shrinking rounds at one of the 10 qualities, or refused exactly when no such encoding fits |
| Extract.SourceTypeOf | wbr-deck-agent/backend/wbr_deck_agent/pipeline/extract.py:227 | "pdf_page" stays "pdf_page" and everything else becomes "image" |
| Extract.MockExtraction | wbr-deck-agent/backend/wbr_deck_agent/pipeline/extract.py:224-241 | the mock extraction carries the caller's id, source and normalised type, no metrics, confidence 0.1 and the file name's mock tags |
| Extract.MockExtractionSpec | wbr-deck-agent/backend/wbr_deck_agent/pipeline/extract.py:224-241 | mock mode emits one trend flagged "[NEEDS DATA]" and the result survives validation unchanged |
| Extract.ValidateAnswer | wbr-deck-agent/backend/wbr_deck_agent/pipeline/extract.py:316-323 | a validated answer carries the caller's asset id, source reference and normalised source type, whatever the provider said |
| Extract.ProvenanceOnly | wbr-deck-agent/backend/wbr_deck_agent/pipeline/extract.py:318-321 | only the three provenance fields of the answer are replaced |
| Extract.ExtractAssetSpec | wbr-deck-agent/backend/wbr_deck_agent/pipeline/extract.py:209-259 | every extraction carries the caller's provenance and a valid confidence; mock mode gives the mock extraction; absent an explicit flag a missing key means mock mode, never a key error |
| Extract.ExtractAssetOk | wbr-deck-agent/backend/wbr_deck_agent/pipeline/extract.py:209-259 | every successful extraction carries the caller's provenance and a valid confidence |
| Extract.ExtractAsset | wbr-deck-agent/backend/wbr_deck_agent/pipeline/extract.py:209-259 | mock mode gives the mock extraction; a missing-key error only when mock mode is off and the effective provider has no key; only `anthropic_model` of the settings can change, only when a non-mock extraction on the Anthropic path met a `NotFoundError`, and then it becomes the model the request was retried with |
| Extract.RetryAfterNotFound | wbr-deck-agent/backend/wbr_deck_agent/pipeline/extract.py:381-394 | the request is retried with the id `_resolve_anthropic_model` picks for the configured one, and afterwards the settings hold exactly that id, all else unchanged |
| Extract.ResolvedNonEmpty | wbr-deck-agent/backend/wbr_deck_agent/pipeline/extract.py:446-462 | the resolved id is empty only when the requested id is |
| Extract.ExtractAssetResolvesModel | wbr-deck-agent/backend/wbr_deck_agent/pipeline/extract.py:389-394 | after a `NotFoundError` the provider and mock mode are unchanged, and the effective model, which `/api/health` and later extractions use, is the resolved id |
| Extract.UsableIds | wbr-deck-agent/backend/wbr_deck_agent/pipeline/extract.py:442-443 | the usable ids are exactly the listed non-empty strings |
| Extract.FirstAvailable | wbr-deck-agent/backend/wbr_deck_agent/pipeline/extract.py:458-460 | the first preferred id that is listed, none before it listed |
| Extract.ResolveAnthropicModel | wbr-deck-agent/backend/wbr_deck_agent/pipeline/extract.py:428-462 | returns the requested id when listed, else the first listed preferred id, else the first listed id, else the requested id |
| Extract.ResolveModelSpec | wbr-deck-agent/backend/wbr_deck_agent/pipeline/extract.py:446-462 | the chosen id is the requested or a listed one, a listed one whenever any is listed, and a preferred id replaces the requested one only when that is unlisted and no better-ranked preferred id is listed |
| Extract.PreferredDistinct | wbr-deck-agent/backend/wbr_deck_agent/pipeline/extract.py:450-457 | the six preferred ids are distinct |
| Synthesize.DropNonWord | wbr-deck-agent/backend/wbr_deck_agent/pipeline/synthesize.py:21 | the leading run outside `[a-z0-9]` is dropped: what is left is a suffix starting with a word character |
| Synthesize.SubNonWordRuns | wbr-deck-agent/backend/wbr_deck_agent/pipeline/synthesize.py:21 | `re.sub(r"[^a-z0-9]+", " ", s)` keeps a leading word character in front |
| Synthesize.SubNonWordRunsSingleSpaced | wbr-deck-agent/backend/wbr_deck_agent/pipeline/synthesize.py:21 | after the first substitution only `[a-z0-9]` and single spaces remain |
| Synthesize.SubBackslashSNoBackslash | wbr-deck-agent/backend/wbr_deck_agent/pipeline/synthesize.py:22 | the second pattern, as written, matches a backslash followed by `s`s, so it changes nothing in a string without a backslash |
| Synthesize.StripSingleSpaced | wbr-deck-agent/backend/wbr_deck_agent/pipeline/synthesize.py:22 | stripping a single-spaced string leaves words separated by single spaces with no space at either end |
| Synthesize.CanonicalMetricName | wbr-deck-agent/backend/wbr_deck_agent/pipeline/synthesize.py:19-23 | a canonical name is "unknown_metric" or lowercase `[a-z0-9]` words joined by single spaces |
| Synthesize.SubNonWordRunsFixed | wbr-deck-agent/backend/wbr_deck_agent/pipeline/synthesize.py:21 | the substitution leaves a single-spaced string alone |
| Synthesize.CanonicalOfShaped | wbr-deck-agent/backend/wbr_deck_agent/pipeline/synthesize.py:19-23 | a name already in canonical shape is its own canonical name |
| Synthesize.CanonicalMetricNameIdempotent | wbr-deck-agent/backend/wbr_deck_agent/pipeline/synthesize.py:19-23 | canonicalising a canonical name changes nothing |
| Synthesize.AgendaBonus | wbr-deck-agent/backend/wbr_deck_agent/pipeline/synthesize.py:77-83 | the bonus is 0 or 10, and 0 without agenda notes |
| Synthesize.AgendaBonusCaseInsensitive | wbr-deck-agent/backend/wbr_deck_agent/pipeline/synthesize.py:80-81 | the bonus ignores the case of both the topic and the notes |
| Synthesize.AgendaBonusMatches | wbr-deck-agent/backend/wbr_deck_agent/pipeline/synthesize.py:80-82 | a topic written anywhere in non-empty notes, in any case, earns 10; so does the empty topic |
| Synthesize.AgendaBonusMisses | wbr-deck-agent/backend/wbr_deck_agent/pipeline/synthesize.py:81-83 | notes lacking a character of the lowercased topic earn 0 |
| Synthesize.AgendaBonusExactly | wbr-deck-agent/backend/wbr_deck_agent/pipeline/synthesize.py:77-83 | the bonus is 10 exactly when the notes are non-empty and the lowercased topic occurs in the lowercased notes |
| Synthesize.Topics | wbr-deck-agent/backend/wbr_deck_agent/pipeline/synthesize.py:95-98 | the topic list is never empty |
| Synthesize.TallyKeysUnique | wbr-deck-agent/backend/wbr_deck_agent/pipeline/synthesize.py:95 | a `Counter` lists its keys once each, in order of first appearance |
| Synthesize.TopicsFallback | wbr-deck-agent/backend/wbr_deck_agent/pipeline/synthesize.py:96-98 | `["misc"]` is taken when there are no tags or no topic is asked for; otherwise the topics are the `most_common` keys |
| Synthesize.TopicsAreTags | wbr-deck-agent/backend/wbr_deck_agent/pipeline/synthesize.py:95-96 | the topics are distinct tags, at most `max_topics` of them |
| Synthesize.TopicsMostFrequent | wbr-deck-agent/backend/wbr_deck_agent/pipeline/synthesize.py:96 | no tag left out of the topics occurs more often than a tag kept |
| Synthesize.TopicsTieOrder | wbr-deck-agent/backend/wbr_deck_agent/pipeline/synthesize.py:96 | among tags of equal count the topics keep first-seen order |
| Synthesize.ParsePct | wbr-deck-agent/backend/wbr_deck_agent/pipeline/synthesize.py:26-37 | no percentage without text or without a `%` |
| Synthesize.FrequencyPoints | wbr-deck-agent/backend/wbr_deck_agent/pipeline/synthesize.py:182 | the frequency points lie in [0, 20] |
| Synthesize.Clamp | wbr-deck-agent/backend/wbr_deck_agent/pipeline/synthesize.py:188 | the clamped score lies in [0, 100] and a score already in range is kept |
| Synthesize.MetricScore | wbr-deck-agent/backend/wbr_deck_agent/pipeline/synthesize.py:175-188 | the score of a metric candidate is always a valid importance score in [0, 100] |
| Synthesize.MetricScoreRange | wbr-deck-agent/backend/wbr_deck_agent/pipeline/synthesize.py:176-188 | the additive metric score lies in [0, 90], so the clamp never changes it |
| Synthesize.MetricScoreMonotonePct | wbr-deck-agent/backend/wbr_deck_agent/pipeline/synthesize.py:177-179 | a larger percentage change never scores less, and a percentage always scores more than none |
| Synthesize.RecordsOfMetrics | wbr-deck-agent/backend/wbr_deck_agent/pipeline/synthesize.py:104-118 | one instance record per metric of an extraction |
| Synthesize.InstancesOf | wbr-deck-agent/backend/wbr_deck_agent/pipeline/synthesize.py:108 | the instances under a canonical name are at most the records seen |
| Synthesize.IndexOfSpec | wbr-deck-agent/backend/wbr_deck_agent/pipeline/synthesize.py:101-118 | the index has a key exactly for each canonical name seen, with all its instances in order and the display name of its first occurrence (`setdefault`) |
| Synthesize.InstancesOfAbsent | wbr-deck-agent/backend/wbr_deck_agent/pipeline/synthesize.py:108 | a name never seen has no instances |
| Synthesize.FirstDisplayAppend | wbr-deck-agent/backend/wbr_deck_agent/pipeline/synthesize.py:107 | a later metric never replaces the display name set first |
| Synthesize.MetricFreq | wbr-deck-agent/backend/wbr_deck_agent/pipeline/synthesize.py:120 | `metric_freq` has the same keys as the index |
| Synthesize.MetricFreqSpec | wbr-deck-agent/backend/wbr_deck_agent/pipeline/synthesize.py:120 | the frequency of a canonical name is the number of metrics carrying it, at least one |
| Synthesize.AllMetrics | wbr-deck-agent/backend/wbr_deck_agent/pipeline/synthesize.py:252-255 | one summary per key, in key order |
| Synthesize.AllMetricsSpec | wbr-deck-agent/backend/wbr_deck_agent/pipeline/synthesize.py:252-255 | `all_metrics` lists every canonical name once in sorted order, with all its instances and its first display name |
| Synthesize.AllMetricsAt | wbr-deck-agent/backend/wbr_deck_agent/pipeline/synthesize.py:253 | each summary carries the display name and instances recorded for its key |
| Synthesize.AddMetric | wbr-deck-agent/backend/wbr_deck_agent/pipeline/synthesize.py:105-118 | one inner-loop step records one metric |
| Synthesize.IndexExtraction | wbr-deck-agent/backend/wbr_deck_agent/pipeline/synthesize.py:105-118 | the inner loop records every metric of one extraction |
| Synthesize.IndexMetrics | wbr-deck-agent/backend/wbr_deck_agent/pipeline/synthesize.py:104-118 | the index loop yields the index of every metric of every extraction |
| Relationships.MetricNames | wbr-deck-agent/backend/wbr_deck_agent/pipeline/synthesize.py:52 | at most one canonical name per metric |
| Relationships.MetricNamesMembers | wbr-deck-agent/backend/wbr_deck_agent/pipeline/synthesize.py:52 | a name is listed exactly when some metric with a non-blank name canonicalises to it |
| Relationships.UniqueNames | wbr-deck-agent/backend/wbr_deck_agent/pipeline/synthesize.py:53 | `sorted(set(names))` is strictly sorted and holds exactly the asset's names |
| Relationships.Row | wbr-deck-agent/backend/wbr_deck_agent/pipeline/synthesize.py:55-56 | one pair per later name |
| Relationships.EvidenceFor | wbr-deck-agent/backend/wbr_deck_agent/pipeline/synthesize.py:58-60 | at most one evidence entry per asset |
| Relationships.EdgesOf | wbr-deck-agent/backend/wbr_deck_agent/pipeline/synthesize.py:63-73 | one edge per kept pair, in `most_common` order |
| Relationships.CountRow | wbr-deck-agent/backend/wbr_deck_agent/pipeline/synthesize.py:55-60 | the innermost loop counts each pair of one row and appends the asset's evidence to it |
| Relationships.CountAssetPairs | wbr-deck-agent/backend/wbr_deck_agent/pipeline/synthesize.py:54-60 | the two inner loops count every pair of one asset's names and append its evidence to each |
| Relationships.BuildRelationships | wbr-deck-agent/backend/wbr_deck_agent/pipeline/synthesize.py:46-74 | the loops compute the edges of the co-mention graph |
| Relationships.MakeEdges | wbr-deck-agent/backend/wbr_deck_agent/pipeline/synthesize.py:62-73 | the final loop builds one edge per kept pair |
| Relationships.RowCount | wbr-deck-agent/backend/wbr_deck_agent/pipeline/synthesize.py:55-57 | one row holds each pair at most once |
| Relationships.RowsCount | wbr-deck-agent/backend/wbr_deck_agent/pipeline/synthesize.py:54-57 | the rows over a strictly sorted list hold `(a, b)` once exactly when both are listed and `a < b` |
| Relationships.PairsOfCount | wbr-deck-agent/backend/wbr_deck_agent/pipeline/synthesize.py:53-57 | within one asset each pair `(a, b)` with `a < b` of its names is counted once and no other pair is |
| Relationships.AllPairsCount | wbr-deck-agent/backend/wbr_deck_agent/pipeline/synthesize.py:48-57 | `pair_count[(a, b)]` is the number of assets naming both when `a < b`, and zero otherwise |
| Relationships.AddPairsAt | wbr-deck-agent/backend/wbr_deck_agent/pipeline/synthesize.py:58 | appending along pairs holding `p` at most once appends to `p` at most once |
| Relationships.EvidenceMapAt | wbr-deck-agent/backend/wbr_deck_agent/pipeline/synthesize.py:49-60 | `pair_evidence[(a, b)]` holds the evidence of every asset naming both, in asset order |
| Relationships.EvidenceForAssets | wbr-deck-agent/backend/wbr_deck_agent/pipeline/synthesize.py:58-60 | every evidence entry is that of an asset naming both metrics |
| Relationships.TopEntry | wbr-deck-agent/backend/wbr_deck_agent/pipeline/synthesize.py:63 | each pair `most_common` keeps is ordered `a < b` and its count is the number of assets naming both, at least one |
| Relationships.RelationshipsEdge | wbr-deck-agent/backend/wbr_deck_agent/pipeline/synthesize.py:63-73 | each edge links `a < b` named together by some asset; its count is the number of such assets, it is "supported" exactly when that count is at least two, and its evidence is that of the first five |
| Relationships.RelationshipsShape | wbr-deck-agent/backend/wbr_deck_agent/pipeline/synthesize.py:46-74 | at most `max_edges` edges, none when that is not positive, each pair once, counts non-increasing |
| Relationships.RelationshipsTop | wbr-deck-agent/backend/wbr_deck_agent/pipeline/synthesize.py:63 | when `most_common` drops a co-mentioned pair, its count is no higher than any kept edge's |
| Selection.FirstWithDelta | wbr-deck-agent/backend/wbr_deck_agent/pipeline/synthesize.py:142-146 | `best_cmp` is absent exactly when no comparison carries a delta, and otherwise is one that does |
| Selection.BestComparison | wbr-deck-agent/backend/wbr_deck_agent/pipeline/synthesize.py:142-146 | the loop with its `break` settles on the first comparison carrying a delta |
| Selection.DeltaText | wbr-deck-agent/backend/wbr_deck_agent/pipeline/synthesize.py:149 | the percentage delta when it is set, else the absolute delta; empty exactly when neither is set |
| Selection.Headline | wbr-deck-agent/backend/wbr_deck_agent/pipeline/synthesize.py:153-155 | the headline starts with the display name; it is exactly the display name when there is no delta snippet, and otherwise contains the snippet and ends with ")" |
| Selection.WhatChanged | wbr-deck-agent/backend/wbr_deck_agent/pipeline/synthesize.py:157-166 | the line opens with the metric name and ends with a full stop, contains the value and the delta snippet whenever they were extracted, and ends with the "[NEEDS DATA]" notice when neither was |
| Selection.MetricImportance | wbr-deck-agent/backend/wbr_deck_agent/pipeline/synthesize.py:175-188 | the importance of a metric candidate lies in [0, 90] |
| Selection.ExTopic | wbr-deck-agent/backend/wbr_deck_agent/pipeline/synthesize.py:40-43 | an asset's topic is always on the topic list: its first tag when listed, "misc" for an untagged asset when listed, else the leading topic (126-129) |
| Selection.Numbered | wbr-deck-agent/backend/wbr_deck_agent/pipeline/synthesize.py:190-192 | one candidate per element, each with its own identifier |
| Selection.MetricInsights | wbr-deck-agent/backend/wbr_deck_agent/pipeline/synthesize.py:140-203 | one candidate per metric of the slice |
| Selection.MetricCandidates | wbr-deck-agent/backend/wbr_deck_agent/pipeline/synthesize.py:140-203 | the inner metric loop yields one candidate per metric, numbered in order |
| Selection.BuildCandidates | wbr-deck-agent/backend/wbr_deck_agent/pipeline/synthesize.py:123-220 | the candidate loop yields the candidates of every asset in order |
| Selection.NumberedAt | wbr-deck-agent/backend/wbr_deck_agent/pipeline/synthesize.py:190-192 | the `i`-th candidate carries the `i`-th identifier |
| Selection.MetricInsightFacts | wbr-deck-agent/backend/wbr_deck_agent/pipeline/synthesize.py:147-203 | a metric candidate has one line of each text, one evidence item citing its asset, and is labelled `needs_data` exactly when neither value nor delta was extracted, in which case it says so |
| Selection.TrendInsightFacts | wbr-deck-agent/backend/wbr_deck_agent/pipeline/synthesize.py:204-220 | an asset without metrics gives one `needs_data` candidate headed by its first trend (or the placeholder) and scored 5 or 15 |
| Selection.CandidatesCount | wbr-deck-agent/backend/wbr_deck_agent/pipeline/synthesize.py:123-220 | every asset gives between one and six candidates |
| Selection.ExCandidatesShape | wbr-deck-agent/backend/wbr_deck_agent/pipeline/synthesize.py:125-220 | each candidate of an asset is well formed and cites that asset |
| Selection.CandidatesShape | wbr-deck-agent/backend/wbr_deck_agent/pipeline/synthesize.py:123-220 | the `i`-th candidate is well formed, carries the `i`-th identifier, a listed topic, and cites one of the assets |
| Selection.FirstOfEachKey | wbr-deck-agent/backend/wbr_deck_agent/pipeline/synthesize.py:223-230 | the loop with the `seen` set keeps the first element of each key |
| Selection.Dedupe | wbr-deck-agent/backend/wbr_deck_agent/pipeline/synthesize.py:222-230 | de-duplication sorts by importance and keeps the first of each key |
| Selection.DedupSpec | wbr-deck-agent/backend/wbr_deck_agent/pipeline/synthesize.py:223-230 | the survivors are a subsequence of the input, no key twice, none already seen, and every other key of the input survives |
| Selection.DedupBest | wbr-deck-agent/backend/wbr_deck_agent/pipeline/synthesize.py:225-230 | over input sorted by descending score the survivor of a key has that key's highest score |
| Selection.DeduplicatedSpec | wbr-deck-agent/backend/wbr_deck_agent/pipeline/synthesize.py:222-230 | `deduped` is sorted by descending importance, drawn from the candidates, one per key, with every key represented |
| Selection.SortedDedupSpec | wbr-deck-agent/backend/wbr_deck_agent/pipeline/synthesize.py:225-230 | sorting then keeping the first of each key gives a sorted list of distinct keys drawn from the input |
| Selection.SortedDedupCovered | wbr-deck-agent/backend/wbr_deck_agent/pipeline/synthesize.py:225-230 | sorting then keeping the first of each key leaves a survivor for every key |
| Selection.DeduplicatedBest | wbr-deck-agent/backend/wbr_deck_agent/pipeline/synthesize.py:225-230 | the insight kept for a key has the highest importance among the candidates with that key |
| Selection.SelectSpec | wbr-deck-agent/backend/wbr_deck_agent/pipeline/synthesize.py:232-242 | the selection keeps input order, holds at most `max_insights` insights (none when that is not positive) and at most five per topic |
| Selection.SelectMaximal | wbr-deck-agent/backend/wbr_deck_agent/pipeline/synthesize.py:236-242 | while there is room overall, an insight is left out only because its topic already has five |
| Selection.SelectStays | wbr-deck-agent/backend/wbr_deck_agent/pipeline/synthesize.py:237-238 | once `max_insights` are selected nothing more is added |
| Selection.SelectInsights | wbr-deck-agent/backend/wbr_deck_agent/pipeline/synthesize.py:232-242 | the selection loop with its `break` and `continue` computes the selection |
| Selection.TopicsOf | wbr-deck-agent/backend/wbr_deck_agent/pipeline/synthesize.py:246 | one topic per selected insight |
| Selection.FinalTopicsStop | wbr-deck-agent/backend/wbr_deck_agent/pipeline/synthesize.py:249-250 | once `max_topics` are listed the rest of the selection adds none |
| Selection.FinalTopicsLoop | wbr-deck-agent/backend/wbr_deck_agent/pipeline/synthesize.py:245-250 | the final-topics loop computes the final topic list |
| Selection.FinalTopicsSpec | wbr-deck-agent/backend/wbr_deck_agent/pipeline/synthesize.py:244-250 | the final topics are distinct topics of the selection, at most `max(1, max_topics)`, none exactly when nothing was selected, and all of them when there is room |
| Selection.FinalTopicsOrder | wbr-deck-agent/backend/wbr_deck_agent/pipeline/synthesize.py:246-248 | the final topics are in order of first appearance in the selection |
| Selection.SubseqKeysDistinct | wbr-deck-agent/backend/wbr_deck_agent/pipeline/synthesize.py:236-242 | selecting from de-duplicated insights keeps their keys distinct |
| Selection.InsightContext | wbr-deck-agent/backend/wbr_deck_agent/pipeline/synthesize.py:94-98 | the candidate loop always has a non-empty topic list |
| Selection.CandidatesWellFormed | wbr-deck-agent/backend/wbr_deck_agent/pipeline/synthesize.py:123-220 | every candidate is well formed on the topic list |
| Selection.SelectedSpec | wbr-deck-agent/backend/wbr_deck_agent/pipeline/synthesize.py:222-242 | the selected insights are well-formed candidates, in descending importance, no two near-identical, at most `max_insights`, at most five per topic |
| Selection.FinalTopicsWithin | wbr-deck-agent/backend/wbr_deck_agent/pipeline/synthesize.py:244-250 | every final topic is on the topic list |
| Selection.GenerateInsights | wbr-deck-agent/backend/wbr_deck_agent/pipeline/synthesize.py:86-257 | returns the selection of the de-duplicated candidates, its final topics (all on the topic list) and `all_metrics` over the sorted canonical names |
| Selection.CountPdf | wbr-deck-agent/backend/wbr_deck_agent/pipeline/synthesize.py:267-268 | at most one PDF page per extraction |
| Selection.TallyMore | wbr-deck-agent/backend/wbr_deck_agent/pipeline/synthesize.py:271 | `tags.update` tallies the tags seen so far followed by the new ones |
| Selection.BuildInputSummary | wbr-deck-agent/backend/wbr_deck_agent/pipeline/synthesize.py:260-277 | the summary counts every asset, images plus PDF pages make the total, and `topics_found` is the twelve most common tags |
| Selection.TopicsFoundSpec | wbr-deck-agent/backend/wbr_deck_agent/pipeline/synthesize.py:276 | `topics_found` lists at most twelve distinct tags, none exactly when there are no tags, and otherwise the topics for `max_topics = 12` |
| Deck.SlugChars | wbr-deck-agent/backend/wbr_deck_agent/render/deck.py:218-224 | the character loop keeps only letters, digits and dashes |
| Deck.DashStripLeft | wbr-deck-agent/backend/wbr_deck_agent/render/deck.py:224 | stripping leading dashes removes exactly the leading run of dashes |
| Deck.DashStripRight | wbr-deck-agent/backend/wbr_deck_agent/render/deck.py:224 | stripping trailing dashes removes exactly the trailing run of dashes |
| Deck.DashStrip | wbr-deck-agent/backend/wbr_deck_agent/render/deck.py:224 | `strip("-")` leaves no dash at either end |
| Deck.ReplaceDashes | wbr-deck-agent/backend/wbr_deck_agent/render/deck.py:226 | `replace("--", "-")` never lengthens the string |
| Deck.Collapse | wbr-deck-agent/backend/wbr_deck_agent/render/deck.py:225-226 | collapsing dash runs never lengthens the string |
| Deck.ContainsDoubleDash | wbr-deck-agent/backend/wbr_deck_agent/render/deck.py:225 | a string with two dashes in a row contains `"--"` |
| Deck.ReplaceShrinks | wbr-deck-agent/backend/wbr_deck_agent/render/deck.py:225-226 | each pass of the `while "--" in slug` loop shortens the slug, so the loop ends |
| Deck.CollapseAfterReplace | wbr-deck-agent/backend/wbr_deck_agent/render/deck.py:226 | one replace pass does not change the collapsed result of what follows a character |
| Deck.ReplaceKeepsCollapse | wbr-deck-agent/backend/wbr_deck_agent/render/deck.py:225-226 | one replace pass preserves the loop's eventual result |
| Deck.CollapseNoDoubleDash | wbr-deck-agent/backend/wbr_deck_agent/render/deck.py:225 | a slug without `"--"` leaves the loop unchanged |
| Deck.CollapseShape | wbr-deck-agent/backend/wbr_deck_agent/render/deck.py:225-226 | the loop leaves no two dashes in a row, adds no character, and keeps the first and last characters |
| Deck.AlnumsSnoc | wbr-deck-agent/backend/wbr_deck_agent/render/deck.py:219-221 | appending a character adds it to the letters and digits exactly when it is one |
| Deck.AlnumsAppend | wbr-deck-agent/backend/wbr_deck_agent/render/deck.py:219-221 | the letters and digits of a concatenation are those of each part in turn |
| Deck.AlnumsHead | wbr-deck-agent/backend/wbr_deck_agent/render/deck.py:219-221 | prepending a character adds it to the letters and digits exactly when it is one |
| Deck.AlnumsSlugChars | wbr-deck-agent/backend/wbr_deck_agent/render/deck.py:219-221 | the character loop keeps every letter and digit, in order |
| Deck.AlnumsDashStripLeft | wbr-deck-agent/backend/wbr_deck_agent/render/deck.py:224 | stripping leading dashes loses no letter or digit |
| Deck.AlnumsDashStripRight | wbr-deck-agent/backend/wbr_deck_agent/render/deck.py:224 | stripping trailing dashes loses no letter or digit |
| Deck.AlnumsCollapse | wbr-deck-agent/backend/wbr_deck_agent/render/deck.py:225-226 | collapsing dashes loses no letter or digit |
| Deck.DashesOnly | wbr-deck-agent/backend/wbr_deck_agent/render/deck.py:219-224 | a loop output without letters or digits is all dashes |
| Deck.DashStripAllDashes | wbr-deck-agent/backend/wbr_deck_agent/render/deck.py:224 | stripping an all-dash string leaves nothing |
| Deck.SlugCharsLower | wbr-deck-agent/backend/wbr_deck_agent/render/deck.py:219-226 | the collapsed, stripped slug holds only lowercase letters, digits and dashes |
| Deck.CoreCharsLower | wbr-deck-agent/backend/wbr_deck_agent/render/deck.py:219-226 | a lowercased input gives a slug core of lowercase letters, digits and dashes |
| Deck.SlugAlnums | wbr-deck-agent/backend/wbr_deck_agent/render/deck.py:219-226 | the slug core keeps exactly the letters and digits of the stripped, lowercased input |
| Deck.SlugShape | wbr-deck-agent/backend/wbr_deck_agent/render/deck.py:217-227 | a slug is non-empty, only lowercase letters, digits and dashes, no dash at either end and no `"--"` |
| Deck.FallbackShaped | wbr-deck-agent/backend/wbr_deck_agent/render/deck.py:227 | the `or "topic"` fallback turns a well-formed core, possibly empty, into a well-formed slug |
| Deck.CoreDashes | wbr-deck-agent/backend/wbr_deck_agent/render/deck.py:224-226 | stripping then collapsing leaves no dash at either end and no two in a row |
| Deck.SlugLetters | wbr-deck-agent/backend/wbr_deck_agent/render/deck.py:217-227 | a slug keeps exactly the letters and digits of the stripped, lowercased input, and is "topic" when there are none |
| Deck.SlugCharsFrom | wbr-deck-agent/backend/wbr_deck_agent/render/deck.py:219-223 | the character loop adds only input characters and dashes |
| Deck.SlugPieces | wbr-deck-agent/backend/wbr_deck_agent/render/deck.py:218-223 | the character loop computes the joined pieces |
| Deck.CollapseDashes | wbr-deck-agent/backend/wbr_deck_agent/render/deck.py:225-226 | the `while` loop collapses every run of dashes to one |
| Deck.Slug | wbr-deck-agent/backend/wbr_deck_agent/render/deck.py:217-227 | `_slug`, loop for loop, computes the slug |
| Deck.CitationParts | wbr-deck-agent/backend/wbr_deck_agent/render/deck.py:171-177 | one part per cited evidence item |
| Deck.NonEmpty | wbr-deck-agent/backend/wbr_deck_agent/render/deck.py:178 | `[p for p in parts if p]` keeps exactly the non-empty parts |
| Deck.Citations | wbr-deck-agent/backend/wbr_deck_agent/render/deck.py:168-178 | the citation loop computes the citation text |
| Deck.CitationSpec | wbr-deck-agent/backend/wbr_deck_agent/render/deck.py:168-178 | only the first three evidence items count; "[NEEDS DATA]" exactly when none yields a part; otherwise the non-empty parts joined by ", "; a lone item is cited by its own part |
| Deck.CitationSingle | wbr-deck-agent/backend/wbr_deck_agent/render/deck.py:174-178 | a lone evidence item with a part is cited by that part |
| Deck.CitationNeedsData | wbr-deck-agent/backend/wbr_deck_agent/render/deck.py:178 | without a non-empty part the citation is "[NEEDS DATA]" |
| Deck.CitationJoined | wbr-deck-agent/backend/wbr_deck_agent/render/deck.py:178 | with a non-empty part the citation is the joined non-empty parts, and not empty |
| Deck.NonEmptyOfEmpties | wbr-deck-agent/backend/wbr_deck_agent/render/deck.py:178 | filtering only empty parts leaves nothing |
| Deck.JoinNonEmpty | wbr-deck-agent/backend/wbr_deck_agent/render/deck.py:178 | joining parts whose first is non-empty gives a non-empty string |
| Deck.DeckInsight.constructor | wbr-deck-agent/backend/wbr_deck_agent/render/deck.py:182 | an insight dict starts with its topic, score and evidence and no `_citations` |
| Deck.InTopic | wbr-deck-agent/backend/wbr_deck_agent/render/deck.py:191-195 | a group holds at most the insights given |
| Deck.Anchors | wbr-deck-agent/backend/wbr_deck_agent/render/deck.py:189 | one anchor per topic |
| Deck.GroupByTopic | wbr-deck-agent/backend/wbr_deck_agent/render/deck.py:190-195 | the grouping loop appends each insight to its resolved topic's list, skipping unlisted topics |
| Deck.TrimGroup | wbr-deck-agent/backend/wbr_deck_agent/render/deck.py:199-201 | one topic's list is sorted by descending score and cut to five |
| Deck.TrimGroups | wbr-deck-agent/backend/wbr_deck_agent/render/deck.py:198-201 | the trimming loop treats every topic's list |
| Deck.AddCitations | wbr-deck-agent/backend/wbr_deck_agent/render/deck.py:185-186 | every executive-summary insight gets its citation text in place |
| Deck.TopicAnchors | wbr-deck-agent/backend/wbr_deck_agent/render/deck.py:189 | one `_slug` call per topic |
| Deck.RenderDeck | wbr-deck-agent/backend/wbr_deck_agent/render/deck.py:181-202 | returns the anchors, the per-topic blocks and the executive summary; the summary insights get their citations and no other insight changes |
| Deck.GroupedKeys | wbr-deck-agent/backend/wbr_deck_agent/render/deck.py:190 | the groups are keyed by exactly the listed topics |
| Deck.GroupedSpec | wbr-deck-agent/backend/wbr_deck_agent/render/deck.py:191-195 | each group holds the insights resolved to its topic, in document order |
| Deck.InTopicMembers | wbr-deck-agent/backend/wbr_deck_agent/render/deck.py:192-195 | an insight is in a group exactly when its resolved topic is that group's |
| Deck.BlocksNoOp | wbr-deck-agent/backend/wbr_deck_agent/render/deck.py:200-201 | the `< 2` branch changes nothing |
| Deck.ByTopicSpec | wbr-deck-agent/backend/wbr_deck_agent/render/deck.py:190-201 | each topic's blocks are its insights sorted by descending score (ties in document order), at most five, all of them when there are at most five |
| Deck.ByTopicMaximal | wbr-deck-agent/backend/wbr_deck_agent/render/deck.py:199 | an insight cut from its topic's blocks scores no higher than any insight kept |
| Deck.ExecSummarySpec | wbr-deck-agent/backend/wbr_deck_agent/render/deck.py:184 | the executive summary is the top five insights by descending score, ties in document order, drawn from the insights |
| Deck.ExecSummaryMaximal | wbr-deck-agent/backend/wbr_deck_agent/render/deck.py:184 | an insight left out of the executive summary scores no higher than any insight in it |
| Api.ValidateRun | wbr-deck-agent/backend/wbr_deck_agent/api/main.py:29-33 | a run body is accepted exactly when the week has 1 to 64 characters, `max_topics` (when given) lies in 1..12, `max_insights` in 1..40 and the agenda notes have at most 4000 characters; absent counts default to 6 and 12 |
| Api.DefaultsAccepted | wbr-deck-agent/backend/wbr_deck_agent/api/main.py:29-33 | a body with only a week of acceptable length gives 6 topics, 12 insights and no notes |
| Api.Gate | wbr-deck-agent/backend/wbr_deck_agent/api/main.py:101-105 | a request passes exactly when the run exists and is still "created"; an unknown run is a 404, any other refusal a 400 |
| Api.NewRunIsOpen | wbr-deck-agent/backend/wbr_deck_agent/core/db.py:86-123 | a newly created run accepts uploads and a start |
| Api.QueuedRunIsClosed | wbr-deck-agent/backend/wbr_deck_agent/api/main.py:158-161 | once started, a run refuses further uploads and starts with a 400 |
| Api.LowerIsSpec | wbr-deck-agent/backend/wbr_deck_agent/api/main.py:116-118 | the character-wise comparison is `s.lower() == t` |
| Api.KindOfName | wbr-deck-agent/backend/wbr_deck_agent/api/main.py:116-120 | a named file is a PDF, an image or unsupported, never skipped |
| Api.KindOfNameSpec | wbr-deck-agent/backend/wbr_deck_agent/api/main.py:116-118 | a file is a PDF exactly when its lower-cased suffix is ".pdf", and an image exactly when it is ".png", ".jpg" or ".jpeg" |
| Api.ImageExtensionTest | wbr-deck-agent/backend/wbr_deck_agent/api/main.py:118 | the three case-insensitive comparisons agree with membership of the lower-cased suffix in the image extensions |
| Api.Classify | wbr-deck-agent/backend/wbr_deck_agent/api/main.py:113-118 | an upload is skipped exactly when it has no file name |
| Api.KindIgnoresCase | wbr-deck-agent/backend/wbr_deck_agent/api/main.py:116 | names differing only in letter case are classified alike |
| Api.AcceptedExtensions | wbr-deck-agent/backend/wbr_deck_agent/api/main.py:115-120 | a non-empty stem followed by ".pdf" is a PDF, and by an image extension an image |
| Api.SuffixOfExtension | wbr-deck-agent/backend/wbr_deck_agent/api/main.py:116 | the suffix of a stem followed by a single-dot extension is that extension |
| Api.MapIndexed | wbr-deck-agent/backend/wbr_deck_agent/api/main.py:112 | one result per file |
| Api.MapIndexedAt | wbr-deck-agent/backend/wbr_deck_agent/api/main.py:112 | the i-th result is computed from the i-th file and its position |
| Api.DecisionAt | wbr-deck-agent/backend/wbr_deck_agent/api/main.py:112-147 | the i-th decision is the decision for the i-th file with the i-th fresh hex |
| Api.DecideAt | wbr-deck-agent/backend/wbr_deck_agent/api/main.py:112-147 | the loop's decision for a file is its planned decision, and a stored asset belongs to the run |
| Api.OutcomeStops | wbr-deck-agent/backend/wbr_deck_agent/api/main.py:119-120 | after the first rejection later files change nothing |
| Api.OutcomeCreated | wbr-deck-agent/backend/wbr_deck_agent/api/main.py:112-148 | every created asset was stored by a decision, and there are no more assets than decisions |
| Api.OutcomeRejects | wbr-deck-agent/backend/wbr_deck_agent/api/main.py:119-120 | the request is rejected exactly when some decision rejects |
| Api.PlannedAssets | wbr-deck-agent/backend/wbr_deck_agent/api/main.py:115-147 | every created asset belongs to the run, has a base name without slashes whose extension matches its source type, is stored under the run with a hex prefix, and has an image path exactly when it is an image |
| Api.AnySnoc | wbr-deck-agent/backend/wbr_deck_agent/api/main.py:112 | some file of a longer list qualifies exactly when one of the shorter list does or the last one does |
| Api.PlannedRejects | wbr-deck-agent/backend/wbr_deck_agent/api/main.py:112-120 | an upload request fails with 400 exactly when one of its files has an unsupported type |
| Api.OutFile | wbr-deck-agent/backend/wbr_deck_agent/api/main.py:166-176 | the corrected endpoint serves the target exactly when it lies within the base, component by component, and exists; 400 exactly when it lies outside |
| Api.OutFileAsWritten | wbr-deck-agent/backend/wbr_deck_agent/api/main.py:166-176 | the endpoint as written serves the target exactly when its text starts with the base's text and it exists |
| Api.PrefixAdmitsSibling | wbr-deck-agent/backend/wbr_deck_agent/api/main.py:170-171 | the prefix test serves "/o/ab" under base "/o/a", which the component test refuses |
| Api.WithinJoined | wbr-deck-agent/backend/wbr_deck_agent/api/main.py:168-171 | every path joined onto the base is within it, and the two tests agree there |
| Api.RunStore.constructor | wbr-deck-agent/backend/wbr_deck_agent/core/db.py:86-123 | the store starts with no runs, assets or jobs |
| Api.RunStore.CreateRun | wbr-deck-agent/backend/wbr_deck_agent/api/main.py:76-88 | an invalid body is a 422 naming the first failing field; a taken id is a 500; otherwise a new run that is "created", "idle", with the validated settings, is added and nothing else changes |
| Api.RunStore.UploadAssets | wbr-deck-agent/backend/wbr_deck_agent/api/main.py:99-150 | a gated run changes nothing; otherwise the assets of the files before the first unsupported one are added, in order, and the answer is those assets, or a 400 naming the unsupported file |
| Api.RunStore.AddAsset | wbr-deck-agent/backend/wbr_deck_agent/core/db.py:150-188 | one more asset row of a known run, at the end |
| Api.RunStore.StartRun | wbr-deck-agent/backend/wbr_deck_agent/api/main.py:153-163 | a gated run changes nothing; otherwise the run becomes "queued" with message "Queued." and progress 0, and one "build" job is enqueued |
| Repository.Find | app/services/repository.py:30-36 | the lookup finds a row carrying the key, and finds none exactly when no row does |
| Repository.UpsertInserts | app/services/repository.py:52-68 | without a row of the payload's key one row with that key is appended, with the "unknown" defaults for missing source fields |
| Repository.UpsertUpdates | app/services/repository.py:37-50 | with a row of the payload's key, that row is replaced in place by the payload merged into it: title, summary, publication time, engagement, sentiment, relevance and raw JSON from the payload, entity and source fields from the payload when given, fetch time `now`; row count, every key and every other row stay |
| Repository.UpsertKeys | app/services/repository.py:29-68 | the upsert keeps the unique key and adds exactly the payload's key |
| Repository.Kept | app/services/repository.py:103-110 | the retention delete never adds rows |
| Repository.KeptSnoc | app/services/repository.py:105-108 | one more row is kept when it is recent enough, and counted as deleted otherwise |
| Repository.KeptSpec | app/services/repository.py:103-110 | the retention delete keeps exactly the rows published at or after the cutoff, in order, and removes as many as were older |
| Repository.KeptUnique | app/services/repository.py:103-110 | deleting rows keeps the unique key |
| Repository.SubseqUnique | app/services/repository.py:103-110 | any subsequence of a table with unique keys has unique keys |
| Repository.Limit | app/services/repository.py:76 | SQL `LIMIT n` takes the first `n` rows, and all of them for a negative `n` |
| Repository.Select | app/services/repository.py:72-74 | the `WHERE` clause admits exactly the rows it tests true |
| Repository.QuerySpec | app/services/repository.py:71-100 | a query returns admitted rows of the table, sorted by its key, at most `limit`, all of them when fewer qualify, and none left out ranks above one returned |
| Repository.GroupCountsSpec | app/services/repository.py:253-274 | `GROUP BY` with `count()` lists a key exactly when some admitted row has it, with the number of such rows |
| Repository.GroupCountsSnoc | app/services/repository.py:259-261 | one more admitted row bumps its key's count |
| Repository.CountGroups | app/services/repository.py:259-261 | the grouping loop computes the group counts |
| Repository.IntelTable.constructor | app/services/repository.py:29 | the table starts empty |
| Repository.IntelTable.Upsert | app/services/repository.py:29-68 | updates the row with the payload's key in place and answers false, or appends a new row and answers true exactly when no row had the key |
| Repository.IntelTable.Cleanup | app/services/repository.py:103-110 | deletes every row published before the cutoff, keeps the unique key, and answers the number of rows removed |
| Repository.IntelTable.TopicCountsBetween | app/services/repository.py:253-262 | counts the rows of each topic published in `[start, end)` |
| Repository.IntelTable.EntityCountsBetween | app/services/repository.py:265-274 | counts the rows of each entity of a topic published in `[start, end)` |
| Repository.LatestItemsSpec | app/services/repository.py:71-77 | `get_latest_items` returns rows of the topic (and entity when given), newest first, at most `limit` |
| Repository.ItemsSinceSpec | app/services/repository.py:80-100 | `get_items_since` returns rows of the topic published at or after `since`, in the order `order_by` names, at most `limit` |
| Repository.TopicCountsSpec | app/services/repository.py:253-262 | a topic is counted exactly when one of its rows lies in `[start, end)`, with that many rows |
| Repository.RefreshRun.constructor | app/services/repository.py:12-17 | a refresh run starts "running" with message "Ingesting latest intel" and no completion time |
| Repository.RefreshRun.Complete | app/services/repository.py:20-26 | completing a run sets its completion time, status, message and item count, and keeps its start |
| Intelligence.NormalEntity | app/services/intelligence.py:57 | the stored entity has no capitals and no surrounding whitespace |
| Intelligence.NormalEntityIdempotent | app/services/intelligence.py:57 | normalising an entity twice changes nothing more |
| Intelligence.FinalizeItem | app/services/intelligence.py:46-67 | the payload keeps the topic; its entity is the lowercased, stripped entity; its title, url and summary are the base item's, stripped (empty when absent); source type and name are the base's or "unknown"; engagement is the base's engagement score or 0; the publication time is the base's or the clock's; sentiment is scored on the stripped title and summary, relevance on that time, that engagement and the query bonus; raw is the base's or `{}` |
| Intelligence.FinalizeKeyNormal | app/services/intelligence.py:57 | entity names differing only in case and surrounding whitespace give the same upsert key, so they land on the same row |
| Intelligence.NormalizeKey | app/services/intelligence.py:193-194 | a normal key has no capitals, no hyphen and no surrounding whitespace |
| Intelligence.NormalizedChars | app/services/intelligence.py:194 | lowering, replacing hyphens and stripping leaves no capital and no hyphen |
| Intelligence.ReplaceAbsent | app/services/intelligence.py:194 | replacing a character that does not occur changes nothing |
| Intelligence.NormalizeKeyIdempotent | app/services/intelligence.py:193-194 | normalising a key twice changes nothing more |
| Intelligence.BrandsSpec | app/services/intelligence.py:197-204 | the brands are strictly sorted and a name is a brand exactly when some mentioned candidate lowers to it |
| Intelligence.EmptyNeverMentioned | app/services/intelligence.py:202 | an empty needle is never a match |
| Intelligence.FilterMapHas | app/services/intelligence.py:200-203 | a filtered, mapped list holds exactly the images of the kept elements |
| Intelligence.FilterMapSnoc | app/services/intelligence.py:200-203 | one more loop step appends the image of the element when it is kept |
| Intelligence.ExtractBrands | app/services/intelligence.py:197-204 | the matching loop computes the sorted, de-duplicated brands |
| Intelligence.EmergingOfMembers | app/services/intelligence.py:227-233 | a payload is collected for a raw item exactly when it finalises a brand the item mentions that is neither a main competitor (however spelled) nor Wyze |
| Intelligence.EmergingOfTopic | app/services/intelligence.py:233 | every payload a raw item yields has the emerging topic |
| Intelligence.EmergingPayloadsSpec | app/services/intelligence.py:226-233 | every emerging payload has the emerging topic and comes from one of the raw items |
| Intelligence.EmergingLoop | app/services/intelligence.py:229-233 | the brand loop for one raw item collects its payloads |
| Intelligence.CollectEmerging | app/services/intelligence.py:226-233 | the collection loop gathers the payloads of every raw item in order |
| Intelligence.SentimentPayloadsSpec | app/services/intelligence.py:160-165 | a payload is stored for the sentiment topic exactly when it finalises a post with enough upvotes or enough comments |
| Intelligence.SentimentPayloadsFiled | app/services/intelligence.py:165 | every sentiment payload is filed under topic "sentiment" and entity "wyze" |
| Intelligence.WyzeNormal | app/services/intelligence.py:165 | "wyze" is already a normal entity name |
| Intelligence.SentimentItems | app/services/intelligence.py:160-165 | the filter loop computes the sentiment payloads |
| Intelligence.IngestionStats.constructor | app/services/intelligence.py:33-39 | every counter starts at zero |
| Intelligence.BatchKept | app/services/intelligence.py:72-82 | a batch upserts at most its own items |
| Intelligence.Fresh | app/services/intelligence.py:83-87 | at most every kept item is new to the table |
| Intelligence.KeySetMembers | app/services/intelligence.py:78-82 | a key is in the seen set exactly when an item carries it |
| Intelligence.UpsertAllKeys | app/services/intelligence.py:83 | upserting a sequence keeps the unique key and leaves exactly the old keys plus the sequence's keys |
| Intelligence.BatchKeptDistinct | app/services/intelligence.py:74-82 | the items a batch upserts are storable items of the batch with distinct keys |
| Intelligence.BatchKeptCovers | app/services/intelligence.py:74-82 | every storable item's key is upserted |
| Intelligence.StoreBatchKeys | app/services/intelligence.py:72-87 | after a batch the table holds exactly its old keys plus the keys of the storable items, still without duplicates |
| Intelligence.StoreBatch | app/services/intelligence.py:72-87 | skips items without title or url and repeated keys, upserts the rest in order, and counts each item as skipped, inserted (key new to the table) or updated |
| Intelligence.StoreOne | app/services/intelligence.py:74-87 | one pass of the batch loop skips the item or upserts it, keeping the counters in step |
| Intelligence.UpsertOne | app/services/intelligence.py:83-87 | upserting one kept item counts an insert exactly when its key was new |
| Intelligence.RunFullIngestion | app/services/intelligence.py:238-249 | stores the four batches in turn and applies the retention delete: the table is the retained rows of the batches' upserts, every item is counted once as skipped, inserted or updated, and `deleted_old` is the number of rows removed |
| Reddit.AsTimestamp | app/services/reddit.py:12-15 | a missing or zero creation time is the current instant; any other is that many whole seconds after the epoch |
| Reddit.ExtractPostData | app/services/reddit.py:18-33 | title and summary are the post's title and selftext, stripped (empty when missing); the source is the forum "Reddit:r/<subreddit>"; upvotes are the score and comments the comment count, each 0 when missing, and engagement is upvotes plus twice the comments; the time comes from `created_utc`; the url is `https://www.reddit.com` followed by the permalink when there is one, and the post's own url otherwise |
| Reddit.KeepExtracted | app/services/reddit.py:18-66 | an extracted post is kept exactly when its stripped title is non-empty and it has a permalink or a non-empty url of its own; a kept permalink url ends in the permalink |
| Reddit.ListingItemsSpec | app/services/reddit.py:59-66 | every item a listing yields is the extraction of one of its posts and has a non-empty title and url; there are no more items than children |
| Reddit.ListingItemsShorter | app/services/reddit.py:59-66 | a listing yields at most one item per child |
| Reddit.CollectedAppend | app/services/reddit.py:47-66 | the results of `a + b` are those of `a` followed by those of `b` |
| Reddit.SubredditItemsKept | app/services/reddit.py:52-66 | a failed request contributes nothing; every item of a subreddit passed the keep-filter and names that subreddit |
| Reddit.CollectedKept | app/services/reddit.py:36-68 | every collected item passed the keep-filter and is a forum post of one of the subreddits asked for |
| Reddit.ListingSnoc | app/services/reddit.py:60-66 | one more child adds its extraction exactly when it is non-empty and passes the keep-filter |
| Reddit.ListingLoop | app/services/reddit.py:60-66 | the loop over a listing's children yields the listing's kept items in order |
| Reddit.FetchRedditPosts | app/services/reddit.py:36-68 | `fetch_reddit_posts` returns the kept posts of every subreddit, in subreddit order, skipping subreddits whose request failed |
| TvMain.FmtAge | legacy/wyze-intel-hub/app/main.py:64-78 | no instant shows "-", under 90 seconds "just now", then whole minutes (1 to 59) under an hour, whole hours (1 to 35) under 36 hours, and whole days beyond |
| TvMain.FutureIsJustNow | legacy/wyze-intel-hub/app/main.py:67-70 | an instant at or after now has age 0 and shows "just now" |
| TvMain.DisplayWord | legacy/wyze-intel-hub/app/main.py:96-99 | a display word has the word's length, each character kept or upper-cased, and does not start with a lowercase letter |
| TvMain.DisplayWords | legacy/wyze-intel-hub/app/main.py:94-99 | one display word per word, in order |
| TvMain.KeyWords | legacy/wyze-intel-hub/app/main.py:95 | splitting after turning hyphens into spaces gives non-empty words without whitespace |
| TvMain.DisplayWordsSnoc | legacy/wyze-intel-hub/app/main.py:95-99 | one more word appends its display word |
| TvMain.DisplayKey | legacy/wyze-intel-hub/app/main.py:83-100 | the loop of `_display_entity` computes the display name of a normalised key |
| TvMain.DisplayEntity | legacy/wyze-intel-hub/app/main.py:81-100 | `_display_entity` computes the display name of the stripped, lower-cased entity |
| TvMain.DisplayNameCaseInsensitive | legacy/wyze-intel-hub/app/main.py:81-82 | entities that differ only in letter case have the same display name |
| TvMain.DisplayWordShape | legacy/wyze-intel-hub/app/main.py:96-99 | a display word contains no whitespace or hyphen and does not start with a lowercase letter |
| TvMain.JoinCapitalised | legacy/wyze-intel-hub/app/main.py:100 | joining such words with single spaces gives a name with no leading, trailing or doubled space and every word capitalised |
| TvMain.DisplayNameShape | legacy/wyze-intel-hub/app/main.py:92-100 | an entity without a fixed spelling and not blank displays as capitalised words separated by single spaces, with no hyphen left |
| TvMain.Prefix | legacy/wyze-intel-hub/app/main.py:164 | `s[:n]` is the first `n` characters, or all of them for a shorter string |
| TvMain.MonogramUnknown | legacy/wyze-intel-hub/app/main.py:157-164 | the monogram is "?" exactly when the name has no letter or digit |
| TvMain.MonogramCaps | legacy/wyze-intel-hub/app/main.py:157-159 | a name with two capitals is marked by its first two capitals |
| TvMain.BrandMarkTextIsMonogram | legacy/wyze-intel-hub/app/main.py:152-155 | stripping the name changes neither its letters and digits nor its capitals, so the blank-name check agrees with the monogram |
| TvMain.MarkTextUnknown | legacy/wyze-intel-hub/app/main.py:152-164 | `_brand_mark_text` is "?" exactly when the display name has no letter or digit |
| TvMain.MarkTextShape | legacy/wyze-intel-hub/app/main.py:157-164 | any other mark text is one or two capitals or digits |
| TvMain.MonogramShape | legacy/wyze-intel-hub/app/main.py:157-164 | a monogram other than "?" is one or two capitals or digits |
| TvMain.UpperAlnums | legacy/wyze-intel-hub/app/main.py:164 | upper-casing letters and digits gives capitals and digits |
| TvMain.MarkTextCaps | legacy/wyze-intel-hub/app/main.py:157-159 | a display name with two capitals is marked by exactly those two, in order |
| TvMain.Hue | legacy/wyze-intel-hub/app/main.py:176-178 | the fallback hue is below 360 |
| TvMain.HueStep | legacy/wyze-intel-hub/app/main.py:178 | reducing modulo 360 before the next step does not change the result |
| TvMain.ShiftMod | legacy/wyze-intel-hub/app/main.py:178 | adding multiples of 360 does not change the hue |
| TvMain.HueIsPolyHash | legacy/wyze-intel-hub/app/main.py:176-178 | the hue reduced at every step is the polynomial hash of the key with base 31, reduced once |
| TvMain.FallbackHue | legacy/wyze-intel-hub/app/main.py:176-178 | the hue loop computes the fallback hue of the key |
| TvMain.GradientOf | legacy/wyze-intel-hub/app/main.py:171-180 | a palette key takes its two palette colours, any other key the hue of its hash and that hue plus 18 |
| TvMain.BrandMark | legacy/wyze-intel-hub/app/main.py:167-187 | `_brand_mark` computes the mark of the normalised key and the entity's display name |
| TvMain.MarkColours | legacy/wyze-intel-hub/app/main.py:171-187 | palette brands get their fixed colours, others `hsl(h 72% 52%)` and `hsl((h+18) mod 360 72% 38%)` for their hash modulo 360; the title is the display name and the text its monogram |
| TvMain.MarkCaseInsensitive | legacy/wyze-intel-hub/app/main.py:167-169 | entities that differ only in letter case get the same mark |
| TvMain.LogoUrl | legacy/wyze-intel-hub/app/main.py:144-149 | the logo URL is empty exactly when the normalised entity has no known domain |
| TvMain.DeltaBadge | legacy/wyze-intel-hub/app/main.py:190-210 | the delta is current minus previous; the arrow and class say whether it is positive, negative or zero; a positive previous count gives the percentage change, and a rise from nothing is "(new)" |
| TvMain.BadgeTextShape | legacy/wyze-intel-hub/app/main.py:202-209 | the badge text starts with the arrow and the signed delta, ends with " (new)" for a rise from nothing, and is just those two for a non-rise from nothing |
| TvMain.BrandColumns | legacy/wyze-intel-hub/app/main.py:346-360 | the brand columns of an entity are its display name, logo URL and mark |
| TvMain.SpikeEntities | legacy/wyze-intel-hub/app/main.py:342 | `sorted(set(curr) \| set(prev))` is strictly increasing and holds exactly the entities of either window |
| TvMain.SpikeRows | legacy/wyze-intel-hub/app/main.py:342-362 | one row per entity, in entity order |
| TvMain.SpikeRowsSnoc | legacy/wyze-intel-hub/app/main.py:342-362 | one more entity appends its row |
| TvMain.SpikeRowAt | legacy/wyze-intel-hub/app/main.py:343-362 | the loop body builds an entity's row from its counts (0 when missing), its badge and its brand columns |
| TvMain.Spikes | legacy/wyze-intel-hub/app/main.py:340-364 | `spikes` returns the spike table of the two windows |
| TvMain.SpikeRowsLoop | legacy/wyze-intel-hub/app/main.py:341-362 | the loop builds the rows of the sorted entities in order |
| TvMain.SpikeTableSpec | legacy/wyze-intel-hub/app/main.py:340-364 | the table has one row for each entity of either window, no entity twice, each with its brand columns, its counts (0 when missing) and their difference, ordered by (delta, current) from largest to smallest |
| TvMain.SpikeTableDistinct | legacy/wyze-intel-hub/app/main.py:342-363 | the table is sorted by (delta, current) descending and names no entity twice |
| TvMain.SpikeTableCovers | legacy/wyze-intel-hub/app/main.py:342-363 | every entity of either window has a row |
| TvMain.SpikeTableRows | legacy/wyze-intel-hub/app/main.py:342-362 | every row's entity is in a window, with that entity's brand and counts and their difference |
| TvMain.ByDaySpec | legacy/wyze-intel-hub/app/main.py:309 | a day has a count exactly when some row names it, and the count is the mentions of the last row naming it |
| TvMain.ByDayKeys | legacy/wyze-intel-hub/app/main.py:309 | a day is a key exactly when some row names it |
| TvMain.ByDayLast | legacy/wyze-intel-hub/app/main.py:309 | a day's count comes from the last row naming it |
| TvMain.Fill30d | legacy/wyze-intel-hub/app/main.py:307-315 | thirty counts, oldest first, for the days ending today, each that day's count or 0 |
| TvMain.MissingDayIsZero | legacy/wyze-intel-hub/app/main.py:313-314 | a day no row names shows 0 |
| TvMain.TitleFrom | legacy/wyze-intel-hub/app/main.py:255 | `str.title()` keeps the length and every non-letter, and changes only the case of letters, upper-casing a letter that opens the text |
| TvMain.HeaderOf | legacy/wyze-intel-hub/app/main.py:244-263 | no run shows "No data"; a successful run shows "Success", in warning colours exactly when stale; "failed" exactly gives the danger class with "Error"; "running" exactly the info class with "Refreshing"; any other status a warning pill that is `str.title()` of the status, or of "Unknown" when there is none; the refresh time is the completion, else the start |
| TvMain.TitleQueued | legacy/wyze-intel-hub/app/main.py:255 | `"queued".title()` is "Queued" |
| TvMain.TitleUnknown | legacy/wyze-intel-hub/app/main.py:255 | `"Unknown".title()` is "Unknown" |
| TvMain.HeaderPillTitled | legacy/wyze-intel-hub/app/main.py:254-256 | a run with status "queued" shows the pill "Queued", and a run without a status shows "Unknown" |
| TvMain.BannerOf | legacy/wyze-intel-hub/app/main.py:265-281 | a failed latest run shows "REFRESH FAILED"; otherwise stale data shows "DATA STALE"; otherwise no banner; a banner carries the last success |
| TvMain.StatusSpec | legacy/wyze-intel-hub/app/main.py:236-281 | without a successful completion the banner is never absent; a successful latest run is flagged stale exactly when its success is too old; a success within the window is not stale |
| Deploy.ShouldExclude | legacy/wyze-intel-hub/scripts/deploy_render.py:57-65 | every compiled Python file (`x.pyc`, `x.pyo`) is left out of the archive, and a kept path has no excluded directory among its parts |
| Deploy.CompiledPythonSuffix | legacy/wyze-intel-hub/scripts/deploy_render.py:63 | a name `x.pyc` or `x.pyo` whose stem does not end in a dot has the suffix `.pyc` or `.pyo` |
| Deploy.ExcludedSubtree | legacy/wyze-intel-hub/scripts/deploy_render.py:57-60 | every path below a directory with an excluded part is itself excluded from the archive |
| Deploy.SingleComponent | legacy/wyze-intel-hub/scripts/deploy_render.py:58 | a name without slashes other than `.` is a path of that one part |
| Deploy.ExcludeDirsShape | legacy/wyze-intel-hub/scripts/deploy_render.py:37-43 | every excluded directory is a single non-empty path part |
| Deploy.ExcludedDirItself | legacy/wyze-intel-hub/scripts/deploy_render.py:37-43 | each excluded directory, at any depth, is excluded |
| Deploy.FirstMatch | legacy/wyze-intel-hub/scripts/deploy_render.py:184-186 | the search answers the first owner whose name matches, and none exactly when no owner matches |
| Deploy.PickOwnerByName | legacy/wyze-intel-hub/scripts/deploy_render.py:182-188 | with a wanted owner name, the id of the first owner whose stripped, lower-cased name matches; an error naming the wanted name exactly when none does |
| Deploy.PickOwnerOtherwise | legacy/wyze-intel-hub/scripts/deploy_render.py:173-197 | an explicit owner id is taken stripped; no owners is an error; without a wanted name an id is picked exactly when there is a single owner |
| Deploy.PickOwnerId | legacy/wyze-intel-hub/scripts/deploy_render.py:173-197 | `_pick_owner_id` chooses the owner as specified |
| Deploy.FindOwner | legacy/wyze-intel-hub/scripts/deploy_render.py:184-186 | the owner loop finds the first match |
| Deploy.WaitForDeploy | legacy/wyze-intel-hub/scripts/deploy_render.py:267-287 | "live" at a poll before any terminal status succeeds; a failure status at the first terminal poll fails with that status; the wait times out exactly when no poll before the deadline reads a terminal status |
| Deploy.ServiceUrl | legacy/wyze-intel-hub/scripts/deploy_render.py:290-292 | the details URL, else the dashboard URL, else "", which happens exactly when neither is set |
| Deploy.DetectDeployId | legacy/wyze-intel-hub/scripts/deploy_render.py:343-356 | the id the trigger returned, else the first listed latest deploy id that is non-empty and differs from the prior one, else "" exactly when no poll shows one |
| Deploy.EnvOr | legacy/wyze-intel-hub/scripts/deploy_render.py:299-303 | a set variable counts stripped; an unset or blank one gives the default, so a non-empty default never gives "" |
| Deploy.RequiredEnv | legacy/wyze-intel-hub/scripts/deploy_render.py:50-54 | the stripped value, non-empty, or an error exactly when the variable is unset or blank |

## Left out

- Attendance compliance and fare scoring: the repository contains no code for either, so nothing of them is modelled.
- Floating point: the VADER sentiment score, the relevance score and the ±0.2 sentiment-mix thresholds are parameters. The same goes for the `+.0f` rendering of a delta badge's percentage, the square-root start size of the image shrink schedule, and the extraction confidence arithmetic.
- `Extract.NextSide`: `int(side * 0.85)` is taken as `side * 85 / 100`, the exact integer product, ignoring the binary rounding of `0.85`.
- `_parse_pct`: its number search is a parameter. As written, the pattern escapes its backslashes twice inside a raw string, so its `\d` never matches a digit. The model leaves the pattern uninterpreted rather than fixing or reproducing it. `redact_secrets` is not part of this model for the same reason.
- Unicode: `lower`, `upper`, `isalpha`, `isalnum` and `str.title()` are modelled with ASCII case mapping and character classes only.
- HTTP, templating and I/O, none of which is part of this model:
  - the FastAPI wiring, health, run listing, run detail, deck redirects, zip download and latest-insights endpoints;
  - the Jinja template, `html.escape` and `json.dumps`;
  - the QR code;
  - file reads and writes, `mkdir`, and `Path.resolve()` (the output-file check takes resolved paths as strings);
  - the `updated_at`/`created_at` timestamps.
- Network clients are not modelled:
  - the Google News fetcher;
  - the Reddit HTTP request;
  - the Render API client;
  - the OpenAI and Anthropic calls.
  A provider's reply is an arbitrary decoded JSON value; a Reddit listing, or a failed request, is a parameter.
- `Intelligence.RunFullIngestion`: takes each topic's assembled batch as a parameter. It does not model the query lists of `_topic_wyze`/`_topic_competitors`, the news fetch, or the error counting of `_fetch_news_safe` (errors stay 0). It reads the clock once per batch.
- Hub metrics and time series are not modelled: rollups, daily counts, `latest_refresh_run` and `latest_successful_refresh_run`. The TV header takes the latest run and the latest success as inputs.
- `Schemas.LaxFloat`, `Schemas.LaxInt`: only the documented string forms `[-+]?[0-9]+(.[0-9]+)?` and `[-+]?[0-9]+` are modelled. Booleans and other number texts, such as exponent notation or surrounding whitespace, are refused, although pydantic's lax parsers may accept some of them. In particular `Schemas.LaxInt` refuses a decimal text such as `"3.0"` even when its fraction is zero, which some pydantic 2 versions accept for an `int` field.
- `Schemas.OptInt`, `Schemas.ParseConfidence`, `Schemas.ParseImportance`: the lax coercion they use is the modelled subset described above.
- `Api.ValidateRun`: reports the first failing field in the order week, `max_topics`, `max_insights`, `agenda_notes`; pydantic's 422 lists every failing field.
- `Reddit.AsTimestamp`: a fractional `created_utc` is taken as whole seconds.
- `Deploy.PickOwnerId`: owner names are strings; the `str(None)` rendering of a missing name is not modelled, nor is the text of the error messages listing the available owners.
- Deploy orchestration is not modelled:
  - the source-archive tar building;
  - the service payload and the environment-variable upserts;
  - status printing and `sleep`.
  The deadline of each polling loop is a number of polls.
- `Intelligence`: the emerging-brand candidates that `_topic_emerging` builds from a set are taken as a given list. The brands it yields are sorted either way.
- Database and concurrency are not modelled:
  - SQLite sessions;
  - the job-queue worker and its handler;
  - `DB_LOCK`;
  - the Anthropic model-list cache and its lock (only the selection from a model list is modelled, and the list the account returns is a parameter);
  - the scheduler jobs.
- Assets: the `page`, `status` ("uploaded") and `error` columns of an asset row, and its own uuid, are not modelled. Run and upload ids are parameters.
- Image processing is not modelled: Pillow and PyMuPDF decoding, `_rgba_to_rgb_on_white`, and JPEG encoding, which is an arbitrary function of side and quality.

## Findings

| source | as written | input that shows it | evidently intended | confidence | as-written member | corrected member |
|---|---|---|---|---|---|---|
| wbr-deck-agent/backend/wbr_deck_agent/api/main.py:170-171 | the output-file endpoints accept a target when its resolved path text starts with the base path text | base `/o/a`, target `/o/ab` (a sibling directory whose name extends the base's) is served | a target is served only when it lies inside the base directory, component by component | medium, not executed | Api.PrefixAdmitsSibling | Api.WithinJoined |
