/**
 * The intel hub's ingestion service: turning raw fetched items into
 * payloads, storing a batch through the keyed upsert with per-batch
 * de-duplication and counters, and the brand matching and filters of the
 * sentiment and emerging-competitor topics.
 *
 * The sentiment analyser and the relevance score are floating-point
 * functions outside this model; they are parameters (`Scoring`). The clock
 * is read once per batch (`now`).
 */
module Intelligence {
  import opened Wrappers
  import opened Text
  import opened Ordering
  import opened Repository
  import opened Reddit

  /** The clock and the two float scorers `_finalize_item` calls. */
  datatype Scoring = Scoring(
    now: int,
    sentimentOf: string -> real,
    relevanceOf: (int, int, real) -> real)

  /** The text the sentiment analyser and the brand matcher read: title and summary, stripped. */
  function TextBlob(base: RawItem): string {
    Strip(base.title.GetOr("") + "\n" + base.summary.GetOr(""))
  }

  /** The stored form of an entity name: lower case, without surrounding whitespace. */
  function NormalEntity(entity: string): (r: string)
    ensures NoUpper(r) && Trimmed(r)
  {
    var r := Strip(Lower(entity));
    StripChars(Lower(entity));
    r
  }

  /** Normalising an entity name twice changes nothing more. */
  lemma NormalEntityIdempotent(entity: string)
    ensures NormalEntity(NormalEntity(entity)) == NormalEntity(entity)
  {
    var r := NormalEntity(entity);
    LowerNoUpper(r);
  }

  /**
   * `_finalize_item`: the payload stored for a raw item under a topic and
   * entity. Every optional key is present, so the upsert's own defaults
   * never apply; the text fields are stripped and the entity normalised.
   */
  function FinalizeItem(base: RawItem, topic: string, entity: string, queryBonus: real, env: Scoring): (p: Payload)
    ensures p.topic == topic && p.entity == Some(NormalEntity(entity))
    ensures NoUpper(p.entity.value) && Trimmed(p.entity.value)
    ensures p.title == Strip(base.title.GetOr("")) && Trimmed(p.title)
    ensures p.url == Strip(base.url.GetOr("")) && Trimmed(p.url)
    ensures p.summary == Some(Strip(base.summary.GetOr(""))) && Trimmed(p.summary.value)
    ensures p.sourceType == Some(base.sourceType.GetOr("unknown"))
    ensures p.sourceName == Some(base.sourceName.GetOr("unknown"))
    ensures p.engagement == Some(base.engagement.GetOr(0))
    ensures p.publishedAt == if base.publishedAt.Some? then base.publishedAt.value else env.now
    ensures p.sentiment == Some(env.sentimentOf(TextBlob(base)))
    ensures p.relevance == Some(env.relevanceOf(p.publishedAt, p.engagement.value, queryBonus))
    ensures p.rawJson == Some(base.rawJson.GetOr("{}"))
  {
    var publishedAt := base.publishedAt.GetOr(env.now);
    var engagement := base.engagement.GetOr(0);
    Payload(
      topic,
      Some(NormalEntity(entity)),
      Some(base.sourceType.GetOr("unknown")),
      Some(base.sourceName.GetOr("unknown")),
      Strip(base.title.GetOr("")),
      Strip(base.url.GetOr("")),
      Some(Strip(base.summary.GetOr(""))),
      publishedAt,
      Some(engagement),
      Some(env.sentimentOf(TextBlob(base))),
      Some(env.relevanceOf(publishedAt, engagement, queryBonus)),
      Some(base.rawJson.GetOr("{}")))
  }

  /**
   * Entity names differing only in case and surrounding whitespace give
   * the same upsert key, so they land on the same row.
   */
  lemma FinalizeKeyNormal(base: RawItem, topic: string, e1: string, e2: string, bonus: real, env: Scoring)
    requires NormalEntity(e1) == NormalEntity(e2)
    ensures PayloadKey(FinalizeItem(base, topic, e1, bonus, env)) == PayloadKey(FinalizeItem(base, topic, e2, bonus, env))
    ensures PayloadKey(FinalizeItem(base, topic, e1, bonus, env)).1 == NormalEntity(e1)
  {
  }

  /* ---------------- Brand matching ---------------- */

  /** `_normalize_key`: lower case, hyphens as spaces, stripped. */
  function NormalizeKey(v: string): (r: string)
    ensures NoUpper(r) && '-' !in r && Trimmed(r)
  {
    NormalizedChars(v);
    Strip(ReplaceChar(Lower(v), '-', ' '))
  }

  lemma NormalizedChars(v: string)
    ensures NoUpper(Strip(ReplaceChar(Lower(v), '-', ' ')))
    ensures '-' !in Strip(ReplaceChar(Lower(v), '-', ' '))
  {
    var a := ReplaceChar(Lower(v), '-', ' ');
    var r := Strip(a);
    assert forall c :: c in a ==> !IsUpperAlpha(c) && c != '-' by {
      forall c | c in a ensures !IsUpperAlpha(c) && c != '-' {
        var i :| 0 <= i < |a| && a[i] == c;
      }
    }
    StripChars(a);
    forall i | 0 <= i < |r| ensures !IsUpperAlpha(r[i]) && r[i] != '-' {
      assert r[i] in r;
    }
  }

  lemma {:induction false} ReplaceAbsent(s: string, a: char, b: char)
    requires a !in s
    ensures ReplaceChar(s, a, b) == s
  {
  }

  /** Normalising a key twice changes nothing more. */
  lemma NormalizeKeyIdempotent(v: string)
    ensures NormalizeKey(NormalizeKey(v)) == NormalizeKey(v)
  {
    var r := NormalizeKey(v);
    LowerNoUpper(r);
    ReplaceAbsent(r, '-', ' ');
  }

  /** The haystack `_extract_brands` searches: lower case, hyphens as spaces. */
  function Haystack(text: string): string {
    ReplaceChar(Lower(text), '-', ' ')
  }

  /** A candidate is mentioned when its non-empty normal key occurs in the haystack. */
  predicate Mentions(text: string, candidate: string) {
    var needle := NormalizeKey(candidate);
    needle != [] && Contains(Haystack(text), needle)
  }

  /** `_extract_brands`: the mentioned candidates, lower-cased, sorted and de-duplicated. */
  function Brands(text: string, candidates: seq<string>): seq<string> {
    SortedUnique(FilterMap(candidates, (c: string) => Mentions(text, c), Lower))
  }

  /** The brands are strictly sorted, and a name is a brand exactly when some mentioned candidate lowers to it. */
  lemma BrandsSpec(text: string, candidates: seq<string>)
    ensures StrictlySorted(Brands(text, candidates))
    ensures forall b :: b in Brands(text, candidates) <==>
      exists i :: 0 <= i < |candidates| && Mentions(text, candidates[i]) && Lower(candidates[i]) == b
  {
    forall b ensures b in Brands(text, candidates) <==>
      exists i :: 0 <= i < |candidates| && Mentions(text, candidates[i]) && Lower(candidates[i]) == b
    {
      FilterMapMembers(candidates, (c: string) => Mentions(text, c), Lower, b);
    }
  }

  /** An empty candidate is never mentioned. */
  lemma EmptyNeverMentioned(text: string)
    ensures !Mentions(text, "")
  {
    assert Lower("") == "";
    assert ReplaceChar("", '-', ' ') == "";
  }

  /** `FilterMapMembers`, with the element in place of its index. */
  lemma FilterMapHas<T, U>(xs: seq<T>, keep: T -> bool, f: T -> U, y: U)
    ensures y in FilterMap(xs, keep, f) <==> exists x :: x in xs && keep(x) && f(x) == y
  {
    FilterMapMembers(xs, keep, f, y);
    if exists x :: x in xs && keep(x) && f(x) == y {
      var x :| x in xs && keep(x) && f(x) == y;
      var i :| 0 <= i < |xs| && xs[i] == x;
    }
  }

  lemma FilterMapSnoc<T, U>(xs: seq<T>, i: nat, keep: T -> bool, f: T -> U)
    requires i < |xs|
    ensures FilterMap(xs[..i + 1], keep, f) == FilterMap(xs[..i], keep, f) + (if keep(xs[i]) then [f(xs[i])] else [])
  {
    assert xs[..i + 1][..i] == xs[..i];
  }

  /** The matching loop of `_extract_brands`. */
  method ExtractBrands(text: string, candidates: seq<string>) returns (brands: seq<string>)
    ensures brands == Brands(text, candidates)
  {
    var lower := Haystack(text);
    var found: seq<string> := [];
    for i := 0 to |candidates|
      invariant found == FilterMap(candidates[..i], (c: string) => Mentions(text, c), Lower)
    {
      FilterMapSnoc(candidates, i, (c: string) => Mentions(text, c), Lower);
      var needle := NormalizeKey(candidates[i]);
      if needle != [] && Contains(lower, needle) {
        found := found + [Lower(candidates[i])];
      }
    }
    assert candidates[..|candidates|] == candidates;
    brands := SortedUnique(found);
  }

  /* ---------------- Topic filters ---------------- */

  /** The normal keys of the main competitors. */
  function MainSet(mains: seq<string>): set<string> {
    set m | m in mains :: NormalizeKey(m)
  }

  /** `_topic_emerging` skips a main competitor, however spelled, and Wyze itself. */
  predicate Excluded(brand: string, mains: seq<string>) {
    NormalizeKey(brand) in MainSet(mains) || brand == "wyze"
  }

  /** The emerging-competitor payloads one raw item yields: one per brand it mentions that is not excluded. */
  function EmergingOf(raw: RawItem, candidates: seq<string>, mains: seq<string>, env: Scoring): seq<Payload> {
    FilterMap(Brands(TextBlob(raw), candidates), (b: string) => !Excluded(b, mains),
              (b: string) => FinalizeItem(raw, "emerging", b, 0.65, env))
  }

  /** All emerging-competitor payloads, raw item by raw item. */
  function EmergingPayloads(raws: seq<RawItem>, candidates: seq<string>, mains: seq<string>, env: Scoring): seq<Payload> {
    if raws == [] then []
    else EmergingPayloads(raws[..|raws| - 1], candidates, mains, env) + EmergingOf(raws[|raws| - 1], candidates, mains, env)
  }

  /**
   * A payload is collected for a raw item exactly when it finalises a brand
   * the item mentions that is neither a main competitor nor Wyze.
   */
  lemma EmergingOfMembers(raw: RawItem, candidates: seq<string>, mains: seq<string>, env: Scoring, p: Payload)
    ensures p in EmergingOf(raw, candidates, mains, env) <==>
      exists b :: b in Brands(TextBlob(raw), candidates) && !Excluded(b, mains) && p == FinalizeItem(raw, "emerging", b, 0.65, env)
  {
    FilterMapHas(Brands(TextBlob(raw), candidates), (b: string) => !Excluded(b, mains),
                 (b: string) => FinalizeItem(raw, "emerging", b, 0.65, env), p);
  }

  /** Every payload one raw item yields has the emerging topic. */
  lemma EmergingOfTopic(raw: RawItem, candidates: seq<string>, mains: seq<string>, env: Scoring)
    ensures forall p :: p in EmergingOf(raw, candidates, mains, env) ==> p.topic == "emerging"
  {
    forall p | p in EmergingOf(raw, candidates, mains, env) ensures p.topic == "emerging" {
      EmergingOfMembers(raw, candidates, mains, env, p);
    }
  }

  /** Every emerging payload has the emerging topic and comes from one of the raw items. */
  lemma {:induction false} EmergingPayloadsSpec(raws: seq<RawItem>, candidates: seq<string>, mains: seq<string>, env: Scoring)
    ensures forall p :: p in EmergingPayloads(raws, candidates, mains, env) ==>
      p.topic == "emerging" && exists i :: 0 <= i < |raws| && p in EmergingOf(raws[i], candidates, mains, env)
  {
    if raws != [] {
      var init := raws[..|raws| - 1];
      var k := |raws| - 1;
      var head := EmergingPayloads(init, candidates, mains, env);
      var last := EmergingOf(raws[k], candidates, mains, env);
      assert EmergingPayloads(raws, candidates, mains, env) == head + last;
      EmergingPayloadsSpec(init, candidates, mains, env);
      EmergingOfTopic(raws[k], candidates, mains, env);
      forall p: Payload | p in head + last
        ensures p.topic == "emerging"
        ensures exists i :: 0 <= i < |raws| && p in EmergingOf(raws[i], candidates, mains, env)
      {
        if p in head {
          var i :| 0 <= i < |init| && p in EmergingOf(init[i], candidates, mains, env);
          var r := raws[i];
          assert r == init[i];
          assert p in EmergingOf(r, candidates, mains, env);
        } else {
          assert p in last;
        }
      }
    }
  }

  /** The brand loop of `_topic_emerging` for one raw item. */
  method EmergingLoop(raw: RawItem, candidates: seq<string>, mains: seq<string>, env: Scoring) returns (out: seq<Payload>)
    ensures out == EmergingOf(raw, candidates, mains, env)
  {
    var matches := ExtractBrands(TextBlob(raw), candidates);
    var mainSet := MainSet(mains);
    out := [];
    for j := 0 to |matches|
      invariant out == FilterMap(matches[..j], (b: string) => !Excluded(b, mains),
                                 (b: string) => FinalizeItem(raw, "emerging", b, 0.65, env))
    {
      FilterMapSnoc(matches, j, (b: string) => !Excluded(b, mains), (b: string) => FinalizeItem(raw, "emerging", b, 0.65, env));
      var brand := matches[j];
      if NormalizeKey(brand) in mainSet || brand == "wyze" {
        continue;
      }
      out := out + [FinalizeItem(raw, "emerging", brand, 0.65, env)];
    }
    assert matches[..|matches|] == matches;
  }

  /** The collection loop of `_topic_emerging` over the fetched news and Reddit items. */
  method CollectEmerging(raws: seq<RawItem>, candidates: seq<string>, mains: seq<string>, env: Scoring)
    returns (collected: seq<Payload>)
    ensures collected == EmergingPayloads(raws, candidates, mains, env)
  {
    collected := [];
    for i := 0 to |raws|
      invariant collected == EmergingPayloads(raws[..i], candidates, mains, env)
    {
      assert raws[..i + 1][..i] == raws[..i];
      var more := EmergingLoop(raws[i], candidates, mains, env);
      collected := collected + more;
    }
    assert raws[..|raws|] == raws;
  }

  /** `_topic_sentiment` keeps a post with enough upvotes or enough comments. */
  predicate HighEngagement(post: RawItem, highScore: int, highComments: int) {
    OrZero(post.upvotes) >= highScore || OrZero(post.comments) >= highComments
  }

  /** The payloads `_topic_sentiment` stores: the high-engagement posts, finalised under Wyze. */
  function SentimentPayloads(posts: seq<RawItem>, highScore: int, highComments: int, env: Scoring): seq<Payload> {
    FilterMap(posts, (p: RawItem) => HighEngagement(p, highScore, highComments),
              (p: RawItem) => FinalizeItem(p, "sentiment", "wyze", 0.6, env))
  }

  /** A payload is stored for the sentiment topic exactly when it finalises a high-engagement post. */
  lemma SentimentPayloadsSpec(posts: seq<RawItem>, highScore: int, highComments: int, env: Scoring, y: Payload)
    ensures y in SentimentPayloads(posts, highScore, highComments, env) <==>
      exists p :: p in posts && HighEngagement(p, highScore, highComments)
                  && y == FinalizeItem(p, "sentiment", "wyze", 0.6, env)
  {
    FilterMapHas(posts, (p: RawItem) => HighEngagement(p, highScore, highComments),
                 (p: RawItem) => FinalizeItem(p, "sentiment", "wyze", 0.6, env), y);
  }

  /** Every sentiment payload is filed under topic "sentiment" and entity "wyze". */
  lemma SentimentPayloadsFiled(posts: seq<RawItem>, highScore: int, highComments: int, env: Scoring, y: Payload)
    requires y in SentimentPayloads(posts, highScore, highComments, env)
    ensures y.topic == "sentiment" && y.entity == Some("wyze")
  {
    SentimentPayloadsSpec(posts, highScore, highComments, env, y);
    var p :| p in posts && HighEngagement(p, highScore, highComments)
             && y == FinalizeItem(p, "sentiment", "wyze", 0.6, env);
    WyzeNormal();
  }

  lemma WyzeNormal()
    ensures NormalEntity("wyze") == "wyze"
  {
    var w := "wyze";
    assert forall i :: 0 <= i < |w| ==> w[i] in "wyz" + "e";
    LowerNoUpper(w);
    assert Trimmed(w);
  }

  /** The filter loop of `_topic_sentiment`. */
  method SentimentItems(posts: seq<RawItem>, highScore: int, highComments: int, env: Scoring) returns (filtered: seq<Payload>)
    ensures filtered == SentimentPayloads(posts, highScore, highComments, env)
  {
    var keep := (p: RawItem) => HighEngagement(p, highScore, highComments);
    var f := (p: RawItem) => FinalizeItem(p, "sentiment", "wyze", 0.6, env);
    filtered := [];
    for i := 0 to |posts|
      invariant filtered == FilterMap(posts[..i], keep, f)
    {
      FilterMapSnoc(posts, i, keep, f);
      var upvotes := OrZero(posts[i].upvotes);
      var comments := OrZero(posts[i].comments);
      if upvotes >= highScore || comments >= highComments {
        filtered := filtered + [FinalizeItem(posts[i], "sentiment", "wyze", 0.6, env)];
      }
    }
    assert posts[..|posts|] == posts;
  }

  /* ---------------- Batch store ---------------- */

  /** The counters of one ingestion run. */
  class IngestionStats {
    var inserted: nat
    var updated: nat
    var skipped: nat
    var deletedOld: nat
    var errors: nat

    constructor()
      ensures inserted == 0 && updated == 0 && skipped == 0 && deletedOld == 0 && errors == 0
    {
      inserted, updated, skipped, deletedOld, errors := 0, 0, 0, 0, 0;
    }
  }

  /** An item `_store_batch` does not skip outright: it has a title and a url. */
  predicate Storable(p: Payload) {
    p.title != [] && p.url != []
  }

  /** The keys of a sequence of payloads. */
  function KeySet(ps: seq<Payload>): set<ItemKey> {
    if ps == [] then {} else KeySet(ps[..|ps| - 1]) + {PayloadKey(ps[|ps| - 1])}
  }

  /** The items a batch upserts, in order: storable, and the first of their key in the batch. */
  function BatchKept(items: seq<Payload>): (r: seq<Payload>)
    ensures |r| <= |items|
  {
    if items == [] then []
    else
      KeepNext(BatchKept(items[..|items| - 1]), items[|items| - 1])
  }

  /** The kept items after the loop looks at one more item. */
  function KeepNext(kept: seq<Payload>, item: Payload): seq<Payload> {
    if Storable(item) && PayloadKey(item) !in KeySet(kept) then kept + [item] else kept
  }

  /** The table after upserting `ps` in order. */
  function UpsertAll(rows: seq<Item>, ps: seq<Payload>, now: int): seq<Item> {
    if ps == [] then rows else UpsertRows(UpsertAll(rows, ps[..|ps| - 1], now), ps[|ps| - 1], now)
  }

  /** How many of `ps` have a key the table `rows` lacks. */
  function Fresh(rows: seq<Item>, ps: seq<Payload>): (n: nat)
    ensures n <= |ps|
  {
    if ps == [] then 0 else Fresh(rows, ps[..|ps| - 1]) + (if HasKey(rows, PayloadKey(ps[|ps| - 1])) then 0 else 1)
  }

  lemma KeySetMembers(ps: seq<Payload>, k: ItemKey)
    ensures k in KeySet(ps) <==> exists i :: 0 <= i < |ps| && PayloadKey(ps[i]) == k
  {
    if ps != [] {
      var init := ps[..|ps| - 1];
      KeySetMembers(init, k);
      if exists i :: 0 <= i < |ps| && PayloadKey(ps[i]) == k {
        var i :| 0 <= i < |ps| && PayloadKey(ps[i]) == k;
        if i < |init| {
          assert init[i] == ps[i];
        }
      }
    }
  }

  /**
   * Upserting a sequence keeps the unique constraint, and afterwards the
   * table has exactly the keys it had plus the keys of the sequence.
   */
  lemma {:induction false} UpsertAllKeys(rows: seq<Item>, ps: seq<Payload>, now: int)
    requires KeysUnique(rows)
    ensures KeysUnique(UpsertAll(rows, ps, now))
    ensures forall k :: HasKey(UpsertAll(rows, ps, now), k) <==> HasKey(rows, k) || k in KeySet(ps)
  {
    if ps != [] {
      var init := ps[..|ps| - 1];
      UpsertAllKeys(rows, init, now);
      UpsertKeys(UpsertAll(rows, init, now), ps[|ps| - 1], now);
    }
  }

  /** The items a batch upserts are all storable and have distinct keys. */
  lemma {:induction false} BatchKeptDistinct(items: seq<Payload>)
    ensures forall p :: p in BatchKept(items) ==> Storable(p) && p in items
    ensures forall i, j :: 0 <= i < j < |BatchKept(items)| ==> PayloadKey(BatchKept(items)[i]) != PayloadKey(BatchKept(items)[j])
  {
    if items != [] {
      var init := items[..|items| - 1];
      var k := BatchKept(init);
      var last := items[|items| - 1];
      BatchKeptDistinct(init);
      if Storable(last) && PayloadKey(last) !in KeySet(k) {
        var r := k + [last];
        forall i, j | 0 <= i < j < |r| ensures PayloadKey(r[i]) != PayloadKey(r[j]) {
          if j == |k| {
            KeySetMembers(k, PayloadKey(last));
            assert r[i] == k[i];
          } else {
            assert r[i] == k[i] && r[j] == k[j];
          }
        }
      }
    }
  }

  /** Every storable item's key is among the keys the batch upserts. */
  lemma {:induction false} BatchKeptCovers(items: seq<Payload>)
    ensures forall i :: 0 <= i < |items| && Storable(items[i]) ==> PayloadKey(items[i]) in KeySet(BatchKept(items))
  {
    if items != [] {
      var init := items[..|items| - 1];
      var k := BatchKept(init);
      var last := items[|items| - 1];
      BatchKeptCovers(init);
      forall i | 0 <= i < |items| && Storable(items[i]) ensures PayloadKey(items[i]) in KeySet(BatchKept(items)) {
        if i < |init| {
          assert items[i] == init[i];
        }
      }
    }
  }

  /**
   * After a batch the table holds exactly its old keys plus the keys of
   * the batch's storable items, still without duplicates.
   */
  lemma StoreBatchKeys(rows: seq<Item>, items: seq<Payload>, now: int)
    requires KeysUnique(rows)
    ensures KeysUnique(UpsertAll(rows, BatchKept(items), now))
    ensures forall k :: HasKey(UpsertAll(rows, BatchKept(items), now), k) <==>
      HasKey(rows, k) || exists i :: 0 <= i < |items| && Storable(items[i]) && PayloadKey(items[i]) == k
  {
    var kept := BatchKept(items);
    UpsertAllKeys(rows, kept, now);
    BatchKeptCovers(items);
    BatchKeptDistinct(items);
    forall k ensures k in KeySet(kept) <==> exists i :: 0 <= i < |items| && Storable(items[i]) && PayloadKey(items[i]) == k {
      KeySetMembers(kept, k);
      if k in KeySet(kept) {
        var j :| 0 <= j < |kept| && PayloadKey(kept[j]) == k;
        assert kept[j] in items;
        var i :| 0 <= i < |items| && items[i] == kept[j];
      }
    }
  }

  lemma BatchKeptSnoc(items: seq<Payload>, i: nat)
    requires i < |items|
    ensures BatchKept(items[..i + 1]) == KeepNext(BatchKept(items[..i]), items[i])
  {
    assert items[..i + 1][..i] == items[..i];
  }

  lemma KeySetSnoc(ps: seq<Payload>, p: Payload)
    ensures KeySet(ps + [p]) == KeySet(ps) + {PayloadKey(p)}
  {
    assert (ps + [p])[..|ps|] == ps;
  }

  lemma UpsertAllSnoc(rows: seq<Item>, ps: seq<Payload>, p: Payload, now: int)
    ensures UpsertAll(rows, ps + [p], now) == UpsertRows(UpsertAll(rows, ps, now), p, now)
  {
    assert (ps + [p])[..|ps|] == ps;
  }

  lemma FreshSnoc(rows: seq<Item>, ps: seq<Payload>, p: Payload)
    ensures Fresh(rows, ps + [p]) == Fresh(rows, ps) + (if HasKey(rows, PayloadKey(p)) then 0 else 1)
  {
    assert (ps + [p])[..|ps|] == ps;
  }

  /**
   * `_store_batch`: skips items without a title or url and repeats of a key
   * already seen in the batch, upserts the rest in order, and counts each
   * item as skipped, inserted (its key was new to the table) or updated.
   */
  method StoreBatch(table: IntelTable, stats: IngestionStats, items: seq<Payload>, now: int)
    requires table.Valid()
    modifies table, stats
    ensures table.Valid()
    ensures table.rows == UpsertAll(old(table.rows), BatchKept(items), now)
    ensures stats.skipped == old(stats.skipped) + |items| - |BatchKept(items)|
    ensures stats.inserted == old(stats.inserted) + Fresh(old(table.rows), BatchKept(items))
    ensures stats.updated == old(stats.updated) + |BatchKept(items)| - Fresh(old(table.rows), BatchKept(items))
    ensures stats.deletedOld == old(stats.deletedOld) && stats.errors == old(stats.errors)
  {
    var rows0 := table.rows;
    var seen: set<ItemKey> := {};
    for i := 0 to |items|
      invariant table.Valid()
      invariant seen == KeySet(BatchKept(items[..i]))
      invariant table.rows == UpsertAll(rows0, BatchKept(items[..i]), now)
      invariant stats.skipped == old(stats.skipped) + i - |BatchKept(items[..i])|
      invariant stats.inserted == old(stats.inserted) + Fresh(rows0, BatchKept(items[..i]))
      invariant stats.updated == old(stats.updated) + |BatchKept(items[..i])| - Fresh(rows0, BatchKept(items[..i]))
      invariant stats.deletedOld == old(stats.deletedOld) && stats.errors == old(stats.errors)
    {
      BatchKeptSnoc(items, i);
      seen := StoreOne(table, stats, rows0, BatchKept(items[..i]), seen, items[i], now);
    }
    assert items[..|items|] == items;
  }

  /** One pass of the batch loop: skip the item, or upsert it and count the outcome. */
  method StoreOne(table: IntelTable, stats: IngestionStats, ghost rows0: seq<Item>, ghost kept: seq<Payload>,
                  seen: set<ItemKey>, item: Payload, now: int) returns (seen': set<ItemKey>)
    requires KeysUnique(rows0) && table.Valid()
    requires seen == KeySet(kept) && table.rows == UpsertAll(rows0, kept, now)
    modifies table, stats
    ensures table.Valid()
    ensures seen' == KeySet(KeepNext(kept, item))
    ensures table.rows == UpsertAll(rows0, KeepNext(kept, item), now)
    ensures stats.skipped + |KeepNext(kept, item)| == old(stats.skipped) + |kept| + 1
    ensures stats.inserted + Fresh(rows0, kept) == old(stats.inserted) + Fresh(rows0, KeepNext(kept, item))
    ensures stats.updated + Fresh(rows0, KeepNext(kept, item)) + |kept|
            == old(stats.updated) + Fresh(rows0, kept) + |KeepNext(kept, item)|
    ensures stats.deletedOld == old(stats.deletedOld) && stats.errors == old(stats.errors)
  {
    if !Storable(item) || PayloadKey(item) in seen {
      assert KeepNext(kept, item) == kept;
      stats.skipped := stats.skipped + 1;
      return seen;
    }
    assert KeepNext(kept, item) == kept + [item];
    KeySetSnoc(kept, item);
    UpsertOne(table, stats, rows0, kept, item, now);
    seen' := seen + {PayloadKey(item)};
  }

  /** The upsert of one kept item, with its counter. */
  method UpsertOne(table: IntelTable, stats: IngestionStats, ghost rows0: seq<Item>, ghost kept: seq<Payload>,
                   item: Payload, now: int)
    requires KeysUnique(rows0) && table.Valid()
    requires table.rows == UpsertAll(rows0, kept, now)
    requires PayloadKey(item) !in KeySet(kept)
    modifies table, stats
    ensures table.Valid()
    ensures table.rows == UpsertAll(rows0, kept + [item], now)
    ensures stats.inserted + Fresh(rows0, kept) == old(stats.inserted) + Fresh(rows0, kept + [item])
    ensures stats.updated + Fresh(rows0, kept + [item]) == old(stats.updated) + 1 + Fresh(rows0, kept)
    ensures stats.skipped == old(stats.skipped)
    ensures stats.deletedOld == old(stats.deletedOld) && stats.errors == old(stats.errors)
  {
    UpsertAllSnoc(rows0, kept, item, now);
    FreshSnoc(rows0, kept, item);
    UpsertAllKeys(rows0, kept, now);
    var inserted := table.Upsert(item, now);
    if inserted {
      stats.inserted := stats.inserted + 1;
    } else {
      stats.updated := stats.updated + 1;
    }
  }

  /** The table after the four batches are stored in turn. */
  function Ingested(rows: seq<Item>, wyze: seq<Payload>, sentiment: seq<Payload>,
                    competitors: seq<Payload>, emerging: seq<Payload>, now: int): seq<Item> {
    var r1 := UpsertAll(rows, BatchKept(wyze), now);
    var r2 := UpsertAll(r1, BatchKept(sentiment), now);
    var r3 := UpsertAll(r2, BatchKept(competitors), now);
    UpsertAll(r3, BatchKept(emerging), now)
  }

  /**
   * `run_full_ingestion`, given each topic's assembled batch: stores the
   * four batches in turn, then applies the retention delete and records how
   * many rows it removed.
   */
  method RunFullIngestion(table: IntelTable, wyze: seq<Payload>, sentiment: seq<Payload>,
                          competitors: seq<Payload>, emerging: seq<Payload>, now: int, retentionDays: int)
    returns (stats: IngestionStats)
    requires table.Valid()
    modifies table
    ensures fresh(stats) && table.Valid()
    ensures stats.skipped + stats.inserted + stats.updated == |wyze| + |sentiment| + |competitors| + |emerging|
    ensures forall r :: r in table.rows ==> r.publishedAt >= Cutoff(now, retentionDays)
    ensures table.rows == Kept(Ingested(old(table.rows), wyze, sentiment, competitors, emerging, now), Cutoff(now, retentionDays))
    ensures stats.deletedOld == OldCount(Ingested(old(table.rows), wyze, sentiment, competitors, emerging, now), Cutoff(now, retentionDays))
    ensures stats.errors == 0
  {
    stats := new IngestionStats();
    StoreBatch(table, stats, wyze, now);
    StoreBatch(table, stats, sentiment, now);
    StoreBatch(table, stats, competitors, now);
    StoreBatch(table, stats, emerging, now);
    ghost var before := table.rows;
    var deleted := table.Cleanup(now, retentionDays);
    KeptSpec(before, Cutoff(now, retentionDays));
    stats.deletedOld := deleted;
  }
}
