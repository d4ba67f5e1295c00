/**
 * The intel hub's repository layer over an in-memory `intel_items` table:
 * the keyed upsert (unique on topic, entity and url), the retention delete,
 * the latest/since queries, the per-topic and per-entity counts over a
 * half-open window, and the refresh-run records.
 *
 * Instants are integers counting microseconds since the epoch (UTC).
 */
module Repository {
  import opened Wrappers
  import opened Ordering

  const MicrosPerDay: int := 86400 * 1000000

  /** A row of `intel_items`; the float columns are reals. */
  datatype Item = Item(
    topic: string,
    entity: string,
    sourceType: string,
    sourceName: string,
    title: string,
    url: string,
    summary: string,
    publishedAt: int,
    fetchedAt: int,
    engagement: int,
    sentiment: real,
    relevance: real,
    rawJson: string)

  /**
   * The payload dict handed to `upsert_intel_item`. Keys read with
   * `payload[k]` are plain fields; keys read with `payload.get(k, default)`
   * are options, `None` standing for an absent key. `rawJson` is the text
   * `json.dumps` makes of the `raw` entry.
   */
  datatype Payload = Payload(
    topic: string,
    entity: Option<string>,
    sourceType: Option<string>,
    sourceName: Option<string>,
    title: string,
    url: string,
    summary: Option<string>,
    publishedAt: int,
    engagement: Option<int>,
    sentiment: Option<real>,
    relevance: Option<real>,
    rawJson: Option<string>)

  type ItemKey = (string, string, string)

  /** The unique constraint `uq_topic_entity_url`. */
  function KeyOf(r: Item): ItemKey {
    (r.topic, r.entity, r.url)
  }

  /** The key the upsert looks up: `(topic, payload.get("entity", ""), url)`. */
  function PayloadKey(p: Payload): ItemKey {
    (p.topic, p.entity.GetOr(""), p.url)
  }

  /** Some row of `rows` has key `k`. */
  predicate HasKey(rows: seq<Item>, k: ItemKey) {
    exists j :: 0 <= j < |rows| && KeyOf(rows[j]) == k
  }

  predicate KeysUnique(rows: seq<Item>) {
    forall i, j :: 0 <= i < j < |rows| ==> KeyOf(rows[i]) != KeyOf(rows[j])
  }

  /** The row with key `k`, if any. */
  function Find(rows: seq<Item>, k: ItemKey): (r: Option<nat>)
    ensures r.Some? ==> r.value < |rows| && KeyOf(rows[r.value]) == k
    ensures r.None? <==> forall i :: 0 <= i < |rows| ==> KeyOf(rows[i]) != k
  {
    if rows == [] then None
    else if KeyOf(rows[|rows| - 1]) == k then Some(|rows| - 1)
    else Find(rows[..|rows| - 1], k)
  }

  /** The row the insert branch creates. */
  function NewItem(p: Payload, now: int): Item {
    Item(p.topic, p.entity.GetOr(""), p.sourceType.GetOr("unknown"), p.sourceName.GetOr("unknown"),
         p.title, p.url, p.summary.GetOr(""), p.publishedAt, now,
         p.engagement.GetOr(0), p.sentiment.GetOr(0.0), p.relevance.GetOr(0.0), p.rawJson.GetOr("{}"))
  }

  /** The row after the update branch assigns its fields; topic and url are not assigned. */
  function Updated(r: Item, p: Payload, now: int): Item {
    Item(r.topic, p.entity.GetOr(r.entity), p.sourceType.GetOr(r.sourceType), p.sourceName.GetOr(r.sourceName),
         p.title, r.url, p.summary.GetOr(""), p.publishedAt, now,
         p.engagement.GetOr(0), p.sentiment.GetOr(0.0), p.relevance.GetOr(0.0), p.rawJson.GetOr("{}"))
  }

  /** The table after `upsert_intel_item(p)` at instant `now`. */
  function UpsertRows(rows: seq<Item>, p: Payload, now: int): seq<Item> {
    match Find(rows, PayloadKey(p))
    case Some(i) => rows[i := Updated(rows[i], p, now)]
    case None => rows + [NewItem(p, now)]
  }

  /** Without a row of the payload's key, one row with that key is appended. */
  lemma UpsertInserts(rows: seq<Item>, p: Payload, now: int)
    requires forall i :: 0 <= i < |rows| ==> KeyOf(rows[i]) != PayloadKey(p)
    ensures var r := UpsertRows(rows, p, now);
      && |r| == |rows| + 1
      && r[..|rows|] == rows
      && KeyOf(r[|rows|]) == PayloadKey(p)
      && r[|rows|].sourceType == p.sourceType.GetOr("unknown")
      && r[|rows|].sourceName == p.sourceName.GetOr("unknown")
  {
    assert Find(rows, PayloadKey(p)).None?;
  }

  /**
   * With a row of the payload's key, that row is updated in place: the row
   * count and every key stay, the content fields take the payload's values,
   * and every other row is unchanged.
   */
  lemma UpsertUpdates(rows: seq<Item>, p: Payload, now: int, i: nat)
    requires KeysUnique(rows) && i < |rows| && KeyOf(rows[i]) == PayloadKey(p)
    ensures var r := UpsertRows(rows, p, now);
      && |r| == |rows|
      && (forall j :: 0 <= j < |rows| ==> KeyOf(r[j]) == KeyOf(rows[j]))
      && (forall j :: 0 <= j < |rows| && j != i ==> r[j] == rows[j])
      && r[i].title == p.title && r[i].summary == p.summary.GetOr("")
      && r[i].publishedAt == p.publishedAt && r[i].fetchedAt == now
      && r[i].engagement == p.engagement.GetOr(0)
      && r[i] == Updated(rows[i], p, now)
  {
    assert Find(rows, PayloadKey(p)) == Some(i);
  }

  /** The upsert keeps the unique constraint and adds exactly the payload's key. */
  lemma UpsertKeys(rows: seq<Item>, p: Payload, now: int)
    requires KeysUnique(rows)
    ensures var r := UpsertRows(rows, p, now);
      && KeysUnique(r)
      && (forall k :: HasKey(r, k) <==> k == PayloadKey(p) || HasKey(rows, k))
  {
    var r := UpsertRows(rows, p, now);
    match Find(rows, PayloadKey(p))
    case Some(i) =>
      UpsertUpdates(rows, p, now, i);
    case None =>
      UpsertInserts(rows, p, now);
      forall k | HasKey(rows, k)
        ensures HasKey(r, k)
      {
        var j :| 0 <= j < |rows| && KeyOf(rows[j]) == k;
        assert r[j] == rows[j];
      }
  }

  /* ---------------- Retention ---------------- */

  /** `datetime.now(UTC) - timedelta(days=retention_days)` */
  function Cutoff(now: int, retentionDays: int): int {
    now - retentionDays * MicrosPerDay
  }

  /** The rows published at or after `cutoff`, in table order. */
  function Kept(rows: seq<Item>, cutoff: int): (r: seq<Item>)
    ensures |r| <= |rows|
  {
    if rows == [] then []
    else Kept(rows[..|rows| - 1], cutoff) + (if rows[|rows| - 1].publishedAt >= cutoff then [rows[|rows| - 1]] else [])
  }

  /** The number of rows published before `cutoff`. */
  function OldCount(rows: seq<Item>, cutoff: int): nat {
    if rows == [] then 0
    else OldCount(rows[..|rows| - 1], cutoff) + (if rows[|rows| - 1].publishedAt < cutoff then 1 else 0)
  }

  lemma KeptSnoc(rows: seq<Item>, i: nat, cutoff: int)
    requires i < |rows|
    ensures Kept(rows[..i + 1], cutoff) == Kept(rows[..i], cutoff) + (if rows[i].publishedAt >= cutoff then [rows[i]] else [])
    ensures OldCount(rows[..i + 1], cutoff) == OldCount(rows[..i], cutoff) + (if rows[i].publishedAt < cutoff then 1 else 0)
  {
    assert rows[..i + 1][..i] == rows[..i];
  }

  /**
   * The retention delete keeps exactly the rows published at or after the
   * cutoff, in order, and removes as many rows as were published before it.
   */
  lemma {:induction false} KeptSpec(rows: seq<Item>, cutoff: int)
    ensures var r := Kept(rows, cutoff);
      && IsSubseq(r, rows)
      && (forall x :: x in r <==> x in rows && x.publishedAt >= cutoff)
      && |r| + OldCount(rows, cutoff) == |rows|
  {
    if rows != [] {
      var init := rows[..|rows| - 1];
      var last := rows[|rows| - 1];
      var r := Kept(rows, cutoff);
      KeptSpec(init, cutoff);
      assert rows == init + [last];
      if last.publishedAt >= cutoff {
        SubseqAppend(Kept(init, cutoff), init, [last], [last]);
        SubseqRefl([last]);
      } else {
        SubseqAppend(Kept(init, cutoff), init, [], [last]);
        SubseqEmpty([last]);
        assert Kept(init, cutoff) + [] == Kept(init, cutoff);
      }
    }
  }

  lemma SubseqEmpty<T>(b: seq<T>)
    ensures IsSubseq([], b)
  {
  }

  /** Deleting rows keeps the unique constraint. */
  lemma KeptUnique(rows: seq<Item>, cutoff: int)
    requires KeysUnique(rows)
    ensures KeysUnique(Kept(rows, cutoff))
  {
    KeptSpec(rows, cutoff);
    SubseqUnique(Kept(rows, cutoff), rows);
  }

  lemma {:induction false} SubseqUnique(a: seq<Item>, b: seq<Item>)
    requires IsSubseq(a, b) && KeysUnique(b)
    ensures KeysUnique(a)
    decreases |b|
  {
    if a != [] {
      assert KeysUnique(b[1..]);
      if a[0] == b[0] && IsSubseq(a[1..], b[1..]) {
        SubseqUnique(a[1..], b[1..]);
        SubseqMembers(a[1..], b[1..]);
        forall j | 0 < j < |a| ensures KeyOf(a[0]) != KeyOf(a[j]) {
          assert a[j] == a[1..][j - 1];
          assert a[j] in b[1..];
        }
      } else {
        SubseqUnique(a, b[1..]);
      }
    }
  }

  /* ---------------- Queries ---------------- */

  /** SQL `LIMIT n`: SQLite treats a negative limit as no limit. */
  function Limit<T>(s: seq<T>, n: int): (r: seq<T>)
    ensures n >= 0 ==> r == Take(s, n)
    ensures n < 0 ==> r == s
  {
    if n < 0 then s else Take(s, n)
  }

  /** `IntelItem.entity == entity` when the `entity` argument is truthy. */
  predicate EntityMatches(r: Item, entity: Option<string>) {
    entity.None? || entity.value == [] || r.entity == entity.value
  }

  /** Order by `published_at` desc, then `relevance_score` desc. */
  function ByPublished(r: Item): Key {
    (r.publishedAt as real, r.relevance)
  }

  function ByEngagement(r: Item): Key {
    (r.engagement as real, r.publishedAt as real)
  }

  function ByRelevance(r: Item): Key {
    (r.relevance, r.publishedAt as real)
  }

  /** The sort key `get_items_since` picks from `order_by`. */
  function OrderKey(orderBy: string): Item -> Key {
    if orderBy == "engagement" then ByEngagement
    else if orderBy == "relevance" then ByRelevance
    else ByPublished
  }

  function Select(rows: seq<Item>, keep: Item -> bool): (r: seq<Item>)
    ensures forall x :: x in r <==> x in rows && keep(x)
  {
    if rows == [] then []
    else Select(rows[..|rows| - 1], keep) + (if keep(rows[|rows| - 1]) then [rows[|rows| - 1]] else [])
  }

  /**
   * The first `limit` rows of `keep`, ordered by `key` descending, rows of
   * equal key in table order: rows of the table, all kept, sorted, at most
   * `limit` of them, all of them when fewer qualify, and no row left out
   * ranking above one returned.
   */
  lemma QuerySpec(rows: seq<Item>, keep: Item -> bool, key: Item -> Key, limit: int)
    ensures var r := Limit(SortDesc(Select(rows, keep), key), limit);
      && (forall x :: x in r ==> x in rows && keep(x))
      && SortedDesc(r, key)
      && (limit >= 0 ==> |r| <= limit)
      && (limit < 0 || |Select(rows, keep)| <= limit ==> forall x :: x in rows && keep(x) ==> x in r)
      && (forall x, y :: x in rows && keep(x) && x !in r && y in r ==> KeyGe(key(y), key(x)))
  {
    var s := Select(rows, keep);
    var t := SortDesc(s, key);
    var r := Limit(t, limit);
    SortDescSorted(s, key);
    forall x | x in r ensures x in rows && keep(x) {
      assert x in multiset(t);
    }
    forall x | x in rows && keep(x) && (limit < 0 || |s| <= limit) ensures x in r {
      assert x in multiset(s);
    }
    forall x, y | x in rows && keep(x) && x !in r && y in r ensures KeyGe(key(y), key(x)) {
      if limit >= 0 {
        TopMaximal(s, key, limit, x, y);
      }
    }
  }

  /** Rows published at or after `start` and before `end`. */
  predicate InWindow(r: Item, start: int, end: int) {
    start <= r.publishedAt < end
  }

  /** `GROUP BY key` with `count()`, over the rows `keep` admits, as a dictionary. */
  function GroupCounts(rows: seq<Item>, keep: Item -> bool, key: Item -> string): map<string, nat> {
    if rows == [] then map[]
    else
      var m := GroupCounts(rows[..|rows| - 1], keep, key);
      var x := rows[|rows| - 1];
      if keep(x) then m[key(x) := (if key(x) in m then m[key(x)] else 0) + 1] else m
  }

  /** The number of rows `keep` admits whose key is `k`. */
  function CountWhere(rows: seq<Item>, keep: Item -> bool, key: Item -> string, k: string): nat {
    if rows == [] then 0
    else CountWhere(rows[..|rows| - 1], keep, key, k) + (if keep(rows[|rows| - 1]) && key(rows[|rows| - 1]) == k then 1 else 0)
  }

  /** A key is present exactly when some admitted row has it, and maps to how many do. */
  lemma {:induction false} GroupCountsSpec(rows: seq<Item>, keep: Item -> bool, key: Item -> string, k: string)
    ensures k in GroupCounts(rows, keep, key) <==> exists i :: 0 <= i < |rows| && keep(rows[i]) && key(rows[i]) == k
    ensures k in GroupCounts(rows, keep, key) ==> GroupCounts(rows, keep, key)[k] == CountWhere(rows, keep, key, k) > 0
    ensures k !in GroupCounts(rows, keep, key) ==> CountWhere(rows, keep, key, k) == 0
  {
    if rows != [] {
      var init := rows[..|rows| - 1];
      var x := rows[|rows| - 1];
      GroupCountsSpec(init, keep, key, k);
      assert forall i :: 0 <= i < |init| ==> init[i] == rows[i];
      if keep(x) && key(x) == k {
        assert keep(rows[|rows| - 1]) && key(rows[|rows| - 1]) == k;
      } else if exists i :: 0 <= i < |rows| && keep(rows[i]) && key(rows[i]) == k {
        var i :| 0 <= i < |rows| && keep(rows[i]) && key(rows[i]) == k;
        assert i < |init| && keep(init[i]) && key(init[i]) == k;
      }
    }
  }

  lemma GroupCountsSnoc(rows: seq<Item>, i: nat, keep: Item -> bool, key: Item -> string)
    requires i < |rows|
    ensures var m := GroupCounts(rows[..i], keep, key); var x := rows[i];
      GroupCounts(rows[..i + 1], keep, key) == if keep(x) then m[key(x) := (if key(x) in m then m[key(x)] else 0) + 1] else m
  {
    assert rows[..i + 1][..i] == rows[..i];
  }

  /** The grouping loop: one pass over the rows, bumping the admitted row's key. */
  method CountGroups(rows: seq<Item>, keep: Item -> bool, key: Item -> string) returns (out: map<string, nat>)
    ensures out == GroupCounts(rows, keep, key)
  {
    out := map[];
    for i := 0 to |rows|
      invariant out == GroupCounts(rows[..i], keep, key)
    {
      GroupCountsSnoc(rows, i, keep, key);
      var x := rows[i];
      if keep(x) {
        var k := key(x);
        out := out[k := (if k in out then out[k] else 0) + 1];
      }
    }
    assert rows[..|rows|] == rows;
  }

  /* ---------------- The table ---------------- */

  class IntelTable {
    var rows: seq<Item>

    ghost predicate Valid()
      reads this
    {
      KeysUnique(rows)
    }

    constructor()
      ensures rows == [] && Valid()
    {
      rows := [];
    }

    /**
     * `upsert_intel_item`: updates the row with the payload's key in place and
     * answers false, or appends a new row and answers true.
     */
    method Upsert(p: Payload, now: int) returns (inserted: bool)
      requires Valid()
      modifies this
      ensures Valid()
      ensures rows == UpsertRows(old(rows), p, now)
      ensures inserted <==> forall i :: 0 <= i < |old(rows)| ==> KeyOf(old(rows)[i]) != PayloadKey(p)
    {
      UpsertKeys(rows, p, now);
      var existing := Find(rows, PayloadKey(p));
      if existing.Some? {
        var i := existing.value;
        rows := rows[i := Updated(rows[i], p, now)];
        return false;
      }
      rows := rows + [NewItem(p, now)];
      return true;
    }

    /** `cleanup_old_items`: deletes every row published before the cutoff and answers how many. */
    method Cleanup(now: int, retentionDays: int) returns (deleted: nat)
      requires Valid()
      modifies this
      ensures Valid()
      ensures rows == Kept(old(rows), Cutoff(now, retentionDays))
      ensures deleted == OldCount(old(rows), Cutoff(now, retentionDays)) == |old(rows)| - |rows|
    {
      var cutoff := Cutoff(now, retentionDays);
      var all := rows;
      var kept: seq<Item> := [];
      deleted := 0;
      for i := 0 to |all|
        invariant kept == Kept(all[..i], cutoff)
        invariant deleted == OldCount(all[..i], cutoff)
      {
        KeptSnoc(all, i, cutoff);
        if all[i].publishedAt < cutoff {
          deleted := deleted + 1;
        } else {
          kept := kept + [all[i]];
        }
      }
      assert all[..|all|] == all;
      KeptSpec(all, cutoff);
      KeptUnique(all, cutoff);
      rows := kept;
    }

    /** `get_latest_items` */
    function LatestItems(topic: string, limit: int, entity: Option<string>): seq<Item>
      reads this
    {
      Limit(SortDesc(Select(rows, (r: Item) => r.topic == topic && EntityMatches(r, entity)), ByPublished), limit)
    }

    /** `get_items_since` */
    function ItemsSince(topic: string, since: int, limit: int, entity: Option<string>, orderBy: string): seq<Item>
      reads this
    {
      Limit(SortDesc(Select(rows, (r: Item) => r.topic == topic && r.publishedAt >= since && EntityMatches(r, entity)),
                     OrderKey(orderBy)), limit)
    }

    /** `get_topic_counts_between` */
    method TopicCountsBetween(start: int, end: int) returns (out: map<string, nat>)
      ensures out == GroupCounts(rows, (r: Item) => InWindow(r, start, end), (r: Item) => r.topic)
    {
      out := CountGroups(rows, (r: Item) => InWindow(r, start, end), (r: Item) => r.topic);
    }

    /** `get_entity_counts_between` */
    method EntityCountsBetween(topic: string, start: int, end: int) returns (out: map<string, nat>)
      ensures out == GroupCounts(rows, (r: Item) => r.topic == topic && InWindow(r, start, end), (r: Item) => r.entity)
    {
      out := CountGroups(rows, (r: Item) => r.topic == topic && InWindow(r, start, end), (r: Item) => r.entity);
    }
  }

  /**
   * `get_latest_items` returns rows of the topic (and of the entity when one
   * is given), newest first, at most `limit` of them, and none left out is
   * newer than one returned.
   */
  lemma LatestItemsSpec(t: IntelTable, topic: string, limit: int, entity: Option<string>)
    ensures var r := t.LatestItems(topic, limit, entity);
      && (forall x :: x in r ==> x in t.rows && x.topic == topic && EntityMatches(x, entity))
      && SortedDesc(r, ByPublished)
      && (limit >= 0 ==> |r| <= limit)
  {
    QuerySpec(t.rows, (r: Item) => r.topic == topic && EntityMatches(r, entity), ByPublished, limit);
  }

  /**
   * Every row `get_items_since` returns is of the topic and published at or
   * after `since`, ordered by the key `order_by` names, at most `limit`.
   */
  lemma ItemsSinceSpec(t: IntelTable, topic: string, since: int, limit: int, entity: Option<string>, orderBy: string)
    ensures var r := t.ItemsSince(topic, since, limit, entity, orderBy);
      && (forall x :: x in r ==> x in t.rows && x.topic == topic && x.publishedAt >= since && EntityMatches(x, entity))
      && SortedDesc(r, OrderKey(orderBy))
      && (limit >= 0 ==> |r| <= limit)
  {
    QuerySpec(t.rows, (r: Item) => r.topic == topic && r.publishedAt >= since && EntityMatches(r, entity),
              OrderKey(orderBy), limit);
  }

  /** The topic counts: a topic appears exactly when a row of it lies in `[start, end)`, with that many rows. */
  lemma TopicCountsSpec(rows: seq<Item>, start: int, end: int, t: string)
    ensures var m := GroupCounts(rows, (r: Item) => InWindow(r, start, end), (r: Item) => r.topic);
      && (t in m <==> exists i :: 0 <= i < |rows| && start <= rows[i].publishedAt < end && rows[i].topic == t)
      && (t in m ==> m[t] == CountWhere(rows, (r: Item) => InWindow(r, start, end), (r: Item) => r.topic, t) > 0)
  {
    GroupCountsSpec(rows, (r: Item) => InWindow(r, start, end), (r: Item) => r.topic, t);
  }

  /* ---------------- Refresh runs ---------------- */

  /** A row of `refresh_runs`, whose fields `complete_refresh_run` assigns in place. */
  class RefreshRun {
    var startedAt: int
    var completedAt: Option<int>
    var status: string
    var message: string
    var itemsIngested: int

    /** `create_refresh_run` */
    constructor(now: int)
      ensures startedAt == now && completedAt == None
      ensures status == "running" && message == "Ingesting latest intel" && itemsIngested == 0
    {
      startedAt := now;
      completedAt := None;
      status := "running";
      message := "Ingesting latest intel";
      itemsIngested := 0;
    }

    /** `complete_refresh_run` */
    method Complete(now: int, st: string, msg: string, items: int)
      modifies this
      ensures completedAt == Some(now) && status == st && message == msg && itemsIngested == items
      ensures startedAt == old(startedAt)
    {
      completedAt := Some(now);
      status := st;
      message := msg;
      itemsIngested := items;
    }
  }
}
