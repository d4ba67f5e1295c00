/**
 * The Reddit fetcher of the intel hub: how one search-listing post becomes a
 * raw item, and which posts of which subreddits are kept. The HTTP request
 * is a parameter: for each subreddit it yields the listing's children, or
 * `None` when the request or its JSON decoding raised.
 */
module Reddit {
  import opened Wrappers
  import opened Text
  import opened Ordering

  const RedditBaseUrl: string := "https://www.reddit.com"
  const MicrosPerSecond: int := 1000000

  /**
   * A raw item dict, as the news and Reddit fetchers build it and the
   * ingestion reads it with `get`: an absent (or `None`) key is `None`.
   * `publishedAt` counts microseconds since the epoch.
   */
  datatype RawItem = RawItem(
    title: Option<string>,
    url: Option<string>,
    summary: Option<string>,
    publishedAt: Option<int>,
    sourceType: Option<string>,
    sourceName: Option<string>,
    engagement: Option<int>,
    upvotes: Option<int>,
    comments: Option<int>,
    rawJson: Option<string>)

  /**
   * The `data` object of one listing child; absent or null keys are `None`.
   * `createdUtc` counts whole seconds since the epoch; `json` is the post's
   * own JSON text.
   */
  datatype Post = Post(
    permalink: Option<string>,
    url: Option<string>,
    title: Option<string>,
    selftext: Option<string>,
    score: Option<int>,
    numComments: Option<int>,
    createdUtc: Option<int>,
    json: string)

  /** `_as_utc_timestamp`: a missing or zero creation time falls back to `now`. */
  function AsTimestamp(createdUtc: Option<int>, now: int): (t: int)
    ensures createdUtc.None? || createdUtc.value == 0 ==> t == now
    ensures createdUtc.Some? && createdUtc.value != 0 ==> t / MicrosPerSecond == createdUtc.value && t % MicrosPerSecond == 0
  {
    if createdUtc.None? || createdUtc.value == 0 then now else createdUtc.value * MicrosPerSecond
  }

  /** `(x or 0)` for an optional number. */
  function OrZero(x: Option<int>): int {
    x.GetOr(0)
  }

  /** `_extract_post_data`: the raw item of one post found in `r/<subreddit>`. */
  function ExtractPostData(post: Post, subreddit: string, now: int): (item: RawItem)
    ensures item.title == Some(Strip(post.title.GetOr(""))) && Trimmed(item.title.value)
    ensures item.summary == Some(Strip(post.selftext.GetOr(""))) && Trimmed(item.summary.value)
    ensures item.sourceType == Some("forum")
    ensures item.sourceName == Some("Reddit:r/" + subreddit) && StartsWith(item.sourceName.value, "Reddit:r/")
    ensures item.upvotes == Some(OrZero(post.score)) && item.comments == Some(OrZero(post.numComments))
    ensures item.engagement.Some? && item.engagement.value == item.upvotes.value + 2 * item.comments.value
    ensures item.publishedAt == Some(AsTimestamp(post.createdUtc, now)) && item.rawJson == Some(post.json)
    ensures post.permalink.Some? && post.permalink.value != [] ==>
              item.url == Some(RedditBaseUrl + post.permalink.value) && StartsWith(item.url.value, RedditBaseUrl)
    ensures post.permalink.None? || post.permalink.value == [] ==> item.url == post.url
  {
    var permalink := post.permalink.GetOr("");
    var url := if permalink != [] then Some(RedditBaseUrl + permalink) else post.url;
    assert ("Reddit:r/" + subreddit)[..9] == "Reddit:r/";
    RawItem(
      Some(Strip(post.title.GetOr(""))),
      url,
      Some(Strip(post.selftext.GetOr(""))),
      Some(AsTimestamp(post.createdUtc, now)),
      Some("forum"),
      Some("Reddit:r/" + subreddit),
      Some(OrZero(post.score) + OrZero(post.numComments) * 2),
      Some(OrZero(post.score)),
      Some(OrZero(post.numComments)),
      Some(post.json))
  }

  /** The keep-filter: an extracted item with a non-empty title and url. */
  predicate Keep(item: RawItem) {
    item.title.Some? && item.title.value != [] && item.url.Some? && item.url.value != []
  }

  /**
   * A post survives the keep-filter exactly when its stripped title is
   * non-empty and it has a permalink or, failing that, a non-empty url of
   * its own; a kept item's url names the post's permalink or its url.
   */
  lemma {:induction false} KeepExtracted(post: Post, subreddit: string, now: int)
    ensures var item := ExtractPostData(post, subreddit, now);
      Keep(item) <==>
        Strip(post.title.GetOr("")) != []
        && ((post.permalink.Some? && post.permalink.value != []) || (post.url.Some? && post.url.value != []))
    ensures var item := ExtractPostData(post, subreddit, now);
      Keep(item) && post.permalink.Some? && post.permalink.value != [] ==>
        item.url.value[|RedditBaseUrl|..] == post.permalink.value
  {
    var item := ExtractPostData(post, subreddit, now);
    if post.permalink.Some? && post.permalink.value != [] {
      assert |item.url.value| == |RedditBaseUrl| + |post.permalink.value|;
    }
  }

  /** The kept items of one listing, in listing order; an empty child is skipped. */
  function ListingItems(children: seq<Option<Post>>, subreddit: string, now: int): seq<RawItem> {
    if children == [] then []
    else
      var init := ListingItems(children[..|children| - 1], subreddit, now);
      match children[|children| - 1]
      case None => init
      case Some(post) =>
        var item := ExtractPostData(post, subreddit, now);
        if Keep(item) then init + [item] else init
  }

  /** What one subreddit contributes: nothing when its request failed. */
  function SubredditItems(data: Option<seq<Option<Post>>>, subreddit: string, now: int): seq<RawItem> {
    match data
    case None => []
    case Some(children) => ListingItems(children, subreddit, now)
  }

  /** The items of every subreddit in turn. */
  function Collected(subreddits: seq<string>, fetch: string -> Option<seq<Option<Post>>>, now: int): seq<RawItem> {
    if subreddits == [] then []
    else
      var sub := subreddits[|subreddits| - 1];
      Collected(subreddits[..|subreddits| - 1], fetch, now) + SubredditItems(fetch(sub), sub, now)
  }

  /** A post of the listing, extracted, is `x`. */
  predicate ExtractedFrom(x: RawItem, children: seq<Option<Post>>, subreddit: string, now: int) {
    exists i :: 0 <= i < |children| && children[i].Some? && x == ExtractPostData(children[i].value, subreddit, now)
  }

  /** An item of a listing comes from its earlier posts or is its last post, kept. */
  lemma ListingItemsLast(children: seq<Option<Post>>, subreddit: string, now: int, x: RawItem)
    requires children != [] && x in ListingItems(children, subreddit, now)
    ensures var k := |children| - 1;
      x in ListingItems(children[..k], subreddit, now)
      || (children[k].Some? && Keep(x) && x == ExtractPostData(children[k].value, subreddit, now))
  {
  }

  /** A listing yields at most one item per child. */
  lemma {:induction false} ListingItemsShorter(children: seq<Option<Post>>, subreddit: string, now: int)
    ensures |ListingItems(children, subreddit, now)| <= |children|
  {
    if children != [] {
      ListingItemsShorter(children[..|children| - 1], subreddit, now);
    }
  }

  /** Every item of a listing passed the keep-filter and is the extraction of one of its posts. */
  lemma {:induction false} ListingItemsSpec(children: seq<Option<Post>>, subreddit: string, now: int)
    ensures |ListingItems(children, subreddit, now)| <= |children|
    ensures forall x :: x in ListingItems(children, subreddit, now) ==>
      Keep(x) && ExtractedFrom(x, children, subreddit, now)
  {
    ListingItemsShorter(children, subreddit, now);
    if children != [] {
      var k := |children| - 1;
      var init := children[..k];
      ListingItemsSpec(init, subreddit, now);
      forall x | x in ListingItems(children, subreddit, now)
        ensures Keep(x) && ExtractedFrom(x, children, subreddit, now)
      {
        ListingItemsLast(children, subreddit, now, x);
        if x in ListingItems(init, subreddit, now) {
          var i :| 0 <= i < |init| && init[i].Some? && x == ExtractPostData(init[i].value, subreddit, now);
          var c := children[i];
          assert c == init[i];
          assert 0 <= i < |children| && c.Some? && x == ExtractPostData(c.value, subreddit, now);
        } else {
          assert children[k].Some? && x == ExtractPostData(children[k].value, subreddit, now);
        }
      }
    }
  }

  /** The results split by subreddit: fetching `a + b` yields `a`'s items followed by `b`'s. */
  lemma {:induction false} CollectedAppend(a: seq<string>, b: seq<string>, fetch: string -> Option<seq<Option<Post>>>, now: int)
    ensures Collected(a + b, fetch, now) == Collected(a, fetch, now) + Collected(b, fetch, now)
    decreases |b|
  {
    if b == [] {
      assert a + b == a;
    } else {
      var b' := b[..|b| - 1];
      var sub := b[|b| - 1];
      CollectedAppend(a, b', fetch, now);
      assert (a + b)[..|a + b| - 1] == a + b';
      assert (a + b)[|a + b| - 1] == sub;
      var last := SubredditItems(fetch(sub), sub, now);
      assert Collected(a + b, fetch, now) == (Collected(a, fetch, now) + Collected(b', fetch, now)) + last;
      AppendAssoc(Collected(a, fetch, now), Collected(b', fetch, now), last);
    }
  }

  /** One subreddit's items all passed the keep-filter and name that subreddit as their source. */
  lemma SubredditItemsKept(data: Option<seq<Option<Post>>>, subreddit: string, now: int)
    ensures forall x :: x in SubredditItems(data, subreddit, now) ==>
      Keep(x) && x.sourceType == Some("forum") && x.sourceName == Some("Reddit:r/" + subreddit)
  {
    if data.Some? {
      var children := data.value;
      ListingItemsSpec(children, subreddit, now);
      forall x | x in SubredditItems(data, subreddit, now)
        ensures x.sourceName == Some("Reddit:r/" + subreddit)
      {
        assert ExtractedFrom(x, children, subreddit, now);
        var i :| 0 <= i < |children| && children[i].Some? && x == ExtractPostData(children[i].value, subreddit, now);
      }
    }
  }

  /** Every collected item passed the keep-filter and is a forum post of a subreddit asked for. */
  lemma {:induction false} CollectedKept(subreddits: seq<string>, fetch: string -> Option<seq<Option<Post>>>, now: int)
    ensures forall x :: x in Collected(subreddits, fetch, now) ==>
      Keep(x) && x.sourceType == Some("forum")
      && exists k :: 0 <= k < |subreddits| && x.sourceName == Some("Reddit:r/" + subreddits[k])
  {
    if subreddits != [] {
      var init := subreddits[..|subreddits| - 1];
      var k := |subreddits| - 1;
      var sub := subreddits[k];
      var head := Collected(init, fetch, now);
      var last := SubredditItems(fetch(sub), sub, now);
      assert Collected(subreddits, fetch, now) == head + last;
      CollectedKept(init, fetch, now);
      SubredditItemsKept(fetch(sub), sub, now);
      forall x | x in head + last
        ensures Keep(x) && x.sourceType == Some("forum")
        ensures exists k :: 0 <= k < |subreddits| && x.sourceName == Some("Reddit:r/" + subreddits[k])
      {
        if x in head {
          var j :| 0 <= j < |init| && x.sourceName == Some("Reddit:r/" + init[j]);
          assert subreddits[j] == init[j];
        } else {
          assert x in last;
        }
      }
    }
  }

  lemma ListingSnoc(children: seq<Option<Post>>, i: nat, subreddit: string, now: int)
    requires i < |children|
    ensures ListingItems(children[..i + 1], subreddit, now)
      == ListingItems(children[..i], subreddit, now)
         + (match children[i]
            case None => []
            case Some(post) => if Keep(ExtractPostData(post, subreddit, now)) then [ExtractPostData(post, subreddit, now)] else [])
  {
    assert children[..i + 1][..i] == children[..i];
  }

  /** The inner loop over one listing's children. */
  method ListingLoop(children: seq<Option<Post>>, subreddit: string, now: int) returns (items: seq<RawItem>)
    ensures items == ListingItems(children, subreddit, now)
  {
    items := [];
    for i := 0 to |children|
      invariant items == ListingItems(children[..i], subreddit, now)
    {
      ListingSnoc(children, i, subreddit, now);
      if children[i].None? {
        continue;
      }
      var extracted := ExtractPostData(children[i].value, subreddit, now);
      if Keep(extracted) {
        items := items + [extracted];
      }
    }
    assert children[..|children|] == children;
  }

  /** `fetch_reddit_posts`: the kept posts of every subreddit, in subreddit order. */
  method FetchRedditPosts(subreddits: seq<string>, fetch: string -> Option<seq<Option<Post>>>, now: int)
    returns (results: seq<RawItem>)
    ensures results == Collected(subreddits, fetch, now)
  {
    results := [];
    for i := 0 to |subreddits|
      invariant results == Collected(subreddits[..i], fetch, now)
    {
      var sub := subreddits[i];
      assert subreddits[..i + 1][..i] == subreddits[..i];
      var data := fetch(sub);
      if data.None? {
        continue;
      }
      var items := ListingLoop(data.value, sub, now);
      results := results + items;
    }
    assert subreddits[..|subreddits|] == subreddits;
  }
}
