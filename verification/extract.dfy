/**
 * Per-asset extraction in the deck agent: the image size budget of the
 * Anthropic upload, the mime type and mock tags derived from a file name,
 * the bounded shrink schedule for oversized images, mock-mode extraction,
 * the provenance fields forced onto a provider's answer, and the choice of
 * an Anthropic model id from the account's model list.
 *
 * Provider calls are not modelled: a provider's answer is an arbitrary
 * decoded JSON value, and JPEG re-encoding is an arbitrary function of the
 * target side and quality.
 */
module Extract {
  import opened Wrappers
  import opened Text
  import opened Ordering
  import opened Paths
  import opened Schemas
  import opened Config

  type Bytes = seq<bv8>

  /* ---------------- Size budget ---------------- */

  /** The limit on the base64 image field of one request: 5 MiB. */
  const MaxBase64Bytes: nat := 5 * 1024 * 1024

  /** The raw byte budget: three bytes for every four base64 characters allowed. */
  const MaxImageBytes: nat := 3 * (MaxBase64Bytes / 4)

  /** Length of the base64 encoding of `n` bytes: four characters per started group of three (RFC 4648, section 4). */
  function Base64Length(n: nat): nat {
    4 * ((n + 2) / 3)
  }

  /** Every image within the raw budget fits the base64 limit once encoded. */
  lemma Base64Budget(n: nat)
    requires n <= MaxImageBytes
    ensures Base64Length(n) <= MaxBase64Bytes
  {
    var q := MaxBase64Bytes / 4;
    assert MaxImageBytes == 3 * q;
    assert n + 2 < 3 * (q + 1);
    assert (n + 2) / 3 <= q;
  }

  /** The budget is the largest that works: one more byte overflows the limit. */
  lemma Base64BudgetTight()
    ensures MaxImageBytes == 3932160
    ensures Base64Length(MaxImageBytes + 1) > MaxBase64Bytes
  {
    assert (MaxImageBytes + 1 + 2) / 3 == 1310721;
  }

  /* ---------------- Mime type ---------------- */

  const PngMime: string := "image/png"
  const JpegMime: string := "image/jpeg"
  const OctetStreamMime: string := "application/octet-stream"

  /** The lowercased suffix of the path's last component. */
  function LowerSuffix(path: string): string {
    Lower(Suffix(Name(path)))
  }

  /** `_mime_for_image`: png and jpeg by suffix, anything else is an octet stream. */
  function MimeForImage(path: string): (m: string)
    ensures m == PngMime <==> LowerSuffix(path) == ".png"
    ensures m == JpegMime <==> LowerSuffix(path) == ".jpg" || LowerSuffix(path) == ".jpeg"
    ensures m == OctetStreamMime <==> LowerSuffix(path) !in {".png", ".jpg", ".jpeg"}
  {
    var suf := LowerSuffix(path);
    if suf == ".png" then PngMime
    else if suf == ".jpg" || suf == ".jpeg" then JpegMime
    else OctetStreamMime
  }

  /** The mime type does not depend on the letter case of the file name. */
  lemma MimeCaseInsensitive(p: string, q: string)
    requires Lower(Name(p)) == Lower(Name(q))
    ensures MimeForImage(p) == MimeForImage(q)
  {
    SuffixLower(Name(p), Name(q));
  }

  /* ---------------- Mock tags ---------------- */

  /** A mock tag and the lowercase substrings of the file name that trigger it. */
  datatype TagRule = TagRule(tag: string, needles: seq<string>)

  /** The rules in the order the tags are emitted. */
  const TagRules: seq<TagRule> := [
    TagRule("revenue", ["rev", "revenue", "gmv"]),
    TagRule("margin", ["margin", "gross"]),
    TagRule("subscriptions", ["sub", "subscription"]),
    TagRule("engagement", ["engage", "active", "dau", "mau"]),
    TagRule("traffic", ["traffic", "visit", "session"]),
    TagRule("conversion", ["conv", "conversion"])]

  /** At most this many mock tags are returned (`tags[:6]`). */
  const MaxMockTags: int := 6

  function TagsOf(rules: seq<TagRule>): (r: seq<string>)
    ensures |r| == |rules|
    ensures forall i :: 0 <= i < |rules| ==> r[i] == rules[i].tag
  {
    if rules == [] then [] else TagsOf(rules[..|rules| - 1]) + [rules[|rules| - 1].tag]
  }

  /** `needles[0] in f or needles[1] in f or ...` */
  predicate Fires(f: string, needles: seq<string>) {
    exists i :: 0 <= i < |needles| && Contains(f, needles[i])
  }

  /** The tags of the rules that fire on `f`, in rule order. */
  function MatchingTags(f: string, rules: seq<TagRule>): seq<string> {
    if rules == [] then []
    else
      var last := rules[|rules| - 1];
      MatchingTags(f, rules[..|rules| - 1]) + (if Fires(f, last.needles) then [last.tag] else [])
  }

  /** The mock tags of a file name. */
  function MockTagsOf(filename: string): seq<string> {
    Take(MatchingTags(Lower(filename), TagRules), MaxMockTags)
  }

  lemma MatchingTagsSnoc(f: string, rules: seq<TagRule>, n: nat)
    requires n < |rules|
    ensures MatchingTags(f, rules[..n + 1])
         == MatchingTags(f, rules[..n]) + (if Fires(f, rules[n].needles) then [rules[n].tag] else [])
  {
    assert rules[..n + 1][..n] == rules[..n];
  }

  /**
   * The matching tags keep the rules' order, drop no firing rule and add no
   * other tag; with distinct rule tags they are distinct.
   */
  lemma MatchingTagsSpec(f: string, rules: seq<TagRule>)
    ensures IsSubseq(MatchingTags(f, rules), TagsOf(rules))
    ensures forall i :: 0 <= i < |rules| && Fires(f, rules[i].needles) ==> rules[i].tag in MatchingTags(f, rules)
    ensures forall t :: t in MatchingTags(f, rules) ==>
              exists i :: 0 <= i < |rules| && rules[i].tag == t && Fires(f, rules[i].needles)
    ensures Distinct(TagsOf(rules)) ==> Distinct(MatchingTags(f, rules))
  {
    MatchingTagsSubseq(f, rules);
    MatchingTagsMembers(f, rules);
    if Distinct(TagsOf(rules)) {
      MatchingTagsDistinct(f, rules);
    }
  }

  lemma {:induction false} MatchingTagsSubseq(f: string, rules: seq<TagRule>)
    ensures IsSubseq(MatchingTags(f, rules), TagsOf(rules))
  {
    if rules != [] {
      var n := |rules| - 1;
      var init := rules[..n];
      var last := rules[n];
      var extra := if Fires(f, last.needles) then [last.tag] else [];
      MatchingTagsSubseq(f, init);
      assert TagsOf(rules) == TagsOf(init) + [last.tag];
      if Fires(f, last.needles) {
        SubseqRefl(extra);
      } else {
        assert IsSubseq(extra, [last.tag]);
      }
      SubseqAppend(MatchingTags(f, init), TagsOf(init), extra, [last.tag]);
    }
  }

  lemma {:induction false} MatchingTagsMembers(f: string, rules: seq<TagRule>)
    ensures forall i :: 0 <= i < |rules| && Fires(f, rules[i].needles) ==> rules[i].tag in MatchingTags(f, rules)
    ensures forall t :: t in MatchingTags(f, rules) ==>
              exists i :: 0 <= i < |rules| && rules[i].tag == t && Fires(f, rules[i].needles)
  {
    if rules != [] {
      var n := |rules| - 1;
      var init := rules[..n];
      var m := MatchingTags(f, init);
      var extra := if Fires(f, rules[n].needles) then [rules[n].tag] else [];
      MatchingTagsMembers(f, init);
      assert MatchingTags(f, rules) == m + extra;
      forall t | t in m + extra
        ensures exists i :: 0 <= i < |rules| && rules[i].tag == t && Fires(f, rules[i].needles)
      {
        if t in m {
          var i :| 0 <= i < |init| && init[i].tag == t && Fires(f, init[i].needles);
          assert rules[i] == init[i];
        } else {
          assert rules[n].tag == t;
        }
      }
      forall i | 0 <= i < |rules| && Fires(f, rules[i].needles) ensures rules[i].tag in m + extra {
        if i < n {
          assert init[i] == rules[i];
        }
      }
    }
  }

  lemma {:induction false} MatchingTagsDistinct(f: string, rules: seq<TagRule>)
    requires Distinct(TagsOf(rules))
    ensures Distinct(MatchingTags(f, rules))
  {
    if rules != [] {
      var n := |rules| - 1;
      var init := rules[..n];
      var last := rules[n];
      var m := MatchingTags(f, init);
      var extra := if Fires(f, last.needles) then [last.tag] else [];
      assert TagsOf(rules) == TagsOf(init) + [last.tag];
      assert Distinct(TagsOf(init)) by {
        forall i, j | 0 <= i < j < |init| ensures TagsOf(init)[i] != TagsOf(init)[j] {
          assert TagsOf(init)[i] == TagsOf(rules)[i] && TagsOf(init)[j] == TagsOf(rules)[j];
        }
      }
      MatchingTagsDistinct(f, init);
      MatchingTagsSubseq(f, init);
      SubseqMembers(m, TagsOf(init));
      forall t | t in m ensures t != last.tag {
        var k :| 0 <= k < |TagsOf(init)| && TagsOf(init)[k] == t;
        assert TagsOf(rules)[k] == t && TagsOf(rules)[n] == last.tag;
      }
      var r := m + extra;
      forall i, j | 0 <= i < j < |r| ensures r[i] != r[j] {
        assert r[i] == m[i];
        if j >= |m| {
          assert m[i] in m;
        }
      }
    }
  }

  /** The six rule tags are distinct. */
  lemma TagRulesDistinct()
    ensures Distinct(TagsOf(TagRules))
  {
    var ts := TagsOf(TagRules);
    assert ts == ["revenue", "margin", "subscriptions", "engagement", "traffic", "conversion"];
    assert ts[0][0] == 'r' && ts[1][0] == 'm' && ts[2][0] == 's' && ts[3][0] == 'e' && ts[4][0] == 't' && ts[5][0] == 'c';
  }

  /**
   * The mock tags are a duplicate-free subsequence of the six rule tags; a
   * tag is present exactly when one of its substrings occurs in the
   * lowercased file name, so the `[:6]` cut never drops one.
   */
  lemma MockTagsSpec(filename: string)
    ensures IsSubseq(MockTagsOf(filename), TagsOf(TagRules))
    ensures Distinct(MockTagsOf(filename))
    ensures forall i :: 0 <= i < |TagRules| ==>
              (TagRules[i].tag in MockTagsOf(filename) <==> Fires(Lower(filename), TagRules[i].needles))
  {
    var f := Lower(filename);
    var m := MatchingTags(f, TagRules);
    MatchingTagsSpec(f, TagRules);
    TagRulesDistinct();
    SubseqLength(m, TagsOf(TagRules));
    assert MockTagsOf(filename) == m;
    forall i | 0 <= i < |TagRules| && TagRules[i].tag in m ensures Fires(f, TagRules[i].needles) {
      var j :| 0 <= j < |TagRules| && TagRules[j].tag == TagRules[i].tag && Fires(f, TagRules[j].needles);
      assert TagsOf(TagRules)[i] == TagsOf(TagRules)[j];
    }
  }

  lemma {:induction false} SubseqLength<T>(a: seq<T>, b: seq<T>)
    requires IsSubseq(a, b)
    ensures |a| <= |b|
    decreases |b|
  {
    if a != [] {
      if a[0] == b[0] && IsSubseq(a[1..], b[1..]) {
        SubseqLength(a[1..], b[1..]);
      } else {
        SubseqLength(a, b[1..]);
      }
    }
  }

  lemma Fires2(f: string, a: string, b: string)
    ensures Fires(f, [a, b]) <==> Contains(f, a) || Contains(f, b)
  {
    var ns := [a, b];
    assert ns[0] == a && ns[1] == b;
  }

  lemma Fires3(f: string, a: string, b: string, c: string)
    ensures Fires(f, [a, b, c]) <==> Contains(f, a) || Contains(f, b) || Contains(f, c)
  {
    var ns := [a, b, c];
    assert ns[0] == a && ns[1] == b && ns[2] == c;
  }

  lemma Fires4(f: string, a: string, b: string, c: string, d: string)
    ensures Fires(f, [a, b, c, d]) <==> Contains(f, a) || Contains(f, b) || Contains(f, c) || Contains(f, d)
  {
    var ns := [a, b, c, d];
    assert ns[0] == a && ns[1] == b && ns[2] == c && ns[3] == d;
  }

  /** The first three rule tests of `_mock_tags_from_filename`. */
  method MockTagsHead(f: string) returns (tags: seq<string>)
    ensures tags == MatchingTags(f, TagRules[..3])
  {
    tags := [];
    assert tags == MatchingTags(f, TagRules[..0]);
    tags := tags + (if Contains(f, "rev") || Contains(f, "revenue") || Contains(f, "gmv") then ["revenue"] else []);
    assert tags == MatchingTags(f, TagRules[..1]) by {
      Fires3(f, "rev", "revenue", "gmv");
      MatchingTagsSnoc(f, TagRules, 0);
    }
    tags := tags + (if Contains(f, "margin") || Contains(f, "gross") then ["margin"] else []);
    assert tags == MatchingTags(f, TagRules[..2]) by {
      Fires2(f, "margin", "gross");
      MatchingTagsSnoc(f, TagRules, 1);
    }
    tags := tags + (if Contains(f, "sub") || Contains(f, "subscription") then ["subscriptions"] else []);
    assert tags == MatchingTags(f, TagRules[..3]) by {
      Fires2(f, "sub", "subscription");
      MatchingTagsSnoc(f, TagRules, 2);
    }
  }

  /** `_mock_tags_from_filename`: tests each rule's substrings in turn and appends its tag. */
  method MockTags(filename: string) returns (tags: seq<string>)
    ensures tags == MockTagsOf(filename)
  {
    var f := Lower(filename);
    tags := MockTagsHead(f);
    tags := tags + (if Contains(f, "engage") || Contains(f, "active") || Contains(f, "dau") || Contains(f, "mau") then ["engagement"] else []);
    assert tags == MatchingTags(f, TagRules[..4]) by {
      Fires4(f, "engage", "active", "dau", "mau");
      MatchingTagsSnoc(f, TagRules, 3);
    }
    tags := tags + (if Contains(f, "traffic") || Contains(f, "visit") || Contains(f, "session") then ["traffic"] else []);
    assert tags == MatchingTags(f, TagRules[..5]) by {
      Fires3(f, "traffic", "visit", "session");
      MatchingTagsSnoc(f, TagRules, 4);
    }
    tags := tags + (if Contains(f, "conv") || Contains(f, "conversion") then ["conversion"] else []);
    Fires2(f, "conv", "conversion");
    MatchingTagsSnoc(f, TagRules, 5);
    assert TagRules[..6] == TagRules;
    assert tags == MatchingTags(f, TagRules);
    tags := Take(tags, MaxMockTags);
  }

  /* ---------------- Shrinking an oversized image ---------------- */

  /** JPEG qualities tried in each round, best first. */
  const Qualities: seq<int> := [90, 85, 80, 75, 70, 65, 60, 55, 50, 45]

  /** Resolution rounds at most. */
  const Rounds: nat := 12

  /** The first round's side is never below this. */
  const MinStartSide: int := 1200

  /** Shrinking stops once the side drops below this. */
  const MinSide: int := 640

  /** `int(side * 0.85)` for a non-negative side. */
  function NextSide(side: int): int {
    side * 85 / 100
  }

  /**
   * The first round's bounding-box side: the image's longest side scaled by
   * the byte ratio (`scaled`, computed with floating point), capped at the
   * image's own longest side and raised to at least 1200.
   */
  function StartSide(longest: nat, scaled: int): (d: int)
    ensures d >= MinStartSide
    ensures d == MinStartSide || d <= longest
  {
    var c := if longest < scaled then longest else scaled;
    if c < MinStartSide then MinStartSide else c
  }

  /** The longest side after `thumbnail((box, box))`: only images larger than the box shrink. */
  function Fitted(longest: nat, box: int): int {
    if longest > box then box else longest
  }

  /** The bounding-box sides of the rounds, starting from `side`. */
  function Schedule(side: int, rounds: nat): (r: seq<int>)
    ensures |r| <= rounds
    ensures rounds > 0 ==> |r| >= 1 && r[0] == side
    decreases rounds
  {
    if rounds == 0 then []
    else [side] + (if NextSide(side) < MinSide then [] else Schedule(NextSide(side), rounds - 1))
  }

  lemma NextSideSmaller(side: int)
    requires side > 0
    ensures 0 <= NextSide(side) < side
  {
  }

  /** Every round after the first uses 85% of the previous side, and none of those is below 640. */
  predicate Shrinking(r: seq<int>) {
    forall i :: 0 < i < |r| ==> r[i] == NextSide(r[i - 1]) && MinSide <= r[i] < r[i - 1]
  }

  lemma {:induction false} ScheduleShape(side: int, rounds: nat)
    requires side > 0
    ensures Shrinking(Schedule(side, rounds))
    decreases rounds
  {
    if rounds > 0 && NextSide(side) >= MinSide {
      var rest := Schedule(NextSide(side), rounds - 1);
      NextSideSmaller(side);
      ScheduleShape(NextSide(side), rounds - 1);
      var r := Schedule(side, rounds);
      assert r == [side] + rest;
      forall i | 0 < i < |r| ensures r[i] == NextSide(r[i - 1]) && MinSide <= r[i] < r[i - 1] {
        assert r[i] == rest[i - 1];
        if i > 1 {
          assert r[i - 1] == rest[i - 2];
          assert rest[i - 1] == NextSide(rest[i - 2]) && MinSide <= rest[i - 1] < rest[i - 2] by {
            assert Shrinking(rest);
          }
        } else {
          assert rounds - 1 > 0;
          assert rest[0] == NextSide(side);
        }
      }
    }
  }

  /** The encoding at the first quality in `qs` that fits the byte budget. */
  function FirstFit(qs: seq<int>, side: int, encode: (int, int) -> Bytes): (r: Option<Bytes>)
    ensures r.Some? ==> |r.value| <= MaxImageBytes
    ensures r.Some? ==> exists i :: 0 <= i < |qs| && r.value == encode(side, qs[i])
    ensures r.None? <==> forall i :: 0 <= i < |qs| ==> |encode(side, qs[i])| > MaxImageBytes
  {
    if qs == [] then None
    else
      var b := encode(side, qs[0]);
      if |b| <= MaxImageBytes then Some(b)
      else
        var r := FirstFit(qs[1..], side, encode);
        assert forall i :: 1 <= i < |qs| ==> qs[i] == qs[1..][i - 1];
        assert r.Some? ==> exists i :: 0 <= i < |qs| && r.value == encode(side, qs[i]) by {
          if r.Some? {
            var i :| 0 <= i < |qs[1..]| && r.value == encode(side, qs[1..][i]);
            assert qs[i + 1] == qs[1..][i];
          }
        }
        r
  }

  /** The first fitting encoding over the rounds, each round trying every quality. */
  function FirstFitting(longest: nat, boxes: seq<int>, encode: (int, int) -> Bytes): (r: Option<Bytes>)
    ensures r.Some? ==> |r.value| <= MaxImageBytes
    ensures r.Some? ==> exists k, i :: 0 <= k < |boxes| && 0 <= i < |Qualities|
                                   && r.value == encode(Fitted(longest, boxes[k]), Qualities[i])
    ensures r.None? <==> forall k, i :: 0 <= k < |boxes| && 0 <= i < |Qualities| ==>
                                   |encode(Fitted(longest, boxes[k]), Qualities[i])| > MaxImageBytes
  {
    if boxes == [] then None
    else
      match FirstFit(Qualities, Fitted(longest, boxes[0]), encode)
      case Some(b) => Some(b)
      case None =>
        var r := FirstFitting(longest, boxes[1..], encode);
        assert forall k :: 1 <= k < |boxes| ==> boxes[k] == boxes[1..][k - 1];
        assert r.Some? ==> exists k, i :: 0 <= k < |boxes| && 0 <= i < |Qualities|
                                   && r.value == encode(Fitted(longest, boxes[k]), Qualities[i]) by {
          if r.Some? {
            var k, i :| 0 <= k < |boxes[1..]| && 0 <= i < |Qualities|
                        && r.value == encode(Fitted(longest, boxes[1..][k]), Qualities[i]);
            assert boxes[k + 1] == boxes[1..][k];
          }
        }
        r
  }

  /** A round where no quality fits hands over to the next round, or ends the schedule when the side would drop below 640. */
  lemma FirstFittingStep(longest: nat, side: int, rounds: nat, encode: (int, int) -> Bytes)
    requires rounds > 0 && FirstFit(Qualities, Fitted(longest, side), encode).None?
    ensures FirstFitting(longest, Schedule(side, rounds), encode)
         == if NextSide(side) < MinSide then None else FirstFitting(longest, Schedule(NextSide(side), rounds - 1), encode)
  {
    var r := Schedule(side, rounds);
    assert r[0] == side;
    assert r[1..] == (if NextSide(side) < MinSide then [] else Schedule(NextSide(side), rounds - 1));
  }

  /** A round where some quality fits ends the schedule with that encoding. */
  lemma FirstFittingHit(longest: nat, side: int, rounds: nat, encode: (int, int) -> Bytes)
    requires rounds > 0 && FirstFit(Qualities, Fitted(longest, side), encode).Some?
    ensures FirstFitting(longest, Schedule(side, rounds), encode) == FirstFit(Qualities, Fitted(longest, side), encode)
  {
    assert Schedule(side, rounds)[0] == side;
  }

  /** An image whose raw bytes cannot be sent as they are, together with what Pillow reports about it. */
  datatype ImageFile = ImageFile(path: string, raw: Bytes, longest: nat, scaled: int)

  datatype PrepareError = PillowMissing | CannotShrink

  datatype Prepared = Prepared(mime: string, data: Bytes)

  /** A png or jpeg within the budget is sent unchanged. */
  predicate SendAsIs(img: ImageFile) {
    var mime := MimeForImage(img.path);
    (mime == PngMime || mime == JpegMime) && |img.raw| <= MaxImageBytes
  }

  /** `_prepare_image_bytes_for_anthropic` as a function of the image, Pillow's presence and the encoder. */
  function PrepareSpec(img: ImageFile, pillow: bool, encode: (int, int) -> Bytes): Result<Prepared, PrepareError> {
    if SendAsIs(img) then Ok(Prepared(MimeForImage(img.path), img.raw))
    else if !pillow then Err(PillowMissing)
    else
      match FirstFitting(img.longest, Schedule(StartSide(img.longest, img.scaled), Rounds), encode)
      case Some(b) => Ok(Prepared(JpegMime, b))
      case None => Err(CannotShrink)
  }

  /** Tries each quality of `qs` (the round's `Qualities`) at one side; the inner loop of a round. */
  method TryQualities(qs: seq<int>, side: int, encode: (int, int) -> Bytes) returns (r: Option<Bytes>)
    ensures r == FirstFit(qs, side, encode)
  {
    for i := 0 to |qs|
      invariant FirstFit(qs, side, encode) == FirstFit(qs[i..], side, encode)
    {
      assert qs[i..][1..] == qs[i + 1..];
      var b := encode(side, qs[i]);
      if |b| <= MaxImageBytes {
        return Some(b);
      }
    }
    return None;
  }

  /**
   * The rounds of `_prepare_image_bytes_for_anthropic`: fit the image into
   * the current box, try every quality, then shrink the box to 85%; stop
   * after 12 rounds or once the box would drop below 640.
   */
  method Shrink(longest: nat, start: int, encode: (int, int) -> Bytes) returns (r: Option<Bytes>)
    ensures r == FirstFitting(longest, Schedule(start, Rounds), encode)
  {
    ghost var want := FirstFitting(longest, Schedule(start, Rounds), encode);
    var side := start;
    var round := 0;
    while round < Rounds
      invariant 0 <= round <= Rounds
      invariant want == FirstFitting(longest, Schedule(side, Rounds - round), encode)
    {
      var box := Fitted(longest, side);
      var b := TryQualities(Qualities, box, encode);
      if b.Some? {
        FirstFittingHit(longest, side, Rounds - round, encode);
        return b;
      }
      FirstFittingStep(longest, side, Rounds - round, encode);
      side := NextSide(side);
      if side < MinSide {
        break;
      }
      round := round + 1;
    }
    return None;
  }

  /**
   * `_prepare_image_bytes_for_anthropic`: passes a small png or jpeg
   * through; otherwise needs Pillow and sends the first re-encoding that
   * fits as a JPEG, or fails.
   */
  method PrepareImageBytes(img: ImageFile, pillow: bool, encode: (int, int) -> Bytes)
    returns (r: Result<Prepared, PrepareError>)
    ensures r == PrepareSpec(img, pillow, encode)
  {
    var mime := MimeForImage(img.path);
    if (mime == PngMime || mime == JpegMime) && |img.raw| <= MaxImageBytes {
      return Ok(Prepared(mime, img.raw));
    }
    if !pillow {
      return Err(PillowMissing);
    }
    var b := Shrink(img.longest, StartSide(img.longest, img.scaled), encode);
    if b.Some? {
      return Ok(Prepared(JpegMime, b.value));
    }
    return Err(CannotShrink);
  }

  /** A prepared image always fits the base64 limit and is a png or a jpeg. */
  lemma PreparedFits(img: ImageFile, pillow: bool, encode: (int, int) -> Bytes)
    requires PrepareSpec(img, pillow, encode).Ok?
    ensures var p := PrepareSpec(img, pillow, encode).value;
      && |p.data| <= MaxImageBytes
      && Base64Length(|p.data|) <= MaxBase64Bytes
      && (p.mime == PngMime || p.mime == JpegMime)
  {
    Base64Budget(|PrepareSpec(img, pillow, encode).value.data|);
  }

  /** A png or jpeg within the budget comes back unchanged with its own mime type. */
  lemma PreparePassThrough(img: ImageFile, pillow: bool, encode: (int, int) -> Bytes)
    requires MimeForImage(img.path) in {PngMime, JpegMime} && |img.raw| <= MaxImageBytes
    ensures PrepareSpec(img, pillow, encode) == Ok(Prepared(MimeForImage(img.path), img.raw))
  {
  }

  /**
   * Anything else is either refused without Pillow, re-encoded as a JPEG of
   * one of at most 12 rounds at one of the 10 qualities, or refused because
   * no such encoding fits.
   */
  lemma PrepareReencodes(img: ImageFile, pillow: bool, encode: (int, int) -> Bytes)
    requires !SendAsIs(img)
    ensures var boxes := Schedule(StartSide(img.longest, img.scaled), Rounds);
      && 1 <= |boxes| <= Rounds
      && boxes[0] == StartSide(img.longest, img.scaled)
      && Shrinking(boxes)
      && (!pillow <==> PrepareSpec(img, pillow, encode) == Err(PillowMissing))
      && (PrepareSpec(img, pillow, encode).Ok? ==>
            PrepareSpec(img, pillow, encode).value.mime == JpegMime
            && exists k, i :: 0 <= k < |boxes| && 0 <= i < |Qualities|
                 && PrepareSpec(img, pillow, encode).value.data == encode(Fitted(img.longest, boxes[k]), Qualities[i]))
      && (PrepareSpec(img, pillow, encode) == Err(CannotShrink) <==>
            pillow && forall k, i :: 0 <= k < |boxes| && 0 <= i < |Qualities| ==>
              |encode(Fitted(img.longest, boxes[k]), Qualities[i])| > MaxImageBytes)
  {
    ScheduleShape(StartSide(img.longest, img.scaled), Rounds);
  }

  /* ---------------- extract_asset ---------------- */

  /** `"pdf_page" if source_type == "pdf_page" else "image"` */
  function SourceTypeOf(sourceType: string): (t: SourceType)
    ensures t == PdfPage <==> sourceType == "pdf_page"
  {
    if sourceType == "pdf_page" then PdfPage else Image
  }

  const NeedsDataTag: string := "[NEEDS DATA]"
  const MockTrend: string := NeedsDataTag + " Mock mode: no vision extraction performed."
  const MockNote: string := "Mock mode enabled (no API call)."
  const MockConfidence: real := 0.1

  /** `f"Asset: {filename}"`, followed by `f" page {page}"` when the page is truthy. */
  function AssetNote(sr: SourceRef): string {
    "Asset: " + sr.filename + (if PageTruthy(sr.page) then " page " + IntToString(sr.page.value) else "")
  }

  /** The extraction returned in mock mode: no metrics, low confidence, tags guessed from the file name. */
  function MockExtraction(assetId: string, sourceType: string, sr: SourceRef): (x: AssetExtraction)
    ensures x.assetId == assetId && x.sourceRef == sr && x.sourceType == SourceTypeOf(sourceType)
    ensures x.metrics == [] && x.confidence == MockConfidence && ValidExtraction(x)
    ensures x.tags == MockTagsOf(sr.filename)
  {
    AssetExtraction(
      assetId, SourceTypeOf(sourceType), sr, "", "", [], [MockTrend], [],
      MockTagsOf(sr.filename), MockConfidence, [MockNote, AssetNote(sr)])
  }

  /**
   * Mock mode flags every trend as missing data, so nothing downstream can
   * cite a number from it, and the result survives the schema unchanged.
   */
  lemma MockExtractionSpec(assetId: string, sourceType: string, sr: SourceRef)
    ensures var x := MockExtraction(assetId, sourceType, sr);
      && |x.notableTrends| == 1 && StartsWith(x.notableTrends[0], NeedsDataTag)
      && ParseAssetExtraction(DumpAssetExtraction(x)) == Ok(x)
  {
    var x := MockExtraction(assetId, sourceType, sr);
    assert MockTrend[..|NeedsDataTag|] == NeedsDataTag;
    AssetExtractionRoundTrip(x);
  }

  /** The provider's answer with the provenance fields overwritten by the caller's. */
  function WithProvenance(obj: Fields, assetId: string, sourceType: string, sr: SourceRef): Fields {
    obj["asset_id" := JStr(assetId)]
       ["source_ref" := DumpSourceRef(sr)]
       ["source_type" := JStr(SourceTypeName(SourceTypeOf(sourceType)))]
  }

  datatype ExtractError =
    | MissingApiKey(provider: Provider)
    | NoOutput
    | NotAnObject
    | Invalid(error: FieldError)
    | ImageTooLarge(reason: PrepareError)

  /**
   * The tail of `_extract_openai` and `_extract_anthropic`: overwrite the
   * provenance fields of the decoded answer, then validate it.
   */
  function ValidateAnswer(answer: Json, assetId: string, sourceType: string, sr: SourceRef)
    : (r: Result<AssetExtraction, ExtractError>)
    ensures r.Ok? ==> r.value.assetId == assetId && r.value.sourceRef == sr
    ensures r.Ok? ==> r.value.sourceType == SourceTypeOf(sourceType) && ValidExtraction(r.value)
  {
    if !answer.JObj? then Err(NotAnObject)
    else
      var j := JObj(WithProvenance(answer.fields, assetId, sourceType, sr));
      match ParseAssetExtraction(j)
      case Ok(x) =>
        SourceRefRoundTrip(sr);
        assert j.fields["source_ref"] == DumpSourceRef(sr);
        assert j.fields["source_type"] == JStr(SourceTypeName(SourceTypeOf(sourceType)));
        assert SourceTypeName(x.sourceType) == SourceTypeName(SourceTypeOf(sourceType));
        Ok(x)
      case Err(e) => Err(Invalid(e))
  }

  /** Whatever the provider answered, only the provenance fields were replaced. */
  lemma ProvenanceOnly(obj: Fields, assetId: string, sourceType: string, sr: SourceRef, k: string)
    requires k !in {"asset_id", "source_ref", "source_type"}
    ensures k in WithProvenance(obj, assetId, sourceType, sr) <==> k in obj
    ensures k in obj ==> WithProvenance(obj, assetId, sourceType, sr)[k] == obj[k]
  {
  }

  /**
   * `extract_asset`: the mock extraction in mock mode, otherwise the
   * effective provider's answer (`answer`, `None` when it held no output),
   * validated. Anthropic first shrinks the image to its upload limit; when
   * its API answers `NotFoundError` (`notFound` holds the account's model
   * list) the request is retried with the resolved model, which is written
   * back to the settings. Returns the result and the settings afterwards.
   */
  function ExtractAsset(
    settings: Settings, img: ImageFile, pillow: bool, encode: (int, int) -> Bytes,
    assetId: string, sourceType: string, sr: SourceRef,
    notFound: Option<seq<Option<string>>>, answer: Option<Json>)
    : (r: (Result<AssetExtraction, ExtractError>, Settings))
    ensures r.1 == settings.(anthropicModel := r.1.anthropicModel)
    ensures EffectiveMockMode(settings) ==> r.0 == Ok(MockExtraction(assetId, sourceType, sr))
    ensures r.0.Err? && r.0.error.MissingApiKey? ==>
      !EffectiveMockMode(settings) && !HasKey(KeyFor(settings, EffectiveProvider(settings)))
    ensures r.1 != settings ==> notFound.Some? && EffectiveProvider(settings) == Anthropic && !EffectiveMockMode(settings)
    ensures && notFound.Some? && !EffectiveMockMode(settings) && EffectiveProvider(settings) == Anthropic
            && HasKey(settings.anthropicKey) && PrepareSpec(img, pillow, encode).Ok?
            ==> r.1 == RetryAfterNotFound(settings, notFound.value).1
  {
    if EffectiveMockMode(settings) then (Ok(MockExtraction(assetId, sourceType, sr)), settings)
    else
      var p := EffectiveProvider(settings);
      if !HasKey(KeyFor(settings, p)) then (Err(MissingApiKey(p)), settings)
      else if p == Anthropic && PrepareSpec(img, pillow, encode).Err? then
        (Err(ImageTooLarge(PrepareSpec(img, pillow, encode).error)), settings)
      else
        var after := if p == Anthropic && notFound.Some? then RetryAfterNotFound(settings, notFound.value).1 else settings;
        if answer.None? then (Err(NoOutput), after)
        else (ValidateAnswer(answer.value, assetId, sourceType, sr), after)
  }

  /**
   * Every extraction carries the caller's asset id, source reference and
   * normalised source type, and a valid confidence; when mock mode is left
   * to the settings, a missing key always means mock mode, never an error.
   */
  lemma ExtractAssetSpec(
    settings: Settings, img: ImageFile, pillow: bool, encode: (int, int) -> Bytes,
    assetId: string, sourceType: string, sr: SourceRef,
    notFound: Option<seq<Option<string>>>, answer: Option<Json>)
    ensures var r := ExtractAsset(settings, img, pillow, encode, assetId, sourceType, sr, notFound, answer).0;
      && (r.Ok? ==> r.value.assetId == assetId && r.value.sourceRef == sr
                    && r.value.sourceType == SourceTypeOf(sourceType) && ValidExtraction(r.value))
      && (settings.mockMode.None? ==> !r.Err? || !r.error.MissingApiKey?)
      && (EffectiveMockMode(settings) ==> r == Ok(MockExtraction(assetId, sourceType, sr)))
  {
    ExtractAssetOk(settings, img, pillow, encode, assetId, sourceType, sr, notFound, answer);
  }

  lemma ExtractAssetOk(
    settings: Settings, img: ImageFile, pillow: bool, encode: (int, int) -> Bytes,
    assetId: string, sourceType: string, sr: SourceRef,
    notFound: Option<seq<Option<string>>>, answer: Option<Json>)
    ensures var r := ExtractAsset(settings, img, pillow, encode, assetId, sourceType, sr, notFound, answer).0;
      r.Ok? ==> r.value.assetId == assetId && r.value.sourceRef == sr
                && r.value.sourceType == SourceTypeOf(sourceType) && ValidExtraction(r.value)
  {
    var r := ExtractAsset(settings, img, pillow, encode, assetId, sourceType, sr, notFound, answer).0;
    if EffectiveMockMode(settings) {
      assert r == Ok(MockExtraction(assetId, sourceType, sr));
    } else if r.Ok? {
      assert r == ValidateAnswer(answer.value, assetId, sourceType, sr);
    }
  }

  /**
   * The tail of `_extract_anthropic`'s `NotFoundError` handler: the model id
   * resolved for the requested one is written back to `anthropic_model` when
   * it is non-empty and differs, and the request is retried with it (with the
   * requested id when it is empty). Returns the retried model and the settings.
   * The retried model is always the resolved one, and it is what the settings
   * hold afterwards.
   */
  function RetryAfterNotFound(settings: Settings, listed: seq<Option<string>>): (r: (string, Settings))
    ensures r.0 == ResolveSpec(UsableIds(listed), settings.anthropicModel)
    ensures r.1 == settings.(anthropicModel := r.0)
  {
    var model := settings.anthropicModel;
    var resolved := ResolveSpec(UsableIds(listed), model);
    ResolvedNonEmpty(UsableIds(listed), model);
    var after := if resolved != [] && resolved != model then settings.(anthropicModel := resolved) else settings;
    (if resolved != [] then resolved else model, after)
  }

  /** The resolved id is empty only when the requested one is. */
  lemma ResolvedNonEmpty(ids: seq<string>, requested: string)
    requires forall i :: 0 <= i < |ids| ==> ids[i] != []
    ensures ResolveSpec(ids, requested) == [] ==> requested == []
  {
    ResolveModelSpec(ids, requested);
  }

  /**
   * After a `NotFoundError` on the Anthropic path, `/api/health` and every
   * later extraction see the resolved model: the provider and mock mode are
   * unchanged, and the effective model is the one resolved for the
   * previously configured id.
   */
  lemma ExtractAssetResolvesModel(
    settings: Settings, img: ImageFile, pillow: bool, encode: (int, int) -> Bytes,
    assetId: string, sourceType: string, sr: SourceRef,
    listed: seq<Option<string>>, answer: Option<Json>)
    requires !EffectiveMockMode(settings) && EffectiveProvider(settings) == Anthropic
    requires HasKey(settings.anthropicKey) && PrepareSpec(img, pillow, encode).Ok?
    ensures var s := ExtractAsset(settings, img, pillow, encode, assetId, sourceType, sr, Some(listed), answer).1;
      && EffectiveProvider(s) == Anthropic && !EffectiveMockMode(s)
      && EffectiveModel(s) == ResolveSpec(UsableIds(listed), settings.anthropicModel)
  {
    AnthropicModelOnly(settings, RetryAfterNotFound(settings, listed).0);
  }

  /* ---------------- _resolve_anthropic_model ---------------- */

  /** Model ids preferred, in order, when the requested one is not available. */
  const PreferredModels: seq<string> := [
    "claude-sonnet-4-5-20250929",
    "claude-sonnet-4-20250514",
    "claude-3-7-sonnet-20250219",
    "claude-3-5-sonnet-20241022",
    "claude-3-5-haiku-20241022",
    "claude-3-haiku-20240307"]

  /** The ids of the account's model list that are non-empty strings, in order. */
  function UsableIds(listed: seq<Option<string>>): (ids: seq<string>)
    ensures forall i :: 0 <= i < |ids| ==> ids[i] != []
    ensures forall x :: x in ids <==> x != [] && Some(x) in listed
  {
    if listed == [] then []
    else
      var init := listed[..|listed| - 1];
      var last := listed[|listed| - 1];
      assert listed == init + [last];
      UsableIds(init) + (if last.Some? && last.value != [] then [last.value] else [])
  }

  /** The position of the first preferred id that is available, or `|prefs|`. */
  function FirstAvailable(prefs: seq<string>, ids: seq<string>): (k: nat)
    ensures k <= |prefs|
    ensures k < |prefs| ==> prefs[k] in ids
    ensures forall j :: 0 <= j < k ==> prefs[j] !in ids
  {
    if prefs == [] then 0
    else if prefs[0] in ids then 0
    else 1 + FirstAvailable(prefs[1..], ids)
  }

  /** The model id chosen from the available ids. */
  function ResolveSpec(ids: seq<string>, requested: string): string {
    if requested in ids then requested
    else
      var k := FirstAvailable(PreferredModels, ids);
      if k < |PreferredModels| then PreferredModels[k]
      else if ids != [] then ids[0]
      else requested
  }

  /**
   * `_resolve_anthropic_model` once the account's model list is known: the
   * requested id when listed, else the first listed preferred id, else the
   * first listed id, else the requested id.
   */
  method ResolveAnthropicModel(listed: seq<Option<string>>, requested: string) returns (m: string)
    ensures m == ResolveSpec(UsableIds(listed), requested)
  {
    var ids := UsableIds(listed);
    if requested in ids {
      return requested;
    }
    for k := 0 to |PreferredModels|
      invariant forall j :: 0 <= j < k ==> PreferredModels[j] !in ids
    {
      if PreferredModels[k] in ids {
        assert FirstAvailable(PreferredModels, ids) == k;
        return PreferredModels[k];
      }
    }
    assert FirstAvailable(PreferredModels, ids) == |PreferredModels|;
    if ids != [] {
      return ids[0];
    }
    return requested;
  }

  /**
   * The chosen id is the requested one or a listed one; whenever the
   * account lists any model, it is a listed one; a preferred id is chosen
   * over the requested one only when the requested one is not listed, and
   * only when no better-ranked preferred id is listed.
   */
  lemma ResolveModelSpec(ids: seq<string>, requested: string)
    ensures var m := ResolveSpec(ids, requested);
      && (m == requested || m in ids)
      && (ids != [] ==> m in ids)
      && (requested in ids ==> m == requested)
      && (m != requested ==> requested !in ids)
      && (forall k :: 0 <= k < |PreferredModels| && m == PreferredModels[k] && m != requested ==>
            forall j :: 0 <= j < k ==> PreferredModels[j] !in ids)
  {
    var m := ResolveSpec(ids, requested);
    var f := FirstAvailable(PreferredModels, ids);
    if requested !in ids && f < |PreferredModels| {
      forall k | 0 <= k < |PreferredModels| && m == PreferredModels[k]
        ensures forall j :: 0 <= j < k ==> PreferredModels[j] !in ids
      {
        PreferredDistinct(k, f);
      }
    }
  }

  lemma PreferredDistinct(i: int, j: int)
    requires 0 <= i < |PreferredModels| && 0 <= j < |PreferredModels| && PreferredModels[i] == PreferredModels[j]
    ensures i == j
  {
    var p := PreferredModels;
    assert p[0][7] == 's' && p[1][7] == 's' && p[2][7] == '3' && p[3][7] == '3' && p[4][7] == '3' && p[5][7] == '3';
    assert p[0][14] == '4' && p[1][14] == '4' && p[2][9] == '7' && p[3][9] == '5' && p[4][9] == '5' && p[5][9] == 'h';
    assert p[0][16] == '5' && p[1][16] == '2' && p[3][11] == 's' && p[4][11] == 'h';
  }
}
