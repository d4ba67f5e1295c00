/**
 * The data shaping of the HTML deck: topic anchors (`_slug`), citation
 * strings (`_citations`), the executive summary and the per-topic blocks
 * that `render_deck_html` hands to its template.
 */
module Deck {
  import opened Wrappers
  import opened Text
  import opened Ordering
  import opened Schemas

  /* ---------------- _slug ---------------- */

  /** One character of `s.strip().lower()`: kept when alphanumeric, a dash for space, `_` and `-`, else dropped. */
  function SlugChar(ch: char): string {
    if IsAlnum(ch) then [ch] else if ch == ' ' || ch == '_' || ch == '-' then "-" else ""
  }

  /** `"".join(out)` after the character loop. */
  function SlugChars(s: string): (r: string)
    ensures forall i :: 0 <= i < |r| ==> IsAlnum(r[i]) || r[i] == '-'
  {
    if s == [] then [] else SlugChars(s[..|s| - 1]) + SlugChar(s[|s| - 1])
  }

  function DashStripLeft(s: string): (r: string)
    ensures |r| <= |s| && r == s[|s| - |r|..]
    ensures r == [] || r[0] != '-'
    ensures forall i :: 0 <= i < |s| - |r| ==> s[i] == '-'
  {
    if s != [] && s[0] == '-' then
      var t := s[1..];
      var r := DashStripLeft(t);
      assert forall i :: 1 <= i < |s| - |r| ==> s[i] == t[i - 1];
      r
    else s
  }

  function DashStripRight(s: string): (r: string)
    ensures |r| <= |s| && r == s[..|r|]
    ensures r == [] || r[|r| - 1] != '-'
    ensures forall i :: |r| <= i < |s| ==> s[i] == '-'
  {
    if s != [] && s[|s| - 1] == '-' then DashStripRight(s[..|s| - 1]) else s
  }

  /** `s.strip("-")` */
  function DashStrip(s: string): (r: string)
    ensures r == [] || (r[0] != '-' && r[|r| - 1] != '-')
  {
    var l := DashStripLeft(s);
    var r := DashStripRight(l);
    assert r == [] || r[0] == l[0];
    r
  }

  /** `s.replace("--", "-")`: left to right, occurrences do not overlap. */
  function ReplaceDashes(s: string): (r: string)
    ensures |r| <= |s|
  {
    if |s| >= 2 && s[0] == '-' && s[1] == '-' then "-" + ReplaceDashes(s[2..])
    else if s == [] then []
    else [s[0]] + ReplaceDashes(s[1..])
  }

  /** No two dashes in a row. */
  predicate NoDoubleDash(s: string) {
    forall i :: 0 <= i < |s| - 1 ==> !(s[i] == '-' && s[i + 1] == '-')
  }

  /** The reference meaning of the `while "--" in slug` loop: every run of dashes shrunk to one dash. */
  function Collapse(s: string): (r: string)
    ensures |r| <= |s|
  {
    if |s| < 2 then s
    else if s[0] == '-' && s[1] == '-' then Collapse(s[1..])
    else [s[0]] + Collapse(s[1..])
  }

  /** The slug before the `or "topic"` fallback. */
  function SlugCore(s: string): string {
    Collapse(DashStrip(SlugChars(Lower(Strip(s)))))
  }

  /** `_slug(s)`, stated through `Collapse`. */
  function SlugOf(s: string): string {
    var c := SlugCore(s);
    if c == [] then "topic" else c
  }

  lemma {:induction false} ContainsDoubleDash(s: string)
    requires !NoDoubleDash(s)
    ensures Contains(s, "--")
  {
    var i :| 0 <= i < |s| - 1 && s[i] == '-' && s[i + 1] == '-';
    assert s[i..i + 2] == "--";
    ContainsAt(s, "--", i);
  }

  /** One pass of `replace` shortens a string holding `"--"`. */
  lemma {:induction false} ReplaceShrinks(s: string)
    requires Contains(s, "--")
    ensures |ReplaceDashes(s)| < |s|
    decreases |s|
  {
    if !(|s| >= 2 && s[0] == '-' && s[1] == '-') {
      assert !StartsWith(s, "--");
      ReplaceShrinks(s[1..]);
    }
  }

  /** After a character `c`, one pass of `replace` does not change what `Collapse` makes of the rest. */
  lemma {:induction false} CollapseAfterReplace(c: char, t: string)
    ensures Collapse([c] + ReplaceDashes(t)) == Collapse([c] + t)
    decreases |t|
  {
    if |t| >= 2 && t[0] == '-' && t[1] == '-' {
      var u := t[2..];
      CollapseAfterReplace('-', u);
      assert ReplaceDashes(t) == "-" + ReplaceDashes(u);
      assert ([c] + ReplaceDashes(t))[1..] == ['-'] + ReplaceDashes(u);
      assert ([c] + t)[1..] == t;
      assert t[1..] == ['-'] + u;
    } else if t != [] {
      var u := t[1..];
      CollapseAfterReplace(t[0], u);
      assert ReplaceDashes(t) == [t[0]] + ReplaceDashes(u);
      assert ([c] + ReplaceDashes(t))[1..] == [t[0]] + ReplaceDashes(u);
      assert ([c] + t)[1..] == [t[0]] + u;
    }
  }

  lemma ReplaceKeepsCollapse(s: string)
    ensures Collapse(ReplaceDashes(s)) == Collapse(s)
  {
    if |s| >= 2 && s[0] == '-' && s[1] == '-' {
      CollapseAfterReplace('-', s[2..]);
      assert s[1..] == ['-'] + s[2..];
    } else if s != [] {
      CollapseAfterReplace(s[0], s[1..]);
      assert s == [s[0]] + s[1..];
    }
  }

  lemma {:induction false} CollapseNoDoubleDash(s: string)
    requires NoDoubleDash(s)
    ensures Collapse(s) == s
  {
    if |s| >= 2 {
      CollapseNoDoubleDash(s[1..]);
    }
  }

  /** `Collapse` keeps no two dashes in a row, only characters of its input, its last character, and its first unless that is a dash. */
  lemma {:induction false} CollapseShape(s: string)
    ensures NoDoubleDash(Collapse(s))
    ensures forall ch :: ch in Collapse(s) ==> ch in s
    ensures s != [] ==> Collapse(s) != [] && Collapse(s)[|Collapse(s)| - 1] == s[|s| - 1]
    ensures s != [] && s[0] != '-' ==> Collapse(s)[0] == s[0]
  {
    if |s| >= 2 {
      CollapseShape(s[1..]);
      var c := Collapse(s[1..]);
      assert c[0] == '-' ==> s[1] == '-' by {
        if s[1] != '-' {
          assert c[0] == s[1];
        }
      }
    }
  }

  /** The letters and digits of `s`, in order. */
  function Alnums(s: string): string {
    if s == [] then [] else Alnums(s[..|s| - 1]) + (if IsAlnum(s[|s| - 1]) then [s[|s| - 1]] else [])
  }

  lemma AlnumsSnoc(s: string, c: char)
    ensures Alnums(s + [c]) == Alnums(s) + (if IsAlnum(c) then [c] else [])
  {
    assert (s + [c])[..|s|] == s;
  }

  lemma {:induction false} AlnumsAppend(a: string, b: string)
    ensures Alnums(a + b) == Alnums(a) + Alnums(b)
    decreases |b|
  {
    if b == [] {
      assert a + b == a;
    } else {
      var init := b[..|b| - 1];
      var c := b[|b| - 1];
      AlnumsAppend(a, init);
      assert a + b == (a + init) + [c];
      AlnumsSnoc(a + init, c);
      assert b == init + [c];
      AlnumsSnoc(init, c);
    }
  }

  lemma AlnumsHead(c: char, t: string)
    ensures Alnums([c] + t) == (if IsAlnum(c) then [c] else []) + Alnums(t)
  {
    AlnumsAppend([c], t);
    assert [c][..0] == [];
  }

  /** A leading character that is neither letter nor digit contributes nothing. */
  lemma AlnumsDropFirst(s: string)
    requires s != [] && !IsAlnum(s[0])
    ensures Alnums(s) == Alnums(s[1..])
  {
    assert s == [s[0]] + s[1..];
    AlnumsHead(s[0], s[1..]);
  }

  lemma {:induction false} AlnumsSlugChars(s: string)
    ensures Alnums(SlugChars(s)) == Alnums(s)
  {
    if s != [] {
      var init := s[..|s| - 1];
      AlnumsSlugChars(init);
      AlnumsAppend(SlugChars(init), SlugChar(s[|s| - 1]));
      if !IsAlnum(s[|s| - 1]) && SlugChar(s[|s| - 1]) == "-" {
        assert Alnums("-") == Alnums([]) + [];
      }
    }
  }

  lemma {:induction false} AlnumsDashStripLeft(s: string)
    ensures Alnums(DashStripLeft(s)) == Alnums(s)
  {
    if s != [] && s[0] == '-' {
      AlnumsDropFirst(s);
      AlnumsDashStripLeft(s[1..]);
    }
  }

  lemma {:induction false} AlnumsDashStripRight(s: string)
    ensures Alnums(DashStripRight(s)) == Alnums(s)
  {
    if s != [] && s[|s| - 1] == '-' {
      AlnumsDashStripRight(s[..|s| - 1]);
    }
  }

  lemma {:induction false} AlnumsCollapse(s: string)
    ensures Alnums(Collapse(s)) == Alnums(s)
  {
    if |s| >= 2 {
      AlnumsCollapse(s[1..]);
      AlnumsHead(s[0], s[1..]);
      AlnumsHead(s[0], Collapse(s[1..]));
      assert s == [s[0]] + s[1..];
    }
  }

  /** A string of letters, digits and dashes without letters or digits is all dashes. */
  lemma {:induction false} DashesOnly(s: string)
    requires forall i :: 0 <= i < |s| ==> IsAlnum(s[i]) || s[i] == '-'
    requires Alnums(s) == []
    ensures forall i :: 0 <= i < |s| ==> s[i] == '-'
  {
    if s != [] {
      var init := s[..|s| - 1];
      DashesOnly(init);
      assert forall i :: 0 <= i < |init| ==> s[i] == init[i];
    }
  }

  /** Stripping dashes from nothing but dashes leaves nothing. */
  lemma DashStripAllDashes(s: string)
    requires forall i :: 0 <= i < |s| ==> s[i] == '-'
    ensures DashStrip(s) == []
  {
  }

  /** The characters of the collapsed, stripped slug: lowercase letters, digits and dashes. */
  lemma SlugCharsLower(s: string)
    ensures forall i :: 0 <= i < |SlugCore(s)| ==> IsLowerAlpha(SlugCore(s)[i]) || IsDigit(SlugCore(s)[i]) || SlugCore(s)[i] == '-'
  {
    var low := Lower(Strip(s));
    forall i | 0 <= i < |low| && IsAlnum(low[i]) ensures IsLowerAlpha(low[i]) || IsDigit(low[i]) {
      assert low[i] == LowerChar(Strip(s)[i]);
    }
    CoreCharsLower(low);
    assert SlugCore(s) == Collapse(DashStrip(SlugChars(low)));
  }

  /** When every letter of `low` is lowercase, its collapsed, stripped slug holds only lowercase letters, digits and dashes. */
  lemma CoreCharsLower(low: string)
    requires forall i :: 0 <= i < |low| && IsAlnum(low[i]) ==> IsLowerAlpha(low[i]) || IsDigit(low[i])
    ensures var c := Collapse(DashStrip(SlugChars(low)));
      forall i :: 0 <= i < |c| ==> IsLowerAlpha(c[i]) || IsDigit(c[i]) || c[i] == '-'
  {
    var m := SlugChars(low);
    var d := DashStrip(m);
    var c := Collapse(d);
    CollapseShape(d);
    SlugCharsFrom(low);
    assert forall ch :: ch in d ==> ch in m by {
      var l := DashStripLeft(m);
      assert forall ch :: ch in l ==> ch in m;
    }
    forall i | 0 <= i < |c| ensures IsLowerAlpha(c[i]) || IsDigit(c[i]) || c[i] == '-' {
      assert c[i] in m;
      if c[i] != '-' {
        var k :| 0 <= k < |low| && low[k] == c[i];
      }
    }
  }

  /** Letters and digits survive the slug unchanged and in order. */
  lemma SlugAlnums(s: string)
    ensures Alnums(SlugCore(s)) == Alnums(Lower(Strip(s)))
  {
    var low := Lower(Strip(s));
    var m := SlugChars(low);
    AlnumsSlugChars(low);
    AlnumsDashStripLeft(m);
    AlnumsDashStripRight(DashStripLeft(m));
    AlnumsCollapse(DashStrip(m));
  }

  /**
   * `_slug` output: non-empty, only lowercase letters, digits and dashes,
   * no dash at either end and no `"--"`.
   */
  lemma SlugShape(s: string)
    ensures SlugShaped(SlugOf(s))
  {
    var c := SlugCore(s);
    SlugCharsLower(s);
    assert c == [] || (c[0] != '-' && c[|c| - 1] != '-' && NoDoubleDash(c)) by {
      CoreDashes(SlugChars(Lower(Strip(s))));
    }
    FallbackShaped(c);
  }

  /**
   * A slug as `_slug` promises it: non-empty, only lowercase letters, digits
   * and dashes, no dash at either end and no `"--"`.
   */
  predicate SlugShaped(r: string) {
    && r != []
    && (forall i :: 0 <= i < |r| ==> IsLowerAlpha(r[i]) || IsDigit(r[i]) || r[i] == '-')
    && r[0] != '-' && r[|r| - 1] != '-'
    && NoDoubleDash(r)
  }

  /** The `or "topic"` fallback turns a well-formed core, possibly empty, into a well-formed slug. */
  lemma FallbackShaped(c: string)
    requires forall i :: 0 <= i < |c| ==> IsLowerAlpha(c[i]) || IsDigit(c[i]) || c[i] == '-'
    requires c == [] || (c[0] != '-' && c[|c| - 1] != '-' && NoDoubleDash(c))
    ensures SlugShaped(if c == [] then "topic" else c)
  {
    if c == [] {
      var r := "topic";
      assert r[0] == 't' && r[1] == 'o' && r[2] == 'p' && r[3] == 'i' && r[4] == 'c';
    }
  }

  /** Stripping then collapsing leaves no dash at either end and no two in a row. */
  lemma CoreDashes(m: string)
    ensures var c := Collapse(DashStrip(m));
      c == [] || (c[0] != '-' && c[|c| - 1] != '-' && NoDoubleDash(c))
  {
    CollapseShape(DashStrip(m));
  }

  /**
   * `_slug` keeps exactly the letters and digits of the stripped, lowercased
   * input, in order, and is `"topic"` when there are none.
   */
  lemma SlugLetters(s: string)
    ensures var low := Lower(Strip(s));
      && (Alnums(low) == [] ==> SlugOf(s) == "topic")
      && (Alnums(low) != [] ==> Alnums(SlugOf(s)) == Alnums(low))
  {
    var low := Lower(Strip(s));
    var m := SlugChars(low);
    SlugAlnums(s);
    if Alnums(low) == [] {
      AlnumsSlugChars(low);
      DashesOnly(m);
      DashStripAllDashes(m);
    } else {
      assert Alnums(SlugCore(s)) != [];
    }
  }

  lemma {:induction false} SlugCharsFrom(s: string)
    ensures forall ch :: ch in SlugChars(s) ==> ch in s || ch == '-'
  {
    if s != [] {
      SlugCharsFrom(s[..|s| - 1]);
      assert forall ch :: ch in s[..|s| - 1] ==> ch in s;
    }
  }

  /** The character loop of `_slug`: one piece per character, joined. */
  method SlugPieces(t: string) returns (out: string)
    ensures out == SlugChars(t)
  {
    out := [];
    for i := 0 to |t|
      invariant out == SlugChars(t[..i])
    {
      assert t[..i + 1][..i] == t[..i];
      out := out + SlugChar(t[i]);
    }
    assert t[..|t|] == t;
  }

  /** The `while "--" in slug` loop of `_slug`. */
  method CollapseDashes(s: string) returns (slug: string)
    ensures slug == Collapse(s)
  {
    slug := s;
    while Contains(slug, "--")
      invariant Collapse(slug) == Collapse(s)
      decreases |slug|
    {
      ReplaceShrinks(slug);
      ReplaceKeepsCollapse(slug);
      slug := ReplaceDashes(slug);
    }
    if !NoDoubleDash(slug) {
      ContainsDoubleDash(slug);
    }
    CollapseNoDoubleDash(slug);
  }

  /** `_slug`, loop for loop. */
  method Slug(s: string) returns (slug: string)
    ensures slug == SlugOf(s)
  {
    var out := SlugPieces(Lower(Strip(s)));
    slug := CollapseDashes(DashStrip(out));
    if slug == [] {
      slug := "topic";
    }
  }

  /* ---------------- _citations ---------------- */

  /** Only this many evidence items are cited. */
  const CitedEvidence: int := 3

  const NeedsDataCitation: string := "[NEEDS DATA]"

  /** `f"{fn} p{p}"` when the page is truthy, else the bare file name. */
  function CitationPart(ev: Evidence): string {
    if PageTruthy(ev.page) then ev.filename + " p" + IntToString(ev.page.value) else ev.filename
  }

  /** The parts the loop builds, one per cited evidence item. */
  function CitationParts(evs: seq<Evidence>): (r: seq<string>)
    ensures |r| == |evs|
    ensures forall i :: 0 <= i < |evs| ==> r[i] == CitationPart(evs[i])
  {
    if evs == [] then [] else CitationParts(evs[..|evs| - 1]) + [CitationPart(evs[|evs| - 1])]
  }

  /** `[p for p in parts if p]` */
  function NonEmpty(parts: seq<string>): (r: seq<string>)
    ensures |r| <= |parts|
    ensures forall p :: p in r <==> p in parts && p != []
  {
    if parts == [] then []
    else NonEmpty(parts[..|parts| - 1]) + (if parts[|parts| - 1] != [] then [parts[|parts| - 1]] else [])
  }

  /** `_citations(ins)` for an insight whose evidence list is `evs`. */
  function CitationText(evs: seq<Evidence>): string {
    var kept := NonEmpty(CitationParts(Take(evs, CitedEvidence)));
    if kept == [] then NeedsDataCitation else Join(kept, ", ")
  }

  /** `_citations`, loop for loop. */
  method Citations(evs: seq<Evidence>) returns (r: string)
    ensures r == CitationText(evs)
  {
    var cited := Take(evs, CitedEvidence);
    var parts: seq<string> := [];
    for i := 0 to |cited|
      invariant parts == CitationParts(cited[..i])
    {
      assert cited[..i + 1][..i] == cited[..i];
      var ev := cited[i];
      if PageTruthy(ev.page) {
        parts := parts + [ev.filename + " p" + IntToString(ev.page.value)];
      } else {
        parts := parts + [ev.filename];
      }
    }
    assert cited[..|cited|] == cited;
    var kept := NonEmpty(parts);
    r := if kept == [] then NeedsDataCitation else Join(kept, ", ");
  }

  /**
   * Only the first three evidence items matter; the citation is
   * `"[NEEDS DATA]"` when none of them yields a part, and otherwise the
   * non-empty parts joined by `", "`, which is then non-empty; a lone
   * evidence item is cited by its own part.
   */
  lemma CitationSpec(evs: seq<Evidence>)
    ensures CitationText(evs) == CitationText(Take(evs, CitedEvidence))
    ensures (forall i :: 0 <= i < |evs| && i < CitedEvidence ==> CitationPart(evs[i]) == [])
      ==> CitationText(evs) == NeedsDataCitation
    ensures (exists i :: 0 <= i < |evs| && i < CitedEvidence && CitationPart(evs[i]) != [])
      ==> CitationText(evs) == Join(NonEmpty(CitationParts(Take(evs, CitedEvidence))), ", ") != []
    ensures |evs| == 1 && CitationPart(evs[0]) != [] ==> CitationText(evs) == CitationPart(evs[0])
  {
    var cited := Take(evs, CitedEvidence);
    assert Take(cited, CitedEvidence) == cited;
    if |evs| == 1 && CitationPart(evs[0]) != [] {
      CitationSingle(evs);
    }
    if forall i :: 0 <= i < |evs| && i < CitedEvidence ==> CitationPart(evs[i]) == [] {
      CitationNeedsData(evs);
    } else {
      var i :| 0 <= i < |evs| && i < CitedEvidence && CitationPart(evs[i]) != [];
      CitationJoined(evs, i);
    }
  }

  lemma CitationSingle(evs: seq<Evidence>)
    requires |evs| == 1 && CitationPart(evs[0]) != []
    ensures CitationText(evs) == CitationPart(evs[0])
  {
    var parts := CitationParts(Take(evs, CitedEvidence));
    assert parts == [CitationPart(evs[0])];
    assert NonEmpty(parts) == NonEmpty([]) + [parts[0]];
  }

  lemma CitationNeedsData(evs: seq<Evidence>)
    requires forall i :: 0 <= i < |evs| && i < CitedEvidence ==> CitationPart(evs[i]) == []
    ensures CitationText(evs) == NeedsDataCitation
  {
    var cited := Take(evs, CitedEvidence);
    var parts := CitationParts(cited);
    forall p | p in parts ensures p == [] {
      var j :| 0 <= j < |parts| && parts[j] == p;
      assert cited[j] == evs[j];
    }
    NonEmptyOfEmpties(parts);
  }

  lemma CitationJoined(evs: seq<Evidence>, i: nat)
    requires i < |evs| && i < CitedEvidence && CitationPart(evs[i]) != []
    ensures CitationText(evs) == Join(NonEmpty(CitationParts(Take(evs, CitedEvidence))), ", ") != []
  {
    var parts := CitationParts(Take(evs, CitedEvidence));
    assert parts[i] == CitationPart(evs[i]);
    assert parts[i] in NonEmpty(parts);
    assert NonEmpty(parts)[0] in NonEmpty(parts);
    JoinNonEmpty(NonEmpty(parts), ", ");
  }

  lemma {:induction false} NonEmptyOfEmpties(parts: seq<string>)
    requires forall p :: p in parts ==> p == []
    ensures NonEmpty(parts) == []
  {
    if parts != [] {
      var init := parts[..|parts| - 1];
      assert forall p :: p in init ==> p in parts;
      assert parts[|parts| - 1] in parts;
      NonEmptyOfEmpties(init);
    }
  }

  /** Joining a list whose first string is not empty gives a non-empty string. */
  lemma JoinNonEmpty(parts: seq<string>, sep: string)
    requires parts != [] && parts[0] != []
    ensures Join(parts, sep) != []
  {
  }

  /* ---------------- render_deck_html ---------------- */

  /**
   * An insight dictionary as the renderer sees it. The renderer reads
   * `topic`, `importance_score` and `evidence` and adds `_citations` in
   * place, so `citations` is the one mutable field.
   */
  class DeckInsight {
    /** `topic`; `None` when absent or null. */
    const topic: Option<string>
    /** `importance_score`; `None` when absent or null. */
    const score: Option<int>
    /** `evidence or []` */
    const evidence: seq<Evidence>
    /** `_citations`, set for the executive summary only. */
    var citations: Option<string>

    constructor (topic: Option<string>, score: Option<int>, evidence: seq<Evidence>)
      ensures this.topic == topic && this.score == score && this.evidence == evidence
      ensures citations == None
    {
      this.topic := topic;
      this.score := score;
      this.evidence := evidence;
      citations := None;
    }
  }

  /** `int(x.get("importance_score") or 0)` */
  function ScoreOf(x: DeckInsight): int {
    x.score.GetOr(0)
  }

  function ByScore(x: DeckInsight): Key {
    (ScoreOf(x) as real, 0.0)
  }

  /** Summary and topic blocks hold at most this many insights. */
  const BlockSize: int := 5

  /** The executive summary: the five highest scores, ties in document order. */
  function ExecSummary(insights: seq<DeckInsight>): seq<DeckInsight> {
    Take(SortDesc(insights, ByScore), BlockSize)
  }

  /** `ins.get("topic") or (topics_raw[0] if topics_raw else "misc")` */
  function TopicFor(x: DeckInsight, topicsRaw: seq<string>): string {
    if x.topic.Some? && x.topic.value != [] then x.topic.value
    else if topicsRaw != [] then topicsRaw[0]
    else "misc"
  }

  /** `by_topic` after the grouping loop: each listed topic with its insights in document order. */
  function Grouped(insights: seq<DeckInsight>, topicsRaw: seq<string>): map<string, seq<DeckInsight>> {
    if insights == [] then map t | t in topicsRaw :: []
    else
      var m := Grouped(insights[..|insights| - 1], topicsRaw);
      var x := insights[|insights| - 1];
      var t := TopicFor(x, topicsRaw);
      if t in m then m[t := m[t] + [x]] else m
  }

  /** The reference meaning of a group: the insights whose resolved topic is `t`, in order. */
  function InTopic(insights: seq<DeckInsight>, topicsRaw: seq<string>, t: string): (r: seq<DeckInsight>)
    ensures |r| <= |insights|
  {
    if insights == [] then []
    else
      var x := insights[|insights| - 1];
      InTopic(insights[..|insights| - 1], topicsRaw, t) + (if TopicFor(x, topicsRaw) == t then [x] else [])
  }

  /** One topic's blocks: sorted by score, at most five; the `< 2` branch keeps the first two of fewer than two. */
  function Blocks(group: seq<DeckInsight>): seq<DeckInsight> {
    var b := Take(SortDesc(group, ByScore), BlockSize);
    if |b| < 2 then Take(b, 2) else b
  }

  /** `by_topic` as passed to the template. */
  function ByTopic(insights: seq<DeckInsight>, topicsRaw: seq<string>): map<string, seq<DeckInsight>> {
    var g := Grouped(insights, topicsRaw);
    map t | t in g :: Blocks(g[t])
  }

  datatype TopicAnchor = TopicAnchor(name: string, id: string)

  function Anchor(t: string): TopicAnchor {
    TopicAnchor(t, SlugOf(t))
  }

  /** `[{"name": t, "id": _slug(t)} for t in topics_raw]` */
  function Anchors(topicsRaw: seq<string>): (r: seq<TopicAnchor>)
    ensures |r| == |topicsRaw|
  {
    MapSeq(Anchor, topicsRaw)
  }

  /** What `render_deck_html` hands to the template, apart from the JSON dumps and escaped strings. */
  datatype DeckView = DeckView(topics: seq<TopicAnchor>, byTopic: map<string, seq<DeckInsight>>, execSummary: seq<DeckInsight>)

  lemma GroupedSnoc(insights: seq<DeckInsight>, topicsRaw: seq<string>, i: int)
    requires 0 <= i < |insights|
    ensures var m := Grouped(insights[..i], topicsRaw);
      var t := TopicFor(insights[i], topicsRaw);
      Grouped(insights[..i + 1], topicsRaw) == if t in m then m[t := m[t] + [insights[i]]] else m
  {
    assert insights[..i + 1][..i] == insights[..i];
  }

  /** The grouping loop of `render_deck_html`. */
  method GroupByTopic(insights: seq<DeckInsight>, topicsRaw: seq<string>) returns (byTopic: map<string, seq<DeckInsight>>)
    ensures byTopic == Grouped(insights, topicsRaw)
  {
    byTopic := map t | t in topicsRaw :: [];
    for i := 0 to |insights|
      invariant byTopic == Grouped(insights[..i], topicsRaw)
    {
      GroupedSnoc(insights, topicsRaw, i);
      var ins := insights[i];
      var t := if ins.topic.Some? && ins.topic.value != [] then ins.topic.value
        else if topicsRaw != [] then topicsRaw[0] else "misc";
      if t !in byTopic {
        continue;
      }
      byTopic := byTopic[t := byTopic[t] + [ins]];
    }
    assert insights[..|insights|] == insights;
  }

  /** One topic's list: `sorted(..., reverse=True)[:5]`, then `[:2]` when shorter than two. */
  method TrimGroup(group: seq<DeckInsight>) returns (b: seq<DeckInsight>)
    ensures b == Blocks(group)
  {
    b := Take(SortDesc(group, ByScore), BlockSize);
    if |b| < 2 {
      b := Take(b, 2);
    }
  }

  /** The loop that sorts and truncates every topic's list. */
  method TrimGroups(grouped: map<string, seq<DeckInsight>>, keys: seq<string>) returns (byTopic: map<string, seq<DeckInsight>>)
    requires forall t :: t in grouped <==> t in keys
    ensures byTopic == map t | t in grouped :: Blocks(grouped[t])
  {
    byTopic := grouped;
    for k := 0 to |keys|
      invariant byTopic.Keys == grouped.Keys
      invariant forall t :: t in grouped ==> byTopic[t] == if t in keys[..k] then Blocks(grouped[t]) else grouped[t]
    {
      var t := keys[k];
      PrefixSnocMembers(keys, k);
      if t !in keys[..k] {
        var b := TrimGroup(byTopic[t]);
        byTopic := byTopic[t := b];
      }
    }
    assert keys[..|keys|] == keys;
  }

  /** `ins["_citations"] = _citations(ins)` for every insight of the executive summary. */
  method AddCitations(top: seq<DeckInsight>)
    modifies set x | x in top
    ensures forall x :: x in top ==> x.citations == Some(CitationText(x.evidence))
  {
    for k := 0 to |top|
      invariant forall x :: x in top[..k] ==> x.citations == Some(CitationText(x.evidence))
    {
      PrefixSnocMembers(top, k);
      var c := Citations(top[k].evidence);
      top[k].citations := Some(c);
    }
    assert top[..|top|] == top;
  }

  /** The topic anchors, one `_slug` call per topic. */
  method TopicAnchors(topicsRaw: seq<string>) returns (anchors: seq<TopicAnchor>)
    ensures anchors == Anchors(topicsRaw)
  {
    anchors := [];
    for i := 0 to |topicsRaw|
      invariant anchors == MapSeq(Anchor, topicsRaw[..i])
    {
      assert topicsRaw[..i + 1][..i] == topicsRaw[..i];
      var id := Slug(topicsRaw[i]);
      anchors := anchors + [TopicAnchor(topicsRaw[i], id)];
    }
    assert topicsRaw[..|topicsRaw|] == topicsRaw;
  }

  /**
   * `render_deck_html` up to the template: the executive summary gets its
   * `_citations` in place, and only those insights change.
   */
  method RenderDeck(insights: seq<DeckInsight>, topicsRaw: seq<string>) returns (view: DeckView)
    modifies set x | x in insights
    ensures view == DeckView(Anchors(topicsRaw), ByTopic(insights, topicsRaw), ExecSummary(insights))
    ensures forall x :: x in view.execSummary ==> x.citations == Some(CitationText(x.evidence))
    ensures forall x :: x in insights && x !in view.execSummary ==> x.citations == old(x.citations)
  {
    var top := Take(SortDesc(insights, ByScore), BlockSize);
    TopSpec(insights, ByScore, BlockSize, (0.0, 0.0));
    assert forall x :: x in top ==> x in insights by {
      forall x | x in top ensures x in insights {
        assert x in multiset(top);
      }
    }
    AddCitations(top);
    var anchors := TopicAnchors(topicsRaw);
    var grouped := GroupByTopic(insights, topicsRaw);
    GroupedKeys(insights, topicsRaw);
    var byTopic := TrimGroups(grouped, topicsRaw);
    view := DeckView(anchors, byTopic, top);
  }

  /* ---------------- What the deck shows ---------------- */

  lemma {:induction false} GroupedKeys(insights: seq<DeckInsight>, topicsRaw: seq<string>)
    ensures forall t :: t in Grouped(insights, topicsRaw) <==> t in topicsRaw
  {
    if insights != [] {
      GroupedKeys(insights[..|insights| - 1], topicsRaw);
    }
  }

  /** Each group is the insights resolved to its topic, in document order. */
  lemma {:induction false} GroupedSpec(insights: seq<DeckInsight>, topicsRaw: seq<string>, t: string)
    requires t in topicsRaw
    ensures t in Grouped(insights, topicsRaw) && Grouped(insights, topicsRaw)[t] == InTopic(insights, topicsRaw, t)
  {
    GroupedKeys(insights, topicsRaw);
    if insights != [] {
      GroupedSpec(insights[..|insights| - 1], topicsRaw, t);
      GroupedKeys(insights[..|insights| - 1], topicsRaw);
    }
  }

  lemma {:induction false} InTopicMembers(insights: seq<DeckInsight>, topicsRaw: seq<string>, t: string, x: DeckInsight)
    ensures x in InTopic(insights, topicsRaw, t) <==> x in insights && TopicFor(x, topicsRaw) == t
  {
    if insights != [] {
      InTopicMembers(insights[..|insights| - 1], topicsRaw, t, x);
      assert insights == insights[..|insights| - 1] + [insights[|insights| - 1]];
    }
  }

  /** The `< 2` branch changes nothing: a list shorter than two is its own first two. */
  lemma BlocksNoOp(group: seq<DeckInsight>)
    ensures Blocks(group) == Take(SortDesc(group, ByScore), BlockSize)
  {
  }

  /**
   * `by_topic` has exactly the document's topics as keys; each list holds
   * insights resolved to that topic, by descending score with ties in
   * document order, at most five, all of them when there are at most five,
   * and none whose resolved topic is not listed.
   */
  lemma ByTopicSpec(insights: seq<DeckInsight>, topicsRaw: seq<string>, t: string, k: Key)
    ensures t in ByTopic(insights, topicsRaw) <==> t in topicsRaw
    ensures t in topicsRaw ==>
      var b := ByTopic(insights, topicsRaw)[t];
      var g := InTopic(insights, topicsRaw, t);
      && SortedDesc<DeckInsight>(b, ByScore)
      && (forall x :: x in b ==> x in insights && TopicFor(x, topicsRaw) == t)
      && |b| == (if |g| < BlockSize then |g| else BlockSize)
      && (|g| <= BlockSize ==> multiset(b) == multiset(g))
      && WithKey(b, ByScore, k) == Take(WithKey(g, ByScore, k), |WithKey(b, ByScore, k)|)
  {
    GroupedKeys(insights, topicsRaw);
    if t in topicsRaw {
      GroupedSpec(insights, topicsRaw, t);
      var g := InTopic(insights, topicsRaw, t);
      var b := ByTopic(insights, topicsRaw)[t];
      TopSpec(g, ByScore, BlockSize, k);
      assert b == Take(SortDesc(g, ByScore), BlockSize);
      forall x | x in b ensures x in insights && TopicFor(x, topicsRaw) == t {
        assert x in multiset(b);
        InTopicMembers(insights, topicsRaw, t, x);
      }
    }
  }

  /** An insight kept out of its topic's list scores no higher than any insight in it. */
  lemma ByTopicMaximal(insights: seq<DeckInsight>, topicsRaw: seq<string>, x: DeckInsight, y: DeckInsight)
    requires x in insights && TopicFor(x, topicsRaw) in ByTopic(insights, topicsRaw)
    requires x !in ByTopic(insights, topicsRaw)[TopicFor(x, topicsRaw)]
    requires y in ByTopic(insights, topicsRaw)[TopicFor(x, topicsRaw)]
    ensures ScoreOf(x) <= ScoreOf(y)
  {
    var t := TopicFor(x, topicsRaw);
    GroupedKeys(insights, topicsRaw);
    GroupedSpec(insights, topicsRaw, t);
    InTopicMembers(insights, topicsRaw, t, x);
    TopMaximal(InTopic(insights, topicsRaw, t), ByScore, BlockSize, x, y);
  }

  /**
   * The executive summary: the five highest-scoring insights (all of them
   * when there are at most five), by descending score with ties in document
   * order.
   */
  lemma ExecSummarySpec(insights: seq<DeckInsight>, k: Key)
    ensures var top := ExecSummary(insights);
      && SortedDesc(top, ByScore)
      && multiset(top) <= multiset(insights)
      && |top| == (if |insights| < BlockSize then |insights| else BlockSize)
      && WithKey(top, ByScore, k) == Take(WithKey(insights, ByScore, k), |WithKey(top, ByScore, k)|)
  {
    TopSpec(insights, ByScore, BlockSize, k);
  }

  /** An insight left out of the executive summary scores no higher than any insight in it. */
  lemma ExecSummaryMaximal(insights: seq<DeckInsight>, x: DeckInsight, y: DeckInsight)
    requires x in insights && x !in ExecSummary(insights) && y in ExecSummary(insights)
    ensures ScoreOf(x) <= ScoreOf(y)
  {
    TopMaximal(insights, ByScore, BlockSize, x, y);
  }
}
