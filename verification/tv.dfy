/**
 * The display logic of the intel hub's TV dashboard: relative ages, entity
 * display names, brand monograms and their colours, delta badges, the spike
 * tables, the 30-day sparkline fill and the pipeline header and banner.
 *
 * Instants are integers counting microseconds since the epoch (UTC), the
 * resolution of `datetime`; calendar days are day numbers.
 */
module TvMain {
  import opened Wrappers
  import opened Text
  import opened Ordering
  import opened Counter

  /* ---------------- Relative ages ---------------- */

  const MicrosPerSecond: nat := 1000000

  /** `max(0, int((now - dt).total_seconds()))`: an instant in the future has age 0. */
  function AgeSeconds(dt: int, now: int): nat {
    if now - dt <= 0 then 0 else (now - dt) / MicrosPerSecond
  }

  /**
   * `_fmt_age`: "-" without an instant, "just now" under 90 seconds, then
   * whole minutes under an hour, whole hours under 36 hours, whole days.
   */
  function FmtAge(dt: Option<int>, now: int): (r: string)
    ensures dt.None? ==> r == "-"
    ensures dt.Some? && AgeSeconds(dt.value, now) < 90 ==> r == "just now"
    ensures dt.Some? && 90 <= AgeSeconds(dt.value, now) < 3600 ==>
      r == NatToString(AgeSeconds(dt.value, now) / 60) + "m ago" && 1 <= AgeSeconds(dt.value, now) / 60 < 60
    ensures dt.Some? && 3600 <= AgeSeconds(dt.value, now) < 129600 ==>
      r == NatToString(AgeSeconds(dt.value, now) / 3600) + "h ago" && 1 <= AgeSeconds(dt.value, now) / 3600 < 36
    ensures dt.Some? && 129600 <= AgeSeconds(dt.value, now) ==>
      r == NatToString(AgeSeconds(dt.value, now) / 86400) + "d ago" && AgeSeconds(dt.value, now) / 86400 >= 1
  {
    if dt.None? then "-"
    else
      var seconds := AgeSeconds(dt.value, now);
      if seconds < 90 then "just now"
      else
        var minutes := seconds / 60;
        if minutes < 60 then NatToString(minutes) + "m ago"
        else
          var hours := minutes / 60;
          if hours < 36 then NatToString(hours) + "h ago"
          else NatToString(hours / 24) + "d ago"
  }

  /** An instant at or after `now` (clock skew) is shown as "just now". */
  lemma FutureIsJustNow(dt: int, now: int)
    requires dt >= now
    ensures FmtAge(Some(dt), now) == "just now"
  {
  }

  /* ---------------- Entity display names ---------------- */

  /** `d.get(key)` for a dictionary written out as its (key, value) pairs. */
  function Lookup<V>(pairs: seq<(string, V)>, key: string): Option<V> {
    if pairs == [] then None
    else if pairs[0].0 == key then Some(pairs[0].1)
    else Lookup(pairs[1..], key)
  }

  /** Entities whose display spelling is fixed. */
  const EntityNames: seq<(string, string)> := [
    ("tp-link", "TP-Link"),
    ("tapo", "Tapo"),
    ("google nest", "Google Nest"),
    ("unifi protect", "UniFi Protect"),
    ("simplisafe", "SimpliSafe")]

  /** `(entity or "").strip().lower()` */
  function EntityKey(entity: string): string {
    Lower(Strip(entity))
  }

  /** One word of a display name: `ai` and `iot` in capitals, any other word with a capital first letter. */
  function DisplayWord(part: string): (w: string)
    requires IsWord(part)
    ensures |w| == |part| && !IsLowerAlpha(w[0])
    ensures forall i :: 0 <= i < |w| ==> (w[i] == part[i] || w[i] == UpperChar(part[i]))
  {
    if part == "ai" || part == "iot" then Upper(part) else Upper(part[..1]) + part[1..]
  }

  function DisplayWords(parts: seq<string>): (ws: seq<string>)
    requires forall i :: 0 <= i < |parts| ==> IsWord(parts[i])
    ensures |ws| == |parts|
    ensures forall i :: 0 <= i < |parts| ==> ws[i] == DisplayWord(parts[i])
  {
    if parts == [] then [] else DisplayWords(parts[..|parts| - 1]) + [DisplayWord(parts[|parts| - 1])]
  }

  /** The words of an unmapped key: hyphens count as spaces. */
  function KeyWords(key: string): (parts: seq<string>)
    ensures forall i :: 0 <= i < |parts| ==> IsWord(parts[i])
  {
    Words(ReplaceChar(key, '-', ' '))
  }

  /** The display name of a normalised key. */
  function KeyDisplayName(key: string): string {
    var fixed := Lookup(EntityNames, key);
    if fixed.Some? then fixed.value
    else if key == [] then "-"
    else Join(DisplayWords(KeyWords(key)), " ")
  }

  /** The display name `_display_entity` computes. */
  function DisplayName(entity: string): string {
    KeyDisplayName(EntityKey(entity))
  }

  lemma DisplayWordsSnoc(parts: seq<string>, i: nat)
    requires i < |parts| && forall j :: 0 <= j < |parts| ==> IsWord(parts[j])
    ensures DisplayWords(parts[..i + 1]) == DisplayWords(parts[..i]) + [DisplayWord(parts[i])]
  {
    assert parts[..i + 1][..i] == parts[..i];
  }

  /** The body of `_display_entity` once the key is normalised. */
  method DisplayKey(key: string) returns (name: string)
    ensures name == KeyDisplayName(key)
  {
    var fixed := Lookup(EntityNames, key);
    if fixed.Some? {
      return fixed.value;
    }
    if key == [] {
      return "-";
    }
    var parts := KeyWords(key);
    var words: seq<string> := [];
    for i := 0 to |parts|
      invariant words == DisplayWords(parts[..i])
    {
      var part := parts[i];
      DisplayWordsSnoc(parts, i);
      if part == "ai" || part == "iot" {
        words := words + [Upper(part)];
      } else {
        words := words + [Upper(part[..1]) + part[1..]];
      }
    }
    assert parts[..|parts|] == parts;
    name := Join(words, " ");
  }

  /** `_display_entity` */
  method DisplayEntity(entity: string) returns (name: string)
    ensures name == DisplayName(entity)
  {
    name := DisplayKey(Lower(Strip(entity)));
  }

  /** Display names ignore letter case and surrounding whitespace. */
  lemma {:induction false} DisplayNameCaseInsensitive(a: string, b: string)
    requires Lower(a) == Lower(b)
    ensures DisplayName(a) == DisplayName(b)
  {
    LowerStrip(a);
    LowerStrip(b);
    assert EntityKey(a) == EntityKey(b);
  }

  /**
   * A name made of words separated by single spaces: no space at either end
   * or after another space, and every word starts with a character that is
   * not a lowercase letter.
   */
  predicate Capitalised(r: string) {
    (r == [] || r[|r| - 1] != ' ')
    && forall i :: 0 <= i < |r| && (i == 0 || r[i - 1] == ' ') ==> r[i] != ' ' && !IsLowerAlpha(r[i])
  }

  /** A display word keeps the word free of whitespace and hyphens. */
  lemma DisplayWordShape(part: string)
    requires IsWord(part) && '-' !in part
    ensures var w := DisplayWord(part); IsWord(w) && '-' !in w && !IsLowerAlpha(w[0])
  {
    var w := DisplayWord(part);
    forall i | 0 <= i < |w| ensures !IsSpace(w[i]) && w[i] != '-' {
      assert part[i] != '-' && !IsSpace(part[i]);
    }
  }

  /** Joining capitalised words with single spaces gives a capitalised name. */
  lemma {:induction false} JoinCapitalised(ws: seq<string>)
    requires forall k :: 0 <= k < |ws| ==> IsWord(ws[k]) && '-' !in ws[k] && !IsLowerAlpha(ws[k][0])
    ensures Capitalised(Join(ws, " ")) && '-' !in Join(ws, " ")
  {
    if |ws| > 1 {
      var w := ws[0];
      var rest := Join(ws[1..], " ");
      JoinCapitalised(ws[1..]);
      var r := w + " " + rest;
      assert Join(ws, " ") == r;
      assert ws[1] == ws[1..][0];
      assert rest != [] && rest[0] == ws[1][0] by {
        if |ws[1..]| > 1 {
          assert rest == ws[1] + " " + Join(ws[2..], " ");
        }
      }
      forall i | 0 <= i < |r|
        ensures (i == 0 || r[i - 1] == ' ') ==> r[i] != ' ' && !IsLowerAlpha(r[i])
      {
        if i < |w| {
          assert r[i] == w[i];
          if i > 0 {
            assert r[i - 1] == w[i - 1];
          }
        } else if i > |w| {
          assert r[i] == rest[i - |w| - 1];
          if i - |w| - 1 > 0 {
            assert r[i - 1] == rest[i - |w| - 2];
          }
        }
      }
      assert r[|r| - 1] == rest[|rest| - 1];
    } else if |ws| == 1 {
      var w := ws[0];
      forall i | 0 <= i < |w|
        ensures (i == 0 || w[i - 1] == ' ') ==> w[i] != ' ' && !IsLowerAlpha(w[i])
      {
        if i > 0 {
          assert !IsSpace(w[i - 1]);
        }
      }
    }
  }

  /**
   * An unmapped, non-empty key is displayed as its words separated by single
   * spaces, each starting with a capital (or a digit or other non-letter),
   * with every hyphen turned into a space.
   */
  lemma DisplayNameShape(entity: string)
    requires Lookup(EntityNames, EntityKey(entity)).None? && EntityKey(entity) != []
    ensures Capitalised(DisplayName(entity)) && '-' !in DisplayName(entity)
  {
    var key := EntityKey(entity);
    var s := ReplaceChar(key, '-', ' ');
    assert '-' !in s;
    WordsAvoid(s, '-');
    var parts := KeyWords(key);
    var ws := DisplayWords(parts);
    forall k | 0 <= k < |ws| ensures IsWord(ws[k]) && '-' !in ws[k] && !IsLowerAlpha(ws[k][0]) {
      DisplayWordShape(parts[k]);
    }
    JoinCapitalised(ws);
  }

  /* ---------------- Brand monograms ---------------- */

  /** The first `n` characters of `s`, or all of them when it is shorter: `s[:n]`. */
  function Prefix(s: string, n: nat): (r: string)
    ensures |r| <= n && |r| <= |s| && r == s[..|r|]
    ensures |s| >= n ==> |r| == n
  {
    if |s| <= n then s else s[..n]
  }

  /** The monogram of a trimmed display name: two capitals, else up to two letters and digits, else "?". */
  function Monogram(d: string): string {
    var caps := Filter(d, IsUpperAlpha);
    if |caps| >= 2 then Upper(caps[..2])
    else
      var cleaned := Filter(d, IsAlnum);
      if cleaned == [] then "?" else Upper(Prefix(cleaned, 2))
  }

  /** `_brand_mark_text` */
  function BrandMarkText(display: string): string {
    var d := Strip(display);
    if d == [] then "?" else Monogram(d)
  }

  lemma MonogramUnknown(d: string)
    ensures Monogram(d) == "?" <==> Filter(d, IsAlnum) == []
  {
    var caps := Filter(d, IsUpperAlpha);
    var cleaned := Filter(d, IsAlnum);
    if |caps| >= 2 {
      assert caps[0] in d;
      assert caps[0] in cleaned;
      assert Monogram(d)[0] == UpperChar(caps[0]);
    } else if cleaned != [] {
      assert IsAlnum(UpperChar(cleaned[0]));
      assert Monogram(d)[0] == UpperChar(cleaned[0]);
    }
  }

  lemma MonogramCaps(d: string)
    requires |Filter(d, IsUpperAlpha)| >= 2
    ensures Monogram(d) == Filter(d, IsUpperAlpha)[..2]
  {
    var caps := Filter(d, IsUpperAlpha);
    assert IsUpperAlpha(caps[0]) && IsUpperAlpha(caps[1]);
    assert Upper(caps[..2]) == caps[..2];
  }

  /** A blank display name has no letters or digits, so the empty check agrees with the monogram. */
  lemma BrandMarkTextIsMonogram(display: string)
    ensures BrandMarkText(display) == Monogram(Strip(display))
    ensures Filter(Strip(display), IsAlnum) == Filter(display, IsAlnum)
    ensures Filter(Strip(display), IsUpperAlpha) == Filter(display, IsUpperAlpha)
  {
    FilterStrip(display, IsAlnum);
    FilterStrip(display, IsUpperAlpha);
    var d := Strip(display);
    if d == [] {
      assert Filter(d, IsUpperAlpha) == [] && Filter(d, IsAlnum) == [];
    }
  }

  /** The monogram is "?" exactly when the display name has no letter or digit. */
  lemma MarkTextUnknown(display: string)
    ensures BrandMarkText(display) == "?" <==> Filter(display, IsAlnum) == []
  {
    BrandMarkTextIsMonogram(display);
    MonogramUnknown(Strip(display));
  }

  /** Otherwise it is one or two capitals or digits, ... */
  lemma MarkTextShape(display: string)
    requires BrandMarkText(display) != "?"
    ensures var r := BrandMarkText(display);
      1 <= |r| <= 2 && forall i :: 0 <= i < |r| ==> IsUpperAlpha(r[i]) || IsDigit(r[i])
  {
    MonogramShape(Strip(display));
  }

  lemma MonogramShape(d: string)
    requires Monogram(d) != "?"
    ensures var r := Monogram(d);
      1 <= |r| <= 2 && forall i :: 0 <= i < |r| ==> IsUpperAlpha(r[i]) || IsDigit(r[i])
  {
    var caps := Filter(d, IsUpperAlpha);
    if |caps| >= 2 {
      UpperAlnums(caps[..2]);
    } else {
      var cleaned := Filter(d, IsAlnum);
      UpperAlnums(Prefix(cleaned, 2));
    }
  }

  /** Uppercasing letters and digits gives capitals and digits. */
  lemma UpperAlnums(s: string)
    requires forall i :: 0 <= i < |s| ==> IsAlnum(s[i])
    ensures forall i :: 0 <= i < |Upper(s)| ==> IsUpperAlpha(Upper(s)[i]) || IsDigit(Upper(s)[i])
  {
    forall i | 0 <= i < |s| ensures IsUpperAlpha(Upper(s)[i]) || IsDigit(Upper(s)[i]) {
      assert Upper(s)[i] == UpperChar(s[i]);
    }
  }

  /** ... and the name's first two capitals whenever it has two. */
  lemma MarkTextCaps(display: string)
    requires |Filter(display, IsUpperAlpha)| >= 2
    ensures BrandMarkText(display) == Filter(display, IsUpperAlpha)[..2]
  {
    BrandMarkTextIsMonogram(display);
    MonogramCaps(Strip(display));
  }

  /** The fallback hue: `h = (h * 31 + ord(ch)) % 360` over the key's characters. */
  function Hue(key: string): (h: nat)
    ensures h < 360
  {
    if key == [] then 0 else (Hue(key[..|key| - 1]) * 31 + key[|key| - 1] as int) % 360
  }

  /** The polynomial string hash `sum ord(key[i]) * 31^(n-1-i)`, not reduced. */
  function PolyHash(key: string): nat {
    if key == [] then 0 else PolyHash(key[..|key| - 1]) * 31 + key[|key| - 1] as int
  }

  lemma HueStep(a: nat, c: nat)
    ensures (a % 360 * 31 + c) % 360 == (a * 31 + c) % 360
  {
    var q, r := a / 360, a % 360;
    assert a == 360 * q + r;
    assert a * 31 + c == (r * 31 + c) + 360 * (31 * q);
    ShiftMod(r * 31 + c, 31 * q);
  }

  lemma ShiftMod(x: nat, k: nat)
    ensures (x + 360 * k) % 360 == x % 360
  {
    if k > 0 {
      ShiftMod(x, k - 1);
      assert x + 360 * k == (x + 360 * (k - 1)) + 360;
    }
  }

  /** Reducing at every step gives the hash reduced once. */
  lemma {:induction false} HueIsPolyHash(key: string)
    ensures Hue(key) == PolyHash(key) % 360
  {
    if key != [] {
      var init := key[..|key| - 1];
      HueIsPolyHash(init);
      HueStep(PolyHash(init), key[|key| - 1] as int);
    }
  }

  /**
   * A CSS colour of a mark's gradient: a fixed hex code, or
   * `hsl(<hue> 72% <lightness>%)`.
   */
  datatype Colour = Hex(code: string) | Hsl(hue: nat, lightness: nat)

  function Css(c: Colour): string {
    match c
    case Hex(code) => code
    case Hsl(hue, lightness) => "hsl(" + NatToString(hue) + " 72% " + NatToString(lightness) + "%)"
  }

  /** The fixed gradient colours of the main brands. */
  const Palette: seq<(string, (Colour, Colour))> := [
    ("wyze", (Hex("#7951D6"), Hex("#5B3BA8"))),
    ("ring", (Hex("#38BDF8"), Hex("#0EA5E9"))),
    ("blink", (Hex("#F59E0B"), Hex("#D97706"))),
    ("eufy", (Hex("#22C55E"), Hex("#16A34A"))),
    ("tp-link", (Hex("#14B8A6"), Hex("#0D9488"))),
    ("reolink", (Hex("#EF4444"), Hex("#DC2626"))),
    ("arlo", (Hex("#A78BFA"), Hex("#7C3AED")))]

  datatype Mark = Mark(text: string, bg1: Colour, bg2: Colour, title: string)

  /** The two gradient colours of a key: its palette entry, or two hues from its hash. */
  function Gradient(key: string): (Colour, Colour) {
    var colours := Lookup(Palette, key);
    if colours.Some? then colours.value
    else
      var h := Hue(key);
      (Hsl(h, 52), Hsl((h + 18) % 360, 38))
  }

  /** The mark for a key and its display name. */
  function MarkFor(key: string, display: string): Mark {
    var g := Gradient(key);
    Mark(BrandMarkText(display), g.0, g.1, display)
  }

  /** The mark `_brand_mark` builds. */
  function MarkOf(entity: string): Mark {
    MarkFor(EntityKey(entity), DisplayName(entity))
  }

  /** The hue loop of `_brand_mark`. */
  method FallbackHue(key: string) returns (h: nat)
    ensures h == Hue(key)
  {
    h := 0;
    for i := 0 to |key|
      invariant h == Hue(key[..i])
    {
      assert key[..i + 1][..i] == key[..i];
      h := (h * 31 + key[i] as int) % 360;
    }
    assert key[..|key|] == key;
  }

  /** The colour choice of `_brand_mark`. */
  method GradientOf(key: string) returns (g: (Colour, Colour))
    ensures g == Gradient(key)
  {
    var colours := Lookup(Palette, key);
    if colours.Some? {
      g := colours.value;
    } else {
      var h := FallbackHue(key);
      g := (Hsl(h, 52), Hsl((h + 18) % 360, 38));
    }
  }

  /** `_brand_mark` */
  method BrandMark(entity: string) returns (m: Mark)
    ensures m == MarkOf(entity)
  {
    var key := Lower(Strip(entity));
    var display := DisplayEntity(entity);
    var g := GradientOf(key);
    m := Mark(BrandMarkText(display), g.0, g.1, display);
  }

  /**
   * Palette brands get their fixed colours; any other key gets the hue of its
   * polynomial hash modulo 360 and a second colour 18 degrees further round.
   * The title is the display name and the text its monogram.
   */
  lemma MarkColours(key: string, display: string)
    ensures MarkFor(key, display).title == display
    ensures MarkFor(key, display).text == BrandMarkText(display)
    ensures Lookup(Palette, key).Some? ==>
      MarkFor(key, display).bg1 == Lookup(Palette, key).value.0 && MarkFor(key, display).bg2 == Lookup(Palette, key).value.1
    ensures Lookup(Palette, key).None? ==>
      var h := PolyHash(key) % 360;
      h < 360 && MarkFor(key, display).bg1 == Hsl(h, 52) && MarkFor(key, display).bg2 == Hsl((h + 18) % 360, 38)
  {
    GradientColours(key);
  }

  lemma GradientColours(key: string)
    ensures Lookup(Palette, key).Some? ==> Gradient(key) == Lookup(Palette, key).value
    ensures Lookup(Palette, key).None? ==>
      Gradient(key) == (Hsl(PolyHash(key) % 360, 52), Hsl((PolyHash(key) % 360 + 18) % 360, 38))
  {
    HueIsPolyHash(key);
  }

  /** Marks, like display names, ignore letter case and surrounding whitespace. */
  lemma MarkCaseInsensitive(a: string, b: string)
    requires Lower(a) == Lower(b)
    ensures MarkOf(a) == MarkOf(b)
  {
    DisplayNameCaseInsensitive(a, b);
    LowerStrip(a);
    LowerStrip(b);
    assert EntityKey(a) == EntityKey(b);
  }

  /** The favicon domains of the known brands. */
  const LogoDomains: seq<(string, string)> := [
    ("ring", "ring.com"),
    ("blink", "blinkforhome.com"),
    ("eufy", "eufy.com"),
    ("tp-link", "tp-link.com"),
    ("reolink", "reolink.com"),
    ("arlo", "arlo.com"),
    ("aqara", "aqara.com"),
    ("simplisafe", "simplisafe.com"),
    ("lorex", "lorex.com"),
    ("google nest", "nest.com"),
    ("xiaomi", "xiaomi.com"),
    ("hikvision", "hikvision.com"),
    ("dahua", "dahuasecurity.com"),
    ("unifi protect", "ui.com"),
    ("tapo", "tapo.com"),
    ("swann", "swann.com"),
    ("annke", "annke.com"),
    ("yi home", "yitechnology.com"),
    ("ecobee", "ecobee.com"),
    ("abode", "goabode.com"),
    ("canary", "canary.is"),
    ("deep sentinel", "deepsentinel.com")]

  const FaviconService := "https://www.google.com/s2/favicons?domain="

  /** `_brand_logo_url`: the favicon service URL for a known brand, otherwise "". */
  function LogoUrl(entity: string): (url: string)
    ensures url == [] <==> Lookup(LogoDomains, EntityKey(entity)) in {None, Some("")}
  {
    var key := EntityKey(entity);
    var domain := Lookup(LogoDomains, key);
    if domain.None? || domain.value == [] then "" else FaviconService + domain.value + "&sz=128"
  }

  /* ---------------- Delta badges ---------------- */

  const ArrowUp := "\U{25B2}"
  const ArrowDown := "\U{25BC}"
  const ArrowFlat := "\U{2022}"

  /** What follows the signed delta: nothing, "(new)", or a percentage of the previous count. */
  datatype Note = NoNote | NewNote | PercentNote(pct: real)

  datatype Badge = Badge(arrow: string, cls: string, delta: int, note: Note)

  /**
   * `_delta_badge`: the arrow and CSS class follow the sign of the delta; a
   * positive previous count gives a percentage change, a rise from nothing
   * is marked new.
   */
  function DeltaBadge(current: int, previous: int): (b: Badge)
    ensures b.delta == current - previous
    ensures b.arrow == ArrowUp <==> b.delta > 0
    ensures b.arrow == ArrowDown <==> b.delta < 0
    ensures b.arrow == ArrowFlat <==> b.delta == 0
    ensures b.cls == "" <==> b.delta > 0
    ensures b.cls == "is-down" <==> b.delta < 0
    ensures b.cls == "is-flat" <==> b.delta == 0
    ensures b.note == NewNote <==> previous <= 0 && b.delta > 0
    ensures b.note.PercentNote? <==> previous > 0
    ensures b.note.PercentNote? ==> b.note.pct * (previous as real) == (b.delta as real) * 100.0
  {
    var delta := current - previous;
    var arrow := if delta > 0 then ArrowUp else if delta < 0 then ArrowDown else ArrowFlat;
    var cls := if delta > 0 then "" else if delta < 0 then "is-down" else "is-flat";
    assert ArrowUp[0] != ArrowDown[0] && ArrowUp[0] != ArrowFlat[0] && ArrowDown[0] != ArrowFlat[0];
    assert "is-down"[3] != "is-flat"[3];
    var note :=
      if previous > 0 then PercentNote((delta as real / previous as real) * 100.0)
      else if delta > 0 then NewNote
      else NoNote;
    Badge(arrow, cls, delta, note)
  }

  /**
   * The badge text `"<arrow> <+delta>"`, followed by " (new)" or by the
   * percentage as `fmtPct` renders it (the `+.0f` float format) between
   * parentheses.
   */
  function BadgeText(b: Badge, fmtPct: real -> string): string {
    var head := b.arrow + " " + SignedIntToString(b.delta);
    match b.note
    case NoNote => head
    case NewNote => head + " (new)"
    case PercentNote(pct) => head + " (" + fmtPct(pct) + "%)"
  }

  /** The text opens with the arrow and the signed delta; "(new)" closes it exactly for a rise from nothing. */
  lemma BadgeTextShape(current: int, previous: int, fmtPct: real -> string)
    ensures var b := DeltaBadge(current, previous);
      StartsWith(BadgeText(b, fmtPct), b.arrow + " " + SignedIntToString(current - previous))
    ensures previous <= 0 && current > previous ==> EndsWith(BadgeText(DeltaBadge(current, previous), fmtPct), " (new)")
    ensures previous <= 0 && current <= previous ==>
      BadgeText(DeltaBadge(current, previous), fmtPct) == DeltaBadge(current, previous).arrow + " " + SignedIntToString(current - previous)
  {
  }

  /* ---------------- Spike tables ---------------- */

  /** The brand columns of a spike row: display name, logo URL and monogram. */
  datatype Brand = Brand(display: string, logoUrl: string, mark: Mark)

  /** The brand columns `spikes` fills in for an entity. */
  function BrandOf(ent: string): Brand {
    Brand(DisplayName(ent), LogoUrl(ent), MarkOf(ent))
  }

  method BrandColumns(ent: string) returns (b: Brand)
    ensures b == BrandOf(ent)
  {
    var display := DisplayEntity(ent);
    var mark := BrandMark(ent);
    b := Brand(display, LogoUrl(ent), mark);
  }

  /** One row of a spike table. */
  datatype SpikeRow = SpikeRow(
    entity: string, brand: Brand, current: int, previous: int,
    delta: int, deltaText: string, deltaClass: string)

  /**
   * The row `spikes` builds for one entity, given the brand columns of each
   * entity; a count missing from either window is 0.
   */
  function SpikeRowOf(curr: seq<Entry<string>>, prev: seq<Entry<string>>, ent: string,
                      brand: string -> Brand, fmtPct: real -> string): SpikeRow {
    var c := CountOf(curr, ent);
    var p := CountOf(prev, ent);
    var badge := DeltaBadge(c, p);
    SpikeRow(ent, brand(ent), c, p, badge.delta, BadgeText(badge, fmtPct), badge.cls)
  }

  /** The sort key `(delta, current)`. */
  function SpikeKey(r: SpikeRow): Key {
    (r.delta as real, r.current as real)
  }

  /** `sorted(set(curr) | set(prev))` */
  function SpikeEntities(curr: seq<Entry<string>>, prev: seq<Entry<string>>): (ents: seq<string>)
    ensures StrictlySorted(ents)
    ensures forall e :: e in ents <==> e in KeysOf(curr) || e in KeysOf(prev)
  {
    SortedUnique(KeysOf(curr) + KeysOf(prev))
  }

  /** The rows of `ents`, in their order, before sorting. */
  function SpikeRows(curr: seq<Entry<string>>, prev: seq<Entry<string>>, ents: seq<string>,
                     brand: string -> Brand, fmtPct: real -> string): (rows: seq<SpikeRow>)
    ensures |rows| == |ents|
    ensures forall i :: 0 <= i < |ents| ==> rows[i] == SpikeRowOf(curr, prev, ents[i], brand, fmtPct)
  {
    MapSeq((e: string) => SpikeRowOf(curr, prev, e, brand, fmtPct), ents)
  }

  /** Extending the entities by one appends that entity's row. */
  lemma SpikeRowsSnoc(curr: seq<Entry<string>>, prev: seq<Entry<string>>, ents: seq<string>, i: nat,
                      brand: string -> Brand, fmtPct: real -> string)
    requires i < |ents|
    ensures SpikeRows(curr, prev, ents[..i + 1], brand, fmtPct)
      == SpikeRows(curr, prev, ents[..i], brand, fmtPct) + [SpikeRowOf(curr, prev, ents[i], brand, fmtPct)]
  {
    assert ents[..i + 1][..i] == ents[..i];
  }

  /** The rows sorted by `(delta, current)`, largest first, stably. */
  function SpikeTable(curr: seq<Entry<string>>, prev: seq<Entry<string>>,
                      brand: string -> Brand, fmtPct: real -> string): seq<SpikeRow> {
    SortDesc(SpikeRows(curr, prev, SpikeEntities(curr, prev), brand, fmtPct), SpikeKey)
  }

  /** The loop body of `spikes` for one entity. */
  method SpikeRowAt(curr: seq<Entry<string>>, prev: seq<Entry<string>>, ent: string, fmtPct: real -> string)
    returns (row: SpikeRow)
    ensures row == SpikeRowOf(curr, prev, ent, BrandOf, fmtPct)
  {
    var c := CountOf(curr, ent);
    var p := CountOf(prev, ent);
    var badge := DeltaBadge(c, p);
    var brand := BrandColumns(ent);
    row := SpikeRow(ent, brand, c, p, badge.delta, BadgeText(badge, fmtPct), badge.cls);
  }

  /** `spikes`: builds one row per entity in a loop, then sorts the rows. */
  method Spikes(curr: seq<Entry<string>>, prev: seq<Entry<string>>, fmtPct: real -> string) returns (rows: seq<SpikeRow>)
    ensures rows == SpikeTable(curr, prev, BrandOf, fmtPct)
  {
    var ents := SortedUnique(KeysOf(curr) + KeysOf(prev));
    rows := SpikeRowsLoop(curr, prev, ents, fmtPct);
    rows := SortDesc(rows, SpikeKey);
  }

  /** The row-building loop of `spikes`. */
  method SpikeRowsLoop(curr: seq<Entry<string>>, prev: seq<Entry<string>>, ents: seq<string>, fmtPct: real -> string)
    returns (rows: seq<SpikeRow>)
    ensures rows == SpikeRows(curr, prev, ents, BrandOf, fmtPct)
  {
    rows := [];
    for i := 0 to |ents|
      invariant rows == SpikeRows(curr, prev, ents[..i], BrandOf, fmtPct)
    {
      var row := SpikeRowAt(curr, prev, ents[i], fmtPct);
      SpikeRowsSnoc(curr, prev, ents, i, BrandOf, fmtPct);
      rows := rows + [row];
    }
    assert ents[..|ents|] == ents;
  }

  /**
   * The spike table has exactly one row per entity of either window, each
   * carrying that entity's brand columns, its counts (0 where missing) and
   * their difference, ordered by `(delta, current)` from largest to smallest.
   */
  lemma SpikeTableSpec(curr: seq<Entry<string>>, prev: seq<Entry<string>>, brand: string -> Brand, fmtPct: real -> string)
    ensures SortedDesc(SpikeTable(curr, prev, brand, fmtPct), SpikeKey)
    ensures forall i, j :: 0 <= i < j < |SpikeTable(curr, prev, brand, fmtPct)| ==>
      SpikeTable(curr, prev, brand, fmtPct)[i].entity != SpikeTable(curr, prev, brand, fmtPct)[j].entity
    ensures forall e :: e in KeysOf(curr) || e in KeysOf(prev) ==>
      exists i :: 0 <= i < |SpikeTable(curr, prev, brand, fmtPct)| && SpikeTable(curr, prev, brand, fmtPct)[i].entity == e
    ensures forall r :: r in SpikeTable(curr, prev, brand, fmtPct) ==>
      && (r.entity in KeysOf(curr) || r.entity in KeysOf(prev))
      && r.brand == brand(r.entity)
      && r.current == CountOf(curr, r.entity)
      && r.previous == CountOf(prev, r.entity)
      && r.delta == r.current - r.previous
  {
    SpikeTableDistinct(curr, prev, brand, fmtPct);
    SpikeTableCovers(curr, prev, brand, fmtPct);
    SpikeTableRows(curr, prev, brand, fmtPct);
  }

  lemma SpikeTableDistinct(curr: seq<Entry<string>>, prev: seq<Entry<string>>, brand: string -> Brand, fmtPct: real -> string)
    ensures SortedDesc(SpikeTable(curr, prev, brand, fmtPct), SpikeKey)
    ensures forall i, j :: 0 <= i < j < |SpikeTable(curr, prev, brand, fmtPct)| ==>
      SpikeTable(curr, prev, brand, fmtPct)[i].entity != SpikeTable(curr, prev, brand, fmtPct)[j].entity
  {
    var ents := SpikeEntities(curr, prev);
    var pre := SpikeRows(curr, prev, ents, brand, fmtPct);
    var rows := SortDesc(pre, SpikeKey);
    SortDescSorted(pre, SpikeKey);
    var f := (r: SpikeRow) => r.entity;
    forall a, b | 0 <= a < b < |pre| ensures f(pre[a]) != f(pre[b]) {
      StrictlySortedDistinct(ents, a, b);
    }
    forall i, j | 0 <= i < j < |rows| ensures rows[i].entity != rows[j].entity {
      PermutationKeepsDistinct(pre, rows, f, i, j);
    }
  }

  lemma SpikeTableCovers(curr: seq<Entry<string>>, prev: seq<Entry<string>>, brand: string -> Brand, fmtPct: real -> string)
    ensures forall e :: e in KeysOf(curr) || e in KeysOf(prev) ==>
      exists i :: 0 <= i < |SpikeTable(curr, prev, brand, fmtPct)| && SpikeTable(curr, prev, brand, fmtPct)[i].entity == e
  {
    var ents := SpikeEntities(curr, prev);
    var pre := SpikeRows(curr, prev, ents, brand, fmtPct);
    var rows := SortDesc(pre, SpikeKey);
    assert rows == SpikeTable(curr, prev, brand, fmtPct);
    forall e | e in KeysOf(curr) || e in KeysOf(prev)
      ensures exists i :: 0 <= i < |rows| && rows[i].entity == e
    {
      var k :| 0 <= k < |ents| && ents[k] == e;
      var row := pre[k];
      assert row.entity == e;
      assert row in multiset(rows);
      var i :| 0 <= i < |rows| && rows[i] == row;
    }
  }

  lemma SpikeTableRows(curr: seq<Entry<string>>, prev: seq<Entry<string>>, brand: string -> Brand, fmtPct: real -> string)
    ensures forall r :: r in SpikeTable(curr, prev, brand, fmtPct) ==>
      && (r.entity in KeysOf(curr) || r.entity in KeysOf(prev))
      && r.brand == brand(r.entity)
      && r.current == CountOf(curr, r.entity)
      && r.previous == CountOf(prev, r.entity)
      && r.delta == r.current - r.previous
  {
    var ents := SpikeEntities(curr, prev);
    var pre := SpikeRows(curr, prev, ents, brand, fmtPct);
    var rows := SortDesc(pre, SpikeKey);
    forall r | r in rows
      ensures (r.entity in KeysOf(curr) || r.entity in KeysOf(prev)) && r == SpikeRowOf(curr, prev, r.entity, brand, fmtPct)
    {
      assert r in multiset(pre);
      var k :| 0 <= k < |pre| && pre[k] == r;
      assert r.entity == ents[k];
    }
  }

  /* ---------------- 30-day sparklines ---------------- */

  /** A row of the daily-count query: its day (absent when null) and its mention count (absent when null). */
  datatype DayCount = DayCount(day: Option<int>, mentions: Option<int>)

  /** `int(r.get("mentions") or 0)` */
  function MentionsOf(r: DayCount): int {
    if r.mentions.Some? then r.mentions.value else 0
  }

  /**
   * The `by_day` dictionary: a later row for the same day overwrites an
   * earlier one. A row without a day is keyed "None", which no calendar day
   * looks up, so it is dropped here.
   */
  function ByDay(raw: seq<DayCount>): map<int, int> {
    if raw == [] then map[]
    else
      var m := ByDay(raw[..|raw| - 1]);
      var r := raw[|raw| - 1];
      if r.day.Some? then m[r.day.value := MentionsOf(r)] else m
  }

  /** A day's count: the mentions of the last row for that day, or 0 when no row names it. */
  lemma ByDaySpec(raw: seq<DayCount>, d: int)
    ensures d !in ByDay(raw) <==> forall i :: 0 <= i < |raw| ==> raw[i].day != Some(d)
    ensures d in ByDay(raw) ==>
      exists i :: 0 <= i < |raw| && raw[i].day == Some(d) && ByDay(raw)[d] == MentionsOf(raw[i])
                  && (forall j :: i < j < |raw| ==> raw[j].day != Some(d))
  {
    ByDayKeys(raw, d);
    if d in ByDay(raw) {
      ByDayLast(raw, d);
    }
  }

  lemma {:induction false} ByDayKeys(raw: seq<DayCount>, d: int)
    ensures d !in ByDay(raw) <==> forall i :: 0 <= i < |raw| ==> raw[i].day != Some(d)
  {
    if raw != [] {
      var n := |raw| - 1;
      var init := raw[..n];
      ByDayKeys(init, d);
      assert forall i :: 0 <= i < n ==> raw[i] == init[i];
      if raw[n].day != Some(d) {
        assert d in ByDay(raw) <==> d in ByDay(init);
      }
    }
  }

  lemma {:induction false} ByDayLast(raw: seq<DayCount>, d: int)
    requires d in ByDay(raw)
    ensures exists i :: 0 <= i < |raw| && raw[i].day == Some(d) && ByDay(raw)[d] == MentionsOf(raw[i])
                        && (forall j :: i < j < |raw| ==> raw[j].day != Some(d))
  {
    var n := |raw| - 1;
    var init := raw[..n];
    if raw[n].day == Some(d) {
      assert ByDay(raw)[d] == MentionsOf(raw[n]);
    } else {
      assert d in ByDay(init) && ByDay(raw)[d] == ByDay(init)[d];
      ByDayLast(init, d);
      var i :| 0 <= i < n && init[i].day == Some(d) && ByDay(init)[d] == MentionsOf(init[i])
        && forall j :: i < j < n ==> init[j].day != Some(d);
      assert raw[i] == init[i];
      forall j | i < j < |raw| ensures raw[j].day != Some(d) {
        if j < n {
          assert raw[j] == init[j];
        }
      }
    }
  }

  const SparkDays := 30

  /** `int(by_day.get(d, 0))` */
  function DayValue(byDay: map<int, int>, d: int): int {
    if d in byDay then byDay[d] else 0
  }

  /**
   * `fill_30d`: one count per day for the 30 days ending `today`, oldest
   * first, 0 for a day the query returned nothing for.
   */
  method Fill30d(raw: seq<DayCount>, today: int) returns (out: seq<int>)
    ensures |out| == SparkDays
    ensures forall i :: 0 <= i < SparkDays ==> out[i] == DayValue(ByDay(raw), today - (SparkDays - 1) + i)
  {
    var byDay := ByDay(raw);
    var startDay := today - (SparkDays - 1);
    out := [];
    for i := 0 to SparkDays
      invariant |out| == i
      invariant forall k :: 0 <= k < i ==> out[k] == DayValue(byDay, startDay + k)
    {
      out := out + [DayValue(byDay, startDay + i)];
    }
  }

  /** A day in the window with no row in the query shows 0. */
  lemma MissingDayIsZero(raw: seq<DayCount>, d: int)
    requires forall i :: 0 <= i < |raw| ==> raw[i].day != Some(d)
    ensures DayValue(ByDay(raw), d) == 0
  {
    ByDaySpec(raw, d);
  }

  /* ---------------- Header and banner ---------------- */

  /** The fields of a refresh run the header reads. */
  datatype RunInfo = RunInfo(status: Option<string>, startedAt: int, completedAt: Option<int>)

  /** The latest run exists and has status `st`. */
  predicate StatusIs(lastRun: Option<RunInfo>, st: string) {
    lastRun.Some? && lastRun.value.status == Some(st)
  }

  /**
   * `is_stale`: there is no successful completion, or its age is non-zero and
   * exceeds `staleHours` hours.
   */
  predicate IsStale(successAt: Option<int>, now: int, staleHours: int) {
    successAt.None?
    || (now - successAt.value != 0 && now - successAt.value > staleHours * 3600 * MicrosPerSecond)
  }

  /** `str.title()`: a letter is upper-cased after a non-letter and lower-cased after a letter. */
  function TitleFrom(s: string, afterLetter: bool): (r: string)
    ensures |r| == |s|
    ensures forall i :: 0 <= i < |s| ==> r[i] == s[i] || r[i] == UpperChar(s[i]) || r[i] == LowerChar(s[i])
    ensures forall i :: 0 <= i < |s| && !IsAlpha(s[i]) ==> r[i] == s[i]
    ensures s != [] && IsAlpha(s[0]) ==> r[0] == (if afterLetter then LowerChar(s[0]) else UpperChar(s[0]))
  {
    if s == [] then []
    else
      var c := s[0];
      [if !IsAlpha(c) then c else if afterLetter then LowerChar(c) else UpperChar(c)] + TitleFrom(s[1..], IsAlpha(c))
  }

  datatype Header = Header(pill: string, cls: string, lastRefresh: Option<int>, lastRefreshAgo: string)

  /** `last_refresh_dt`: the latest run's completion, else its start. */
  function LastRefresh(lastRun: Option<RunInfo>): Option<int> {
    if lastRun.None? then None
    else if lastRun.value.completedAt.Some? then lastRun.value.completedAt
    else Some(lastRun.value.startedAt)
  }

  /** The pipeline pill of the header. */
  function HeaderOf(lastRun: Option<RunInfo>, stale: bool, now: int): (h: Header)
    ensures lastRun.None? ==> h.pill == "No data" && h.cls == "is-warning" && h.lastRefresh == None && h.lastRefreshAgo == ""
    ensures StatusIs(lastRun, "success") ==> h.pill == "Success" && (h.cls == "is-success" <==> !stale) && (h.cls == "is-warning" <==> stale)
    ensures StatusIs(lastRun, "failed") <==> h.cls == "is-danger"
    ensures StatusIs(lastRun, "failed") ==> h.pill == "Error"
    ensures StatusIs(lastRun, "running") <==> h.cls == "is-info"
    ensures StatusIs(lastRun, "running") ==> h.pill == "Refreshing"
    ensures lastRun.Some? && !StatusIs(lastRun, "success") && !StatusIs(lastRun, "failed") && !StatusIs(lastRun, "running") ==>
      h.cls == "is-warning" && h.pill == TitleFrom(if lastRun.value.status.None? || lastRun.value.status.value == [] then "Unknown" else lastRun.value.status.value, false)
    ensures h.lastRefresh == LastRefresh(lastRun)
    ensures lastRun.Some? ==> h.lastRefresh.Some? && h.lastRefreshAgo == FmtAge(h.lastRefresh, now)
  {
    var pill :=
      if lastRun.None? then ("No data", "is-warning")
      else
        var st := lastRun.value.status;
        if st == Some("success") then ("Success", if stale then "is-warning" else "is-success")
        else if st == Some("failed") then ("Error", "is-danger")
        else if st == Some("running") then ("Refreshing", "is-info")
        else
          var name := if st.None? || st.value == [] then "Unknown" else st.value;
          (TitleFrom(name, false), "is-warning");
    var last := LastRefresh(lastRun);
    Header(pill.0, pill.1, last, if last.Some? then FmtAge(last, now) else "")
  }

  /** `"queued".title()` is `"Queued"`. */
  lemma TitleQueued()
    ensures TitleFrom("queued", false) == "Queued"
  {
    assert TitleFrom("d", true) == "d";
    assert TitleFrom("ed", true) == "ed";
    assert TitleFrom("ued", true) == "ued";
    assert TitleFrom("eued", true) == "eued";
    assert TitleFrom("ueued", true) == "ueued";
  }

  /** `"Unknown".title()` is `"Unknown"`. */
  lemma TitleUnknown()
    ensures TitleFrom("Unknown", false) == "Unknown"
  {
    assert TitleFrom("n", true) == "n";
    assert TitleFrom("wn", true) == "wn";
    assert TitleFrom("own", true) == "own";
    assert TitleFrom("nown", true) == "nown";
    assert TitleFrom("known", true) == "known";
    assert TitleFrom("nknown", true) == "nknown";
  }

  /** A run with an unlisted status shows that status title-cased, or "Unknown" without one. */
  lemma HeaderPillTitled(run: RunInfo, stale: bool, now: int)
    requires run.status == Some("queued") || run.status.None?
    ensures run.status.None? ==> HeaderOf(Some(run), stale, now).pill == "Unknown"
    ensures run.status == Some("queued") ==> HeaderOf(Some(run), stale, now).pill == "Queued"
  {
    TitleUnknown();
    TitleQueued();
  }

  datatype Banner = Banner(cls: string, headline: string, lastSuccess: Option<int>, badgeText: string, badgeClass: string)

  /** The alert banner: a failed latest run first, then stale data, otherwise none. */
  function BannerOf(lastRun: Option<RunInfo>, stale: bool, successAt: Option<int>): (b: Option<Banner>)
    ensures StatusIs(lastRun, "failed") ==> b.Some? && b.value.headline == "REFRESH FAILED" && b.value.cls == "is-danger"
    ensures (b.Some? && b.value.headline == "DATA STALE") <==> !StatusIs(lastRun, "failed") && stale
    ensures b.None? <==> !StatusIs(lastRun, "failed") && !stale
    ensures b.Some? ==> b.value.lastSuccess == successAt
  {
    if StatusIs(lastRun, "failed") then
      Some(Banner("is-danger", "REFRESH FAILED", successAt, "ACTION: Check pipeline", "is-danger"))
    else if stale then
      Some(Banner("", "DATA STALE", successAt, "ACTION: Trigger refresh", "is-warning"))
    else None
  }

  /** The header and banner of the dashboard for the latest run and the latest successful completion. */
  function Status(lastRun: Option<RunInfo>, successAt: Option<int>, now: int, staleHours: int): (Header, Option<Banner>) {
    var stale := IsStale(successAt, now, staleHours);
    (HeaderOf(lastRun, stale, now), BannerOf(lastRun, stale, successAt))
  }

  /**
   * Without any successful completion the data is stale, so the banner is
   * never absent; a successful latest run whose completion is too old shows
   * a warning pill and the stale banner, a recent one a success pill and no
   * banner.
   */
  lemma StatusSpec(lastRun: Option<RunInfo>, successAt: Option<int>, now: int, staleHours: int)
    ensures successAt.None? ==> Status(lastRun, successAt, now, staleHours).1.Some?
    ensures StatusIs(lastRun, "success") && IsStale(successAt, now, staleHours) ==>
      Status(lastRun, successAt, now, staleHours).0.cls == "is-warning"
      && Status(lastRun, successAt, now, staleHours).1.Some?
      && Status(lastRun, successAt, now, staleHours).1.value.headline == "DATA STALE"
    ensures StatusIs(lastRun, "success") && !IsStale(successAt, now, staleHours) ==>
      Status(lastRun, successAt, now, staleHours).0.cls == "is-success" && Status(lastRun, successAt, now, staleHours).1.None?
    ensures successAt.Some? && staleHours >= 0 && now - successAt.value <= staleHours * 3600 * MicrosPerSecond ==>
      !IsStale(successAt, now, staleHours)
  {
  }
}
