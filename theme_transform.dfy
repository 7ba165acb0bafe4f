/**
 * The theme definitions of the Doki master theme collection and their
 * translation into the flat token record the console's stylesheets use
 * (`transformThemeDef` of the generator script).
 */
module ThemeTransform {
  import opened Wrappers
  import opened Text

  /** Horizontal alignment of a sticker or wallpaper image. */
  datatype Anchor = Left | Center | Right

  function AnchorText(a: Anchor): string {
    match a
    case Left => "left"
    case Center => "center"
    case Right => "right"
  }

  /** A sticker record as it appears in a definition; `others` are its remaining properties. */
  datatype StickerInfo = StickerInfo(name: string, anchor: Anchor, others: map<string, string>)

  /** The `stickers` object of a definition, with its `default` key first. */
  datatype Stickers = Stickers(default: StickerInfo, secondary: Option<StickerInfo>)

  datatype Colors = Colors(
    baseBackground: string,
    secondaryBackground: string,
    textEditorBackground: string,
    highlightColor: string,
    disabledColor: string,
    headerColor: string,
    accentColor: string,
    foregroundColor: string,
    selectionForeground: string,
    accentColorTransparent: string,
    selectionBackground: string,
    identifierHighlight: string,
    selectionInactive: string)

  /** One fetched definition; `url` is the `$url` the fetch adds. */
  datatype ThemeDef = ThemeDef(
    url: string,
    name: string,
    group: string,
    dark: bool,
    stickers: Stickers,
    colors: Colors)

  /** The console theme derived from one definition; `original` is `$original`. */
  datatype KoishiThemeDef = KoishiThemeDef(
    original: ThemeDef,
    name: string,
    id: string,
    bg1: string,
    bg2: string,
    bg3: string,
    fg1: string,
    fg2: string,
    fg3: string,
    border: string,
    divider: string,
    disabled: string,
    primary: string,
    hover: string,
    terminalHover: string,
    terminalSelection: string,
    selectionBackground: string,
    selectionForeground: string,
    inactiveSelectionBackground: string,
    selectionHighlightBackground: string,
    lineHighlightBackground: string,
    lineHighlightBorder: string)

  // ---------------------------------------------------------------------------
  // Identifiers

  predicate IsAsciiAlnum(c: char) {
    ('a' <= c <= 'z') || ('A' <= c <= 'Z') || ('0' <= c <= '9')
  }

  /** How many UTF-16 code units a JavaScript string spends on `c`: two outside the Basic Multilingual Plane. */
  function Utf16Units(c: char): nat {
    if c as int >= 0x1_0000 then 2 else 1
  }

  /** The `length` of the JavaScript string that holds `s`. */
  function Utf16Length(s: string): nat {
    if s == [] then 0 else Utf16Length(s[..|s| - 1]) + Utf16Units(s[|s| - 1])
  }

  /**
   * What the pattern `[^a-zA-Z0-9]` without the `u` flag makes of one character: an ASCII letter
   * or digit is kept, anything else becomes one `-` per UTF-16 code unit, since each half of a
   * surrogate pair is matched on its own.
   */
  function DashOf(c: char): string {
    if IsAsciiAlnum(c) then [c] else if Utf16Units(c) == 2 then "--" else "-"
  }

  /** `s.replace(/[^a-zA-Z0-9]/g, '-')`. */
  function DashNonAlnum(s: string): (r: string)
    ensures |r| == Utf16Length(s)
  {
    if s == [] then [] else DashNonAlnum(s[..|s| - 1]) + DashOf(s[|s| - 1])
  }

  /** `name.toLowerCase().replace(/[^a-zA-Z0-9]/g, '-')`. */
  function IdBase(name: string): string {
    DashNonAlnum(LowerCase(name))
  }

  /** The rule for one character of the base, stated on its own. */
  function SlugChar(c: char): char {
    if 'A' <= c <= 'Z' then (c as int + 32) as char
    else if ('a' <= c <= 'z') || ('0' <= c <= '9') then c
    else '-'
  }

  /** The part of the base that one character of the name contributes. */
  function SlugUnits(c: char): string {
    if Utf16Units(c) == 2 then "--" else [SlugChar(c)]
  }

  predicate IsSlugChar(c: char) {
    ('a' <= c <= 'z') || ('0' <= c <= '9') || c == '-'
  }

  lemma IdBaseSnoc(x: string, c: char)
    ensures IdBase(x + [c]) == IdBase(x) + SlugUnits(c)
  {
    var low := LowerCase(x + [c]);
    assert low == LowerCase(x) + [ToLowerChar(c)];
    assert low[..|low| - 1] == LowerCase(x);
    assert DashOf(ToLowerChar(c)) == SlugUnits(c);
  }

  lemma PrefixSnoc(s: string, i: nat)
    requires i < |s|
    ensures s[..i + 1] == s[..i] + [s[i]]
  {
  }

  lemma {:induction false} IdBaseLength(name: string)
    ensures |IdBase(name)| == Utf16Length(name)
  {
    if name != [] {
      var n := |name| - 1;
      IdBaseLength(name[..n]);
      PrefixSnoc(name, n);
      assert name[..n + 1] == name;
      IdBaseSnoc(name[..n], name[n]);
    }
  }

  /**
   * The base is as long as the name in UTF-16 code units, and it is built character by
   * character: each one adds its own lower-cased letter or digit, or a `-` per code unit.
   * Runs are not collapsed.
   */
  lemma IdBaseChars(name: string)
    ensures |IdBase(name)| == Utf16Length(name)
    ensures IdBase([]) == []
    ensures forall i :: 0 <= i < |name| ==> IdBase(name[..i + 1]) == IdBase(name[..i]) + SlugUnits(name[i])
  {
    IdBaseLength(name);
    forall i | 0 <= i < |name| ensures IdBase(name[..i + 1]) == IdBase(name[..i]) + SlugUnits(name[i]) {
      PrefixSnoc(name, i);
      IdBaseSnoc(name[..i], name[i]);
    }
  }

  /** Every character of a base is a lower-case letter, a digit or `-`. */
  lemma {:induction false} IdBaseIsSlug(name: string)
    ensures forall i :: 0 <= i < |IdBase(name)| ==> IsSlugChar(IdBase(name)[i])
  {
    if name != [] {
      var n := |name| - 1;
      IdBaseIsSlug(name[..n]);
      PrefixSnoc(name, n);
      assert name[..n + 1] == name;
      IdBaseSnoc(name[..n], name[n]);
      var u := SlugUnits(name[n]);
      assert forall k :: 0 <= k < |u| ==> IsSlugChar(u[k]);
    }
  }

  /** A character outside the Basic Multilingual Plane, such as an emoji, becomes two dashes. */
  lemma EmojiBecomesTwoDashes()
    ensures IdBase("a\U{1F600}") == "a--"
  {
    var name := "a\U{1F600}";
    IdBaseChars(name);
    assert name[..0] == [] && name[..1] == "a" && name[..2] == name;
    assert SlugUnits(name[0]) == "a";
  }

  /** The base ends with one of the words that make the suffix unnecessary. */
  predicate HasSchemeWord(base: string) {
    EndsWith(base, "dark") || EndsWith(base, "light")
  }

  function SchemeSuffix(dark: bool): string {
    "-" + (if dark then "dark" else "light")
  }

  /** The identifier of a theme: `doki-<base>`, followed by `-dark`/`-light` unless the base already ends with `dark` or `light`. */
  function ThemeId(name: string, dark: bool): (id: string)
    ensures HasSchemeWord(IdBase(name)) ==> id == "doki-" + IdBase(name)
    ensures !HasSchemeWord(IdBase(name)) ==> id == "doki-" + IdBase(name) + SchemeSuffix(dark)
  {
    var base := IdBase(name);
    "doki-" + base + (if HasSchemeWord(base) then "" else SchemeSuffix(dark))
  }

  /** Every identifier is made of lower-case letters, digits and `-`, and is at least as long as `doki-` plus the name. */
  lemma ThemeIdIsSlug(name: string, dark: bool)
    ensures Utf16Length(name) + 5 <= |ThemeId(name, dark)| <= Utf16Length(name) + 11
    ensures forall i :: 0 <= i < |ThemeId(name, dark)| ==> IsSlugChar(ThemeId(name, dark)[i])
    ensures ThemeId(name, dark)[..5] == "doki-"
  {
    var base := IdBase(name);
    IdBaseLength(name);
    IdBaseIsSlug(name);
    var sfx := if HasSchemeWord(base) then "" else SchemeSuffix(dark);
    FixedPartsAreSlugs(dark);
    SlugConcat("doki-", base, sfx);
    assert ThemeId(name, dark) == "doki-" + base + sfx;
  }

  lemma FixedPartsAreSlugs(dark: bool)
    ensures IsSlug("doki-") && IsSlug("") && IsSlug(SchemeSuffix(dark))
    ensures |SchemeSuffix(dark)| <= 6
  {
    var sfx := SchemeSuffix(dark);
    forall i | 0 <= i < |sfx| ensures IsSlugChar(sfx[i]) {
      if dark {
        assert sfx == "-dark";
      } else {
        assert sfx == "-light";
      }
    }
  }

  predicate IsSlug(s: string) {
    forall i :: 0 <= i < |s| ==> IsSlugChar(s[i])
  }

  lemma SlugConcat(a: string, b: string, c: string)
    requires IsSlug(a) && IsSlug(b) && IsSlug(c)
    ensures IsSlug(a + b + c)
    ensures (a + b + c)[..|a|] == a
  {
    var s := a + b + c;
    forall i | 0 <= i < |s| ensures IsSlugChar(s[i]) {
      if i < |a| {
        assert s[i] == a[i];
      } else if i < |a| + |b| {
        assert s[i] == b[i - |a|];
      } else {
        assert s[i] == c[i - |a| - |b|];
      }
    }
    assert s[..|a|] == a;
  }

  lemma EndsWithConcat(a: string, b: string, w: string)
    requires EndsWith(b, w)
    ensures EndsWith(a + b, w)
  {
    var s := a + b;
    assert s[|s| - |w|..] == b[|b| - |w|..];
  }

  lemma SuffixEndsWithWord(dark: bool)
    ensures EndsWith(SchemeSuffix(dark), if dark then "-dark" else "-light")
    ensures EndsWith(SchemeSuffix(dark), if dark then "dark" else "light")
  {
    var sfx := SchemeSuffix(dark);
    var word := if dark then "dark" else "light";
    assert sfx[|sfx| - |word|..] == word;
  }

  /** Every identifier ends with `dark` or `light`; with the suffix added it ends with the theme's own scheme. */
  lemma ThemeIdScheme(name: string, dark: bool)
    ensures HasSchemeWord(ThemeId(name, dark))
    ensures !HasSchemeWord(IdBase(name)) ==> EndsWith(ThemeId(name, dark), if dark then "-dark" else "-light")
  {
    var base := IdBase(name);
    var id := ThemeId(name, dark);
    if HasSchemeWord(base) {
      assert id == "doki-" + base;
      if EndsWith(base, "dark") {
        EndsWithConcat("doki-", base, "dark");
      } else {
        EndsWithConcat("doki-", base, "light");
      }
    } else {
      assert id == "doki-" + base + SchemeSuffix(dark);
      SuffixEndsWithWord(dark);
      EndsWithConcat("doki-" + base, SchemeSuffix(dark), if dark then "-dark" else "-light");
      EndsWithConcat("doki-" + base, SchemeSuffix(dark), if dark then "dark" else "light");
    }
  }

  lemma ArcticBase(name: string)
    requires name == "Arctic"
    ensures IdBase(name) == "arctic" && !HasSchemeWord(IdBase(name))
  {
    var base := "arctic";
    BaseFromChars(name, base);
    assert base[2..] != "dark" by { assert base[2] != "dark"[0]; }
    assert base[1..] != "light" by { assert base[1] != "light"[0]; }
  }

  /** The pair of definitions named "Arctic", one dark and one light, get distinct identifiers. */
  lemma ArcticIds(name: string)
    requires name == "Arctic"
    ensures ThemeId(name, true) == "doki-arctic-dark"
    ensures ThemeId(name, false) == "doki-arctic-light"
  {
    ArcticId(name, true);
    ArcticId(name, false);
    ArcticSpelled();
  }

  lemma ArcticId(name: string, dark: bool)
    requires name == "Arctic"
    ensures ThemeId(name, dark) == "doki-" + "arctic" + SchemeSuffix(dark)
  {
    ArcticBase(name);
  }

  lemma ArcticSpelled()
    ensures "doki-" + "arctic" + SchemeSuffix(true) == "doki-arctic-dark"
    ensures "doki-" + "arctic" + SchemeSuffix(false) == "doki-arctic-light"
  {
  }

  /** A base computed character by character, for a name inside the Basic Multilingual Plane. */
  lemma {:induction false} BaseFromChars(name: string, base: string)
    requires |base| == |name|
    requires forall i :: 0 <= i < |name| ==> Utf16Units(name[i]) == 1 && base[i] == SlugChar(name[i])
    ensures IdBase(name) == base
  {
    IdBaseChars(name);
    if name != [] {
      var n := |name| - 1;
      BaseFromChars(name[..n], base[..n]);
      assert name[..n + 1] == name;
      assert base == base[..n] + [base[n]];
    }
  }

  /** Identifiers are not unique: distinct names can give the same one, and nothing reports it. */
  lemma IdsCanCollide()
    ensures "A B" != "a-b" && ThemeId("A B", true) == ThemeId("a-b", true)
  {
    BaseFromChars("A B", "a-b");
    BaseFromChars("a-b", "a-b");
    assert !HasSchemeWord("a-b");
  }

  // ---------------------------------------------------------------------------
  // Tokens

  /** The three background layers of a dark theme, outermost first. */
  function Layers(c: Colors): seq<string> {
    [c.baseBackground, c.headerColor, c.textEditorBackground]
  }

  function Reverse<T>(s: seq<T>): (r: seq<T>)
    ensures |r| == |s|
    ensures forall i :: 0 <= i < |s| ==> r[i] == s[|s| - 1 - i]
  {
    if s == [] then [] else Reverse(s[1..]) + [s[0]]
  }

  /** `transformThemeDef`. */
  function TransformThemeDef(d: ThemeDef): (r: KoishiThemeDef)
    ensures r.original == d
    ensures r.id == ThemeId(d.name, d.dark)
    ensures r.name == d.group + ": " + d.name
    ensures [r.bg1, r.bg2, r.bg3] == if d.dark then Layers(d.colors) else Reverse(Layers(d.colors))
    ensures r.fg1 == d.colors.foregroundColor + "e5"
    ensures r.fg2 == d.colors.foregroundColor + "99"
    ensures r.fg3 == d.colors.foregroundColor + "66"
    ensures r.border == d.colors.highlightColor + "cc"
    ensures r.divider == d.colors.highlightColor + "88"
    ensures r.hover == d.colors.highlightColor + "aa"
    ensures r.inactiveSelectionBackground == d.colors.selectionInactive + "99"
    ensures r.lineHighlightBackground == d.colors.baseBackground + "77"
    ensures r.lineHighlightBorder == d.colors.baseBackground + "00"
    ensures r.disabled == d.colors.disabledColor && r.primary == d.colors.accentColor
    ensures r.terminalHover == d.colors.accentColorTransparent
    ensures r.terminalSelection == d.colors.selectionBackground && r.selectionBackground == d.colors.selectionBackground
    ensures r.selectionForeground == d.colors.selectionForeground
    ensures r.selectionHighlightBackground == d.colors.identifierHighlight
  {
    var c := d.colors;
    var bg1 := if d.dark then c.baseBackground else c.textEditorBackground;
    var bg3 := if d.dark then c.textEditorBackground else c.baseBackground;
    KoishiThemeDef(
      d,
      d.group + ": " + d.name,
      ThemeId(d.name, d.dark),
      bg1, c.headerColor, bg3,
      c.foregroundColor + "e5", c.foregroundColor + "99", c.foregroundColor + "66",
      c.highlightColor + "cc", c.highlightColor + "88",
      c.disabledColor, c.accentColor,
      c.highlightColor + "aa",
      c.accentColorTransparent, c.selectionBackground,
      c.selectionBackground, c.selectionForeground,
      c.selectionInactive + "99",
      c.identifierHighlight,
      c.baseBackground + "77", c.baseBackground + "00")
  }

  /**
   * Flipping only the dark flag reverses the three background layers and
   * leaves every other token, and the display name, as they were.
   */
  lemma FlippedSchemeReversesLayers(d: ThemeDef)
    ensures var dk := TransformThemeDef(d.(dark := true));
            var lt := TransformThemeDef(d.(dark := false));
            && [lt.bg1, lt.bg2, lt.bg3] == Reverse([dk.bg1, dk.bg2, dk.bg3])
            && lt.(original := d, id := "", bg1 := "", bg3 := "") == dk.(original := d, id := "", bg1 := "", bg3 := "")
  {
  }

  /** An alpha token is its base colour followed by exactly two hexadecimal digits. */
  predicate IsAlphaOf(token: string, base: string) {
    |token| == |base| + 2 && token[..|base|] == base
    && forall i :: |base| <= i < |token| ==> ('0' <= token[i] <= '9' || 'a' <= token[i] <= 'f')
  }

  /** The alpha tokens of the example colour `#112233`. */
  lemma ExampleAlphaTokens(d: ThemeDef)
    requires d.colors.foregroundColor == "#112233"
    ensures TransformThemeDef(d).fg1 == "#112233e5"
    ensures TransformThemeDef(d).fg2 == "#11223399"
    ensures TransformThemeDef(d).fg3 == "#11223366"
  {
  }

  /** Every derived alpha token is its base colour with a two-hex-digit alpha. */
  lemma AlphaTokensWellFormed(d: ThemeDef)
    ensures var r := TransformThemeDef(d);
            && IsAlphaOf(r.fg1, d.colors.foregroundColor) && IsAlphaOf(r.fg2, d.colors.foregroundColor)
            && IsAlphaOf(r.fg3, d.colors.foregroundColor)
            && IsAlphaOf(r.border, d.colors.highlightColor) && IsAlphaOf(r.divider, d.colors.highlightColor)
            && IsAlphaOf(r.hover, d.colors.highlightColor)
            && IsAlphaOf(r.inactiveSelectionBackground, d.colors.selectionInactive)
            && IsAlphaOf(r.lineHighlightBackground, d.colors.baseBackground)
            && IsAlphaOf(r.lineHighlightBorder, d.colors.baseBackground)
  {
    var r := TransformThemeDef(d);
    var c := d.colors;
    AlphaSuffix(c.foregroundColor, "e5");
    AlphaSuffix(c.foregroundColor, "99");
    AlphaSuffix(c.foregroundColor, "66");
    AlphaSuffix(c.highlightColor, "cc");
    AlphaSuffix(c.highlightColor, "88");
    AlphaSuffix(c.highlightColor, "aa");
    AlphaSuffix(c.selectionInactive, "99");
    AlphaSuffix(c.baseBackground, "77");
    AlphaSuffix(c.baseBackground, "00");
  }

  lemma AlphaSuffix(base: string, hex: string)
    requires |hex| == 2 && forall i :: 0 <= i < 2 ==> ('0' <= hex[i] <= '9' || 'a' <= hex[i] <= 'f')
    ensures IsAlphaOf(base + hex, base)
  {
    var t := base + hex;
    assert t[..|base|] == base;
    forall i | |base| <= i < |t| ensures '0' <= t[i] <= '9' || 'a' <= t[i] <= 'f' {
      assert t[i] == hex[i - |base|];
    }
  }
}
