/**
 * `generateThemeTs`: the theme module is its template with the asset map,
 * as JSON text, in place of the `nameMap` marker comment and one
 * `ctx.theme({ id, name })` call per theme in place of the `themes` marker
 * comment. Each call writes the identifier and the display name as
 * single-quoted literals; the name has its `'` characters escaped and
 * nothing else.
 */
module ThemeTs {
  import opened Wrappers
  import opened Text
  import opened ThemeTransform
  import opened ThemeModule

  // ---------------------------------------------------------------------------
  // The registration calls

  /** `s.replaceAll("'", "\\'")`: a backslash before every single quote. */
  function EscapeQuotes(s: string): string
    decreases |s|
  {
    if s == [] then ""
    else (if s[0] == '\'' then "\\'" else [s[0]]) + EscapeQuotes(s[1..])
  }

  const RegistrationOpen: string := "  ctx.theme({\n    id: '"
  const RegistrationMid: string := ",\n    name: '"
  const RegistrationClose: string := "\n  })"

  /** The four lines registering one theme. */
  function Registration(id: string, name: string): string {
    RegistrationOpen + id + "'" + RegistrationMid + EscapeQuotes(name) + "'" + RegistrationClose
  }

  function Registrations(themes: seq<KoishiThemeDef>): (r: seq<string>)
    ensures |r| == |themes|
    decreases |themes|
  {
    if themes == [] then [] else [Registration(themes[0].id, themes[0].name)] + Registrations(themes[1..])
  }

  /** `applyThemeCode`: the registrations of all themes, in order, separated by newlines. */
  function ApplyThemeCode(themes: seq<KoishiThemeDef>): string {
    Join(Registrations(themes), "\n")
  }

  // A reader for the registration code, the partner of `ApplyThemeCode`.

  /** The text after `lit` when `t` starts with it. */
  function Expect(t: string, lit: string): (r: Option<string>)
    ensures r.Some? ==> |r.value| + |lit| == |t|
  {
    if |lit| <= |t| && t[..|lit|] == lit then Some(t[|lit|..]) else None
  }

  /**
   * The value of a single-quoted ECMAScript string literal whose opening
   * quote has been read, and the text after its closing quote. A line feed
   * or carriage return, or the end of the text, before the closing quote is
   * an unterminated literal. Of the escapes only `\'` and `\\`, the ones the
   * writer can produce from a name without a backslash, are read; the reader
   * refuses every other escape.
   */
  function ReadQuoted(t: string): (r: Option<(string, string)>)
    ensures r.Some? ==> |r.value.1| < |t|
    decreases |t|
  {
    if t == [] || t[0] == '\n' || t[0] == '\r' then None
    else if t[0] == '\'' then Some(("", t[1..]))
    else if t[0] == '\\' then
      if |t| >= 2 && (t[1] == '\'' || t[1] == '\\') then Prepend(t[1], ReadQuoted(t[2..])) else None
    else Prepend(t[0], ReadQuoted(t[1..]))
  }

  /** One registration: the identifier and the name it passes, and the text after it. */
  function ReadRegistration(t: string): (r: Option<((string, string), string)>)
    ensures r.Some? ==> |r.value.1| < |t|
  {
    match Expect(t, RegistrationOpen)
    case None => None
    case Some(t1) =>
      match ReadQuoted(t1)
      case None => None
      case Some((id, t2)) =>
        match Expect(t2, RegistrationMid)
        case None => None
        case Some(t3) =>
          match ReadQuoted(t3)
          case None => None
          case Some((name, t4)) =>
            match Expect(t4, RegistrationClose)
            case None => None
            case Some(t5) => Some(((id, name), t5))
  }

  /** One or more registrations separated by newlines, up to the end of the text. */
  function ReadBlocks(t: string): Option<seq<(string, string)>>
    decreases |t|
  {
    match ReadRegistration(t)
    case None => None
    case Some((p, rest)) =>
      if rest == [] then Some([p])
      else
        match Expect(rest, "\n")
        case None => None
        case Some(t') =>
          match ReadBlocks(t')
          case None => None
          case Some(ps) => Some([p] + ps)
  }

  /** The registration code: empty, or one or more registrations. */
  function ReadRegistrations(t: string): Option<seq<(string, string)>> {
    if t == [] then Some([]) else ReadBlocks(t)
  }

  /** The identifier and the name of every theme, in order. */
  function Pairs(themes: seq<KoishiThemeDef>): (r: seq<(string, string)>)
    ensures |r| == |themes|
    ensures forall i :: 0 <= i < |themes| ==> r[i] == (themes[i].id, themes[i].name)
    decreases |themes|
  {
    if themes == [] then [] else [(themes[0].id, themes[0].name)] + Pairs(themes[1..])
  }

  /** No backslash and no line feed or carriage return. */
  predicate PlainText(s: string) {
    forall k :: 0 <= k < |s| ==> s[k] != '\\' && s[k] != '\n' && s[k] != '\r'
  }

  predicate QuoteFree(s: string) {
    forall k :: 0 <= k < |s| ==> s[k] != '\''
  }

  /** Themes whose registrations read back: plain names, and plain identifiers without quotes. */
  predicate PlainThemes(themes: seq<KoishiThemeDef>) {
    forall i :: 0 <= i < |themes| ==> PlainText(themes[i].id) && QuoteFree(themes[i].id) && PlainText(themes[i].name)
  }

  lemma ExpectPrefix(lit: string, rest: string)
    ensures Expect(lit + rest, lit) == Some(rest)
  {
    assert (lit + rest)[..|lit|] == lit;
    assert (lit + rest)[|lit|..] == rest;
  }

  lemma PlainTextTail(s: string)
    requires s != [] && PlainText(s)
    ensures PlainText(s[1..])
  {
    forall k | 0 <= k < |s[1..]| ensures s[1..][k] != '\\' && s[1..][k] != '\n' && s[1..][k] != '\r' {
      assert s[1..][k] == s[k + 1];
    }
  }

  /** Text without quotes is not changed by the escaping. */
  lemma {:induction false} EscapeQuotesQuoteFree(s: string)
    requires QuoteFree(s)
    ensures EscapeQuotes(s) == s
    decreases |s|
  {
    if s != [] {
      assert QuoteFree(s[1..]) by {
        forall k | 0 <= k < |s[1..]| ensures s[1..][k] != '\'' { assert s[1..][k] == s[k + 1]; }
      }
      EscapeQuotesQuoteFree(s[1..]);
      assert s == [s[0]] + s[1..];
    }
  }

  /** A literal written with escaped quotes reads back as the text it was written from. */
  lemma {:induction false} EscapeQuotesReads(s: string, rest: string)
    requires PlainText(s)
    ensures ReadQuoted(EscapeQuotes(s) + "'" + rest) == Some((s, rest))
    decreases |s|
  {
    if s == [] {
      assert EscapeQuotes(s) + "'" + rest == "'" + rest;
    } else {
      PlainTextTail(s);
      EscapeQuotesReads(s[1..], rest);
      var e := if s[0] == '\'' then "\\'" else [s[0]];
      var u := EscapeQuotes(s[1..]) + "'" + rest;
      assert EscapeQuotes(s) + "'" + rest == e + u by {
        assert EscapeQuotes(s) == e + EscapeQuotes(s[1..]);
        AppendAssoc(e, EscapeQuotes(s[1..]), "'");
        AppendAssoc(e, EscapeQuotes(s[1..]) + "'", rest);
      }
      assert (e + u)[|e|..] == u;
      assert s == [s[0]] + s[1..];
    }
  }

  lemma RegistrationRegroup(o: string, i: string, q: string, m: string, n: string, c: string, rest: string)
    ensures o + i + q + m + n + q + c + rest == o + (i + q + (m + (n + q + (c + rest))))
  {
  }

  /** One registration reads back as the identifier and the name it was written from. */
  lemma RegistrationReads(id: string, name: string, rest: string)
    requires PlainText(id) && QuoteFree(id) && PlainText(name)
    ensures ReadRegistration(Registration(id, name) + rest) == Some(((id, name), rest))
  {
    var en := EscapeQuotes(name);
    var t3 := en + "'" + (RegistrationClose + rest);
    var t1 := id + "'" + (RegistrationMid + t3);
    RegistrationRegroup(RegistrationOpen, id, "'", RegistrationMid, en, RegistrationClose, rest);
    assert Registration(id, name) + rest == RegistrationOpen + t1;
    ExpectPrefix(RegistrationOpen, t1);
    EscapeQuotesQuoteFree(id);
    EscapeQuotesReads(id, RegistrationMid + t3);
    ExpectPrefix(RegistrationMid, t3);
    EscapeQuotesReads(name, RegistrationClose + rest);
    ExpectPrefix(RegistrationClose, rest);
  }

  lemma PlainThemesTail(themes: seq<KoishiThemeDef>)
    requires themes != [] && PlainThemes(themes)
    ensures PlainThemes(themes[1..])
  {
    forall i | 0 <= i < |themes[1..]| ensures PlainText(themes[1..][i].id) && QuoteFree(themes[1..][i].id) && PlainText(themes[1..][i].name) {
      assert themes[1..][i] == themes[i + 1];
    }
  }

  /** One or more registrations read back, in order. */
  lemma {:induction false} BlocksRead(themes: seq<KoishiThemeDef>)
    requires themes != [] && PlainThemes(themes)
    ensures ReadBlocks(Join(Registrations(themes), "\n")) == Some(Pairs(themes))
    decreases |themes|
  {
    var t := themes[0];
    var xs := Registrations(themes);
    assert xs[0] == Registration(t.id, t.name);
    if |themes| == 1 {
      RegistrationReads(t.id, t.name, "");
      assert xs[0] + "" == xs[0];
      assert Join(xs, "\n") == xs[0];
      assert Pairs(themes) == [(t.id, t.name)];
    } else {
      PlainThemesTail(themes);
      BlocksRead(themes[1..]);
      assert xs[1..] == Registrations(themes[1..]);
      var j := Join(xs[1..], "\n");
      AppendAssoc(xs[0], "\n", j);
      RegistrationReads(t.id, t.name, "\n" + j);
      ExpectPrefix("\n", j);
    }
  }

  /**
   * The registration code holds exactly one registration per theme, in the
   * order of the themes, each passing the theme's identifier and name, as
   * long as the names hold no backslash or line break and the identifiers no
   * quote either.
   */
  lemma ApplyThemeCodeReads(themes: seq<KoishiThemeDef>)
    requires PlainThemes(themes)
    ensures ReadRegistrations(ApplyThemeCode(themes)) == Some(Pairs(themes))
  {
    if themes != [] {
      BlocksRead(themes);
      var r := Registrations(themes);
      assert |r[0]| > 0 by { assert r[0] == Registration(themes[0].id, themes[0].name); }
      assert |Join(r, "\n")| > 0 by {
        if |r| > 1 { assert Join(r, "\n") == r[0] + "\n" + Join(r[1..], "\n"); }
      }
    }
  }

  /**
   * A name that ends with a backslash breaks its literal: the backslash
   * escapes the closing quote, and the line break after it ends the text
   * before any closing quote.
   */
  lemma TrailingBackslashBreaks(id: string, rest: string)
    requires PlainText(id) && QuoteFree(id)
    ensures ReadRegistration(Registration(id, "\\") + rest).None?
  {
    var t3 := "\\" + "'" + (RegistrationClose + rest);
    var t1 := id + "'" + (RegistrationMid + t3);
    assert EscapeQuotes("\\") == "\\";
    RegistrationRegroup(RegistrationOpen, id, "'", RegistrationMid, "\\", RegistrationClose, rest);
    assert Registration(id, "\\") + rest == RegistrationOpen + t1;
    ExpectPrefix(RegistrationOpen, t1);
    EscapeQuotesQuoteFree(id);
    EscapeQuotesReads(id, RegistrationMid + t3);
    ExpectPrefix(RegistrationMid, t3);
    assert t3[2..] == RegistrationClose + rest;
    assert (RegistrationClose + rest)[0] == '\n';
    assert ReadQuoted(t3[2..]) == None;
    assert ReadQuoted(t3) == None;
  }

  /** The identifiers the generator makes need no escaping. */
  lemma TransformedPlain(d: ThemeDef)
    requires PlainText(d.group) && PlainText(d.name)
    ensures var t := TransformThemeDef(d); PlainText(t.id) && QuoteFree(t.id) && PlainText(t.name)
  {
    var t := TransformThemeDef(d);
    ThemeIdIsSlug(d.name, d.dark);
    var n := d.group + ": " + d.name;
    forall k | 0 <= k < |n| ensures n[k] != '\\' && n[k] != '\n' && n[k] != '\r' {
      if k < |d.group| {
        assert n[k] == d.group[k];
      } else if k >= |d.group| + 2 {
        assert n[k] == d.name[k - |d.group| - 2];
      }
    }
  }

  /**
   * For themes made by the transformation from definitions whose group and
   * name hold no backslash or line break, the registration code registers
   * every theme, in order, under its identifier and as `group: name`.
   */
  lemma TransformedRegistrations(defs: seq<ThemeDef>, themes: seq<KoishiThemeDef>)
    requires |themes| == |defs|
    requires forall i :: 0 <= i < |defs| ==> themes[i] == TransformThemeDef(defs[i])
    requires forall i :: 0 <= i < |defs| ==> PlainText(defs[i].group) && PlainText(defs[i].name)
    ensures ReadRegistrations(ApplyThemeCode(themes)) == Some(Pairs(themes))
    ensures forall i :: 0 <= i < |defs| ==>
              Pairs(themes)[i] == (ThemeId(defs[i].name, defs[i].dark), defs[i].group + ": " + defs[i].name)
  {
    PlainTransformed(defs, themes);
    ApplyThemeCodeReads(themes);
  }

  lemma PlainTransformed(defs: seq<ThemeDef>, themes: seq<KoishiThemeDef>)
    requires |themes| == |defs|
    requires forall i :: 0 <= i < |defs| ==> themes[i] == TransformThemeDef(defs[i])
    requires forall i :: 0 <= i < |defs| ==> PlainText(defs[i].group) && PlainText(defs[i].name)
    ensures PlainThemes(themes)
  {
    forall i | 0 <= i < |themes| ensures PlainText(themes[i].id) && QuoteFree(themes[i].id) && PlainText(themes[i].name) {
      TransformedPlain(defs[i]);
    }
  }

  // ---------------------------------------------------------------------------
  // The theme module

  const NameMapMarker: string := "/* nameMap */"
  const ThemesMarker: string := "/* themes */"

  /**
   * `generateThemeTs`: the template with its first `nameMap` marker replaced
   * by the asset map's JSON text and then its first `themes` marker replaced
   * by the registration code, both by `String.prototype.replace` with a
   * string replacement; building the asset map throws on the URL of a theme
   * the path expression does not match.
   */
  function GenerateThemeTs(template: string, themes: seq<KoishiThemeDef>): Result<string, string> {
    match AssetNameMap(themes)
    case Failure(url) => Failure(url)
    case Success(m) =>
      var withMap := ReplaceFirst(template, NameMapMarker, Stringify(JObj(m), 0));
      Success(ReplaceFirst(withMap, ThemesMarker, ApplyThemeCode(themes)))
  }

  /** The JSON text of the asset map. */
  function NameMapCode(themes: seq<KoishiThemeDef>): string
    requires AssetNameMap(themes).Success?
  {
    Stringify(JObj(AssetNameMap(themes).value), 0)
  }

  /**
   * The module is produced exactly when every theme's URL has a definition
   * path; otherwise the error is the URL of a theme without one.
   */
  lemma GenerateThemeTsFailure(template: string, themes: seq<KoishiThemeDef>)
    ensures GenerateThemeTs(template, themes).Success? <==>
              forall i :: 0 <= i < |themes| ==> DefinitionPath(themes[i].original.url).Some?
    ensures GenerateThemeTs(template, themes).Failure? ==>
              exists i :: 0 <= i < |themes| && themes[i].original.url == GenerateThemeTs(template, themes).error
                                            && DefinitionPath(themes[i].original.url).None?
  {
    AssetEntriesSpec(themes);
    forall i | 0 <= i < |themes| ensures AssetEntry(themes[i]).Success? <==> DefinitionPath(themes[i].original.url).Some? {
      AssetEntryPath(themes[i]);
    }
    if AssetEntries(themes).Failure? {
      AssetEntriesFailure(themes);
      var i :| 0 <= i < |themes| && AssetEntry(themes[i]) == Failure(AssetEntries(themes).error);
      AssetEntryPath(themes[i]);
    }
  }

  /**
   * For a template with a `nameMap` marker and, after it, a `themes` marker,
   * each the first of its kind, and inserted texts without `$`, the module is
   * the template with exactly those two markers replaced.
   */
  lemma GenerateThemeTsShape(a: string, b: string, c: string, themes: seq<KoishiThemeDef>)
    requires AssetNameMap(themes).Success?
    requires forall k :: 0 <= k < |a| ==> !OccursAt(a + NameMapMarker + (b + ThemesMarker + c), NameMapMarker, k)
    requires forall k :: 0 <= k < |a| + |NameMapCode(themes)| + |b| ==>
               !OccursAt(a + NameMapCode(themes) + b + ThemesMarker + c, ThemesMarker, k)
    requires '$' !in NameMapCode(themes) && '$' !in ApplyThemeCode(themes)
    ensures GenerateThemeTs(a + NameMapMarker + (b + ThemesMarker + c), themes)
            == Success(a + NameMapCode(themes) + b + ApplyThemeCode(themes) + c)
  {
    var n := NameMapCode(themes);
    ReplaceFirstAt(a, NameMapMarker, b + ThemesMarker + c, n);
    assert a + n + (b + ThemesMarker + c) == (a + n + b) + ThemesMarker + c;
    ReplaceFirstAt(a + n + b, ThemesMarker, c, ApplyThemeCode(themes));
  }

  /** The inserted asset map reads back, from the JSON text, as the map itself. */
  lemma NameMapCodeReads(themes: seq<KoishiThemeDef>, rest: string)
    requires AssetNameMap(themes).Success?
    ensures ReadValue(NameMapCode(themes) + rest) == Some((JObj(AssetNameMap(themes).value), rest))
  {
    StringifyReads(JObj(AssetNameMap(themes).value), 0, rest);
  }
}
