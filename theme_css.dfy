/**
 * `generateThemeCss`: the per-theme stylesheet. Two global regular-expression
 * replacements are applied to the stylesheet template:
 *   1. `var\(\s*__(.+?)\s*\)` is replaced by the theme's string property
 *      named by the captured key, or by the comment `Marker` when the
 *      theme has no such string property;
 *   2. `.*:\s*\/\* unresolved \*\/\s*;` is replaced by nothing.
 * Each pass is written out as the left-to-right scan the regular-expression
 * engine performs, with its greedy and lazy quantifiers made explicit.
 */
module ThemeCss {
  import opened Wrappers
  import opened Text
  import opened ThemeTransform

  const Marker: string := "/* unresolved */"

  /** The names of the string-valued properties of a theme record. */
  const TokenKeys: set<string> := {
    "name", "id", "bg1", "bg2", "bg3", "fg1", "fg2", "fg3", "border", "divider",
    "disabled", "primary", "hover", "terminalHover", "terminalSelection",
    "selectionBackground", "selectionForeground", "inactiveSelectionBackground",
    "selectionHighlightBackground", "lineHighlightBackground", "lineHighlightBorder"}

  /**
   * The string-valued properties of a theme record, by name: what
   * `theme[key]` gives when it is a string (`$original` is an object and any
   * other key is absent).
   */
  function Tokens(t: KoishiThemeDef): (env: map<string, string>)
    ensures env.Keys == TokenKeys
  {
    map[
      "name" := t.name, "id" := t.id,
      "bg1" := t.bg1, "bg2" := t.bg2, "bg3" := t.bg3,
      "fg1" := t.fg1, "fg2" := t.fg2, "fg3" := t.fg3,
      "border" := t.border, "divider" := t.divider, "disabled" := t.disabled,
      "primary" := t.primary, "hover" := t.hover,
      "terminalHover" := t.terminalHover, "terminalSelection" := t.terminalSelection,
      "selectionBackground" := t.selectionBackground,
      "selectionForeground" := t.selectionForeground,
      "inactiveSelectionBackground" := t.inactiveSelectionBackground,
      "selectionHighlightBackground" := t.selectionHighlightBackground,
      "lineHighlightBackground" := t.lineHighlightBackground,
      "lineHighlightBorder" := t.lineHighlightBorder]
  }

  /** The text that replaces one placeholder: the property's value, or the marker. */
  function Resolve(env: map<string, string>, key: string): string {
    if key in env then env[key] else Marker
  }

  // ---------------------------------------------------------------------------
  // First pass: placeholders

  /** `\s*\)` matches at `j`. */
  predicate ClosesAt(s: string, j: nat)
    requires j <= |s|
  {
    var w := SpaceRun(s, j);
    j + w < |s| && s[j + w] == ')'
  }

  /**
   * The lazy `(.+?)` followed by `\s*\)`: the key runs from `k0` to the first
   * end `e >= j` that is followed by `\s*\)`; the key may not contain a line
   * terminator.
   */
  function LazyKey(s: string, k0: nat, j: nat): (r: Option<nat>)
    requires k0 < j
    ensures r.Some? ==> j <= r.value <= |s| && ClosesAt(s, r.value)
    decreases |s| + 1 - j
  {
    if j > |s| || IsLineTerminator(s[j - 1]) then None
    else if ClosesAt(s, j) then Some(j)
    else LazyKey(s, k0, j + 1)
  }

  /** A match of `var\(\s*__(.+?)\s*\)` starting at `i`: the key and the index just past the match. */
  function MatchVarAt(s: string, i: nat): (r: Option<(string, nat)>)
    requires i <= |s|
    ensures r.Some? ==> i < r.value.1 <= |s|
  {
    if !OccursAt(s, "var(", i) then None
    else
      var p := i + 4 + SpaceRun(s, i + 4);
      if !OccursAt(s, "__", p) then None
      else
        match LazyKey(s, p + 2, p + 3)
        case None => None
        case Some(e) => Some((s[p + 2..e], e + SpaceRun(s, e) + 1))
  }

  /** The first replacement from index `i` on, resuming the scan after each match. */
  function SubstFrom(s: string, i: nat, env: map<string, string>): string
    requires i <= |s|
    decreases |s| - i
  {
    if i == |s| then []
    else
      match MatchVarAt(s, i)
      case Some((key, e)) => Resolve(env, key) + SubstFrom(s, e, env)
      case None => [s[i]] + SubstFrom(s, i + 1, env)
  }

  function SubstVars(s: string, env: map<string, string>): string {
    SubstFrom(s, 0, env)
  }

  // ---------------------------------------------------------------------------
  // Second pass: declarations left unresolved
  //
  // The scanner takes the comment text of the pattern as a parameter `mk`;
  // the generator's pattern uses `Marker`.

  /** `:\s*` + `mk` + `\s*;` at `q`: the end of the match. */
  function DeclTail(s: string, q: nat, mk: string): (r: Option<nat>)
    ensures r.Some? ==> q < r.value <= |s| && s[q] == ':'
  {
    if q >= |s| || s[q] != ':' then None
    else
      var m := q + 1 + SpaceRun(s, q + 1);
      if !OccursAt(s, mk, m) then None
      else
        var e := m + |mk| + SpaceRun(s, m + |mk|);
        if e < |s| && s[e] == ';' then Some(e + 1) else None
  }

  /** The greedy `.*` before the colon: the last colon at or before `q` (and not before `lo`) that completes a match. */
  function LastDecl(s: string, lo: nat, q: int, mk: string): (r: Option<nat>)
    requires lo - 1 <= q < |s|
    ensures r.Some? ==> lo < r.value <= |s|
    decreases q - lo + 1
  {
    if q < lo then None
    else
      match DeclTail(s, q, mk)
      case Some(e) => Some(e)
      case None => LastDecl(s, lo, q - 1, mk)
  }

  /** A match of `.*:\s*` + `mk` + `\s*;` starting at `i`: the index just past it. */
  function DeclMatchAt(s: string, i: nat, mk: string): (r: Option<nat>)
    requires i <= |s|
    ensures r.Some? ==> i < r.value <= |s|
  {
    LastDecl(s, i, LineEnd(s, i) - 1, mk)
  }

  /** The second replacement from index `i` on: every match is deleted and the scan resumes after it. */
  function DropFrom(s: string, i: nat, mk: string): string
    requires i <= |s|
    decreases |s| - i
  {
    if i == |s| then []
    else
      match DeclMatchAt(s, i, mk)
      case Some(e) => DropFrom(s, e, mk)
      case None => [s[i]] + DropFrom(s, i + 1, mk)
  }

  /** The replacement of `.*:\s*\/\* unresolved \*\/\s*;` by nothing. */
  function DropUnresolved(s: string): string {
    DropFrom(s, 0, Marker)
  }

  /** `generateThemeCss`, for the stylesheet template `template`. */
  function GenerateThemeCss(template: string, t: KoishiThemeDef): string {
    DropUnresolved(SubstVars(template, Tokens(t)))
  }

  // ---------------------------------------------------------------------------
  // Properties of the first pass

  /** Where no placeholder match starts, the character is copied. */
  lemma SubstStep(s: string, i: nat, env: map<string, string>)
    requires i < |s| && MatchVarAt(s, i) == None
    ensures SubstFrom(s, i, env) == [s[i]] + SubstFrom(s, i + 1, env)
  {
  }

  /** Where a placeholder match starts, it is replaced by the value its key resolves to. */
  lemma SubstHit(s: string, i: nat, key: string, e: nat, env: map<string, string>)
    requires i < |s| && MatchVarAt(s, i) == Some((key, e))
    ensures SubstFrom(s, i, env) == Resolve(env, key) + SubstFrom(s, e, env)
  {
  }

  /** Text in which no placeholder match starts is copied unchanged. */
  lemma {:induction false} SubstSkip(s: string, i: nat, j: nat, env: map<string, string>)
    requires i <= j <= |s|
    requires forall p :: i <= p < j ==> MatchVarAt(s, p) == None
    ensures SubstFrom(s, i, env) == s[i..j] + SubstFrom(s, j, env)
    decreases j - i
  {
    if i < j {
      SubstSkip(s, i + 1, j, env);
      SubstSkipStep(s, i, j, env);
    }
  }

  lemma SubstSkipStep(s: string, i: nat, j: nat, env: map<string, string>)
    requires i < j <= |s| && MatchVarAt(s, i) == None
    requires SubstFrom(s, i + 1, env) == s[i + 1..j] + SubstFrom(s, j, env)
    ensures SubstFrom(s, i, env) == s[i..j] + SubstFrom(s, j, env)
  {
    SubstStep(s, i, env);
    SliceCons(s, i, j);
    AppendAssoc([s[i]], s[i + 1..j], SubstFrom(s, j, env));
  }

  /** A key the lazy group captures whole: non-empty, without white space (so without line terminators) and without `)`. */
  predicate ValidKey(key: string) {
    |key| > 0 && forall i :: 0 <= i < |key| ==> !IsSpace(key[i]) && key[i] != ')'
  }

  function Placeholder(key: string): string {
    "var(__" + key + ")"
  }

  lemma {:induction false} LazyKeyFinds(s: string, k0: nat, j: nat, e: nat)
    requires k0 < j <= e <= |s|
    requires forall m :: j - 1 <= m < e ==> !IsLineTerminator(s[m])
    requires forall m :: j <= m < e ==> !ClosesAt(s, m)
    requires ClosesAt(s, e)
    ensures LazyKey(s, k0, j) == Some(e)
    decreases e - j
  {
    if j < e {
      LazyKeyFinds(s, k0, j + 1, e);
    }
  }

  /**
   * The positional form of a placeholder match: `var(`, `__`, a key of
   * characters that are neither white space nor `)`, and `)`.
   */
  lemma MatchVarPos(s: string, i: nat, e: nat)
    requires i + 7 <= e < |s|
    requires OccursAt(s, "var(", i) && s[i + 4] == '_' && OccursAt(s, "__", i + 4)
    requires forall m :: i + 6 <= m < e ==> !IsSpace(s[m]) && s[m] != ')'
    requires s[e] == ')'
    ensures MatchVarAt(s, i) == Some((s[i + 6..e], e + 1))
  {
    assert SpaceRun(s, i + 4) == 0;
    forall m | i + 6 <= m < e ensures !IsLineTerminator(s[m]) && !ClosesAt(s, m) {
      assert SpaceRun(s, m) == 0;
    }
    assert SpaceRun(s, e) == 0;
    LazyKeyFinds(s, i + 6, i + 7, e);
  }

  /** Where the characters of a placeholder lie in a text that holds it at `i`. */
  lemma PlaceholderChars(s: string, i: nat, key: string)
    requires OccursAt(s, Placeholder(key), i)
    ensures i + 7 + |key| <= |s|
    ensures OccursAt(s, "var(", i) && s[i + 4] == '_' && OccursAt(s, "__", i + 4)
    ensures forall m :: i + 6 <= m < i + 6 + |key| ==> s[m] == key[m - i - 6]
    ensures s[i + 6 + |key|] == ')'
    ensures s[i + 6..i + 6 + |key|] == key
  {
    var ph := Placeholder(key);
    var t := s[i..i + |ph|];
    assert t == ph;
    assert s[i..i + 4] == t[..4] == "var(";
    assert t[4] == '_' && t[5] == '_';
    assert s[i + 4..i + 6] == t[4..6] == "__";
    assert s[i + 4] == t[4];
    forall m | i + 6 <= m < i + 6 + |key| ensures s[m] == key[m - i - 6] {
      assert s[m] == t[m - i];
    }
    assert s[i + 6 + |key|] == t[6 + |key|];
    assert s[i + 6..i + 6 + |key|] == t[6..6 + |key|] == key;
  }

  /** A placeholder with a valid key is matched whole, capturing the key. */
  lemma PlaceholderMatch(s: string, i: nat, key: string)
    requires ValidKey(key) && OccursAt(s, Placeholder(key), i)
    ensures MatchVarAt(s, i) == Some((key, i + |Placeholder(key)|))
  {
    PlaceholderChars(s, i, key);
    MatchVarPos(s, i, i + 6 + |key|);
  }

  /** Where the text from `i` to `j` has no `_`, no placeholder match starts in it, provided what follows is the end or starts a placeholder. */
  lemma NoUnderscoreNoMatch(s: string, i: nat, j: nat)
    requires i <= j <= |s| && '_' !in s[i..j]
    requires j == |s| || s[j] == 'v'
    ensures forall p :: i <= p < j ==> MatchVarAt(s, p) == None
  {
    forall p | i <= p < j ensures MatchVarAt(s, p) == None {
      if p + 4 > j {
        assert !OccursAt(s, "var(", p) by {
          if p + 4 <= |s| && j < |s| { assert s[p..p + 4][j - p] == s[j]; }
        }
      } else if OccursAt(s, "var(", p) {
        SpaceRunSpec(s, p + 4);
        var w := p + 4 + SpaceRun(s, p + 4);
        if w < j {
          assert s[w] == s[i..j][w - i];
        }
        assert !OccursAt(s, "__", w) by {
          if w + 2 <= |s| { assert s[w..w + 2][0] == s[w]; }
        }
      }
    }
  }

  /** A stylesheet template: literal text, then placeholders each followed by literal text. */
  datatype Hole = Hole(key: string, after: string)
  datatype Template = Template(head: string, holes: seq<Hole>)

  function HolesText(hs: seq<Hole>): string {
    if hs == [] then "" else Placeholder(hs[0].key) + hs[0].after + HolesText(hs[1..])
  }

  function TemplateText(tp: Template): string {
    tp.head + HolesText(tp.holes)
  }

  /** The template with every placeholder replaced by the value its key resolves to. */
  function HolesFilled(hs: seq<Hole>, env: map<string, string>): string {
    if hs == [] then "" else Resolve(env, hs[0].key) + hs[0].after + HolesFilled(hs[1..], env)
  }

  function Filled(tp: Template, env: map<string, string>): string {
    tp.head + HolesFilled(tp.holes, env)
  }

  /** Literal text without `_` and keys the lazy group captures whole. */
  predicate WellFormed(tp: Template) {
    && '_' !in tp.head
    && forall i :: 0 <= i < |tp.holes| ==> ValidKey(tp.holes[i].key) && '_' !in tp.holes[i].after
  }

  /** Text made of three consecutive parts, from index `off` on: where each part lies. */
  lemma Parts(s: string, off: nat, x: string, y: string, z: string)
    requires off <= |s| && s[off..] == x + y + z
    ensures OccursAt(s, x, off)
    ensures s[off + |x|..off + |x| + |y|] == y
    ensures s[off + |x| + |y|..] == z
  {
    assert s[off..off + |x|] == (x + y + z)[..|x|];
    assert s[off + |x|..off + |x| + |y|] == (x + y + z)[|x|..|x| + |y|];
    assert s[off + |x| + |y|..] == (x + y + z)[|x| + |y|..];
  }

  /** Placeholders, each followed by text without `_`, from index `off` on, are each replaced by their value. */
  lemma {:induction false} SubstHoles(s: string, off: nat, hs: seq<Hole>, env: map<string, string>)
    requires off <= |s| && s[off..] == HolesText(hs)
    requires forall i :: 0 <= i < |hs| ==> ValidKey(hs[i].key) && '_' !in hs[i].after
    ensures SubstFrom(s, off, env) == HolesFilled(hs, env)
    ensures off == |s| || s[off] == 'v'
    decreases |hs|
  {
    if hs != [] {
      var n2 := HolesNext(s, off, hs);
      SubstHoles(s, n2, hs[1..], env);
      SubstHolesStep(s, off, hs, n2, env);
    }
  }

  /** The index at which the placeholders after the first one begin. */
  function HolesNext(s: string, off: nat, hs: seq<Hole>): (n2: nat)
    requires hs != [] && off <= |s| && s[off..] == HolesText(hs)
    requires forall i :: 0 <= i < |hs| ==> ValidKey(hs[i].key) && '_' !in hs[i].after
    ensures n2 == off + |Placeholder(hs[0].key)| + |hs[0].after| <= |s|
    ensures s[n2..] == HolesText(hs[1..])
    ensures forall i :: 0 <= i < |hs[1..]| ==> ValidKey(hs[1..][i].key) && '_' !in hs[1..][i].after
  {
    Parts(s, off, Placeholder(hs[0].key), hs[0].after, HolesText(hs[1..]));
    off + |Placeholder(hs[0].key)| + |hs[0].after|
  }

  lemma SubstHolesStep(s: string, off: nat, hs: seq<Hole>, n2: nat, env: map<string, string>)
    requires hs != [] && off <= |s| && s[off..] == HolesText(hs)
    requires forall i :: 0 <= i < |hs| ==> ValidKey(hs[i].key) && '_' !in hs[i].after
    requires n2 == off + |Placeholder(hs[0].key)| + |hs[0].after| <= |s|
    requires SubstFrom(s, n2, env) == HolesFilled(hs[1..], env)
    requires n2 == |s| || s[n2] == 'v'
    ensures SubstFrom(s, off, env) == HolesFilled(hs, env)
    ensures off == |s| || s[off] == 'v'
  {
    var h := hs[0];
    Parts(s, off, Placeholder(h.key), h.after, HolesText(hs[1..]));
    SubstHole(s, off, h.key, h.after, n2, env);
    AppendAssoc(Resolve(env, h.key), h.after, HolesFilled(hs[1..], env));
  }

  /** One placeholder at `off`, followed by text without `_` up to `n2`, where the end or another placeholder follows. */
  lemma SubstHole(s: string, off: nat, key: string, after: string, n2: nat, env: map<string, string>)
    requires ValidKey(key) && '_' !in after
    requires OccursAt(s, Placeholder(key), off)
    requires n2 == off + |Placeholder(key)| + |after| <= |s|
    requires s[off + |Placeholder(key)|..n2] == after
    requires n2 == |s| || s[n2] == 'v'
    ensures SubstFrom(s, off, env) == Resolve(env, key) + (after + SubstFrom(s, n2, env))
    ensures s[off] == 'v'
  {
    var n1 := off + |Placeholder(key)|;
    PlaceholderMatch(s, off, key);
    SubstHit(s, off, key, n1, env);
    NoUnderscoreNoMatch(s, n1, n2);
    SubstSkip(s, n1, n2, env);
    assert s[off] == s[off..n1][0];
  }

  /** Every placeholder of a well-formed template is replaced by its token's value, or by the marker when the key is unknown. */
  lemma SubstTemplate(tp: Template, env: map<string, string>)
    requires WellFormed(tp)
    ensures SubstVars(TemplateText(tp), env) == Filled(tp, env)
  {
    var s := TemplateText(tp);
    var n := |tp.head|;
    assert s[n..] == HolesText(tp.holes);
    assert s[0..n] == tp.head;
    SubstHoles(s, n, tp.holes, env);
    NoUnderscoreNoMatch(s, 0, n);
    SubstSkip(s, 0, n, env);
  }

  // ---------------------------------------------------------------------------
  // Properties of the second pass

  lemma {:induction false} LastDeclNone(s: string, lo: nat, q: int, mk: string)
    requires lo - 1 <= q < |s|
    requires forall k :: lo <= k <= q ==> DeclTail(s, k, mk) == None
    ensures LastDecl(s, lo, q, mk) == None
    decreases q - lo + 1
  {
    if q >= lo {
      LastDeclNone(s, lo, q - 1, mk);
    }
  }

  lemma {:induction false} LastDeclHit(s: string, lo: nat, q: int, hit: nat, e: nat, mk: string)
    requires lo <= hit <= q < |s|
    requires forall k :: hit < k <= q ==> DeclTail(s, k, mk) == None
    requires DeclTail(s, hit, mk) == Some(e)
    ensures LastDecl(s, lo, q, mk) == Some(e)
    decreases q - hit
  {
    if q > hit {
      LastDeclHit(s, lo, q - 1, hit, e, mk);
    }
  }

  /** Where no declaration match starts, the character is copied. */
  lemma DropStep(s: string, i: nat, mk: string)
    requires i < |s| && DeclMatchAt(s, i, mk) == None
    ensures DropFrom(s, i, mk) == [s[i]] + DropFrom(s, i + 1, mk)
  {
  }

  /** Where a declaration match ending before `e` starts, it is deleted. */
  lemma DropHit(s: string, i: nat, e: nat, mk: string)
    requires i < |s| && DeclMatchAt(s, i, mk) == Some(e)
    ensures DropFrom(s, i, mk) == DropFrom(s, e, mk)
  {
  }

  /** Text in which no declaration match starts is copied unchanged. */
  lemma {:induction false} DropSkip(s: string, i: nat, j: nat, mk: string)
    requires i <= j <= |s|
    requires forall p :: i <= p < j ==> DeclMatchAt(s, p, mk) == None
    ensures DropFrom(s, i, mk) == s[i..j] + DropFrom(s, j, mk)
    decreases j - i
  {
    if i < j {
      DropSkip(s, i + 1, j, mk);
      DropSkipStep(s, i, j, mk);
    }
  }

  lemma DropSkipStep(s: string, i: nat, j: nat, mk: string)
    requires i < j <= |s| && DeclMatchAt(s, i, mk) == None
    requires DropFrom(s, i + 1, mk) == s[i + 1..j] + DropFrom(s, j, mk)
    ensures DropFrom(s, i, mk) == s[i..j] + DropFrom(s, j, mk)
  {
    DropStep(s, i, mk);
    SliceCons(s, i, j);
    AppendAssoc([s[i]], s[i + 1..j], DropFrom(s, j, mk));
  }

  /** No match starts where no colon follows on the same line. */
  lemma NoColonNoDecl(s: string, i: nat, mk: string)
    requires i <= |s|
    requires forall k :: i <= k < LineEnd(s, i) ==> s[k] != ':'
    ensures DeclMatchAt(s, i, mk) == None
  {
    LastDeclNone(s, i, LineEnd(s, i) - 1, mk);
  }

  /** From an index after which there is no colon, the text is copied unchanged. */
  lemma DropColonFree(s: string, i: nat, mk: string)
    requires i <= |s|
    requires forall k :: i <= k < |s| ==> s[k] != ':'
    ensures DropFrom(s, i, mk) == s[i..]
  {
    forall p | i <= p < |s| ensures DeclMatchAt(s, p, mk) == None {
      NoColonNoDecl(s, p, mk);
    }
    DropSkip(s, i, |s|, mk);
  }

  /** Text without a colon is left as it is by the second pass. */
  lemma DropNoColon(s: string)
    requires ':' !in s
    ensures DropUnresolved(s) == s
  {
    DropColonFree(s, 0, Marker);
  }

  /** Text in which the comment text never occurs is copied unchanged. */
  lemma DropNoOccurrence(s: string, mk: string)
    requires forall k :: 0 <= k ==> !OccursAt(s, mk, k)
    ensures DropFrom(s, 0, mk) == s
  {
    forall p | 0 <= p < |s| ensures DeclMatchAt(s, p, mk) == None {
      LastDeclNone(s, p, LineEnd(s, p) - 1, mk);
    }
    DropSkip(s, 0, |s|, mk);
  }

  /** Text without the marker is left as it is by the second pass. */
  lemma DropNoMarker(s: string)
    requires forall k :: 0 <= k ==> !OccursAt(s, Marker, k)
    ensures DropUnresolved(s) == s
  {
    DropNoOccurrence(s, Marker);
  }

  predicate AllSpace(w: string) {
    forall i :: 0 <= i < |w| ==> IsSpace(w[i])
  }

  // Index facts about a text, named so that one lemma's conclusion and the
  // next one's premise are the same fact.

  predicate SpaceBetween(s: string, lo: nat, hi: nat) {
    hi <= |s| && forall k :: lo <= k < hi ==> IsSpace(s[k])
  }

  predicate NoColonIn(s: string, lo: nat, hi: nat) {
    hi <= |s| && forall k :: lo <= k < hi ==> s[k] != ':'
  }

  /** The declaration `:` + white space + `mk` + white space + `;` matches at its colon. */
  lemma DeclTailPos(s: string, q: nat, m: nat, e: nat, mk: string)
    requires q < m && m + |mk| <= e < |s|
    requires s[q] == ':' && s[e] == ';'
    requires SpaceBetween(s, q + 1, m) && OccursAt(s, mk, m) && SpaceBetween(s, m + |mk|, e)
    requires mk != [] && !IsSpace(mk[0])
    ensures DeclTail(s, q, mk) == Some(e + 1)
  {
    assert s[m] == s[m..m + |mk|][0];
    SpaceRunIs(s, q + 1, m);
    SpaceRunIs(s, m + |mk|, e);
  }

  /**
   * A match at a colon on the line starting at `i`, with no colon anywhere
   * after it, deletes from `i` through its `;`; the rest is copied.
   */
  lemma DropLine(s: string, i: nat, q: nat, e: nat, mk: string)
    requires i <= q < |s| && DeclTail(s, q, mk) == Some(e)
    requires NoLineTerminatorIn(s, i, q + 1)
    requires NoColonIn(s, q + 1, |s|)
    ensures DropFrom(s, i, mk) == s[e..]
  {
    var le := LineEnd(s, i);
    LineEndPast(s, i, q);
    LastDeclHit(s, i, le - 1, q, e, mk);
    DropHit(s, i, e, mk);
    DropColonFree(s, e, mk);
  }

  /** The two lemmas above together: the declaration at `q` is deleted with the start of its line. */
  lemma DropLineAt(s: string, i: nat, q: nat, m: nat, e: nat, mk: string)
    requires i <= q < m && m + |mk| <= e < |s|
    requires s[q] == ':' && s[e] == ';'
    requires SpaceBetween(s, q + 1, m) && OccursAt(s, mk, m) && SpaceBetween(s, m + |mk|, e)
    requires mk != [] && !IsSpace(mk[0])
    requires NoLineTerminatorIn(s, i, q + 1)
    requires NoColonIn(s, q + 1, |s|)
    ensures DropFrom(s, i, mk) == s[e + 1..]
  {
    DeclTailPos(s, q, m, e, mk);
    DropLine(s, i, q, e + 1, mk);
  }

  /** The declaration text deleted by the second pass, with its two runs of white space. */
  function Decl(ws1: string, ws2: string, mk: string): string {
    (":" + ws1) + mk + (ws2 + ";")
  }

  lemma DeclShape(ws1: string, ws2: string, mk: string)
    ensures |Decl(ws1, ws2, mk)| == |ws1| + |mk| + |ws2| + 2
    ensures Decl(ws1, ws2, mk)[0] == ':' && Decl(ws1, ws2, mk)[|Decl(ws1, ws2, mk)| - 1] == ';'
    ensures forall i :: 0 <= i < |ws1| ==> Decl(ws1, ws2, mk)[1 + i] == ws1[i]
    ensures OccursAt(Decl(ws1, ws2, mk), mk, 1 + |ws1|)
    ensures forall i :: 0 <= i < |ws2| ==> Decl(ws1, ws2, mk)[1 + |ws1| + |mk| + i] == ws2[i]
  {
    OccursAtConcat(":" + ws1, mk, ws2 + ";");
  }

  /** The declaration text holds no colon but its first character, when `mk` has none. */
  lemma DeclOneColon(ws1: string, ws2: string, mk: string)
    requires AllSpace(ws1) && AllSpace(ws2) && ':' !in mk
    ensures forall j :: 0 < j < |Decl(ws1, ws2, mk)| ==> Decl(ws1, ws2, mk)[j] != ':'
  {
    var d := Decl(ws1, ws2, mk);
    DeclShape(ws1, ws2, mk);
    forall j | 1 + |ws1| <= j < 1 + |ws1| + |mk| ensures d[j] != ':' {
      assert d[j] == d[1 + |ws1|..1 + |ws1| + |mk|][j - 1 - |ws1|];
    }
    forall j | 0 < j < |d| ensures d[j] != ':' {
      if j < 1 + |ws1| {
        assert d[j] == ws1[j - 1];
      } else if 1 + |ws1| + |mk| <= j < |d| - 1 {
        assert d[j] == ws2[j - 1 - |ws1| - |mk|];
      }
    }
  }

  /** A text `x`, then the start `pre` of a line ending in the declaration `:` + `ws` + `mk` + `;`, then `rest`. */
  function DeclLine(x: string, pre: string, ws: string, mk: string, rest: string): string {
    x + pre + Decl(ws, "", mk) + rest
  }

  /** The index facts `DropLineAt` needs about such a line. */
  lemma DeclLineShape(x: string, pre: string, ws: string, mk: string, rest: string)
    requires forall k :: 0 <= k < |pre| ==> !IsLineTerminator(pre[k])
    requires AllSpace(ws) && ':' !in mk && ':' !in rest
    ensures |x| + |pre| + 1 + |ws| + |mk| < |DeclLine(x, pre, ws, mk, rest)|
    ensures DeclLine(x, pre, ws, mk, rest)[|x| + |pre|] == ':'
    ensures DeclLine(x, pre, ws, mk, rest)[|x| + |pre| + 1 + |ws| + |mk|] == ';'
    ensures SpaceBetween(DeclLine(x, pre, ws, mk, rest), |x| + |pre| + 1, |x| + |pre| + 1 + |ws|)
    ensures OccursAt(DeclLine(x, pre, ws, mk, rest), mk, |x| + |pre| + 1 + |ws|)
    ensures SpaceBetween(DeclLine(x, pre, ws, mk, rest), |x| + |pre| + 1 + |ws| + |mk|, |x| + |pre| + 1 + |ws| + |mk|)
    ensures NoLineTerminatorIn(DeclLine(x, pre, ws, mk, rest), |x|, |x| + |pre| + 1)
    ensures NoColonIn(DeclLine(x, pre, ws, mk, rest), |x| + |pre| + 1, |DeclLine(x, pre, ws, mk, rest)|)
    ensures DeclLine(x, pre, ws, mk, rest)[|x| + |pre| + 1 + |ws| + |mk| + 1..] == rest
  {
    DeclLineMarks(x, pre, ws, mk, rest);
    DeclLineStart(x, pre, ws, mk, rest);
    DeclLineNoColon(x, pre, ws, mk, rest);
  }

  lemma DeclLineMarks(x: string, pre: string, ws: string, mk: string, rest: string)
    requires AllSpace(ws)
    ensures |x| + |pre| + 1 + |ws| + |mk| < |DeclLine(x, pre, ws, mk, rest)|
    ensures DeclLine(x, pre, ws, mk, rest)[|x| + |pre|] == ':'
    ensures DeclLine(x, pre, ws, mk, rest)[|x| + |pre| + 1 + |ws| + |mk|] == ';'
    ensures SpaceBetween(DeclLine(x, pre, ws, mk, rest), |x| + |pre| + 1, |x| + |pre| + 1 + |ws|)
    ensures OccursAt(DeclLine(x, pre, ws, mk, rest), mk, |x| + |pre| + 1 + |ws|)
    ensures SpaceBetween(DeclLine(x, pre, ws, mk, rest), |x| + |pre| + 1 + |ws| + |mk|, |x| + |pre| + 1 + |ws| + |mk|)
    ensures DeclLine(x, pre, ws, mk, rest)[|x| + |pre| + 1 + |ws| + |mk| + 1..] == rest
  {
    DeclLineEnds(x, pre, ws, mk, rest);
    DeclLineMarker(x, pre, ws, mk, rest);
  }

  lemma DeclLineEnds(x: string, pre: string, ws: string, mk: string, rest: string)
    ensures |x| + |pre| + 1 + |ws| + |mk| < |DeclLine(x, pre, ws, mk, rest)|
    ensures DeclLine(x, pre, ws, mk, rest)[|x| + |pre|] == ':'
    ensures DeclLine(x, pre, ws, mk, rest)[|x| + |pre| + 1 + |ws| + |mk|] == ';'
    ensures DeclLine(x, pre, ws, mk, rest)[|x| + |pre| + 1 + |ws| + |mk| + 1..] == rest
  {
    var d := Decl(ws, "", mk);
    var s := x + pre + d + rest;
    var e := |x| + |pre| + 1 + |ws| + |mk|;
    DeclShape(ws, "", mk);
    assert s[|x| + |pre|] == d[0];
    assert s[e] == d[|d| - 1];
    assert s[e + 1..] == rest;
  }

  lemma DeclLineMarker(x: string, pre: string, ws: string, mk: string, rest: string)
    requires AllSpace(ws)
    ensures SpaceBetween(DeclLine(x, pre, ws, mk, rest), |x| + |pre| + 1, |x| + |pre| + 1 + |ws|)
    ensures OccursAt(DeclLine(x, pre, ws, mk, rest), mk, |x| + |pre| + 1 + |ws|)
    ensures SpaceBetween(DeclLine(x, pre, ws, mk, rest), |x| + |pre| + 1 + |ws| + |mk|, |x| + |pre| + 1 + |ws| + |mk|)
  {
    var d := Decl(ws, "", mk);
    var s := x + pre + d + rest;
    var q := |x| + |pre|;
    DeclShape(ws, "", mk);
    forall k | q < k < q + 1 + |ws| ensures IsSpace(s[k]) {
      assert s[k] == d[k - q] == ws[k - q - 1];
    }
    OccursAtShift(x + pre, d, rest, mk, 1 + |ws|);
  }

  lemma DeclLineStart(x: string, pre: string, ws: string, mk: string, rest: string)
    requires forall k :: 0 <= k < |pre| ==> !IsLineTerminator(pre[k])
    ensures NoLineTerminatorIn(DeclLine(x, pre, ws, mk, rest), |x|, |x| + |pre| + 1)
  {
    var d := Decl(ws, "", mk);
    var s := x + pre + d + rest;
    var q := |x| + |pre|;
    assert s[q] == d[0] == ':';
    forall k | |x| <= k < q + 1 ensures !IsLineTerminator(s[k]) {
      if k < q { assert s[k] == pre[k - |x|]; }
    }
  }

  lemma DeclLineNoColon(x: string, pre: string, ws: string, mk: string, rest: string)
    requires AllSpace(ws) && ':' !in mk && ':' !in rest
    ensures NoColonIn(DeclLine(x, pre, ws, mk, rest), |x| + |pre| + 1, |DeclLine(x, pre, ws, mk, rest)|)
  {
    var d := Decl(ws, "", mk);
    var s := x + pre + d + rest;
    var q := |x| + |pre|;
    DeclOneColon(ws, "", mk);
    forall k | q < k < |s| ensures s[k] != ':' {
      if k < q + |d| { assert s[k] == d[k - q]; } else { assert s[k] == rest[k - q - |d|]; }
    }
  }

  /** A declaration `:` + white space + `mk` + `;` ending the line start `pre` after `x` is deleted together with `pre`. */
  lemma SpaceDeclDrops(x: string, pre: string, ws: string, rest: string, mk: string)
    requires forall k :: 0 <= k < |pre| ==> !IsLineTerminator(pre[k])
    requires ':' !in rest
    requires AllSpace(ws) && ':' !in mk && mk != [] && !IsSpace(mk[0])
    ensures DropFrom(DeclLine(x, pre, ws, mk, rest), |x|, mk) == rest
  {
    DeclLineShape(x, pre, ws, mk, rest);
    DropLineAt(DeclLine(x, pre, ws, mk, rest), |x|, |x| + |pre|, |x| + |pre| + 1 + |ws|, |x| + |pre| + 1 + |ws| + |mk|, mk);
  }

  lemma MarkerFacts()
    ensures ':' !in Marker && Marker != [] && !IsSpace(Marker[0]) && Marker[0] != 'x'
  {
  }

  // ---------------------------------------------------------------------------
  // Both passes

  /** With every key known and no marker text in the values, the stylesheet is the filled template. */
  lemma ResolvedTemplate(tp: Template, t: KoishiThemeDef)
    requires WellFormed(tp)
    requires forall k :: 0 <= k ==> !OccursAt(Filled(tp, Tokens(t)), Marker, k)
    ensures GenerateThemeCss(TemplateText(tp), t) == Filled(tp, Tokens(t))
  {
    SubstTemplate(tp, Tokens(t));
    DropNoMarker(Filled(tp, Tokens(t)));
  }

  /** A declaration line whose placeholder key is not a string property of the theme is deleted. */
  lemma UnknownKeyDropsLine(pre: string, key: string, rest: string, t: KoishiThemeDef)
    requires '_' !in pre && forall k :: 0 <= k < |pre| ==> !IsLineTerminator(pre[k])
    requires ValidKey(key) && key !in TokenKeys
    requires '_' !in rest && ':' !in rest
    ensures GenerateThemeCss(pre + ": " + Placeholder(key) + ";" + rest, t) == rest
  {
    UnknownKeyFilled(pre, key, rest, Tokens(t));
    MarkerFacts();
    assert AllSpace(" ");
    SpaceDeclDrops("", pre, " ", rest, Marker);
  }

  /** The first pass puts the marker in place of a placeholder with an unknown key. */
  lemma UnknownKeyFilled(pre: string, key: string, rest: string, env: map<string, string>)
    requires '_' !in pre
    requires ValidKey(key) && key !in env
    requires '_' !in rest
    ensures SubstVars(pre + ": " + Placeholder(key) + ";" + rest, env) == DeclLine("", pre, " ", Marker, rest)
  {
    var tp := OneHole(pre, key, rest);
    OneHoleShape(pre, key, rest, env);
    SubstTemplate(tp, env);
  }

  function OneHole(pre: string, key: string, rest: string): Template {
    Template(pre + ": ", [Hole(key, ";" + rest)])
  }

  lemma OneHoleShape(pre: string, key: string, rest: string, env: map<string, string>)
    requires '_' !in pre
    requires ValidKey(key) && key !in env
    requires '_' !in rest
    ensures WellFormed(OneHole(pre, key, rest))
    ensures TemplateText(OneHole(pre, key, rest)) == pre + ": " + Placeholder(key) + ";" + rest
    ensures Filled(OneHole(pre, key, rest), env) == DeclLine("", pre, " ", Marker, rest)
  {
    var tp := OneHole(pre, key, rest);
    assert '_' !in ";" + rest;
    assert tp.holes[1..] == [];
    assert HolesText(tp.holes) == Placeholder(key) + (";" + rest);
    assert Resolve(env, key) == Marker;
    assert HolesFilled(tp.holes, env) == Marker + (";" + rest);
    assert Decl(" ", "", Marker) == ": " + Marker + ";";
  }

  /** A line holding a letter and a colon only, followed by a line starting with `x`: no match starts on it. */
  lemma BareLabelNoMatch(s: string, line: string, mk: string)
    requires s == "a:\n" + line && line != [] && line[0] == 'x'
    requires mk != [] && mk[0] != 'x'
    ensures forall p :: 0 <= p < 3 ==> DeclMatchAt(s, p, mk) == None
  {
    assert IsLineTerminator(s[2]);
    LineEndIs(s, 0, 2);
    LineEndIs(s, 1, 2);
    LineEndIs(s, 2, 2);
    BareColon(s, line, mk);
    LastDeclNone(s, 0, 1, mk);
    LastDeclNone(s, 1, 1, mk);
    LastDeclNone(s, 2, 1, mk);
  }

  lemma BareColon(s: string, line: string, mk: string)
    requires s == "a:\n" + line && line != [] && line[0] == 'x'
    requires mk != [] && mk[0] != 'x'
    ensures DeclTail(s, 0, mk) == None && DeclTail(s, 1, mk) == None
  {
    assert s[0] == 'a' && s[2] == '\n' && s[3] == 'x';
    SpaceRunIs(s, 2, 3);
    assert !OccursAt(s, mk, 3) by {
      if 3 + |mk| <= |s| { assert s[3..3 + |mk|][0] == s[3]; }
    }
  }

  /**
   * The second pass is a single scan, so a deletion can leave a colon that
   * ends one line next to marker text that began the next: the output still
   * holds a colon, the marker and a semicolon that the second pass matches.
   */
  lemma UnresolvedCanSurvive(s: string, out: string)
    requires s == "a:\nx: " + Marker + ";" + Marker + ";"
    requires out == "a:\n" + Marker + ";"
    ensures DropUnresolved(s) == out
    ensures DeclMatchAt(out, 0, Marker).Some?
  {
    MarkerFacts();
    assert s == DeclLine("a:\n", "x", " ", Marker, Marker + ";");
    SurvivorDrop(s, Marker + ";", Marker);
    assert out == "a:\n" + (Marker + ";");
    SurvivorMatches(out, Marker);
  }

  lemma SurvivorDrop(s: string, tail: string, mk: string)
    requires tail == mk + ";"
    requires ':' !in mk && mk != [] && !IsSpace(mk[0]) && mk[0] != 'x'
    requires s == DeclLine("a:\n", "x", " ", mk, tail)
    ensures DropFrom(s, 0, mk) == "a:\n" + tail
  {
    var head := "a:\n";
    BareLabelNoMatch(s, "x" + Decl(" ", "", mk) + tail, mk);
    DropSkip(s, 0, 3, mk);
    assert s[0..3] == head;
    assert ':' !in tail;
    assert AllSpace(" ");
    SpaceDeclDrops(head, "x", " ", tail, mk);
  }

  /** The text the second pass leaves behind in the example above still holds a match. */
  lemma SurvivorMatches(out: string, mk: string)
    requires mk != [] && !IsSpace(mk[0])
    requires out == "a:\n" + mk + ";"
    ensures DeclMatchAt(out, 0, mk).Some?
  {
    var e := 3 + |mk|;
    assert out[1] == ':' && out[2] == '\n' && out[e] == ';';
    assert SpaceBetween(out, 2, 3);
    assert OccursAt(out, mk, 3) by { assert out[3..e] == mk; }
    DeclTailPos(out, 1, 3, e, mk);
    LineEndIs(out, 0, 2);
  }
}
