/**
 * `generateThemeCss` on a stylesheet template written one line at a time:
 * lines that declare a property with a placeholder value, and other lines.
 * Both passes then act line by line: a declaration whose key the theme
 * knows gets the value, one whose key it does not know becomes an empty
 * line, and every other line is kept.
 */
module ThemeCssLines {
  import opened Wrappers
  import opened Text
  import opened ThemeTransform
  import opened ThemeCss

  /** A line of a stylesheet template: `prop: var(__key);`, or any other line. */
  datatype Line = Declaration(prop: string, key: string) | Other(text: string)

  function LineText(l: Line): string {
    match l
    case Declaration(prop, key) => prop + ": " + Placeholder(key) + ";"
    case Other(text) => text
  }

  /** The template: every line followed by a newline. */
  function LinesText(ls: seq<Line>): string {
    if ls == [] then "" else LineText(ls[0]) + "\n" + LinesText(ls[1..])
  }

  /** Text that stays on its line and holds no marker text. */
  predicate PlainValue(v: string) {
    NoLineTerminatorIn(v, 0, |v|) && forall k :: 0 <= k < |v| ==> !OccursAt(v, Marker, k)
  }

  /** Text that is empty or ends in a character that is neither white space nor a colon. */
  predicate EndsClosed(text: string) {
    text == [] || (text[|text| - 1] != ':' && !IsSpace(text[|text| - 1]))
  }

  /**
   * A line both passes read on its own. Its literal text holds no `_` and no
   * line break. A declaration's property name holds no colon; any other line
   * holds no marker text and does not end in a colon or white space, so that
   * no `:\s*` in it reaches the next line.
   */
  predicate GoodLine(l: Line) {
    match l
    case Declaration(prop, key) =>
      '_' !in prop && ':' !in prop && NoLineTerminatorIn(prop, 0, |prop|) && ValidKey(key)
    case Other(text) =>
      '_' !in text && PlainValue(text) && EndsClosed(text)
  }

  /** Every value a declaration of `ls` receives is plain. */
  predicate KnownValuesPlain(ls: seq<Line>, env: map<string, string>) {
    forall n :: 0 <= n < |ls| && ls[n].Declaration? && ls[n].key in env ==> PlainValue(env[ls[n].key])
  }

  /** The line after the first pass. */
  function FilledLine(l: Line, env: map<string, string>): string {
    match l
    case Declaration(prop, key) => prop + ": " + Resolve(env, key) + ";"
    case Other(text) => text
  }

  function FilledLines(ls: seq<Line>, env: map<string, string>): string {
    if ls == [] then "" else FilledLine(ls[0], env) + "\n" + FilledLines(ls[1..], env)
  }

  /** The line in the stylesheet: filled in, emptied when its key is unknown, or kept. */
  function OutLine(l: Line, env: map<string, string>): string {
    match l
    case Declaration(prop, key) => if key in env then prop + ": " + env[key] + ";" else ""
    case Other(text) => text
  }

  function CssLines(ls: seq<Line>, env: map<string, string>): string {
    if ls == [] then "" else OutLine(ls[0], env) + "\n" + CssLines(ls[1..], env)
  }

  // ---------------------------------------------------------------------------
  // The first pass, through the template form of the lines

  function LinesTemplate(ls: seq<Line>): Template {
    if ls == [] then Template("", [])
    else
      var rest := LinesTemplate(ls[1..]);
      match ls[0]
      case Declaration(prop, key) => Template(prop + ": ", [Hole(key, ";" + "\n" + rest.head)] + rest.holes)
      case Other(text) => Template(text + "\n" + rest.head, rest.holes)
  }

  lemma HolesTextCons(h: Hole, hs: seq<Hole>, env: map<string, string>)
    ensures HolesText([h] + hs) == Placeholder(h.key) + h.after + HolesText(hs)
    ensures HolesFilled([h] + hs, env) == Resolve(env, h.key) + h.after + HolesFilled(hs, env)
  {
    assert ([h] + hs)[1..] == hs;
  }

  /** The lines are a well-formed template, whose text and filled text are the lines'. */
  lemma {:induction false} LinesTemplateFacts(ls: seq<Line>, env: map<string, string>)
    requires GoodLines(ls)
    ensures WellFormed(LinesTemplate(ls))
    ensures TemplateText(LinesTemplate(ls)) == LinesText(ls)
    ensures Filled(LinesTemplate(ls), env) == FilledLines(ls, env)
  {
    if ls != [] {
      assert forall n :: 0 <= n < |ls[1..]| ==> ls[1..][n] == ls[n + 1];
      LinesTemplateFacts(ls[1..], env);
      var rest := LinesTemplate(ls[1..]);
      assert GoodLine(ls[0]);
      match ls[0]
      case Declaration(prop, key) =>
        DeclarationTemplate(prop, key, rest, LinesText(ls[1..]), FilledLines(ls[1..], env), env);
      case Other(text) =>
        OtherTemplate(text, rest, LinesText(ls[1..]), FilledLines(ls[1..], env), env);
    }
  }

  lemma DeclarationTemplate(prop: string, key: string, rest: Template, restText: string, restFilled: string, env: map<string, string>)
    requires '_' !in prop && ValidKey(key) && WellFormed(rest)
    requires TemplateText(rest) == restText && Filled(rest, env) == restFilled
    ensures var tp := Template(prop + ": ", [Hole(key, ";" + "\n" + rest.head)] + rest.holes);
      && WellFormed(tp)
      && TemplateText(tp) == prop + ": " + Placeholder(key) + ";" + "\n" + restText
      && Filled(tp, env) == prop + ": " + Resolve(env, key) + ";" + "\n" + restFilled
  {
    var h := Hole(key, ";" + "\n" + rest.head);
    HolesTextCons(h, rest.holes, env);
    DeclarationWellFormed(prop, h, rest);
    Regroup(prop + ": ", Placeholder(key), ";", "\n", rest.head, HolesText(rest.holes));
    Regroup(prop + ": ", Resolve(env, key), ";", "\n", rest.head, HolesFilled(rest.holes, env));
  }

  lemma DeclarationWellFormed(prop: string, h: Hole, rest: Template)
    requires '_' !in prop && ValidKey(h.key) && h.after == ";" + "\n" + rest.head && WellFormed(rest)
    ensures WellFormed(Template(prop + ": ", [h] + rest.holes))
  {
    var hs := [h] + rest.holes;
    assert forall n :: 1 <= n < |hs| ==> hs[n] == rest.holes[n - 1];
    assert '_' !in h.after;
  }

  lemma Regroup(a: string, p: string, x: string, y: string, hd: string, r: string)
    ensures a + (p + (x + y + hd) + r) == a + p + x + y + (hd + r)
  {
  }

  lemma OtherTemplate(text: string, rest: Template, restText: string, restFilled: string, env: map<string, string>)
    requires '_' !in text && WellFormed(rest)
    requires TemplateText(rest) == restText && Filled(rest, env) == restFilled
    ensures var tp := Template(text + "\n" + rest.head, rest.holes);
      && WellFormed(tp)
      && TemplateText(tp) == text + "\n" + restText
      && Filled(tp, env) == text + "\n" + restFilled
  {
  }

  // ---------------------------------------------------------------------------
  // The second pass, one line at a time

  /** Facts about the marker the second pass relies on: it is not white space at its start and holds no `:`, `;` or line break. */
  predicate MarkerLike(mk: string) {
    mk != [] && !IsSpace(mk[0]) && ':' !in mk && ';' !in mk && NoLineTerminatorIn(mk, 0, |mk|)
  }

  lemma MarkerIsMarkerLike()
    ensures MarkerLike(Marker)
  {
  }

  /** A line break is copied: no match starts on it. */
  lemma BreakCopied(s: string, j: nat, mk: string)
    requires j < |s| && IsLineTerminator(s[j])
    ensures DropFrom(s, j, mk) == [s[j]] + DropFrom(s, j + 1, mk)
  {
    assert LineEnd(s, j) == j;
    assert DeclMatchAt(s, j, mk) == None;
  }

  /** The match at the colon `q` is the one starting at `i` when no colon follows it on the line. */
  lemma DropLineHere(s: string, i: nat, q: nat, e: nat, mk: string)
    requires i <= q < |s| && DeclTail(s, q, mk) == Some(e)
    requires NoLineTerminatorIn(s, i, q + 1)
    requires forall k :: q < k < LineEnd(s, i) ==> s[k] != ':'
    ensures DropFrom(s, i, mk) == DropFrom(s, e, mk)
  {
    var le := LineEnd(s, i);
    LineEndPast(s, i, q);
    LastDeclHit(s, i, le - 1, q, e, mk);
    DropHit(s, i, e, mk);
  }

  /**
   * A line from `i` to the line break at `j`, without marker text and ending
   * in neither white space nor a colon, is copied up to the break.
   */
  lemma PlainLineCopies(s: string, i: nat, j: nat, mk: string)
    requires MarkerLike(mk)
    requires i <= j < |s| && IsLineTerminator(s[j])
    requires NoLineTerminatorIn(s, i, j)
    requires forall m :: i <= m && m + |mk| <= j ==> !OccursAt(s, mk, m)
    requires i < j ==> s[j - 1] != ':' && !IsSpace(s[j - 1])
    ensures DropFrom(s, i, mk) == s[i..j] + DropFrom(s, j, mk)
  {
    forall k | i <= k < j ensures DeclTail(s, k, mk) == None {
      NoTailInLine(s, i, k, j, mk);
    }
    forall p | i <= p < j ensures DeclMatchAt(s, p, mk) == None {
      LineEndIs(s, p, j);
      LastDeclNone(s, p, j - 1, mk);
    }
    DropSkip(s, i, j, mk);
  }

  /** In such a line, no colon starts `:\s*` followed by marker text. */
  lemma NoTailInLine(s: string, i: nat, k: nat, j: nat, mk: string)
    requires MarkerLike(mk)
    requires i <= k < j < |s| && IsLineTerminator(s[j])
    requires forall m :: i <= m && m + |mk| <= j ==> !OccursAt(s, mk, m)
    requires s[j - 1] != ':' && !IsSpace(s[j - 1])
    ensures DeclTail(s, k, mk) == None
  {
    if s[k] == ':' {
      var m := k + 1 + SpaceRun(s, k + 1);
      SpaceRunSpec(s, k + 1);
      assert m <= j - 1;
      if j < m + |mk| <= |s| {
        assert s[m..m + |mk|][j - m] == s[j];
        assert !IsLineTerminator(mk[j - m]);
      }
      assert !OccursAt(s, mk, m);
    }
  }

  /** From a colon at or after `c`, no match reaches marker text before the `;` at `e`. */
  lemma NoTailBefore(s: string, c: nat, k: nat, e: nat, mk: string)
    requires MarkerLike(mk)
    requires c <= k < e < |s| && s[e] == ';'
    requires forall m :: c < m && m + |mk| <= e ==> !OccursAt(s, mk, m)
    ensures DeclTail(s, k, mk) == None
  {
    if s[k] == ':' {
      var m := k + 1 + SpaceRun(s, k + 1);
      SpaceRunSpec(s, k + 1);
      assert !IsSpace(s[e]);
      assert m <= e;
      if e < m + |mk| <= |s| {
        assert s[m..m + |mk|][e - m] == s[e];
      }
      assert !OccursAt(s, mk, m);
    }
  }

  /** A declaration line from `i` whose colon is at `c` and `;` at `e`, with no marker text between, is copied. */
  lemma KnownLineCopies(s: string, i: nat, c: nat, e: nat, mk: string)
    requires MarkerLike(mk)
    requires i <= c < e < |s| && s[c] == ':' && s[e] == ';'
    requires e + 1 == |s| || IsLineTerminator(s[e + 1])
    requires NoLineTerminatorIn(s, i, e + 1) && NoColonIn(s, i, c)
    requires forall m :: c < m && m + |mk| <= e ==> !OccursAt(s, mk, m)
    ensures DropFrom(s, i, mk) == s[i..e + 1] + DropFrom(s, e + 1, mk)
  {
    forall k | i <= k <= e ensures DeclTail(s, k, mk) == None {
      if c <= k < e {
        NoTailBefore(s, c, k, e, mk);
      }
    }
    forall p | i <= p <= e ensures DeclMatchAt(s, p, mk) == None {
      LineEndIs(s, p, e + 1);
      LastDeclNone(s, p, e, mk);
    }
    DropSkip(s, i, e + 1, mk);
  }

  /** A line from `i` ending in `:` + white space + the marker + `;` at `e` is deleted up to its line break. */
  lemma UnknownLineDrops(s: string, i: nat, c: nat, m: nat, e: nat, mk: string)
    requires MarkerLike(mk)
    requires i <= c < m && m + |mk| == e < |s|
    requires s[c] == ':' && s[e] == ';' && SpaceBetween(s, c + 1, m) && OccursAt(s, mk, m)
    requires e + 1 == |s| || IsLineTerminator(s[e + 1])
    requires NoLineTerminatorIn(s, i, e + 1)
    ensures DropFrom(s, i, mk) == DropFrom(s, e + 1, mk)
  {
    DeclTailPos(s, c, m, e, mk);
    LineEndIs(s, i, e + 1);
    forall k | c < k < e + 1 ensures s[k] != ':' {
      if m <= k < e {
        assert s[k] == s[m..m + |mk|][k - m];
      }
    }
    DropLineHere(s, i, c, e + 1, mk);
  }

  // Where the parts of one filled declaration line lie in the text.

  lemma DeclLineAt(s: string, i: nat, j: nat, prop: string, v: string)
    requires i <= j <= |s| && s[i..j] == prop + ": " + v + ";"
    ensures j == i + |prop| + |v| + 3
    ensures forall k :: 0 <= k < |prop| ==> s[i + k] == prop[k]
    ensures s[i + |prop|] == ':' && s[i + |prop| + 1] == ' ' && s[j - 1] == ';'
    ensures s[i + |prop| + 2..j - 1] == v
  {
    var line := prop + ": " + v + ";";
    forall k | 0 <= k < |prop| ensures s[i + k] == prop[k] {
      assert s[i + k] == line[k];
    }
    assert s[i + |prop|] == line[|prop|];
    assert s[i + |prop| + 1] == line[|prop| + 1];
    assert s[j - 1] == line[|line| - 1];
    var t := s[i..j];
    assert forall k :: i + |prop| + 2 <= k < j - 1 ==> s[k] == t[k - i];
    assert t[|prop| + 2..|t| - 1] == s[i + |prop| + 2..j - 1];
    assert line[|prop| + 2..|line| - 1] == v;
  }

  /** The line break and colon facts of a filled declaration line. */
  lemma DeclLineBreaks(s: string, i: nat, j: nat, prop: string, v: string)
    requires i <= j <= |s| && s[i..j] == prop + ": " + v + ";"
    requires ':' !in prop && NoLineTerminatorIn(prop, 0, |prop|) && NoLineTerminatorIn(v, 0, |v|)
    ensures NoLineTerminatorIn(s, i, j) && NoColonIn(s, i, i + |prop|)
  {
    DeclLineAt(s, i, j, prop, v);
    var c := i + |prop|;
    forall k | c + 2 <= k < j - 1 ensures !IsLineTerminator(s[k]) {
      assert s[k] == s[c + 2..j - 1][k - c - 2];
    }
    forall k | i <= k < c ensures s[k] != ':' && !IsLineTerminator(s[k]) {
      assert s[k] == prop[k - i];
    }
  }

  /** A filled declaration whose key is known, ending before the line break at `j`, is copied with the break. */
  lemma KnownStep(s: string, i: nat, j: nat, prop: string, v: string)
    requires i <= j < |s| && s[i..j] == prop + ": " + v + ";" && s[j] == '\n'
    requires ':' !in prop && NoLineTerminatorIn(prop, 0, |prop|) && PlainValue(v)
    ensures DropFrom(s, i, Marker) == s[i..j] + "\n" + DropFrom(s, j + 1, Marker)
  {
    KnownLineFacts(s, i, j, prop, v);
    KnownLineCopies(s, i, i + |prop|, j - 1, Marker);
    ThenBreak(s, i, j, Marker);
  }

  /** A stretch copied up to a line break is copied together with the break. */
  lemma ThenBreak(s: string, i: nat, j: nat, mk: string)
    requires i <= j < |s| && s[j] == '\n'
    requires DropFrom(s, i, mk) == s[i..j] + DropFrom(s, j, mk)
    ensures DropFrom(s, i, mk) == s[i..j] + "\n" + DropFrom(s, j + 1, mk)
  {
    BreakCopied(s, j, mk);
    assert [s[j]] == "\n";
  }

  lemma KnownLineFacts(s: string, i: nat, j: nat, prop: string, v: string)
    requires i <= j < |s| && s[i..j] == prop + ": " + v + ";" && s[j] == '\n'
    requires ':' !in prop && NoLineTerminatorIn(prop, 0, |prop|) && PlainValue(v)
    ensures MarkerLike(Marker)
    ensures i <= i + |prop| < j - 1 && s[i + |prop|] == ':' && s[j - 1] == ';'
    ensures IsLineTerminator(s[j - 1 + 1])
    ensures NoLineTerminatorIn(s, i, j - 1 + 1) && NoColonIn(s, i, i + |prop|)
    ensures forall m :: i + |prop| < m && m + |Marker| <= j - 1 ==> !OccursAt(s, Marker, m)
  {
    DeclLineAt(s, i, j, prop, v);
    DeclLineBreaks(s, i, j, prop, v);
    MarkerIsMarkerLike();
    var c := i + |prop|;
    forall m | c < m && m + |Marker| <= j - 1 ensures !OccursAt(s, Marker, m) {
      ValueHasNoMarker(s, c, m, j - 1, v);
    }
  }

  lemma ValueHasNoMarker(s: string, c: nat, m: nat, e: nat, v: string)
    requires c < m && m + |Marker| <= e <= |s|
    requires s[c + 1] == ' ' && c + 2 <= e && s[c + 2..e] == v
    requires forall k :: 0 <= k < |v| ==> !OccursAt(v, Marker, k)
    ensures !OccursAt(s, Marker, m)
  {
    MarkerIsMarkerLike();
    if m == c + 1 {
      assert s[m..m + |Marker|][0] == s[c + 1];
    } else {
      var a := m - c - 2;
      forall k | m <= k < m + |Marker| ensures s[k] == v[k - m + a] {
        assert s[c + 2..e][k - c - 2] == s[k];
      }
      assert s[m..m + |Marker|] == v[a..a + |Marker|];
      assert !OccursAt(v, Marker, m - c - 2);
    }
  }

  /** A filled declaration whose key is unknown is deleted, and its line break stays. */
  lemma UnknownStep(s: string, i: nat, j: nat, prop: string)
    requires i <= j < |s| && s[i..j] == prop + ": " + Marker + ";" && s[j] == '\n'
    requires ':' !in prop && NoLineTerminatorIn(prop, 0, |prop|)
    ensures DropFrom(s, i, Marker) == "\n" + DropFrom(s, j + 1, Marker)
  {
    MarkerIsMarkerLike();
    DeclLineAt(s, i, j, prop, Marker);
    DeclLineBreaks(s, i, j, prop, Marker);
    var c := i + |prop|;
    assert SpaceBetween(s, c + 1, c + 2);
    assert OccursAt(s, Marker, c + 2);
    UnknownLineDrops(s, i, c, c + 2, j - 1, Marker);
    BreakCopied(s, j, Marker);
  }

  /** Any other line is copied with its line break. */
  lemma OtherStep(s: string, i: nat, j: nat, text: string)
    requires i <= j < |s| && s[i..j] == text && s[j] == '\n'
    requires PlainValue(text) && EndsClosed(text)
    ensures DropFrom(s, i, Marker) == s[i..j] + "\n" + DropFrom(s, j + 1, Marker)
  {
    forall k | i <= k < j ensures !IsLineTerminator(s[k]) {
      assert s[k] == text[k - i];
    }
    forall m | i <= m && m + |Marker| <= j ensures !OccursAt(s, Marker, m) {
      assert |text| == j - i;
      var w, u := s[m..m + |Marker|], text[m - i..m - i + |Marker|];
      forall t | 0 <= t < |Marker| ensures w[t] == u[t] {
        assert s[m + t] == text[m + t - i];
      }
      assert w == u;
      assert !OccursAt(text, Marker, m - i);
    }
    if i < j {
      assert s[j - 1] == text[|text| - 1];
    }
    MarkerIsMarkerLike();
    PlainLineCopies(s, i, j, Marker);
    ThenBreak(s, i, j, Marker);
  }

  /** One filled line and its line break, as the second pass leaves them. */
  lemma LineStep(s: string, i: nat, j: nat, l: Line, env: map<string, string>, mk: string)
    requires mk == Marker
    requires i <= j < |s| && s[i..j] == FilledLine(l, env) && s[j] == '\n'
    requires GoodLine(l)
    requires l.Declaration? && l.key in env ==> PlainValue(env[l.key])
    ensures DropFrom(s, i, mk) == OutLine(l, env) + "\n" + DropFrom(s, j + 1, mk)
  {
    match l
    case Declaration(prop, key) =>
      if key in env {
        KnownStep(s, i, j, prop, env[key]);
      } else {
        UnknownStep(s, i, j, prop);
      }
    case Other(text) =>
      OtherStep(s, i, j, text);
  }

  /** The second pass over filled lines from index `i` on. */
  lemma {:induction false} DropLinesFrom(s: string, i: nat, ls: seq<Line>, env: map<string, string>, mk: string)
    requires mk == Marker
    requires LinesAt(s, i, ls, env) && GoodLines(ls) && KnownValuesPlain(ls, env)
    ensures DropFrom(s, i, mk) == CssLines(ls, env)
    decreases |ls|
  {
    if ls != [] {
      var j := FirstLine(s, i, ls, env);
      TailLines(ls, env);
      DropLinesFrom(s, j + 1, ls[1..], env, mk);
      DropLinesCons(s, i, j, ls, env, mk);
    }
  }

  /** The filled lines `ls` make up the text from `i` on. */
  predicate LinesAt(s: string, i: nat, ls: seq<Line>, env: map<string, string>) {
    i <= |s| && s[i..] == FilledLines(ls, env)
  }

  lemma DropLinesCons(s: string, i: nat, j: nat, ls: seq<Line>, env: map<string, string>, mk: string)
    requires mk == Marker && ls != []
    requires i <= j < |s| && s[i..j] == FilledLine(ls[0], env) && s[j] == '\n'
    requires GoodLine(ls[0]) && (ls[0].Declaration? && ls[0].key in env ==> PlainValue(env[ls[0].key]))
    requires DropFrom(s, j + 1, mk) == CssLines(ls[1..], env)
    ensures DropFrom(s, i, mk) == CssLines(ls, env)
  {
    LineStep(s, i, j, ls[0], env, mk);
  }

  predicate GoodLines(ls: seq<Line>) {
    forall n :: 0 <= n < |ls| ==> GoodLine(ls[n])
  }

  lemma FirstLine(s: string, i: nat, ls: seq<Line>, env: map<string, string>) returns (j: nat)
    requires ls != [] && LinesAt(s, i, ls, env)
    ensures i <= j < |s| && s[i..j] == FilledLine(ls[0], env) && s[j] == '\n'
    ensures LinesAt(s, j + 1, ls[1..], env)
  {
    var line := FilledLine(ls[0], env);
    j := i + |line|;
    Parts(s, i, line, "\n", FilledLines(ls[1..], env));
    assert s[j] == s[j..j + 1][0];
  }

  lemma TailLines(ls: seq<Line>, env: map<string, string>)
    requires ls != [] && GoodLines(ls) && KnownValuesPlain(ls, env)
    ensures GoodLine(ls[0]) && GoodLines(ls[1..]) && KnownValuesPlain(ls[1..], env)
    ensures ls[0].Declaration? && ls[0].key in env ==> PlainValue(env[ls[0].key])
  {
    assert forall n :: 0 <= n < |ls[1..]| ==> ls[1..][n] == ls[n + 1];
  }

  /**
   * The stylesheet of a template written line by line: each declaration
   * whose key is a string property of the theme gets its value, each one
   * whose key is not becomes an empty line, and every other line is kept.
   */
  lemma StylesheetLines(ls: seq<Line>, t: KoishiThemeDef)
    requires GoodLines(ls)
    requires KnownValuesPlain(ls, Tokens(t))
    ensures GenerateThemeCss(LinesText(ls), t) == CssLines(ls, Tokens(t))
  {
    var env := Tokens(t);
    LinesTemplateFacts(ls, env);
    SubstTemplate(LinesTemplate(ls), env);
    var s := FilledLines(ls, env);
    assert s[0..] == s;
    assert LinesAt(s, 0, ls, env);
    DropLinesFrom(s, 0, ls, env, Marker);
  }
}
