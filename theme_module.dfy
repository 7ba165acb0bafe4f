/**
 * The two generated files that cover every theme at once: the index
 * stylesheet (`generateIndexCss`) and the theme module (`generateThemeTs`),
 * which holds the asset map, as JSON text, and one `ctx.theme` registration
 * per theme, spliced into the module template.
 */
module ThemeModule {
  import opened Wrappers
  import opened Text
  import opened ThemeTransform

  // ---------------------------------------------------------------------------
  // Index stylesheet

  /** The `@use` line of one theme's stylesheet. */
  function UseLine(id: string): string {
    "@use './themes/" + id + ".scss';"
  }

  function UseLines(themes: seq<KoishiThemeDef>): (r: seq<string>)
    ensures |r| == |themes|
    ensures forall i :: 0 <= i < |themes| ==> r[i] == UseLine(themes[i].id)
  {
    if themes == [] then [] else [UseLine(themes[0].id)] + UseLines(themes[1..])
  }

  /** `generateIndexCss`: the `@use` lines joined by newlines, and a final newline. */
  function GenerateIndexCss(themes: seq<KoishiThemeDef>): string {
    Join(UseLines(themes), "\n") + "\n"
  }

  /** Every line followed by a newline: the reference form of the index stylesheet. */
  function Terminated(lines: seq<string>): string
    decreases |lines|
  {
    if lines == [] then "" else lines[0] + "\n" + Terminated(lines[1..])
  }

  /** `s.split(sep)` for a one-character separator. */
  function Split(s: string, sep: char): (r: seq<string>)
    ensures |r| >= 1
    decreases |s|
  {
    if s == [] then [""]
    else
      var rest := Split(s[1..], sep);
      if s[0] == sep then [""] + rest else [[s[0]] + rest[0]] + rest[1..]
  }

  lemma {:induction false} JoinTerminated(lines: seq<string>)
    requires lines != []
    ensures Join(lines, "\n") + "\n" == Terminated(lines)
    decreases |lines|
  {
    if |lines| > 1 {
      JoinTerminated(lines[1..]);
      AppendAssoc(lines[0] + "\n", Join(lines[1..], "\n"), "\n");
    }
  }

  /** A separator-free piece followed by the separator is split off as one element. */
  lemma {:induction false} SplitPiece(x: string, sep: char, y: string)
    requires sep !in x
    ensures Split(x + [sep] + y, sep) == [x] + Split(y, sep)
    decreases |x|
  {
    var s := x + [sep] + y;
    if x == [] {
      assert s[1..] == y;
    } else {
      assert s[1..] == x[1..] + [sep] + y;
      SplitPiece(x[1..], sep, y);
      assert [x[0]] + x[1..] == x;
    }
  }

  lemma {:induction false} SplitTerminated(lines: seq<string>)
    requires forall i :: 0 <= i < |lines| ==> '\n' !in lines[i]
    ensures Split(Terminated(lines), '\n') == lines + [""]
    decreases |lines|
  {
    if lines != [] {
      SplitTerminated(lines[1..]);
      SplitPiece(lines[0], '\n', Terminated(lines[1..]));
    }
  }

  lemma UseLineOneLine(id: string)
    requires '\n' !in id
    ensures '\n' !in UseLine(id)
  {
  }

  /** The index stylesheet is every `@use` line followed by a newline; with no themes it is a lone newline. */
  lemma IndexCssText(themes: seq<KoishiThemeDef>)
    ensures themes == [] ==> GenerateIndexCss(themes) == "\n"
    ensures themes != [] ==> GenerateIndexCss(themes) == Terminated(UseLines(themes))
  {
    if themes != [] {
      JoinTerminated(UseLines(themes));
    }
  }

  /**
   * Splitting the index stylesheet at its newlines gives the `@use` line of
   * every theme, in input order, and then the empty text after the final
   * newline; with no themes the lone newline splits into two empty texts.
   */
  lemma IndexCssLines(themes: seq<KoishiThemeDef>)
    requires forall i :: 0 <= i < |themes| ==> '\n' !in themes[i].id
    ensures themes != [] ==> Split(GenerateIndexCss(themes), '\n') == UseLines(themes) + [""]
    ensures themes == [] ==> Split(GenerateIndexCss(themes), '\n') == ["", ""]
  {
    if themes == [] {
      EmptyIndexCssLines();
    } else {
      var lines := UseLines(themes);
      forall i | 0 <= i < |lines| ensures '\n' !in lines[i] {
        UseLineOneLine(themes[i].id);
      }
      IndexCssText(themes);
      SplitTerminated(lines);
    }
  }

  lemma EmptyIndexCssLines()
    ensures Split(GenerateIndexCss([]), '\n') == ["", ""]
  {
    assert GenerateIndexCss([]) == [] + ['\n'] + [];
    SplitPiece([], '\n', []);
    assert Split([], '\n') == [""];
  }

  lemma TransformedIdOneLine(d: ThemeDef)
    ensures '\n' !in TransformThemeDef(d).id
  {
    ThemeIdIsSlug(d.name, d.dark);
  }

  lemma TransformedIdsOneLine(defs: seq<ThemeDef>, themes: seq<KoishiThemeDef>)
    requires |themes| == |defs|
    requires forall i :: 0 <= i < |defs| ==> themes[i] == TransformThemeDef(defs[i])
    ensures forall i :: 0 <= i < |themes| ==> '\n' !in themes[i].id
  {
    forall i | 0 <= i < |themes| ensures '\n' !in themes[i].id {
      TransformedIdOneLine(defs[i]);
    }
  }

  /** Identifiers made by `transformThemeDef` are single-line, so the stylesheet has one line per theme. */
  lemma IndexCssOfTransformed(defs: seq<ThemeDef>, themes: seq<KoishiThemeDef>)
    requires |themes| == |defs|
    requires forall i :: 0 <= i < |defs| ==> themes[i] == TransformThemeDef(defs[i])
    ensures themes != [] ==> Split(GenerateIndexCss(themes), '\n') == UseLines(themes) + [""]
  {
    TransformedIdsOneLine(defs, themes);
    IndexCssLines(themes);
  }

  // ---------------------------------------------------------------------------
  // The definition path: `/definitions\/(?<path>.*)\/(.*)\.definition\.json/.exec(url)`

  const DefinitionsDir: string := "definitions/"
  const DefinitionSuffix: string := ".definition.json"

  /** `(.*)` and then `suf` from index `c`: `suf` occurs later on the same line. */
  ghost predicate TailFrom(s: string, c: nat, suf: string) {
    exists d :: c <= d && NoLineTerminatorIn(s, c, d) && OccursAt(s, suf, d)
  }

  /** The scan for `(.*)suf`, giving the `.*` back one character at a time. */
  function HasTail(s: string, c: nat, suf: string): bool
    requires c <= |s|
    decreases |s| - c
  {
    if OccursAt(s, suf, c) then true
    else if c == |s| || IsLineTerminator(s[c]) then false
    else HasTail(s, c + 1, suf)
  }

  lemma {:induction false} HasTailSpec(s: string, c: nat, suf: string)
    requires c <= |s|
    ensures HasTail(s, c, suf) <==> TailFrom(s, c, suf)
    decreases |s| - c
  {
    if OccursAt(s, suf, c) {
      assert NoLineTerminatorIn(s, c, c);
    } else if c == |s| || IsLineTerminator(s[c]) {
    } else {
      HasTailSpec(s, c + 1, suf);
      if TailFrom(s, c + 1, suf) {
        var d :| c + 1 <= d && NoLineTerminatorIn(s, c + 1, d) && OccursAt(s, suf, d);
        assert NoLineTerminatorIn(s, c, d);
      }
      if TailFrom(s, c, suf) {
        var d :| c <= d && NoLineTerminatorIn(s, c, d) && OccursAt(s, suf, d);
        assert d != c;
        assert NoLineTerminatorIn(s, c + 1, d);
      }
    }
  }

  /** A `/` at `b` that is followed by the tail: a place where the greedy `(?<path>.*)` may stop. */
  predicate Slash(s: string, b: nat, suf: string) {
    b < |s| && s[b] == '/' && HasTail(s, b + 1, suf)
  }

  /** The greedy `(?<path>.*)\/`: the last slash before `hi`, at or after `lo`, that the tail follows. */
  function LastSlash(s: string, lo: nat, hi: nat, suf: string): (r: Option<nat>)
    requires lo <= hi <= |s|
    ensures r.Some? ==> lo <= r.value < hi && Slash(s, r.value, suf)
    ensures r.Some? ==> forall j :: r.value < j < hi ==> !Slash(s, j, suf)
    ensures r.None? ==> forall j :: lo <= j < hi ==> !Slash(s, j, suf)
    decreases hi - lo
  {
    if hi == lo then None
    else if Slash(s, hi - 1, suf) then Some(hi - 1)
    else LastSlash(s, lo, hi - 1, suf)
  }

  /** A match of the whole expression at `p` whose path group ends at `b`. */
  ghost predicate PathMatch(s: string, p: nat, b: nat, dir: string, suf: string) {
    && OccursAt(s, dir, p)
    && p + |dir| <= b < |s|
    && NoLineTerminatorIn(s, p + |dir|, b)
    && s[b] == '/'
    && TailFrom(s, b + 1, suf)
  }

  /** Where the path group of a match at `p` ends: the last slash of the line that the tail follows. */
  function PathEnd(s: string, a: nat, suf: string): Option<nat>
    requires a <= |s|
  {
    LastSlash(s, a, LineEnd(s, a), suf)
  }

  /** A slash on the line from `a` stands before the line end, and any index before the line end is on it. */
  lemma LineEndBound(s: string, a: nat, b: nat)
    requires a <= b <= |s|
    ensures NoLineTerminatorIn(s, a, b) <==> b <= LineEnd(s, a)
  {
    LineEndSpec(s, a);
  }

  /** Every match of the path group ends at a slash of the line that the tail follows. */
  lemma MatchIsSlash(s: string, p: nat, b: nat, dir: string, suf: string)
    requires PathMatch(s, p, b, dir, suf)
    ensures b < LineEnd(s, p + |dir|) && Slash(s, b, suf)
  {
    var a := p + |dir|;
    LineEndBound(s, a, b);
    HasTailSpec(s, b + 1, suf);
    if b == LineEnd(s, a) {
      LineEndSpec(s, a);
    }
  }

  /** Every such slash ends a match of the path group. */
  lemma SlashIsMatch(s: string, p: nat, b: nat, dir: string, suf: string)
    requires OccursAt(s, dir, p) && p + |dir| <= b < LineEnd(s, p + |dir|) && Slash(s, b, suf)
    ensures PathMatch(s, p, b, dir, suf)
  {
    LineEndBound(s, p + |dir|, b);
    HasTailSpec(s, b + 1, suf);
  }

  lemma PathEndSpec(s: string, p: nat, dir: string, suf: string)
    requires OccursAt(s, dir, p)
    ensures var r := PathEnd(s, p + |dir|, suf);
            && (r.Some? ==> PathMatch(s, p, r.value, dir, suf))
            && (r.Some? ==> forall b :: r.value < b ==> !PathMatch(s, p, b, dir, suf))
            && (r.None? ==> forall b :: !PathMatch(s, p, b, dir, suf))
  {
    var r := PathEnd(s, p + |dir|, suf);
    if r.Some? {
      SlashIsMatch(s, p, r.value, dir, suf);
    }
    forall b: nat | PathMatch(s, p, b, dir, suf)
      ensures b < LineEnd(s, p + |dir|) && Slash(s, b, suf)
    {
      MatchIsSlash(s, p, b, dir, suf);
    }
  }

  /** `exec`: the leftmost index at or after `p` where the expression matches, with its path end. */
  function ExecFrom(s: string, p: nat, dir: string, suf: string): (r: Option<(nat, nat)>)
    decreases |s| - p
  {
    if p + |dir| > |s| then None
    else if OccursAt(s, dir, p) && PathEnd(s, p + |dir|, suf).Some? then Some((p, PathEnd(s, p + |dir|, suf).value))
    else ExecFrom(s, p + 1, dir, suf)
  }

  /**
   * The match `exec` finds is the leftmost one, and at that position the
   * path group is as long as it can be: this is the backtracking search of
   * the regular expression, written as a property of the positions.
   */
  lemma {:induction false} ExecFromSpec(s: string, p: nat, dir: string, suf: string)
    ensures var r := ExecFrom(s, p, dir, suf);
            && (r.Some? ==> p <= r.value.0 && PathMatch(s, r.value.0, r.value.1, dir, suf))
            && (r.Some? ==> forall b :: r.value.1 < b ==> !PathMatch(s, r.value.0, b, dir, suf))
            && (r.Some? ==> forall q, b :: p <= q < r.value.0 ==> !PathMatch(s, q, b, dir, suf))
            && (r.None? ==> forall q, b :: p <= q ==> !PathMatch(s, q, b, dir, suf))
    decreases |s| - p
  {
    if p + |dir| > |s| {
    } else {
      if OccursAt(s, dir, p) {
        PathEndSpec(s, p, dir, suf);
      }
      if !(OccursAt(s, dir, p) && PathEnd(s, p + |dir|, suf).Some?) {
        ExecFromSpec(s, p + 1, dir, suf);
      }
    }
  }

  /** The captured path of a definition URL, or `None` when the expression does not match. */
  function DefinitionPath(url: string): Option<string> {
    var r := ExecFrom(url, 0, DefinitionsDir, DefinitionSuffix);
    ExecFromSpec(url, 0, DefinitionsDir, DefinitionSuffix);
    if r.None? then None else Some(url[r.value.0 + |DefinitionsDir|..r.value.1])
  }

  /** When the expression matches nowhere, `exec` gives `null` and reading its groups throws. */
  lemma DefinitionPathNone(url: string)
    requires forall k :: 0 <= k ==> !OccursAt(url, DefinitionsDir, k)
    ensures DefinitionPath(url) == None
  {
    ExecFromSpec(url, 0, DefinitionsDir, DefinitionSuffix);
  }

  /** A URL laid out as `<pre><dd><dir>/<file><ds>`: with `dd = definitions/` and `ds = .definition.json`, a definition URL. */
  function UrlOf(pre: string, dd: string, dir: string, file: string, ds: string): string {
    pre + dd + (dir + "/" + file + ds)
  }

  predicate SingleLine(x: string) {
    forall k :: 0 <= k < |x| ==> !IsLineTerminator(x[k])
  }

  lemma SuffixHasNoSlash()
    ensures '/' !in DefinitionSuffix
  {
    assert forall k :: 0 <= k < |DefinitionSuffix| ==> DefinitionSuffix[k] != '/';
  }

  /** The characters of such a URL, by position. */
  lemma UrlChars(pre: string, dd: string, dir: string, file: string, ds: string)
    ensures var url := UrlOf(pre, dd, dir, file, ds);
            var b := |pre| + |dd| + |dir|;
            && |url| == b + 1 + |file| + |ds|
            && OccursAt(url, dd, |pre|)
            && (forall k :: 0 <= k < |dir| ==> url[|pre| + |dd| + k] == dir[k])
            && url[b] == '/'
            && (forall k :: 0 <= k < |file| ==> url[b + 1 + k] == file[k])
            && (forall k :: 0 <= k < |ds| ==> url[b + 1 + |file| + k] == ds[k])
  {
    OccursAtConcat(pre, dd, dir + "/" + file + ds);
  }

  lemma UrlDirLine(pre: string, dd: string, dir: string, file: string, ds: string)
    requires SingleLine(dir)
    ensures NoLineTerminatorIn(UrlOf(pre, dd, dir, file, ds), |pre| + |dd|, |pre| + |dd| + |dir|)
  {
    var url := UrlOf(pre, dd, dir, file, ds);
    var a := |pre| + |dd|;
    UrlChars(pre, dd, dir, file, ds);
    forall k | a <= k < a + |dir| ensures !IsLineTerminator(url[k]) {
      assert url[k] == dir[k - a];
    }
  }

  lemma UrlFileLine(pre: string, dd: string, dir: string, file: string, ds: string)
    requires SingleLine(file)
    ensures var b := |pre| + |dd| + |dir|;
            NoLineTerminatorIn(UrlOf(pre, dd, dir, file, ds), b + 1, b + 1 + |file|)
  {
    var url := UrlOf(pre, dd, dir, file, ds);
    var b := |pre| + |dd| + |dir|;
    UrlChars(pre, dd, dir, file, ds);
    forall k | b + 1 <= k < b + 1 + |file| ensures !IsLineTerminator(url[k]) {
      assert url[k] == file[k - b - 1];
    }
  }

  lemma UrlRegroup(p: string, d: string, x: string, y: string, z: string)
    ensures p + d + (x + "/" + y + z) == (p + d + (x + "/" + y)) + z + ""
  {
  }

  lemma UrlSuffix(pre: string, dd: string, dir: string, file: string, ds: string)
    ensures var url := UrlOf(pre, dd, dir, file, ds);
            OccursAt(url, ds, |url| - |ds|)
  {
    UrlRegroup(pre, dd, dir, file, ds);
    OccursAtConcat(pre + dd + (dir + "/" + file), ds, "");
  }

  lemma UrlMatch(pre: string, dd: string, dir: string, file: string, ds: string)
    requires SingleLine(dir) && SingleLine(file)
    ensures PathMatch(UrlOf(pre, dd, dir, file, ds), |pre|, |pre| + |dd| + |dir|, dd, ds)
  {
    var url := UrlOf(pre, dd, dir, file, ds);
    var b := |pre| + |dd| + |dir|;
    var d := b + 1 + |file|;
    UrlChars(pre, dd, dir, file, ds);
    UrlDirLine(pre, dd, dir, file, ds);
    UrlFileLine(pre, dd, dir, file, ds);
    UrlSuffix(pre, dd, dir, file, ds);
    assert NoLineTerminatorIn(url, b + 1, d) && OccursAt(url, ds, d);
  }

  lemma UrlNoSlashAfter(pre: string, dd: string, dir: string, file: string, ds: string)
    requires '/' !in file && '/' !in ds
    ensures var url := UrlOf(pre, dd, dir, file, ds);
            var b := |pre| + |dd| + |dir|;
            forall b' :: b < b' < |url| ==> url[b'] != '/'
  {
    var url := UrlOf(pre, dd, dir, file, ds);
    var b := |pre| + |dd| + |dir|;
    UrlChars(pre, dd, dir, file, ds);
    forall b' | b < b' < |url| ensures url[b'] != '/' {
      if b' < b + 1 + |file| {
        assert url[b'] == file[b' - b - 1];
      } else {
        assert url[b'] == ds[b' - b - 1 - |file|];
      }
    }
  }

  lemma UrlLastSlash(pre: string, dd: string, dir: string, file: string, ds: string)
    requires '/' !in file && '/' !in ds
    ensures var b := |pre| + |dd| + |dir|;
            forall b' :: b < b' ==> !PathMatch(UrlOf(pre, dd, dir, file, ds), |pre|, b', dd, ds)
  {
    var url := UrlOf(pre, dd, dir, file, ds);
    var b := |pre| + |dd| + |dir|;
    UrlNoSlashAfter(pre, dd, dir, file, ds);
    forall b': nat | b < b' ensures !PathMatch(url, |pre|, b', dd, ds) {
      if b' < |url| {
        assert url[b'] != '/';
      }
    }
  }

  /** The match is found at the first `dd` and its path group stops at the slash before the file name. */
  lemma UrlExec(pre: string, dd: string, dir: string, file: string, ds: string)
    requires forall k :: 0 <= k < |pre| ==> !OccursAt(UrlOf(pre, dd, dir, file, ds), dd, k)
    requires SingleLine(dir) && SingleLine(file) && '/' !in file && '/' !in ds
    ensures ExecFrom(UrlOf(pre, dd, dir, file, ds), 0, dd, ds) == Some((|pre|, |pre| + |dd| + |dir|))
  {
    var url := UrlOf(pre, dd, dir, file, ds);
    UrlMatch(pre, dd, dir, file, ds);
    UrlLastSlash(pre, dd, dir, file, ds);
    ExecFromSpec(url, 0, dd, ds);
  }

  lemma UrlDir(pre: string, dd: string, dir: string, file: string, ds: string)
    ensures var url := UrlOf(pre, dd, dir, file, ds);
            url[|pre| + |dd|..|pre| + |dd| + |dir|] == dir
  {
    var url := UrlOf(pre, dd, dir, file, ds);
    UrlChars(pre, dd, dir, file, ds);
  }

  /** A definition URL of the collection's layout. */
  function DefinitionUrl(pre: string, dir: string, file: string): string {
    UrlOf(pre, DefinitionsDir, dir, file, DefinitionSuffix)
  }

  /**
   * For a URL of the collection's layout whose prefix does not already
   * contain `definitions/`, the captured path is the directory between
   * `definitions/` and the file name: the greedy group stops at the last slash.
   */
  lemma DefinitionPathOfUrl(pre: string, dir: string, file: string)
    requires forall k :: 0 <= k < |pre| ==> !OccursAt(DefinitionUrl(pre, dir, file), DefinitionsDir, k)
    requires SingleLine(dir) && SingleLine(file) && '/' !in file
    ensures DefinitionPath(DefinitionUrl(pre, dir, file)) == Some(dir)
  {
    SuffixHasNoSlash();
    var url := UrlOf(pre, DefinitionsDir, dir, file, DefinitionSuffix);
    assert url == DefinitionUrl(pre, dir, file);
    forall k | 0 <= k < |pre| ensures !OccursAt(url, DefinitionsDir, k) {
    }
    UrlExec(pre, DefinitionsDir, dir, file, DefinitionSuffix);
    UrlDir(pre, DefinitionsDir, dir, file, DefinitionSuffix);
  }

  // ---------------------------------------------------------------------------
  // Objects: `Object.fromEntries` and property definition

  /** A JavaScript object as the sequence of its properties, in property order. */
  type Object<V> = seq<(string, V)>

  function KeysOf<V>(obj: Object<V>): (ks: seq<string>)
    ensures |ks| == |obj|
    ensures forall i :: 0 <= i < |obj| ==> ks[i] == obj[i].0
  {
    if obj == [] then [] else [obj[0].0] + KeysOf(obj[1..])
  }

  predicate DistinctKeys<V>(obj: Object<V>) {
    forall i, j :: 0 <= i < j < |obj| ==> obj[i].0 != obj[j].0
  }

  /** The index of the property named `k`, if there is one. */
  function KeyIndex<V>(obj: Object<V>, k: string): (r: Option<nat>)
    ensures r.Some? ==> r.value < |obj| && obj[r.value].0 == k
    ensures r.Some? ==> forall j :: 0 <= j < r.value ==> obj[j].0 != k
    ensures r.None? ==> forall j :: 0 <= j < |obj| ==> obj[j].0 != k
  {
    if obj == [] then None
    else if obj[0].0 == k then Some(0)
    else match KeyIndex(obj[1..], k)
      case None => None
      case Some(j) => Some(j + 1)
  }

  /** The value of the property named `k` (`obj[k]`), or `None` for `undefined`. */
  function Lookup<V>(obj: Object<V>, k: string): Option<V> {
    match KeyIndex(obj, k)
    case None => None
    case Some(i) => Some(obj[i].1)
  }

  /** Defining a property: a new name goes last; an existing one keeps its place and takes the new value. */
  function Put<V>(obj: Object<V>, k: string, v: V): Object<V> {
    match KeyIndex(obj, k)
    case None => obj + [(k, v)]
    case Some(i) => obj[i := (k, v)]
  }

  /** Defining the entries one after the other, as `Object.fromEntries` and a spread `...` do. */
  function PutAll<V>(obj: Object<V>, es: seq<(string, V)>): Object<V>
    decreases |es|
  {
    if es == [] then obj else PutAll(Put(obj, es[0].0, es[0].1), es[1..])
  }

  function FromEntries<V>(es: seq<(string, V)>): Object<V> {
    PutAll([], es)
  }

  /** The names of `ks` in the order of their first occurrence, after those already in `acc`. */
  function FirstKeys(acc: seq<string>, ks: seq<string>): seq<string>
    decreases |ks|
  {
    if ks == [] then acc else FirstKeys(if ks[0] in acc then acc else acc + [ks[0]], ks[1..])
  }

  /** The value of the last entry named `k`. */
  function LastValue<V>(es: seq<(string, V)>, k: string): Option<V>
    decreases |es|
  {
    if es == [] then None
    else match LastValue(es[1..], k)
      case Some(v) => Some(v)
      case None => if es[0].0 == k then Some(es[0].1) else None
  }

  lemma PutKeys<V>(obj: Object<V>, k: string, v: V)
    ensures KeysOf(Put(obj, k, v)) == if k in KeysOf(obj) then KeysOf(obj) else KeysOf(obj) + [k]
  {
    var r := KeyIndex(obj, k);
    if r.Some? {
      assert k in KeysOf(obj) by { assert KeysOf(obj)[r.value] == k; }
      assert KeysOf(Put(obj, k, v)) == KeysOf(obj);
    } else {
      assert k !in KeysOf(obj);
      assert KeysOf(Put(obj, k, v)) == KeysOf(obj) + [k];
    }
  }

  lemma PutDistinct<V>(obj: Object<V>, k: string, v: V)
    requires DistinctKeys(obj)
    ensures DistinctKeys(Put(obj, k, v))
  {
  }

  lemma KeyIndexIs<V>(obj: Object<V>, k: string, i: nat)
    requires i < |obj| && obj[i].0 == k && forall j :: 0 <= j < i ==> obj[j].0 != k
    ensures KeyIndex(obj, k) == Some(i)
  {
  }

  lemma PutLookup<V>(obj: Object<V>, k: string, v: V, k': string)
    ensures Lookup(Put(obj, k, v), k') == if k' == k then Some(v) else Lookup(obj, k')
  {
    var o := Put(obj, k, v);
    var r := KeyIndex(obj, k);
    var r' := KeyIndex(obj, k');
    if r.None? {
      assert o == obj + [(k, v)];
      if k' == k {
        KeyIndexIs(o, k, |obj|);
      } else if r'.Some? {
        KeyIndexIs(o, k', r'.value);
      } else {
        assert KeyIndex(o, k') == None;
      }
    } else {
      assert o == obj[r.value := (k, v)];
      if k' == k {
        KeyIndexIs(o, k, r.value);
      } else if r'.Some? {
        KeyIndexIs(o, k', r'.value);
      } else {
        assert KeyIndex(o, k') == None;
      }
    }
  }

  /** Defining entries keeps the names in the order they first appear. */
  lemma {:induction false} PutAllKeys<V>(obj: Object<V>, es: seq<(string, V)>)
    ensures KeysOf(PutAll(obj, es)) == FirstKeys(KeysOf(obj), KeysOf(es))
    decreases |es|
  {
    if es != [] {
      PutKeys(obj, es[0].0, es[0].1);
      PutAllKeys(Put(obj, es[0].0, es[0].1), es[1..]);
      assert KeysOf(es)[1..] == KeysOf(es[1..]);
    }
  }

  /** Defining entries on an object with distinct names keeps them distinct; each name holds its last value. */
  lemma {:induction false} PutAllLookup<V>(obj: Object<V>, es: seq<(string, V)>, k: string)
    requires DistinctKeys(obj)
    ensures DistinctKeys(PutAll(obj, es))
    ensures Lookup(PutAll(obj, es), k) == match LastValue(es, k) case Some(v) => Some(v) case None => Lookup(obj, k)
    decreases |es|
  {
    if es != [] {
      var o := Put(obj, es[0].0, es[0].1);
      PutDistinct(obj, es[0].0, es[0].1);
      PutLookup(obj, es[0].0, es[0].1, k);
      PutAllLookup(o, es[1..], k);
    }
  }

  /** Entries whose names are new and distinct are appended as they are. */
  lemma {:induction false} PutAllFresh<V>(obj: Object<V>, es: seq<(string, V)>)
    requires DistinctKeys(obj + es)
    ensures PutAll(obj, es) == obj + es
    decreases |es|
  {
    if es != [] {
      var o := obj + es;
      assert KeyIndex(obj, es[0].0) == None by {
        forall j | 0 <= j < |obj| ensures obj[j].0 != es[0].0 {
          assert o[j] == obj[j] && o[|obj|] == es[0];
        }
      }
      assert Put(obj, es[0].0, es[0].1) == obj + [es[0]];
      assert (obj + [es[0]]) + es[1..] == obj + es;
      PutAllFresh(obj + [es[0]], es[1..]);
    }
  }

  /**
   * `Object.fromEntries`: the object has one property per distinct name, in
   * the order of first occurrence, holding the value of the last entry with
   * that name; entries with distinct names come out unchanged.
   */
  lemma FromEntriesSpec<V>(es: seq<(string, V)>, k: string)
    ensures KeysOf(FromEntries(es)) == FirstKeys([], KeysOf(es))
    ensures DistinctKeys(FromEntries(es))
    ensures Lookup(FromEntries(es), k) == LastValue(es, k)
    ensures DistinctKeys(es) ==> FromEntries(es) == es
  {
    PutAllKeys([], es);
    PutAllLookup([], es, k);
    match LastValue(es, k) {
      case Some(v) =>
      case None =>
    }
    if DistinctKeys(es) {
      assert [] + es == es;
      PutAllFresh([], es);
    }
  }

  // ---------------------------------------------------------------------------
  // The asset map

  /** The JSON values the asset map is made of. */
  datatype Json = JStr(str: string) | JObj(members: Object<Json>)

  /** `pick(v, ['name', 'anchor'])`: a sticker record reduced to its name and anchor. */
  function PickSticker(v: StickerInfo): Json {
    JObj([("name", JStr(v.name)), ("anchor", JStr(AnchorText(v.anchor)))])
  }

  /** `Object.entries(stickers)` with each record picked: `default`, then `secondary` when there is one. */
  function StickerEntries(st: Stickers): seq<(string, Json)> {
    [("default", PickSticker(st.default))]
    + match st.secondary
      case None => []
      case Some(v) => [("secondary", PickSticker(v))]
  }

  /** `{ path, ...Object.fromEntries(stickerEntries) }`. */
  function AssetInfo(path: string, st: Stickers): Json {
    JObj(PutAll([("path", JStr(path))], FromEntries(StickerEntries(st))))
  }

  /** One `[id, info]` entry; a URL the expression does not match makes the generator throw. */
  function AssetEntry(t: KoishiThemeDef): Result<(string, Json), string> {
    match DefinitionPath(t.original.url)
    case None => Failure(t.original.url)
    case Some(path) => Success((t.id, AssetInfo(path, t.original.stickers)))
  }

  /** The entries of all themes in order, or the URL of the first theme whose entry throws. */
  function AssetEntries(themes: seq<KoishiThemeDef>): Result<seq<(string, Json)>, string>
    decreases |themes|
  {
    if themes == [] then Success([])
    else match AssetEntry(themes[0])
      case Failure(url) => Failure(url)
      case Success(e) =>
        match AssetEntries(themes[1..])
        case Failure(url) => Failure(url)
        case Success(es) => Success([e] + es)
  }

  /** `Object.fromEntries(themes.map(...))`. */
  function AssetNameMap(themes: seq<KoishiThemeDef>): Result<Object<Json>, string> {
    match AssetEntries(themes)
    case Failure(url) => Failure(url)
    case Success(es) => Success(FromEntries(es))
  }

  /**
   * An entry holds the path and, for each sticker key the definition has,
   * only the sticker's name and anchor: without a secondary sticker there is
   * no `secondary` key.
   */
  lemma AssetInfoShape(path: string, st: Stickers)
    ensures st.secondary.None? ==>
              AssetInfo(path, st) == JObj([("path", JStr(path)), ("default", PickSticker(st.default))])
    ensures st.secondary.Some? ==>
              AssetInfo(path, st) == JObj([("path", JStr(path)), ("default", PickSticker(st.default)),
                                           ("secondary", PickSticker(st.secondary.value))])
  {
    var es := StickerEntries(st);
    FromEntriesSpec(es, "");
    assert FromEntries(es) == es;
    PutAllFresh([("path", JStr(path))], es);
  }

  /** The entries are built exactly when every URL matches, one per theme and in order. */
  lemma {:induction false} AssetEntriesSpec(themes: seq<KoishiThemeDef>)
    ensures AssetEntries(themes).Success? <==> forall i :: 0 <= i < |themes| ==> AssetEntry(themes[i]).Success?
    ensures AssetEntries(themes).Success? ==>
              && |AssetEntries(themes).value| == |themes|
              && forall i :: 0 <= i < |themes| ==> AssetEntries(themes).value[i] == AssetEntry(themes[i]).value
    decreases |themes|
  {
    if themes != [] {
      AssetEntriesSpec(themes[1..]);
      assert forall i :: 1 <= i < |themes| ==> themes[i] == themes[1..][i - 1];
    }
  }

  /** When building fails, the error is the URL of a theme whose entry throws. */
  lemma {:induction false} AssetEntriesFailure(themes: seq<KoishiThemeDef>)
    requires AssetEntries(themes).Failure?
    ensures exists i :: 0 <= i < |themes| && AssetEntry(themes[i]) == Failure(AssetEntries(themes).error)
    decreases |themes|
  {
    if AssetEntry(themes[0]).Success? {
      AssetEntriesFailure(themes[1..]);
      var i :| 0 <= i < |themes[1..]| && AssetEntry(themes[1..][i]) == Failure(AssetEntries(themes).error);
      assert themes[1..][i] == themes[i + 1];
    }
  }

  lemma AssetEntryPath(t: KoishiThemeDef)
    ensures AssetEntry(t).Success? <==> DefinitionPath(t.original.url).Some?
    ensures AssetEntry(t).Failure? ==> AssetEntry(t).error == t.original.url
  {
  }

  /**
   * The asset map has one key per distinct theme identifier, in the order
   * the identifiers first appear, and each holds the entry of the LAST theme
   * with that identifier: colliding identifiers are not reported. With
   * distinct identifiers, every theme's own entry is found under its id.
   */
  lemma AssetNameMapSpec(themes: seq<KoishiThemeDef>, id: string)
    requires AssetNameMap(themes).Success?
    ensures var es := AssetEntries(themes).value;
            var m := AssetNameMap(themes).value;
            && KeysOf(m) == FirstKeys([], KeysOf(es))
            && Lookup(m, id) == LastValue(es, id)
            && (DistinctKeys(es) ==> m == es)
  {
    FromEntriesSpec(AssetEntries(themes).value, id);
  }

  lemma AssetNameMapDistinct(themes: seq<KoishiThemeDef>, i: nat)
    requires AssetNameMap(themes).Success?
    requires forall j, k :: 0 <= j < k < |themes| ==> themes[j].id != themes[k].id
    requires i < |themes|
    ensures AssetEntry(themes[i]).Success?
    ensures Lookup(AssetNameMap(themes).value, themes[i].id) == Some(AssetEntry(themes[i]).value.1)
  {
    var es := AssetEntries(themes).value;
    AssetEntriesSpec(themes);
    forall j, k | 0 <= j < k < |es| ensures es[j].0 != es[k].0 {
      assert es[j].0 == themes[j].id && es[k].0 == themes[k].id;
    }
    FromEntriesSpec(es, themes[i].id);
    KeyIndexIs(es, themes[i].id, i);
  }

  // ---------------------------------------------------------------------------
  // JSON text: `JSON.stringify(value, null, 2)`

  function HexDigit(n: nat): char
    requires n < 16
  {
    if n < 10 then ('0' as int + n) as char else ('a' as int + n - 10) as char
  }

  /** How `JSON.stringify` writes one character inside a string literal. */
  function EscapeJsonChar(c: char): string {
    if c == '"' then "\\\""
    else if c == '\\' then "\\\\"
    else if c == '\U{0008}' then "\\b"
    else if c == '\t' then "\\t"
    else if c == '\n' then "\\n"
    else if c == '\U{000C}' then "\\f"
    else if c == '\r' then "\\r"
    else if c < ' ' then "\\u00" + [HexDigit(c as int / 16), HexDigit(c as int % 16)]
    else [c]
  }

  function JsonEscape(s: string): string
    decreases |s|
  {
    if s == [] then "" else EscapeJsonChar(s[0]) + JsonEscape(s[1..])
  }

  /** A string as a JSON string literal. */
  function Quote(s: string): string {
    "\"" + JsonEscape(s) + "\""
  }

  /** Two spaces per level of nesting. */
  function Indent(n: nat): (r: string)
    ensures |r| == 2 * n
    ensures forall k :: 0 <= k < |r| ==> r[k] == ' '
  {
    if n == 0 then "" else "  " + Indent(n - 1)
  }

  /**
   * `JSON.stringify(v, null, 2)` for a value nested `depth` levels deep: an
   * empty object is `{}`; otherwise each property stands on its own line,
   * indented one level further, as `"key": value`, the lines separated by
   * commas, and the closing brace stands on a line of its own.
   */
  function Stringify(v: Json, depth: nat): string
    decreases v, 1
  {
    match v
    case JStr(s) => Quote(s)
    case JObj(ms) =>
      if ms == [] then "{}"
      else "{\n" + Join(MemberLines(ms, depth + 1), ",\n") + "\n" + Indent(depth) + "}"
  }

  function MemberLines(ms: Object<Json>, depth: nat): (lines: seq<string>)
    ensures |lines| == |ms|
    decreases JObj(ms), 0
  {
    seq(|ms|, i requires 0 <= i < |ms| => MemberLine(ms[i].0, Stringify(ms[i].1, depth), depth))
  }

  function MemberLine(key: string, value: string, depth: nat): string {
    Indent(depth) + Quote(key) + ": " + value
  }

  // A reader for the JSON text, the partner of `Stringify`.

  predicate IsJsonSpace(c: char) {
    c == ' ' || c == '\t' || c == '\n' || c == '\r'
  }

  function SkipSpace(t: string): (r: string)
    ensures |r| <= |t|
    decreases |t|
  {
    if t != [] && IsJsonSpace(t[0]) then SkipSpace(t[1..]) else t
  }

  function HexValue(c: char): (r: Option<nat>)
    ensures r.Some? ==> r.value < 16
  {
    if '0' <= c <= '9' then Some(c as int - '0' as int)
    else if 'a' <= c <= 'f' then Some(c as int - 'a' as int + 10)
    else if 'A' <= c <= 'F' then Some(c as int - 'A' as int + 10)
    else None
  }

  /** The character an escape sequence at the start of `t` stands for, and the sequence's length. */
  function EscapeUnit(t: string): (r: Option<(char, nat)>)
    requires t != [] && t[0] == '\\'
    ensures r.Some? ==> 2 <= r.value.1 <= |t|
  {
    if |t| < 2 then None
    else if t[1] == '"' || t[1] == '\\' || t[1] == '/' then Some((t[1], 2))
    else if t[1] == 'b' then Some(('\U{0008}', 2))
    else if t[1] == 't' then Some(('\t', 2))
    else if t[1] == 'n' then Some(('\n', 2))
    else if t[1] == 'f' then Some(('\U{000C}', 2))
    else if t[1] == 'r' then Some(('\r', 2))
    else if t[1] == 'u' && |t| >= 6 then
      match (HexValue(t[2]), HexValue(t[3]), HexValue(t[4]), HexValue(t[5]))
      case (Some(a), Some(b), Some(c), Some(d)) =>
        var n := 4096 * a + 256 * b + 16 * c + d;
        if n < 0xD800 || 0xE000 <= n then Some((n as char, 6)) else None
      case _ => None
    else None
  }

  function Prepend(c: char, r: Option<(string, string)>): Option<(string, string)> {
    match r
    case None => None
    case Some((x, rest)) => Some(([c] + x, rest))
  }

  /** The contents of a JSON string literal up to its closing quote, and the text after that quote. */
  function ReadString(t: string): (r: Option<(string, string)>)
    ensures r.Some? ==> |r.value.1| < |t|
    decreases |t|
  {
    if t == [] then None
    else if t[0] == '"' then Some(("", t[1..]))
    else if t[0] == '\\' then
      match EscapeUnit(t)
      case None => None
      case Some((c, n)) => Prepend(c, ReadString(t[n..]))
    else if t[0] < ' ' then None
    else Prepend(t[0], ReadString(t[1..]))
  }

  /** One JSON value after optional white space, and the text after it. */
  function ReadValue(t: string): (r: Option<(Json, string)>)
    ensures r.Some? ==> |r.value.1| < |t|
    decreases |t|, 1
  {
    var u := SkipSpace(t);
    if u == [] then None
    else if u[0] == '"' then
      match ReadString(u[1..])
      case None => None
      case Some((s, rest)) => Some((JStr(s), rest))
    else if u[0] == '{' then
      var w := SkipSpace(u[1..]);
      if w != [] && w[0] == '}' then Some((JObj([]), w[1..]))
      else
        match ReadMembers(u[1..])
        case None => None
        case Some((ms, rest)) => Some((JObj(ms), rest))
    else None
  }

  /** The properties of an object after its `{`, up to and including its `}`. */
  function ReadMembers(t: string): (r: Option<(Object<Json>, string)>)
    ensures r.Some? ==> |r.value.1| < |t|
    decreases |t|, 0
  {
    var u := SkipSpace(t);
    if u == [] || u[0] != '"' then None
    else
      match ReadString(u[1..])
      case None => None
      case Some((k, t1)) =>
        var t2 := SkipSpace(t1);
        if t2 == [] || t2[0] != ':' then None
        else
          match ReadValue(t2[1..])
          case None => None
          case Some((v, t3)) =>
            var t4 := SkipSpace(t3);
            if t4 == [] then None
            else if t4[0] == '}' then Some(([(k, v)], t4[1..]))
            else if t4[0] == ',' then
              match ReadMembers(t4[1..])
              case None => None
              case Some((ms, t5)) => Some(([(k, v)] + ms, t5))
            else None
  }

  // The reader inverts the writer.

  lemma HexDigitValue(n: nat)
    requires n < 16
    ensures HexValue(HexDigit(n)) == Some(n)
  {
  }

  lemma UnicodeEscapeReads(c: char, t: string)
    requires c < ' ' && c != '\U{0008}' && c != '\t' && c != '\n' && c != '\U{000C}' && c != '\r'
    ensures ReadString(EscapeJsonChar(c) + t) == Prepend(c, ReadString(t))
  {
    var hi := c as int / 16;
    var lo := c as int % 16;
    var u := EscapeJsonChar(c) + t;
    assert u[..6] == ['\\', 'u', '0', '0', HexDigit(hi), HexDigit(lo)];
    assert u[6..] == t;
    HexDigitValue(0);
    HexDigitValue(hi);
    HexDigitValue(lo);
    assert EscapeUnit(u) == Some((c, 6));
  }

  lemma EscapeCharReads(c: char, t: string)
    ensures ReadString(EscapeJsonChar(c) + t) == Prepend(c, ReadString(t))
  {
    var e := EscapeJsonChar(c);
    var u := e + t;
    if c == '"' || c == '\\' || c == '\U{0008}' || c == '\t' || c == '\n' || c == '\U{000C}' || c == '\r' {
      assert u[0] == '\\' && u[2..] == t;
      assert EscapeUnit(u) == Some((c, 2));
    } else if c < ' ' {
      UnicodeEscapeReads(c, t);
    } else {
      assert u[0] == c && u[1..] == t;
    }
  }

  /** A string written by `JSON.stringify` reads back as itself, and the reader stops right after its closing quote. */
  lemma {:induction false} JsonEscapeReads(s: string, rest: string)
    ensures ReadString(JsonEscape(s) + "\"" + rest) == Some((s, rest))
    decreases |s|
  {
    if s == [] {
      assert JsonEscape(s) + "\"" + rest == "\"" + rest;
    } else {
      JsonEscapeReads(s[1..], rest);
      AppendAssoc(EscapeJsonChar(s[0]), JsonEscape(s[1..]), "\"");
      AppendAssoc(EscapeJsonChar(s[0]), JsonEscape(s[1..]) + "\"", rest);
      EscapeCharReads(s[0], JsonEscape(s[1..]) + "\"" + rest);
      assert [s[0]] + s[1..] == s;
    }
  }

  lemma {:induction false} SkipSpaceOver(ws: string, t: string)
    requires forall k :: 0 <= k < |ws| ==> IsJsonSpace(ws[k])
    ensures SkipSpace(ws + t) == SkipSpace(t)
    decreases |ws|
  {
    if ws != [] {
      assert (ws + t)[0] == ws[0] && (ws + t)[1..] == ws[1..] + t;
      assert forall k :: 0 <= k < |ws[1..]| ==> ws[1..][k] == ws[k + 1];
      SkipSpaceOver(ws[1..], t);
    } else {
      assert ws + t == t;
    }
  }

  /** Leading white space does not change what is read. */
  lemma ReadValueSpace(ws: string, t: string)
    requires forall k :: 0 <= k < |ws| ==> IsJsonSpace(ws[k])
    ensures ReadValue(ws + t) == ReadValue(t)
  {
    SkipSpaceOver(ws, t);
  }

  lemma ReadMembersSpace(ws: string, t: string)
    requires forall k :: 0 <= k < |ws| ==> IsJsonSpace(ws[k])
    ensures ReadMembers(ws + t) == ReadMembers(t)
  {
    SkipSpaceOver(ws, t);
  }

  /** A line break and an indentation: the white space before a property or a closing brace. */
  function LineBreak(depth: nat): (ws: string)
    ensures forall k :: 0 <= k < |ws| ==> IsJsonSpace(ws[k])
  {
    "\n" + Indent(depth)
  }

  /** The text after the last property of an object: its closing line. */
  function CloseText(depth: nat, rest: string): string {
    LineBreak(depth) + ("}" + rest)
  }

  /** The text of an object from the line break before its `i`-th property on. */
  function MembersTail(ms: Object<Json>, i: nat, depth: nat, rest: string): string
    requires i < |ms|
  {
    "\n" + (Join(MemberLines(ms, depth + 1)[i..], ",\n") + CloseText(depth, rest))
  }

  /** What follows the `i`-th property's value: a comma and the next property, or the closing line. */
  function AfterMember(ms: Object<Json>, i: nat, depth: nat, rest: string): string
    requires i < |ms|
  {
    if i + 1 == |ms| then CloseText(depth, rest) else "," + MembersTail(ms, i + 1, depth, rest)
  }

  lemma JoinFrom(lines: seq<string>, i: nat)
    requires i < |lines|
    ensures Join(lines[i..], ",\n") == if i + 1 == |lines| then lines[i] else lines[i] + ",\n" + Join(lines[i + 1..], ",\n")
  {
    assert lines[i..][1..] == lines[i + 1..];
  }

  lemma LineRegroup(ind: string, e: string, v: string, a: string)
    ensures "\n" + (ind + ("\"" + e + "\"") + ": " + v + a)
            == ("\n" + ind) + ("\"" + (e + "\"" + (":" + (" " + (v + a)))))
  {
  }

  lemma CommaRegroup(x: string, j: string, c: string)
    ensures x + ",\n" + j + c == x + ("," + ("\n" + (j + c)))
  {
  }

  /** The `i`-th property's text, cut where the reader takes its steps. */
  lemma MembersTailText(ms: Object<Json>, i: nat, depth: nat, rest: string)
    requires i < |ms|
    ensures MembersTail(ms, i, depth, rest)
            == LineBreak(depth + 1) + ("\"" + (JsonEscape(ms[i].0) + "\"" + (":" + (" " + (Stringify(ms[i].1, depth + 1) + AfterMember(ms, i, depth, rest))))))
  {
    var lines := MemberLines(ms, depth + 1);
    var e := JsonEscape(ms[i].0);
    var v := Stringify(ms[i].1, depth + 1);
    var a := AfterMember(ms, i, depth, rest);
    var ind := Indent(depth + 1);
    assert lines[i] == ind + ("\"" + e + "\"") + ": " + v;
    JoinFrom(lines, i);
    if i + 1 < |ms| {
      CommaRegroup(lines[i], Join(lines[i + 1..], ",\n"), CloseText(depth, rest));
    }
    assert MembersTail(ms, i, depth, rest) == "\n" + (lines[i] + a);
    LineRegroup(ind, e, v, a);
  }

  lemma SkipSpaceStop(t: string)
    requires t != [] && !IsJsonSpace(t[0])
    ensures SkipSpace(t) == t
  {
  }

  lemma ObjectRegroup(j: string, ind: string, rest: string)
    ensures "{\n" + j + "\n" + ind + "}" + rest == "{" + ("\n" + (j + (("\n" + ind) + ("}" + rest))))
  {
  }

  /** The text of a non-empty object, cut after its `{`. */
  lemma ObjectText(ms: Object<Json>, depth: nat, rest: string)
    requires ms != []
    ensures Stringify(JObj(ms), depth) + rest == "{" + MembersTail(ms, 0, depth, rest)
  {
    var lines := MemberLines(ms, depth + 1);
    assert lines[0..] == lines;
    var j := Join(lines, ",\n");
    assert Stringify(JObj(ms), depth) == "{\n" + j + "\n" + Indent(depth) + "}";
    ObjectRegroup(j, Indent(depth), rest);
  }

  /** After `{`, properties that read give the object. */
  lemma ReadObject(tail: string, ms: Object<Json>, rest: string)
    requires ReadMembers(tail) == Some((ms, rest))
    requires SkipSpace(tail) != [] && SkipSpace(tail)[0] == '"'
    ensures ReadValue("{" + tail) == Some((JObj(ms), rest))
  {
    var t := "{" + tail;
    SkipSpaceStop(t);
    assert t[1..] == tail;
  }

  /** The last property: its value is followed by the closing line. */
  lemma ReadLastMember(k: string, vt: string, v: Json, ws: string, rest: string)
    requires forall n :: 0 <= n < |ws| ==> IsJsonSpace(ws[n])
    requires ReadValue(vt + (ws + ("}" + rest))) == Some((v, ws + ("}" + rest)))
    ensures ReadMembers("\"" + (JsonEscape(k) + "\"" + (":" + (" " + (vt + (ws + ("}" + rest))))))) == Some(([(k, v)], rest))
  {
    var a := ws + ("}" + rest);
    var r1 := ":" + (" " + (vt + a));
    var q := "\"" + (JsonEscape(k) + "\"" + r1);
    SkipSpaceStop(q);
    assert q[1..] == JsonEscape(k) + "\"" + r1;
    JsonEscapeReads(k, r1);
    SkipSpaceStop(r1);
    assert r1[1..] == " " + (vt + a);
    ReadValueSpace(" ", vt + a);
    SkipSpaceOver(ws, "}" + rest);
    SkipSpaceStop("}" + rest);
  }

  /** A property followed by a comma: the properties after the comma follow it. */
  lemma ReadNextMember(k: string, vt: string, v: Json, tail: string, ms: Object<Json>, rest: string)
    requires ReadValue(vt + ("," + tail)) == Some((v, "," + tail))
    requires ReadMembers(tail) == Some((ms, rest))
    ensures ReadMembers("\"" + (JsonEscape(k) + "\"" + (":" + (" " + (vt + ("," + tail)))))) == Some(([(k, v)] + ms, rest))
  {
    var a := "," + tail;
    var r1 := ":" + (" " + (vt + a));
    var q := "\"" + (JsonEscape(k) + "\"" + r1);
    SkipSpaceStop(q);
    assert q[1..] == JsonEscape(k) + "\"" + r1;
    JsonEscapeReads(k, r1);
    SkipSpaceStop(r1);
    assert r1[1..] == " " + (vt + a);
    ReadValueSpace(" ", vt + a);
    SkipSpaceStop(a);
    assert a[1..] == tail;
  }

  lemma DropOne<T>(s: seq<T>, i: nat)
    requires i < |s|
    ensures s[i..] == [s[i]] + s[i + 1..]
  {
  }

  /** Every value `Stringify` writes reads back as itself, and the reader stops right after it. */
  lemma {:induction false} StringifyReads(v: Json, depth: nat, rest: string)
    ensures ReadValue(Stringify(v, depth) + rest) == Some((v, rest))
    decreases v, if v.JObj? then |v.members| + 1 else 0
  {
    match v
    case JStr(s) =>
      var t := Stringify(v, depth) + rest;
      assert t == "\"" + (JsonEscape(s) + "\"" + rest);
      SkipSpaceStop(t);
      JsonEscapeReads(s, rest);
    case JObj(ms) =>
      if ms == [] {
        var t := Stringify(v, depth) + rest;
        assert t == "{" + ("}" + rest);
        SkipSpaceStop(t);
        SkipSpaceStop("}" + rest);
      } else {
        ObjectText(ms, depth, rest);
        var tail := MembersTail(ms, 0, depth, rest);
        MembersTailText(ms, 0, depth, rest);
        var q := "\"" + (JsonEscape(ms[0].0) + "\"" + (":" + (" " + (Stringify(ms[0].1, depth + 1) + AfterMember(ms, 0, depth, rest)))));
        SkipSpaceOver(LineBreak(depth + 1), q);
        SkipSpaceStop(q);
        MembersReads(ms, 0, depth, rest);
        assert ms[0..] == ms;
        ReadObject(tail, ms, rest);
      }
  }

  /** The last property of an object reads, given that its value does. */
  lemma LastMemberReads(ms: Object<Json>, i: nat, depth: nat, rest: string)
    requires i + 1 == |ms|
    requires ReadValue(Stringify(ms[i].1, depth + 1) + AfterMember(ms, i, depth, rest)) == Some((ms[i].1, AfterMember(ms, i, depth, rest)))
    ensures ReadMembers(MembersTail(ms, i, depth, rest)) == Some((ms[i..], rest))
  {
    var sv := Stringify(ms[i].1, depth + 1);
    var a := AfterMember(ms, i, depth, rest);
    var q := "\"" + (JsonEscape(ms[i].0) + "\"" + (":" + (" " + (sv + a))));
    MembersTailText(ms, i, depth, rest);
    ReadMembersSpace(LineBreak(depth + 1), q);
    assert a == LineBreak(depth) + ("}" + rest);
    ReadLastMember(ms[i].0, sv, ms[i].1, LineBreak(depth), rest);
    assert ms[i..] == [ms[i]];
  }

  /** A property that is not the last reads, given that its value and the properties after it do. */
  lemma NextMemberReads(ms: Object<Json>, i: nat, depth: nat, rest: string)
    requires i + 1 < |ms|
    requires ReadValue(Stringify(ms[i].1, depth + 1) + AfterMember(ms, i, depth, rest)) == Some((ms[i].1, AfterMember(ms, i, depth, rest)))
    requires ReadMembers(MembersTail(ms, i + 1, depth, rest)) == Some((ms[i + 1..], rest))
    ensures ReadMembers(MembersTail(ms, i, depth, rest)) == Some((ms[i..], rest))
  {
    var sv := Stringify(ms[i].1, depth + 1);
    var a := AfterMember(ms, i, depth, rest);
    var q := "\"" + (JsonEscape(ms[i].0) + "\"" + (":" + (" " + (sv + a))));
    MembersTailText(ms, i, depth, rest);
    ReadMembersSpace(LineBreak(depth + 1), q);
    var tail := MembersTail(ms, i + 1, depth, rest);
    assert a == "," + tail;
    ReadNextMember(ms[i].0, sv, ms[i].1, tail, ms[i + 1..], rest);
    DropOne(ms, i);
  }

  /** Read from the line break before its `i`-th property, an object gives its properties from the `i`-th on. */
  lemma {:induction false} MembersReads(ms: Object<Json>, i: nat, depth: nat, rest: string)
    requires i < |ms|
    ensures ReadMembers(MembersTail(ms, i, depth, rest)) == Some((ms[i..], rest))
    decreases JObj(ms), |ms| - i
  {
    StringifyReads(ms[i].1, depth + 1, AfterMember(ms, i, depth, rest));
    if i + 1 == |ms| {
      LastMemberReads(ms, i, depth, rest);
    } else {
      MembersReads(ms, i + 1, depth, rest);
      NextMemberReads(ms, i, depth, rest);
    }
  }
}
