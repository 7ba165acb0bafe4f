/**
 * The JavaScript string operations the theme generator relies on, over
 * `seq<char>`: the `\s` and line-terminator classes of ECMAScript regular
 * expressions, `toLowerCase`, `endsWith`, `indexOf`, `Array.prototype.join`
 * and `String.prototype.replace` with a string pattern (first occurrence only,
 * with the `$` patterns of the replacement string interpreted).
 */
module Text {
  import opened Wrappers

  /** ECMAScript `\s`: the WhiteSpace and LineTerminator code points. */
  predicate IsSpace(c: char) {
    || c == '\t' || c == '\n' || c == '\U{000B}' || c == '\U{000C}' || c == '\r'
    || c == ' ' || c == '\U{00A0}' || c == '\U{1680}'
    || ('\U{2000}' <= c <= '\U{200A}')
    || c == '\U{2028}' || c == '\U{2029}' || c == '\U{202F}' || c == '\U{205F}'
    || c == '\U{3000}' || c == '\U{FEFF}'
  }

  /** The characters a regular-expression `.` does not match. */
  predicate IsLineTerminator(c: char) {
    c == '\n' || c == '\r' || c == '\U{2028}' || c == '\U{2029}'
  }

  lemma LineTerminatorIsSpace(c: char)
    requires IsLineTerminator(c)
    ensures IsSpace(c)
  {
  }

  /** The length of the longest run of `\s` characters starting at `i` (a greedy `\s*`). */
  function SpaceRun(s: string, i: nat): (n: nat)
    requires i <= |s|
    ensures i + n <= |s|
    decreases |s| - i
  {
    if i < |s| && IsSpace(s[i]) then 1 + SpaceRun(s, i + 1) else 0
  }

  /** The run is made of white space and cannot be extended. */
  lemma {:induction false} SpaceRunSpec(s: string, i: nat)
    requires i <= |s|
    ensures forall k :: i <= k < i + SpaceRun(s, i) ==> IsSpace(s[k])
    ensures i + SpaceRun(s, i) == |s| || !IsSpace(s[i + SpaceRun(s, i)])
    decreases |s| - i
  {
    if i < |s| && IsSpace(s[i]) {
      SpaceRunSpec(s, i + 1);
    }
  }

  /** A run of white space from `i` to a non-space at `j` is the whole of `SpaceRun(s, i)`. */
  lemma {:induction false} SpaceRunIs(s: string, i: nat, j: nat)
    requires i <= j < |s|
    requires forall k :: i <= k < j ==> IsSpace(s[k])
    requires !IsSpace(s[j])
    ensures SpaceRun(s, i) == j - i
    decreases j - i
  {
    if i < j {
      SpaceRunIs(s, i + 1, j);
    }
  }

  /** No line terminator in `s[lo..hi]`. */
  predicate NoLineTerminatorIn(s: string, lo: nat, hi: nat) {
    hi <= |s| && forall k :: lo <= k < hi ==> !IsLineTerminator(s[k])
  }

  /** The first index at or after `i` holding a line terminator, or `|s|`. */
  function LineEnd(s: string, i: nat): (e: nat)
    requires i <= |s|
    ensures i <= e <= |s|
    decreases |s| - i
  {
    if i == |s| || IsLineTerminator(s[i]) then i else LineEnd(s, i + 1)
  }

  /** No line terminator comes before the line end, and one, or the end of the text, is at it. */
  lemma {:induction false} LineEndSpec(s: string, i: nat)
    requires i <= |s|
    ensures forall k :: i <= k < LineEnd(s, i) ==> !IsLineTerminator(s[k])
    ensures LineEnd(s, i) == |s| || IsLineTerminator(s[LineEnd(s, i)])
    decreases |s| - i
  {
    if i < |s| && !IsLineTerminator(s[i]) {
      LineEndSpec(s, i + 1);
    }
  }

  /** A line of text from `i` that runs to `j` ends at `j`. */
  lemma {:induction false} LineEndIs(s: string, i: nat, j: nat)
    requires i <= j <= |s|
    requires forall k :: i <= k < j ==> !IsLineTerminator(s[k])
    requires j == |s| || IsLineTerminator(s[j])
    ensures LineEnd(s, i) == j
    decreases j - i
  {
    if i < j {
      LineEndIs(s, i + 1, j);
    }
  }

  /** A line of text from `i` without a line terminator up to `q` ends after `q`. */
  lemma {:induction false} LineEndPast(s: string, i: nat, q: nat)
    requires i <= q < |s|
    requires forall k :: i <= k <= q ==> !IsLineTerminator(s[k])
    ensures q < LineEnd(s, i)
    decreases q - i
  {
    if i < q {
      LineEndPast(s, i + 1, q);
    }
  }

  /** `pat` occurs in `s` at index `i`. */
  predicate OccursAt(s: string, pat: string, i: nat) {
    i + |pat| <= |s| && s[i..i + |pat|] == pat
  }

  lemma OccursAtConcat(x: string, pat: string, y: string)
    ensures OccursAt(x + pat + y, pat, |x|)
  {
    assert (x + pat + y)[|x|..|x| + |pat|] == pat;
  }

  lemma OccursAtShift(a: string, x: string, b: string, pat: string, i: nat)
    requires OccursAt(x, pat, i)
    ensures OccursAt(a + x + b, pat, |a| + i)
  {
    var s := a + x + b;
    forall k | 0 <= k < |pat| ensures s[|a| + i + k] == pat[k] {
      assert s[|a| + i + k] == x[i + k] == x[i..i + |pat|][k];
    }
    assert s[|a| + i..|a| + i + |pat|] == pat;
  }

  lemma AppendAssoc(a: string, b: string, c: string)
    ensures a + b + c == a + (b + c)
  {
  }

  lemma SliceCons(s: string, i: nat, j: nat)
    requires i < j <= |s|
    ensures s[i..j] == [s[i]] + s[i + 1..j]
  {
  }

  predicate EndsWith(s: string, suffix: string) {
    |suffix| <= |s| && s[|s| - |suffix|..] == suffix
  }

  /** ASCII upper-case letters to lower case; every other character unchanged. */
  function ToLowerChar(c: char): char {
    if 'A' <= c <= 'Z' then (c as int + 32) as char else c
  }

  /** `String.prototype.toLowerCase`, on the ASCII letters. */
  function LowerCase(s: string): (r: string)
    ensures |r| == |s|
    ensures forall i :: 0 <= i < |s| ==> r[i] == ToLowerChar(s[i])
  {
    if s == [] then [] else [ToLowerChar(s[0])] + LowerCase(s[1..])
  }

  /** `s.indexOf(pat, from)`: the first occurrence of `pat` at or after `from`. */
  function IndexOf(s: string, pat: string, from: nat): (r: Option<nat>)
    ensures r.Some? ==> from <= r.value && OccursAt(s, pat, r.value)
    ensures r.Some? ==> forall k :: from <= k < r.value ==> !OccursAt(s, pat, k)
    ensures r.None? ==> forall k :: from <= k ==> !OccursAt(s, pat, k)
    decreases |s| - from
  {
    if from + |pat| > |s| then None
    else if OccursAt(s, pat, from) then Some(from)
    else IndexOf(s, pat, from + 1)
  }

  /** `xs.join(sep)`. */
  function Join(xs: seq<string>, sep: string): string
    decreases |xs|
  {
    if |xs| == 0 then ""
    else if |xs| == 1 then xs[0]
    else xs[0] + sep + Join(xs[1..], sep)
  }

  /**
   * ECMAScript GetSubstitution for a match without capture groups: in the
   * replacement `$$` stands for `$`, `$&` for the matched text, `` $` `` for
   * the text before the match and `$'` for the text after it; any other `$`
   * is literal.
   */
  function Expand(rep: string, matched: string, before: string, after: string): string
    decreases |rep|
  {
    if rep == [] then []
    else if |rep| >= 2 && rep[0] == '$' && rep[1] == '$' then "$" + Expand(rep[2..], matched, before, after)
    else if |rep| >= 2 && rep[0] == '$' && rep[1] == '&' then matched + Expand(rep[2..], matched, before, after)
    else if |rep| >= 2 && rep[0] == '$' && rep[1] == '`' then before + Expand(rep[2..], matched, before, after)
    else if |rep| >= 2 && rep[0] == '$' && rep[1] == '\'' then after + Expand(rep[2..], matched, before, after)
    else [rep[0]] + Expand(rep[1..], matched, before, after)
  }

  /** A replacement string without `$` is inserted as it is. */
  lemma {:induction false} ExpandPlain(rep: string, matched: string, before: string, after: string)
    requires '$' !in rep
    ensures Expand(rep, matched, before, after) == rep
    decreases |rep|
  {
    if rep != [] {
      assert rep[0] != '$';
      assert '$' !in rep[1..] by {
        forall k | 0 <= k < |rep[1..]| ensures rep[1..][k] != '$' { assert rep[1..][k] == rep[k + 1]; }
      }
      ExpandPlain(rep[1..], matched, before, after);
      assert rep == [rep[0]] + rep[1..];
    }
  }

  /** `s.replace(pat, rep)` with a string pattern: only the first occurrence is replaced. */
  function ReplaceFirst(s: string, pat: string, rep: string): (r: string)
    ensures (forall k :: 0 <= k ==> !OccursAt(s, pat, k)) ==> r == s
  {
    match IndexOf(s, pat, 0)
    case None => s
    case Some(p) => s[..p] + Expand(rep, pat, s[..p], s[p + |pat|..]) + s[p + |pat|..]
  }

  /**
   * When the first occurrence of `pat` in `a + pat + b` is the one after `a`,
   * that occurrence gives way to the expanded replacement: later occurrences,
   * in `b`, are left alone.
   */
  lemma ReplaceFirstExpands(a: string, pat: string, b: string, rep: string)
    requires forall k :: 0 <= k < |a| ==> !OccursAt(a + pat + b, pat, k)
    ensures ReplaceFirst(a + pat + b, pat, rep) == a + Expand(rep, pat, a, b) + b
  {
    var s := a + pat + b;
    assert OccursAt(s, pat, |a|) by { assert s[|a|..|a| + |pat|] == pat; }
    var r := IndexOf(s, pat, 0);
    assert r == Some(|a|);
    assert s[..|a|] == a;
    assert s[|a| + |pat|..] == b;
  }

  /** A replacement without `$` takes exactly the place of the first occurrence. */
  lemma ReplaceFirstAt(a: string, pat: string, b: string, rep: string)
    requires forall k :: 0 <= k < |a| ==> !OccursAt(a + pat + b, pat, k)
    requires '$' !in rep
    ensures ReplaceFirst(a + pat + b, pat, rep) == a + rep + b
  {
    ReplaceFirstExpands(a, pat, b, rep);
    ExpandPlain(rep, pat, a, b);
  }

  /** A replacement of `$&` puts the matched text back: the text is left as it was. */
  lemma ReplaceFirstKeepsMatch(a: string, pat: string, b: string)
    requires forall k :: 0 <= k < |a| ==> !OccursAt(a + pat + b, pat, k)
    ensures ReplaceFirst(a + pat + b, pat, "$&") == a + pat + b
  {
    ReplaceFirstExpands(a, pat, b, "$&");
    ExpandMatched(pat, a, b);
  }

  lemma ExpandMatched(matched: string, before: string, after: string)
    ensures Expand("$&", matched, before, after) == matched
  {
    assert Expand("$&", matched, before, after) == matched + Expand("", matched, before, after);
  }

  lemma ExpandBefore(matched: string, before: string, after: string)
    ensures Expand("$`", matched, before, after) == before
  {
    assert Expand("$`", matched, before, after) == before + Expand("", matched, before, after);
  }

  /** A replacement of `` $` `` repeats the text before the occurrence in its place. */
  lemma ReplaceFirstRepeatsBefore(a: string, pat: string, b: string)
    requires forall k :: 0 <= k < |a| ==> !OccursAt(a + pat + b, pat, k)
    ensures ReplaceFirst(a + pat + b, pat, "$`") == a + a + b
  {
    ReplaceFirstExpands(a, pat, b, "$`");
    ExpandBefore(pat, a, b);
  }
}
