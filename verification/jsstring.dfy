/** The JavaScript string operations the plugin relies on, over `string` (= `seq<char>`):
    `String.prototype.trim`, `split` with a one-character string separator, `split` with the
    regular expression `/[\n,]+/`, and `replace` with a string pattern (first occurrence only).
 */
module JsString {
  import opened Results

  /** Concatenation regroups freely. */
  lemma ConcatAssoc<T>(a: seq<T>, b: seq<T>, c: seq<T>)
    ensures (a + b) + c == a + (b + c)
  {
  }

  /** The three parts of a concatenation can be sliced back out. */
  lemma SliceParts<T>(a: seq<T>, b: seq<T>, c: seq<T>)
    ensures var s := a + (b + c);
            s[..|a|] == a && s[|a|..|a| + |b|] == b && s[|a| + |b|..] == c
  {
    var s := a + (b + c);
    assert s[..|a|] == a;
    assert s[|a|..|a| + |b|] == b;
    assert s[|a| + |b|..] == c;
  }

  /** A sequence is the concatenation of its slices at any two cut points. */
  lemma CutTwice<T>(s: seq<T>, i: int, j: int)
    requires 0 <= i <= j <= |s|
    ensures s == s[..i] + s[i..j] + s[j..]
  {
  }

  // ---------------------------------------------------------------------------------------------
  // Whitespace and trim
  // ---------------------------------------------------------------------------------------------

  /** The characters `trim` removes: ECMAScript WhiteSpace (TAB, VT, FF, SP, NBSP, ZWNBSP and the
      Zs space separators) and LineTerminator (LF, CR, LS, PS). */
  predicate IsWhiteSpace(c: char) {
    || c == '\t' || c == '\n' || c == '\U{B}' || c == '\U{C}' || c == '\r' || c == ' '
    || c == '\U{A0}' || c == '\U{1680}' || ('\U{2000}' <= c <= '\U{200A}')
    || c == '\U{2028}' || c == '\U{2029}' || c == '\U{202F}' || c == '\U{205F}'
    || c == '\U{3000}' || c == '\U{FEFF}'
  }

  predicate AllWhiteSpace(s: string) {
    forall k :: 0 <= k < |s| ==> IsWhiteSpace(s[k])
  }

  /** `s` has no whitespace at either end (the shape of every trimmed string). */
  predicate Trimmed(s: string) {
    s == [] || (!IsWhiteSpace(s[0]) && !IsWhiteSpace(s[|s| - 1]))
  }

  /** Drops leading whitespace. */
  function TrimStart(s: string): (r: string)
    ensures |r| <= |s| && r == s[|s| - |r|..]
    ensures forall k :: 0 <= k < |s| - |r| ==> IsWhiteSpace(s[k])
    ensures r == [] || !IsWhiteSpace(r[0])
    decreases |s|
  {
    if s != [] && IsWhiteSpace(s[0]) then TrimStart(s[1..]) else s
  }

  /** Drops trailing whitespace. */
  function TrimEnd(s: string): (r: string)
    ensures |r| <= |s| && r == s[..|r|]
    ensures forall k :: |r| <= k < |s| ==> IsWhiteSpace(s[k])
    ensures r == [] || !IsWhiteSpace(r[|r| - 1])
    decreases |s|
  {
    if s != [] && IsWhiteSpace(s[|s| - 1]) then TrimEnd(s[..|s| - 1]) else s
  }

  /** `String.prototype.trim`. */
  function Trim(s: string): (r: string)
    ensures Trimmed(r)
    ensures |r| <= |s|
  {
    var t := TrimStart(s);
    var r := TrimEnd(t);
    assert r != [] ==> r[0] == t[0];
    r
  }

  lemma {:induction false} TrimStartOfWhitePrefix(a: string, m: string)
    requires AllWhiteSpace(a)
    requires m == [] || !IsWhiteSpace(m[0])
    ensures TrimStart(a + m) == m
    decreases |a|
  {
    if a == [] {
      assert a + m == m;
    } else {
      assert (a + m)[1..] == a[1..] + m;
      TrimStartOfWhitePrefix(a[1..], m);
    }
  }

  lemma {:induction false} TrimEndOfWhiteSuffix(m: string, b: string)
    requires AllWhiteSpace(b)
    requires m == [] || !IsWhiteSpace(m[|m| - 1])
    ensures TrimEnd(m + b) == m
    decreases |b|
  {
    if b == [] {
      assert m + b == m;
    } else {
      assert (m + b)[..|m + b| - 1] == m + b[..|b| - 1];
      TrimEndOfWhiteSuffix(m, b[..|b| - 1]);
    }
  }

  /** Trim is characterised independently of how it is computed: whatever whitespace surrounds a
      string with no whitespace at its ends is exactly what `trim` removes. */
  lemma TrimOfPadded(a: string, m: string, b: string)
    requires AllWhiteSpace(a) && AllWhiteSpace(b) && Trimmed(m)
    ensures Trim(a + m + b) == m
  {
    if m == [] {
      assert a + m + b == a + b;
      assert AllWhiteSpace(a + b);
      TrimStartOfWhitePrefix(a + b, []);
      assert a + b + [] == a + b;
      TrimEndOfWhiteSuffix([], []);
    } else {
      assert a + m + b == a + (m + b);
      TrimStartOfWhitePrefix(a, m + b);
      TrimEndOfWhiteSuffix(m, b);
    }
  }

  /** A string with no whitespace at its ends is its own trim. */
  lemma TrimOfTrimmed(m: string)
    requires Trimmed(m)
    ensures Trim(m) == m
  {
    assert [] + m + [] == m by {}
    TrimOfPadded([], m, []);
  }

  /** Leading whitespace alone is removed. */
  lemma TrimOfIndented(a: string, m: string)
    requires AllWhiteSpace(a) && Trimmed(m)
    ensures Trim(a + m) == m
  {
    TrimOfPadded(a, m, []);
    assert a + m + [] == a + m;
  }

  // ---------------------------------------------------------------------------------------------
  // split with a one-character string separator
  // ---------------------------------------------------------------------------------------------

  /** `c` occurs nowhere in `s`. */
  predicate Lacks(s: string, c: char) {
    forall k :: 0 <= k < |s| ==> s[k] != c
  }

  /** Index of the first `c` in `s`, or `|s|` when there is none. */
  function Find(s: string, c: char): (i: nat)
    ensures i <= |s|
    ensures forall k :: 0 <= k < i ==> s[k] != c
    ensures i < |s| ==> s[i] == c
    decreases |s|
  {
    if s == [] || s[0] == c then 0 else Find(s[1..], c) + 1
  }

  /** `s.split(sep)` for a one-character separator: every piece, empty ones included. */
  function Split(s: string, sep: char): (r: seq<string>)
    ensures |r| >= 1
    ensures forall k :: 0 <= k < |r| ==> Lacks(r[k], sep)
    decreases |s|
  {
    var i := Find(s, sep);
    if i == |s| then [s] else [s[..i]] + Split(s[i + 1..], sep)
  }

  /** `pieces.join(sep)`. */
  function Join(pieces: seq<string>, sep: char): string
    requires |pieces| >= 1
  {
    if |pieces| == 1 then pieces[0] else pieces[0] + [sep] + Join(pieces[1..], sep)
  }

  /** Splitting and re-joining gives back the text. */
  lemma {:induction false} JoinSplit(s: string, sep: char)
    ensures Join(Split(s, sep), sep) == s
    decreases |s|
  {
    var i := Find(s, sep);
    if i < |s| {
      JoinSplit(s[i + 1..], sep);
      JoinSplitStep(s, sep);
    }
  }

  lemma JoinSplitStep(s: string, sep: char)
    requires Find(s, sep) < |s|
    requires Join(Split(s[Find(s, sep) + 1..], sep), sep) == s[Find(s, sep) + 1..]
    ensures Join(Split(s, sep), sep) == s
  {
    var i := Find(s, sep);
    var pieces := Split(s, sep);
    assert pieces == [s[..i]] + Split(s[i + 1..], sep);
    assert pieces[1..] == Split(s[i + 1..], sep);
    assert Join(pieces, sep) == s[..i] + [sep] + s[i + 1..];
    assert s[i..i + 1] == [sep];
    CutTwice(s, i, i + 1);
  }

  /** Joining separator-free pieces and splitting again gives back the pieces. */
  lemma {:induction false} SplitJoin(pieces: seq<string>, sep: char)
    requires |pieces| >= 1
    requires forall k :: 0 <= k < |pieces| ==> Lacks(pieces[k], sep)
    ensures Split(Join(pieces, sep), sep) == pieces
    decreases |pieces|
  {
    if |pieces| > 1 {
      SplitJoin(pieces[1..], sep);
      SplitJoinStep(pieces, sep);
    } else {
      SplitOfLacking(pieces[0], sep);
    }
  }

  lemma SplitOfLacking(s: string, sep: char)
    requires Lacks(s, sep)
    ensures Split(s, sep) == [s]
  {
    assert Find(s, sep) == |s|;
  }

  lemma SplitJoinStep(pieces: seq<string>, sep: char)
    requires |pieces| > 1 && Lacks(pieces[0], sep)
    requires Split(Join(pieces[1..], sep), sep) == pieces[1..]
    ensures Split(Join(pieces, sep), sep) == pieces
  {
    var p, rest := pieces[0], Join(pieces[1..], sep);
    var s := Join(pieces, sep);
    assert s == p + [sep] + rest;
    ConcatAssoc(p, [sep], rest);
    SliceParts(p, [sep], rest);
    FindAfterLacking(p, sep, rest);
    var i := Find(s, sep);
    assert Split(s, sep) == [s[..i]] + Split(s[i + 1..], sep);
    assert s[..i] == p && s[i + 1..] == rest;
    assert pieces == [p] + pieces[1..];
  }

  lemma FindAfterLacking(p: string, sep: char, rest: string)
    requires Lacks(p, sep)
    ensures Find(p + ([sep] + rest), sep) == |p|
  {
    var s := p + ([sep] + rest);
    assert s[|p|] == sep;
    assert forall k :: 0 <= k < |p| ==> s[k] == p[k];
  }

  // ---------------------------------------------------------------------------------------------
  // split on the regular expression /[\n,]+/
  // ---------------------------------------------------------------------------------------------

  predicate IsItemSeparator(c: char) {
    c == '\n' || c == ','
  }

  predicate SeparatorFree(s: string) {
    forall k :: 0 <= k < |s| ==> !IsItemSeparator(s[k])
  }

  predicate AllSeparators(s: string) {
    forall k :: 0 <= k < |s| ==> IsItemSeparator(s[k])
  }

  /** Position of the first separator, or `|s|` when there is none. */
  function NextSeparator(s: string): (i: nat)
    ensures i <= |s|
    ensures forall k :: 0 <= k < i ==> !IsItemSeparator(s[k])
    ensures i < |s| ==> IsItemSeparator(s[i])
    decreases |s|
  {
    if s == [] then 0
    else if IsItemSeparator(s[0]) then 0
    else NextSeparator(s[1..]) + 1
  }

  /** End of the separator run starting at `i`: the first non-separator at or after `i`. */
  function RunEnd(s: string, i: nat): (j: nat)
    requires i <= |s|
    ensures i <= j <= |s|
    ensures forall k :: i <= k < j ==> IsItemSeparator(s[k])
    ensures j < |s| ==> !IsItemSeparator(s[j])
    decreases |s| - i
  {
    if i == |s| || !IsItemSeparator(s[i]) then i else RunEnd(s, i + 1)
  }

  /** `s.split(/[\n,]+/)`: the text between maximal runs of newlines and commas. */
  function SplitItems(s: string): (r: seq<string>)
    ensures |r| >= 1
    ensures forall k :: 0 <= k < |r| ==> SeparatorFree(r[k])
    ensures forall k :: 0 < k < |r| - 1 ==> r[k] != []
    ensures s != [] && !IsItemSeparator(s[0]) ==> r[0] != []
    decreases |s|
  {
    var i := NextSeparator(s);
    if i == |s| then [s]
    else
      var j := RunEnd(s, i);
      [s[..i]] + SplitItems(s[j..])
  }

  /** The separator runs `SplitItems` cuts out, in order. */
  function SeparatorRuns(s: string): (r: seq<string>)
    ensures |r| + 1 == |SplitItems(s)|
    ensures forall k :: 0 <= k < |r| ==> r[k] != [] && AllSeparators(r[k])
    decreases |s|
  {
    var i := NextSeparator(s);
    if i == |s| then []
    else
      var j := RunEnd(s, i);
      [s[i..j]] + SeparatorRuns(s[j..])
  }

  /** Interleaves pieces with the runs between them. */
  function Weave(pieces: seq<string>, runs: seq<string>): string
    requires |pieces| == |runs| + 1
  {
    if runs == [] then pieces[0] else pieces[0] + runs[0] + Weave(pieces[1..], runs[1..])
  }

  /** Weaving the items back together with the runs between them gives back the text. */
  lemma {:induction false} WeaveSplitItems(s: string)
    ensures Weave(SplitItems(s), SeparatorRuns(s)) == s
    decreases |s|
  {
    var i := NextSeparator(s);
    if i < |s| {
      var j := RunEnd(s, i);
      var pieces, runs := SplitItems(s), SeparatorRuns(s);
      assert pieces[0] == s[..i] && pieces[1..] == SplitItems(s[j..]);
      assert runs[0] == s[i..j] && runs[1..] == SeparatorRuns(s[j..]);
      WeaveSplitItems(s[j..]);
      CutTwice(s, i, j);
    }
  }

  /** Conversely, separator-free pieces (non-empty except possibly the first and last) woven with
      non-empty separator runs split back into exactly those pieces. */
  lemma {:induction false} SplitItemsOfWeave(pieces: seq<string>, runs: seq<string>)
    requires |pieces| == |runs| + 1
    requires forall k :: 0 <= k < |pieces| ==> SeparatorFree(pieces[k])
    requires forall k :: 0 < k < |pieces| - 1 ==> pieces[k] != []
    requires forall k :: 0 <= k < |runs| ==> runs[k] != [] && AllSeparators(runs[k])
    ensures SplitItems(Weave(pieces, runs)) == pieces
    decreases |runs|
  {
    var s := Weave(pieces, runs);
    var p := pieces[0];
    if runs == [] {
      NextSeparatorOfFree(s, []);
      assert s + [] == s;
    } else {
      SplitItemsOfWeave(pieces[1..], runs[1..]);
      SplitItemsOfWeaveStep(pieces, runs);
    }
  }

  lemma SplitItemsOfWeaveStep(pieces: seq<string>, runs: seq<string>)
    requires |pieces| == |runs| + 1 && runs != []
    requires forall k :: 0 <= k < |pieces| ==> SeparatorFree(pieces[k])
    requires forall k :: 0 < k < |pieces| - 1 ==> pieces[k] != []
    requires runs[0] != [] && AllSeparators(runs[0])
    requires SplitItems(Weave(pieces[1..], runs[1..])) == pieces[1..]
    ensures SplitItems(Weave(pieces, runs)) == pieces
  {
    var p, rest := pieces[0], Weave(pieces[1..], runs[1..]);
    assert Weave(pieces, runs) == p + runs[0] + rest;
    ConcatAssoc(p, runs[0], rest);
    WeaveHead(pieces[1..], runs[1..]);
    SplitItemsStep(p, runs[0], rest);
    assert pieces == [p] + pieces[1..];
  }

  /** One separator-free piece, one run, and text starting with a non-separator: the piece is
      the first item. */
  lemma SplitItemsStep(p: string, run: string, rest: string)
    requires SeparatorFree(p)
    requires run != [] && AllSeparators(run)
    requires rest == [] || !IsItemSeparator(rest[0])
    ensures SplitItems(p + (run + rest)) == [p] + SplitItems(rest)
  {
    var s := p + (run + rest);
    assert (run + rest)[0] == run[0];
    NextSeparatorOfFree(p, run + rest);
    RunEndOfRun(p, run, rest);
    SliceParts(p, run, rest);
    var i := NextSeparator(s);
    var j := RunEnd(s, i);
    assert i == |p| < |s| && j == |p| + |run|;
    assert s[..i] == p && s[j..] == rest;
    assert SplitItems(s) == [s[..i]] + SplitItems(s[j..]);
  }

  lemma NextSeparatorOfFree(p: string, t: string)
    requires SeparatorFree(p)
    requires t == [] || IsItemSeparator(t[0])
    ensures NextSeparator(p + t) == |p|
  {
    var s := p + t;
    assert forall k :: 0 <= k < |p| ==> s[k] == p[k];
    assert |p| < |s| ==> s[|p|] == t[0];
  }

  /** A woven string whose later pieces are non-empty starts with a non-separator (or is empty). */
  lemma WeaveHead(pieces: seq<string>, runs: seq<string>)
    requires |pieces| == |runs| + 1
    requires forall k :: 0 <= k < |pieces| ==> SeparatorFree(pieces[k])
    requires runs != [] ==> pieces[0] != []
    ensures var w := Weave(pieces, runs); w == [] || !IsItemSeparator(w[0])
  {
    if runs != [] {
      assert Weave(pieces, runs)[0] == pieces[0][0];
    } else if pieces[0] != [] {
      assert Weave(pieces, runs)[0] == pieces[0][0];
    }
  }

  lemma RunEndOfRun(p: string, run: string, rest: string)
    requires run != [] && AllSeparators(run)
    requires rest == [] || !IsItemSeparator(rest[0])
    ensures RunEnd(p + (run + rest), |p|) == |p| + |run|
  {
    var s := p + (run + rest);
    assert forall k :: |p| <= k < |p| + |run| ==> s[k] == run[k - |p|];
    assert |p| + |run| < |s| ==> s[|p| + |run|] == rest[0];
  }

  // ---------------------------------------------------------------------------------------------
  // replace with a string pattern
  // ---------------------------------------------------------------------------------------------

  /** `pat` occurs in `s` starting at index `k`. */
  predicate OccursAt(s: string, pat: string, k: int) {
    0 <= k && k + |pat| <= |s| && s[k..k + |pat|] == pat
  }

  /** `s.indexOf(pat, from)`: the first occurrence at or after `from`, if any. */
  function IndexOf(s: string, pat: string, from: nat): (r: Option<nat>)
    ensures r.Some? ==> from <= r.value && OccursAt(s, pat, r.value)
    ensures r.Some? ==> forall k :: from <= k < r.value ==> !OccursAt(s, pat, k)
    ensures r.None? ==> forall k :: from <= k ==> !OccursAt(s, pat, k)
    decreases |s| - from
  {
    if from + |pat| > |s| then None
    else if s[from..from + |pat|] == pat then Some(from)
    else IndexOf(s, pat, from + 1)
  }

  /** `s.replace(pat, rep)` with a string pattern: only the first occurrence is replaced. The
      replacement strings the plugin passes never contain `$`, so no substitution pattern of
      `replace` is in play. */
  function ReplaceFirst(s: string, pat: string, rep: string): (r: string)
    ensures (forall k :: !OccursAt(s, pat, k)) ==> r == s
  {
    match IndexOf(s, pat, 0)
    case None => s
    case Some(i) => s[..i] + rep + s[i + |pat|..]
  }

  /** Replacement happens at the first occurrence: when `pat` does not start anywhere inside
      `pre`, the occurrence right after `pre` is the one replaced and everything after it,
      further occurrences included, is kept. */
  lemma ReplaceFirstAt(pre: string, pat: string, post: string, rep: string)
    requires forall k :: 0 <= k < |pre| ==> !OccursAt(pre + pat + post, pat, k)
    ensures ReplaceFirst(pre + pat + post, pat, rep) == pre + rep + post
  {
    var s := pre + pat + post;
    assert OccursAt(s, pat, |pre|) by { assert s[|pre|..|pre| + |pat|] == pat; }
    var i := IndexOf(s, pat, 0);
    assert i == Some(|pre|);
    assert s[..|pre|] == pre;
    assert s[|pre| + |pat|..] == post;
  }
}
