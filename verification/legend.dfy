/** The legend under a bar: its template with the first `{progressTerm}` replaced by the current
    progress and then the first `{totalTerm}` replaced by the total.
 */
module Legend {
  import opened JsString
  import opened JsNumber
  import ConfigParser

  /** `{term}`. */
  function Placeholder(term: string): (p: string)
    ensures |p| == |term| + 2 && p[0] == '{'
  {
    "{" + term + "}"
  }

  /** `((progress / total) * total).toFixed(0)`. For whole numbers and a non-zero total the
      quotient times the total is the progress again; a zero, missing or unparsable total, or a
      progress that is not a number, makes it `NaN`. */
  function ProgressText(progress: Num, total: Num): string {
    if progress.Int? && total.Int? && total.value != 0 then IntToDecimal(progress.value) else "NaN"
  }

  /** `updateLegend`: replace the first progress placeholder, then the first total placeholder of
      the result. */
  function RenderLegend(template: string, progressTerm: string, totalTerm: string, progress: Num, total: Num): string {
    var once := ReplaceFirst(template, Placeholder(progressTerm), ProgressText(progress, total));
    ReplaceFirst(once, Placeholder(totalTerm), ToText(total))
  }

  predicate BraceFree(s: string) {
    forall k :: 0 <= k < |s| ==> s[k] != '{'
  }

  /** The legend shows the very progress it was given: reading its progress text back with
      `parseInt` returns the bar's progress. */
  lemma ProgressTextReadsBack(progress: int, total: int)
    requires total != 0
    ensures ParseInt(ProgressText(Int(progress), Int(total))) == Int(progress)
  {
    ParseIntOfDecimal([], progress, []);
    assert [] + IntToDecimal(progress) + [] == IntToDecimal(progress);
  }

  lemma NumberTextBraceFree(x: Num, y: Num)
    ensures BraceFree(ProgressText(x, y)) && BraceFree(ToText(x))
  {
    if x.Int? {
      var s := IntToDecimal(x.value);
      assert forall k :: 1 <= k < |s| ==> s[k] == s[1..][k - 1];
    }
  }

  /** A placeholder cannot start at a position holding something other than `{`. */
  lemma NoPlaceholderAt(s: string, term: string)
    ensures forall k :: 0 <= k < |s| && s[k] != '{' ==> !OccursAt(s, Placeholder(term), k)
  {
    var p := Placeholder(term);
    forall k | 0 <= k < |s| && s[k] != '{' && k + |p| <= |s|
      ensures s[k..k + |p|] != p
    {
      assert s[k..k + |p|][0] == s[k];
    }
  }

  /** With no `{` before it, the first placeholder in the text is the one filled in. */
  lemma FillFirst(pre: string, rest: string, term: string, value: string)
    requires BraceFree(pre)
    ensures ReplaceFirst(pre + Placeholder(term) + rest, Placeholder(term), value) == pre + value + rest
  {
    var s := pre + Placeholder(term) + rest;
    assert forall k :: 0 <= k < |pre| ==> s[k] == pre[k];
    NoPlaceholderAt(s, term);
    ReplaceFirstAt(pre, Placeholder(term), rest, value);
  }

  lemma Regroup(a: string, b: string, c: string, d: string, e: string)
    ensures a + b + (c + d + e) == a + b + c + d + e
  {
    assert (a + b) + ((c + d) + e) == ((a + b) + (c + d)) + e;
    assert (a + b) + (c + d) == ((a + b) + c) + d;
  }

  lemma BraceFreeConcat(a: string, b: string, c: string)
    requires BraceFree(a) && BraceFree(b) && BraceFree(c)
    ensures BraceFree(a + b + c)
  {
    var s := a + b + c;
    assert forall k :: 0 <= k < |a| ==> s[k] == a[k];
    assert forall k :: |a| <= k < |a| + |b| ==> s[k] == b[k - |a|];
    assert forall k :: |a| + |b| <= k < |s| ==> s[k] == c[k - |a| - |b|];
  }

  /** When no `{` comes before the first placeholder or between the two, the legend is the
      template with exactly those two placeholders filled in and everything else, later
      placeholders included, kept as written. */
  lemma RenderLegendOf(pre: string, mid: string, post: string, progressTerm: string, totalTerm: string, progress: Num, total: Num)
    requires BraceFree(pre) && BraceFree(mid)
    ensures RenderLegend(pre + Placeholder(progressTerm) + mid + Placeholder(totalTerm) + post,
                         progressTerm, totalTerm, progress, total)
         == pre + ProgressText(progress, total) + mid + ToText(total) + post
  {
    var p1, p2 := Placeholder(progressTerm), Placeholder(totalTerm);
    var v1, v2 := ProgressText(progress, total), ToText(total);
    var template := pre + p1 + mid + p2 + post;
    var head := pre + v1 + mid;
    var once := ReplaceFirst(template, p1, v1);
    assert once == head + p2 + post by {
      Regroup(pre, p1, mid, p2, post);
      FillFirst(pre, mid + p2 + post, progressTerm, v1);
      Regroup(pre, v1, mid, p2, post);
    }
    assert ReplaceFirst(once, p2, v2) == head + v2 + post by {
      NumberTextBraceFree(progress, total);
      BraceFreeConcat(pre, v1, mid);
      FillFirst(head, post, totalTerm, v2);
    }
  }

  /** The same for a template that starts with the progress placeholder and ends with the total
      placeholder. */
  lemma RenderLegendOfTwo(mid: string, progressTerm: string, totalTerm: string, progress: Num, total: Num)
    requires BraceFree(mid)
    ensures RenderLegend(Placeholder(progressTerm) + mid + Placeholder(totalTerm), progressTerm, totalTerm, progress, total)
         == ProgressText(progress, total) + mid + ToText(total)
  {
    RenderLegendOf([], mid, [], progressTerm, totalTerm, progress, total);
    WithoutEnds(Placeholder(progressTerm), mid, Placeholder(totalTerm));
    WithoutEnds(ProgressText(progress, total), mid, ToText(total));
  }

  lemma WithoutEnds(a: string, b: string, c: string)
    ensures [] + a + b + c + [] == a + b + c
  {
  }

  lemma DecimalsOfExample()
    ensures IntToDecimal(40) == "40" && IntToDecimal(200) == "200"
  {
    assert NatToDecimal(4) == "4";
    assert NatToDecimal(2) == "2";
    assert NatToDecimal(20) == "20";
  }

  lemma ExampleTemplate()
    ensures Placeholder("current_progress") + "/" + Placeholder("total") == "{current_progress}/{total}"
  {
    DefaultPlaceholders();
    assert "{current_progress}" + "/" + "{total}" == "{current_progress}/{total}" by {}
  }

  lemma DefaultPlaceholders()
    ensures Placeholder("current_progress") == "{current_progress}"
    ensures Placeholder("total") == "{total}"
  {
  }

  /** The plugin's default terms with progress 40 of 200. */
  lemma LegendExample()
    ensures var terms := ConfigParser.DefaultSettings;
            RenderLegend("{current_progress}/{total}", terms.progressTerm, terms.totalTerm, Int(40), Int(200)) == "40/200"
  {
    assert ConfigParser.DefaultSettings.progressTerm == "current_progress";
    assert ConfigParser.DefaultSettings.totalTerm == "total";
    ExampleRendering();
  }

  lemma ExampleRendering()
    ensures RenderLegend("{current_progress}/{total}", "current_progress", "total", Int(40), Int(200)) == "40/200"
  {
    RenderLegendOfTwo("/", "current_progress", "total", Int(40), Int(200));
    ExampleTemplate();
    DecimalsOfExample();
    ExampleText();
  }

  lemma ExampleText()
    ensures "40" + "/" + "200" == "40/200"
  {
  }

  /** Filling a placeholder at the very start of the text. */
  lemma FillAtStart(rest: string, term: string, value: string)
    ensures ReplaceFirst(Placeholder(term) + rest, Placeholder(term), value) == value + rest
  {
    FillFirst([], rest, term, value);
    LeadingEmpty(Placeholder(term), rest);
    LeadingEmpty(value, rest);
  }

  lemma LeadingEmpty(a: string, b: string)
    ensures [] + a + b == a + b
  {
  }

  lemma RepeatedTemplate()
    ensures Placeholder("total") + "/{total}" == "{total}/{total}"
  {
    DefaultPlaceholders();
    assert "{total}" + "/{total}" == "{total}/{total}" by {}
  }

  /** Only the first occurrence of a placeholder is filled in. */
  lemma LegendFirstOccurrenceOnly()
    ensures RenderLegend("{total}/{total}", "current_progress", "total", Int(40), Int(200)) == "200/{total}"
  {
    var template := "{total}/{total}";
    assert |Placeholder("current_progress")| > |template|;
    RepeatedTemplate();
    FillAtStart("/{total}", "total", "200");
    DecimalsOfExample();
    assert "200" + "/{total}" == "200/{total}" by {}
  }
}
