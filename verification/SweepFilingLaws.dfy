/** The filer's lines read back as what was written. */
module SweepFilingLaws {
  import opened PyText
  import TextLines
  import opened Delimiters
  import opened SweepFiling
  import opened SweepMutations
  import opened Verdicts

  // -- One span ----------------------------------------------------------------------------------

  /** The values a span gives back: non-empty, no newline, and no edge space the pattern would swallow. */
  predicate Readable(x: string) {
    && x != "" && '\n' !in x
    && (Padding(x) == "" ==> x[0] != ' ' && x[|x| - 1] != ' ')
  }

  /** What may follow a span: nothing, a final newline for `$`, or the opening of the seconds. */
  lemma FollowsMeans(s: string, p: nat)
    requires p <= |s|
    ensures Follows(s, p, Full) <==> s[p..] == ""
    ensures Follows(s, p, Dollar) <==> s[p..] == "" || s[p..] == "\n"
    ensures Follows(s, p, ParenOrDollar) <==> s[p..] == "" || s[p..] == "\n" || " (" <= s[p..]
  {
    assert |s| - p >= 1 ==> s[p..][0] == s[p];
    assert |s| - p >= 2 ==> s[p..][1] == s[p + 1];
  }

  /** An inlined value in its line: fence at `i`, value from `start` to `stop`, `pad` spaces around it. */
  predicate Laid(s: string, i: nat, n: nat, pad: nat, start: nat, stop: nat, follow: Follow) {
    && n > 0 && pad <= 1 && start == i + n + pad && start < stop && stop + pad + n <= |s|
    && TicksAt(s, i, n) && s[i + n] != '`'
    && TicksAt(s, stop + pad, n) && Follows(s, stop + pad + n, follow)
    && (forall q :: start <= q < stop ==> !TicksAt(s, q, n))
    && (pad == 1 ==> s[start - 1] == ' ' && s[stop] == ' ')
    && (forall k :: start <= k < stop ==> s[k] != '\n')
  }

  lemma FirstClosing(s: string, i: nat, n: nat, pad: nat, start: nat, stop: nat, follow: Follow)
    requires Laid(s, i, n, pad, start, stop, follow)
    requires pad == 0 ==> s[start] != ' ' && s[stop - 1] != ' '
    ensures ClosesAt(s, stop, n, follow)
    ensures forall e: nat :: start < e < stop ==> !ClosesAt(s, e, n, follow)
  {
    hide Follows;
    assert pad == 1 ==> !TicksAt(s, stop, n) by {
      assert pad == 1 ==> s[stop] == ' ';
    }
    forall e: nat | start < e < stop
      ensures !ClosesAt(s, e, n, follow)
    {
      assert !TicksAt(s, e, n);
      assert e + 1 < stop ==> !TicksAt(s, e + 1, n);
    }
  }

  /** A span whose value ends at `stop`, its padding space taken where there is one. */
  lemma SpanByEnd(s: string, i: nat, n: nat, start: nat, stop: nat, follow: Follow)
    requires i <= |s| && RunLength(s, i) == n > 0
    requires start < stop <= |s| && ValueEnd(s, start + 1, n, follow) == Some(stop)
    requires (start == i + n && s[start] != ' ') || (start == i + n + 1 && s[i + n] == ' ')
    ensures MatchSpan(s, i, follow) == Some(s[start..stop])
  {
    hide RunLength, ValueEnd;
  }

  lemma LaidSpan(s: string, i: nat, n: nat, pad: nat, start: nat, stop: nat, follow: Follow)
    requires Laid(s, i, n, pad, start, stop, follow)
    requires pad == 0 ==> s[start] != ' ' && s[stop - 1] != ' '
    ensures MatchSpan(s, i, follow) == Some(s[start..stop])
  {
    hide Follows, ClosesAt, TicksAt, RunLength, MatchSpan, ValueEnd;
    RunIs(s, i, n);
    FirstClosing(s, i, n, pad, start, stop, follow);
    assert ValueEnd(s, start + 1, n, follow) == Some(stop);
    SpanByEnd(s, i, n, start, stop, follow);
  }

  /** An edge space of an unpadded value is taken as padding: the span then reads back as something shorter. */
  lemma LaidSpanMisses(s: string, i: nat, n: nat, start: nat, stop: nat, follow: Follow)
    requires Laid(s, i, n, 0, start, stop, follow)
    requires stop - start > 1 && (s[start] == ' ' || s[stop - 1] == ' ')
    ensures MatchSpan(s, i, follow).Some? && |MatchSpan(s, i, follow).value| < stop - start
  {
    hide *;
    LaidFits(s, i, n, 0, start, stop, follow);
    var from := if s[start] == ' ' then start + 1 else start;
    var e := ClosesInside(s, i, n, start, stop, follow);
    SpanByEnd(s, i, n, from, e, follow);
  }

  /** The first place the span closes at when an edge space of its value is taken for padding. */
  lemma ClosesInside(s: string, i: nat, n: nat, start: nat, stop: nat, follow: Follow) returns (e: nat)
    requires Laid(s, i, n, 0, start, stop, follow)
    requires stop - start > 1 && (s[start] == ' ' || s[stop - 1] == ' ')
    ensures i <= |s| && RunLength(s, i) == n > 0 && start == i + n && stop <= |s|
    ensures var from := if s[start] == ' ' then start + 1 else start;
            from < e <= stop && (s[start] != ' ' ==> e < stop) && ValueEnd(s, from + 1, n, follow) == Some(e)
  {
    RunIs(s, i, n);
    hide Follows, RunLength;
    assert ClosesAt(s, stop, n, follow);
    assert s[start] != ' ' ==> ClosesAt(s, stop - 1, n, follow);
    hide ClosesAt, TicksAt;
    e := ValueEnd(s, if s[start] == ' ' then start + 2 else start + 1, n, follow).value;
  }

  lemma InlineIsLaid(before: string, x: string, after: string, follow: Follow)
    requires x != "" && '\n' !in x
    requires Follows(before + Inline(x) + after, |before| + |Inline(x)|, follow)
    ensures var n, pad := |Fence(x, 1)|, |Padding(x)|;
            var start := |before| + n + pad;
            && Laid(before + Inline(x) + after, |before|, n, pad, start, start + |x|, follow)
            && (before + Inline(x) + after)[start..start + |x|] == x
  {
    var whole, n, pad := before + Inline(x) + after, |Fence(x, 1)|, |Padding(x)|;
    var start := |before| + n + pad;
    var stop := start + |x|;
    InlineParts(before, x, after);
    assert |Inline(x)| == n + pad + |x| + pad + n;
    forall q | start <= q < stop
      ensures !TicksAt(whole, q, n)
    {
      NoFenceInside(before, x, after, q);
    }
    hide Inline, Fence, Padding, Follows, TicksAt;
    forall k | start <= k < stop
      ensures whole[k] != '\n'
    {
      assert whole[k] == whole[start..stop][k - start];
    }
  }

  /** The value's first and last characters, seen from its line. */
  lemma Edges(whole: string, start: nat, x: string)
    requires x != "" && start + |x| <= |whole| && whole[start..start + |x|] == x
    ensures whole[start] == x[0] && whole[start + |x| - 1] == x[|x| - 1]
  {
    assert whole[start..start + |x|][0] == x[0];
    assert whole[start..start + |x|][|x| - 1] == x[|x| - 1];
  }

  /** Where an inlined value lies, and whether an edge of it may be taken for padding. */
  lemma LaidEdges(before: string, x: string, after: string, follow: Follow) returns (n: nat, pad: nat, start: nat)
    requires x != "" && '\n' !in x
    requires Follows(before + Inline(x) + after, |before| + |Inline(x)|, follow)
    ensures var whole := before + Inline(x) + after;
            && Laid(whole, |before|, n, pad, start, start + |x|, follow) && whole[start..start + |x|] == x
            && (Readable(x) <==> (pad == 0 ==> whole[start] != ' ' && whole[start + |x| - 1] != ' '))
  {
    hide *;
    n, pad := |Fence(x, 1)|, |Padding(x)|;
    start := |before| + n + pad;
    InlineIsLaid(before, x, after, follow);
    LaidFits(before + Inline(x) + after, |before|, n, pad, start, start + |x|, follow);
    Edges(before + Inline(x) + after, start, x);
    ReadableEdges(x);
  }

  lemma LaidFits(s: string, i: nat, n: nat, pad: nat, start: nat, stop: nat, follow: Follow)
    requires Laid(s, i, n, pad, start, stop, follow)
    ensures start < stop <= |s|
  {
    hide TicksAt, Follows;
  }

  lemma ReadableEdges(x: string)
    requires x != "" && '\n' !in x
    ensures Readable(x) <==> (|Padding(x)| == 0 ==> x[0] != ' ' && x[|x| - 1] != ' ')
  {
    hide Padding;
  }

  /** On the line that follows a span, a tick that could close one: the line or a bracket follows it. */
  predicate TickFollows(after: string, follow: Follow) {
    exists k :: 0 <= k < |after| && after[k] == '`' && Follows(after, k + 1, follow) && '\n' !in after[..k]
  }

  /**
   An inlined value is kept by its line: it is readable, or it is a lone space and no later tick closes
   the span the pattern opens by taking that space for padding.
   */
  predicate SpanKept(x: string, after: string, follow: Follow) {
    Readable(x) || (x == " " && !TickFollows(after, follow))
  }

  /** What may follow a place is the same, seen from a suffix that holds it. */
  lemma FollowsInSuffix(s: string, from: nat, p: nat, follow: Follow)
    requires from <= p <= |s|
    ensures Follows(s, p, follow) <==> Follows(s[from..], p - from, follow)
  {
  }

  /** A tick that closes, behind an offset, is one that closes on the rest of the line. */
  lemma LaterTickIff(s: string, from: nat, follow: Follow)
    requires 0 < from <= |s| && s[from - 1] != '\n'
    ensures ValueEnd(s, from, 1, follow).Some? <==> TickFollows(s[from..], follow)
  {
    hide *;
    if ValueEnd(s, from, 1, follow).Some? {
      TickIsLater(s, from, follow);
    }
    if TickFollows(s[from..], follow) {
      LaterTickEnds(s, from, follow);
    }
  }

  lemma TickIsLater(s: string, from: nat, follow: Follow)
    requires 0 < from <= |s| && ValueEnd(s, from, 1, follow).Some?
    ensures TickFollows(s[from..], follow)
  {
    var e := ValueEnd(s, from, 1, follow).value;
    hide Follows, ValueEnd;
    var k := LoneTick(s, e, follow);
    FollowsInSuffix(s, from, k + 1, follow);
    assert s[from..][k - from] == '`';
    NoNewlineTo(s, from, k);
  }

  lemma LaterTickEnds(s: string, from: nat, follow: Follow)
    requires 0 < from <= |s| && s[from - 1] != '\n' && TickFollows(s[from..], follow)
    ensures ValueEnd(s, from, 1, follow).Some?
  {
    var after := s[from..];
    var k: nat :| k < |after| && after[k] == '`' && Follows(after, k + 1, follow) && '\n' !in after[..k];
    FollowsInSuffix(s, from, from + k + 1, follow);
    hide Follows;
    assert s[from + k] == '`';
    assert ClosesAt(s, from + k, 1, follow);
    forall j | from - 1 <= j < from + k
      ensures s[j] != '\n'
    {
      assert j >= from ==> s[j] == after[..k][j - from];
    }
  }

  /** Where one tick closes: here, or behind one space. */
  lemma LoneTick(s: string, e: nat, follow: Follow) returns (k: nat)
    requires e <= |s| && ClosesAt(s, e, 1, follow)
    ensures e <= k <= e + 1 && k < |s| && s[k] == '`' && Follows(s, k + 1, follow) && (k == e + 1 ==> s[e] == ' ')
  {
    hide Follows;
    k := if e < |s| && s[e] == ' ' && TicksAt(s, e + 1, 1) && Follows(s, e + 2, follow) then e + 1 else e;
  }

  lemma NoNewlineTo(s: string, from: nat, k: nat)
    requires from <= k <= |s| && forall j :: from <= j < k ==> s[j] != '\n'
    ensures '\n' !in s[from..][..k - from]
  {
  }

  lemma LoneSpace(before: string, after: string, follow: Follow)
    requires Follows(before + Inline(" ") + after, |before| + |Inline(" ")|, follow)
    ensures MatchSpan(before + Inline(" ") + after, |before|, follow) == Some(" ") <==> SpanKept(" ", after, follow)
  {
    var s, i := before + Inline(" ") + after, |before|;
    InlineParts(before, " ", after);
    assert Inline(" ") == "` `" by {
      assert Longest(" ") == 0;
    }
    assert s[i] == '`' && s[i + 1] == ' ' && s[i + 2] == '`' && s[i + 3..] == after;
    RunIs(s, i, 1);
    assert !Readable(" ");
    hide Follows, RunLength, Inline;
    assert ClosesAt(s, i + 2, 1, follow);
    hide ClosesAt, ValueEnd, MatchSpan, TickFollows;
    LoneSpaceSpan(s, i, follow);
    LaterTickIff(s, i + 3, follow);
  }

  lemma LoneSpaceSpan(s: string, i: nat, follow: Follow)
    requires i + 3 <= |s| && s[i + 1] == ' ' && s[i + 2] == '`' && RunLength(s, i) == 1
    requires ClosesAt(s, i + 2, 1, follow)
    ensures MatchSpan(s, i, follow) == Some(" ") <==> ValueEnd(s, i + 3, 1, follow).None?
  {
    hide ClosesAt, RunLength;
    var later := ValueEnd(s, i + 3, 1, follow);
    assert ValueEnd(s, i + 2, 1, follow) == Some(i + 2);
    assert s[i + 1..i + 2] == " ";
    hide ValueEnd;
    if later.Some? {
      assert s[i + 2..later.value][0] == '`';
    }
  }

  /** An inlined value reads back exactly when its line keeps it. */
  lemma SpanReadsBack(before: string, x: string, after: string, follow: Follow)
    requires Follows(before + Inline(x) + after, |before| + |Inline(x)|, follow)
    ensures MatchSpan(before + Inline(x) + after, |before|, follow) == Some(x) <==> SpanKept(x, after, follow)
  {
    hide Inline, MatchSpan, Follows, Padding, ValueEnd;
    if x == " " {
      LoneSpace(before, after, follow);
    } else if x != "" && '\n' !in x {
      var n, pad, start := LaidEdges(before, x, after, follow);
      var whole := before + Inline(x) + after;
      if Readable(x) {
        hide Laid, Readable;
        LaidSpan(whole, |before|, n, pad, start, start + |x|, follow);
      } else {
        assert pad == 0;
        assert |x| > 1 && (whole[start] == ' ' || whole[start + |x| - 1] == ' ') by {
          Edges(whole, start, x);
        }
        hide Laid, Readable;
        LaidSpanMisses(whole, |before|, n, start, start + |x|, follow);
      }
    }
  }

  /** Whatever one line holds, its span reads back as something. */
  lemma SpanReads(before: string, x: string, after: string, follow: Follow)
    requires Follows(before + Inline(x) + after, |before| + |Inline(x)|, follow) && x != "" && '\n' !in x
    ensures MatchSpan(before + Inline(x) + after, |before|, follow).Some?
  {
    hide Inline, MatchSpan, Follows, Padding, ValueEnd;
    var n, pad, start := LaidEdges(before, x, after, follow);
    var whole := before + Inline(x) + after;
    if Readable(x) {
      hide Laid, Readable;
      LaidSpan(whole, |before|, n, pad, start, start + |x|, follow);
    } else if |x| > 1 {
      assert pad == 0;
      Edges(whole, start, x);
      hide Laid, Readable;
      LaidSpanMisses(whole, |before|, n, start, start + |x|, follow);
    } else {
      Edges(whole, start, x);
      hide Readable, TicksAt;
      LoneReads(whole, |before|, n, start, follow);
    }
  }

  lemma LoneReads(s: string, i: nat, n: nat, start: nat, follow: Follow)
    requires Laid(s, i, n, 0, start, start + 1, follow)
    ensures MatchSpan(s, i, follow).Some?
  {
    RunIs(s, i, n);
    hide Follows;
    assert ClosesAt(s, start + 1, n, follow);
    hide ClosesAt, TicksAt, RunLength;
    assert ValueEnd(s, start + 1, n, follow).Some?;
  }

  lemma ValueForm(s: string, start: nat, n: nat, follow: Follow) returns (stop: nat)
    requires ValueFrom(s, start, n, follow).Some?
    ensures start < stop <= |s| && ValueFrom(s, start, n, follow).value == s[start..stop] && ClosesAt(s, stop, n, follow)
  {
    hide ClosesAt;
    stop := ValueEnd(s, start + 1, n, follow).value;
  }

  /** What follows a fence of `n` ticks that ends at `p`. */
  lemma AfterForm(s: string, p: nat, n: nat, follow: Follow) returns (start: nat, stop: nat)
    requires SpanAfter(s, p, n, follow).Some?
    ensures start < stop <= |s| && (start == p || (start == p + 1 && p < |s| && s[p] == ' '))
    ensures SpanAfter(s, p, n, follow).value == s[start..stop] && ClosesAt(s, stop, n, follow)
  {
    hide ClosesAt, ValueFrom;
    start := if p < |s| && s[p] == ' ' && ValueFrom(s, p + 1, n, follow).Some? then p + 1 else p;
    stop := ValueForm(s, start, n, follow);
  }

  /** How a span is read: its fence, where its value lies, and that the fence closes behind it. */
  lemma {:induction false} SpanForm(s: string, i: nat, n: nat, follow: Follow) returns (fence: nat, start: nat, stop: nat)
    requires i <= |s| && SpanFenced(s, i, n, follow).Some?
    ensures 1 <= fence <= n && start < stop <= |s|
    ensures start == i + fence || (start == i + fence + 1 && i + fence < |s| && s[i + fence] == ' ')
    ensures SpanFenced(s, i, n, follow).value == s[start..stop] && ClosesAt(s, stop, fence, follow)
  {
    hide SpanAfter, ClosesAt;
    if SpanAfter(s, i + n, n, follow).Some? {
      fence := n;
      start, stop := AfterForm(s, i + n, n, follow);
    } else {
      fence, start, stop := SpanForm(s, i, n - 1, follow);
    }
  }

  // -- Headings and verdict lines ----------------------------------------------------------------

  /** A heading reads back exactly when its path is readable or a lone space. */
  lemma HeadingReadsBack(path: string)
    ensures ParseHeading(ModuleHeading(path)) == Some(path) <==> Readable(path) || path == " "
  {
    var line := ModuleHeading(path);
    assert line == "### " + Inline(path) + "";
    assert "### " <= line;
    SpanReadsBack("### ", path, "", Dollar);
    if path == " " {
      LoneSpaceAlone(Dollar);
    }
  }

  lemma LoneSpaceAlone(follow: Follow)
    ensures SpanKept(" ", "", follow)
  {
  }

  /** A path of one line is read as some path; only an empty one is not read at all. */
  lemma HeadingReads(path: string)
    requires path != "" && '\n' !in path
    ensures ParseHeading(ModuleHeading(path)).Some?
  {
    var line := ModuleHeading(path);
    assert line == "### " + Inline(path) + "";
    assert "### " <= line;
    SpanReads("### ", path, "", Dollar);
  }

  lemma MarkHasStar(v: string)
    requires Contains(v, "** `")
    ensures '*' in v
  {
    var k := FindFrom(v, "** `", 0).value;
    assert v[k] == v[k..k + 4][0];
  }

  lemma KnownVerdictsArePlain(v: string)
    requires Known(v)
    ensures v != "" && v[0] != '`' && '\n' !in v && SingleLine(v) && !Contains(v, "** `")
  {
    assert forall c :: c in v ==> 'A' <= c <= 'Z' || 'a' <= c <= 'z' || c == '-';
    hide Known;
    if Contains(v, "** `") {
      MarkHasStar(v);
    }
  }

  /** No verdict field ends before `stop`, so the search starts over at `stop`. */
  lemma {:induction false} FieldSkips(line: string, v: nat, stop: nat)
    requires 4 < v <= stop && stop + 3 <= |line|
    requires forall k :: v - 1 <= k < stop ==> line[k] != '\n'
    requires forall k: nat :: v <= k < stop ==> !EndsField(line, k)
    ensures FieldAndLabel(line, v) == FieldAndLabel(line, stop)
    decreases stop - v
  {
    if v < stop {
      hide EndsField;
      FieldSkips(line, v + 1, stop);
    }
  }

  lemma FiveParts(a: string, b: string, c: string, d: string, e: string)
    ensures var s := a + b + c + d + e;
            && a <= s && s[|a|..|a| + |b|] == b && s[|a| + |b|..|a| + |b| + |c|] == c
            && s[|a| + |b| + |c| + |d|..] == e
  {
    var s := a + b + c + d + e;
    assert s == a + (b + c + d + e);
    assert s == (a + b) + (c + d + e);
    assert s == (a + b + c) + (d + e);
  }

  /** Where the parts of a verdict line lie. */
  lemma VerdictLineParts(o: Filed)
    ensures var line, stop := VerdictLine(o), 4 + |Rendered(o.verdict)|;
            && "- **" <= line && line[4..stop] == Rendered(o.verdict)
            && stop + 3 <= |line| && line[stop..stop + 3] == "** "
            && stop + 3 + |Inline(o.name)| <= |line|
            && Follows(line, stop + 3 + |Inline(o.name)|, ParenOrDollar)
  {
    var field, span, after := Rendered(o.verdict), Inline(o.name), VerdictTail(o.seconds, o.summary);
    var line := VerdictLine(o);
    assert line == "- **" + field + "** " + span + after;
    assert |after| >= 2 && after[0] == ' ' && after[1] == '(';
    hide Inline, Rendered, VerdictTail, VerdictLine;
    FiveParts("- **", field, "** ", span, after);
    var at := 7 + |field| + |span|;
    assert line[at] == line[at..][0] && line[at + 1] == line[at..][1];
  }

  /** The line keeps its label. */
  predicate LabelKept(o: Filed) {
    SpanKept(o.name, VerdictTail(o.seconds, o.summary), ParenOrDollar)
  }

  lemma AroundLabel(o: Filed) returns (before: string, after: string)
    ensures VerdictLine(o) == before + Inline(o.name) + after && |before| == 7 + |Rendered(o.verdict)|
    ensures LabelKept(o) <==> SpanKept(o.name, after, ParenOrDollar)
  {
    before, after := "- **" + Rendered(o.verdict) + "** ", VerdictTail(o.seconds, o.summary);
    hide SpanKept, Inline, VerdictTail, Rendered;
  }

  /** The label of a verdict line, read where it was written. */
  lemma LabelReadsBack(o: Filed)
    ensures MatchSpan(VerdictLine(o), 7 + |Rendered(o.verdict)|, ParenOrDollar) == Some(o.name) <==> LabelKept(o)
  {
    hide *;
    var before, after := AroundLabel(o);
    VerdictLineParts(o);
    SpanReadsBack(before, o.name, after, ParenOrDollar);
  }

  lemma NoTickNoSpan(s: string, i: nat, follow: Follow)
    requires i <= |s| && (i < |s| ==> s[i] != '`')
    ensures MatchSpan(s, i, follow) == None
  {
    RunIs(s, i, 0);
  }

  /** The verdict field ends before it was written to end: an emphasis mark inside it closes it on a span. */
  ghost predicate EndsEarly(o: Filed) {
    exists k: nat :: 5 <= k < 4 + |Rendered(o.verdict)| && EndsField(VerdictLine(o), k)
  }

  lemma FieldNotEnded(line: string, field: string, k: nat)
    requires |line| >= 7 + |field| && line[4..4 + |field|] == field && !Contains(field, "** `")
    requires line[4 + |field|..7 + |field|] == "** "
    requires 5 <= k < 4 + |field|
    ensures !EndsField(line, k)
  {
    var stop := 4 + |field|;
    if line[k..k + 3] == "** " {
      if k + 3 < stop && line[k + 3] == '`' {
        assert line[4..stop][k - 4..k] == line[k..k + 4];
        assert line[k..k + 4] == line[k..k + 3] + [line[k + 3]];
        OccursMeansContains(field, "** `", k - 4);
      } else {
        if stop <= k + 3 {
          assert line[k + 3] == line[stop..stop + 3][k + 3 - stop];
        }
        NoTickNoSpan(line, k + 3, ParenOrDollar);
      }
    }
  }

  /** A field with no emphasis mark before a tick, as every known verdict's, does not end early. */
  lemma NoMarkNoEarlyEnd(o: Filed)
    requires !Contains(Rendered(o.verdict), "** `")
    ensures !EndsEarly(o)
  {
    VerdictLineParts(o);
    hide EndsField, Contains, VerdictLine, Rendered;
    forall k: nat | 5 <= k < 4 + |Rendered(o.verdict)|
      ensures !EndsField(VerdictLine(o), k)
    {
      FieldNotEnded(VerdictLine(o), Rendered(o.verdict), k);
    }
  }

  /** A field that does not end early ends where it was written to end, or later. */
  lemma FieldUnbroken(o: Filed)
    requires !EndsEarly(o) && '\n' !in Rendered(o.verdict) && Rendered(o.verdict) != ""
    ensures FieldAndLabel(VerdictLine(o), 5) == FieldAndLabel(VerdictLine(o), 4 + |Rendered(o.verdict)|)
  {
    VerdictLineParts(o);
    var line, field := VerdictLine(o), Rendered(o.verdict);
    var stop := 4 + |field|;
    hide EndsField, FieldAndLabel, VerdictLine, Rendered;
    forall k | 4 <= k < stop
      ensures line[k] != '\n'
    {
      assert line[4..stop][k - 4] == line[k];
    }
    FieldSkips(line, 5, stop);
  }

  /** The first field found, and that it ends on a mark. */
  lemma {:induction false} FieldFound(line: string, v: nat)
    requires 4 < v && FieldAndLabel(line, v).Some?
    ensures var w := FieldAndLabel(line, v).value.0;
            && v <= w && EndsField(line, w) && MatchSpan(line, w + 3, ParenOrDollar) == Some(FieldAndLabel(line, v).value.1)
    ensures forall k: nat :: v <= k && EndsField(line, k) ==> FieldAndLabel(line, v).value.0 <= k
    decreases |line| - v
  {
    hide MatchSpan;
    if !EndsField(line, v) {
      FieldFound(line, v + 1);
    }
  }

  lemma SpansAreUnknown(x: string)
    ensures Inline(x) != "" && !Known(Inline(x))
  {
    assert Inline(x)[0] == '`';
    if Known(Inline(x)) {
      KnownVerdictsArePlain(Inline(x));
    }
  }

  // -- What a field of another length reads as ---------------------------------------------------

  /** Where the parts of an inlined value lie. */
  lemma SpanParts(x: string)
    requires x != ""
    ensures var span, n, pad := Inline(x), |Fence(x, 1)|, |Padding(x)|;
            && n >= 1 && pad <= 1 && |span| == n + pad + |x| + pad + n && span[n + pad..n + pad + |x|] == x
            && (forall k :: 0 <= k < n ==> span[k] == '`') && span[n] != '`'
            && (forall k :: |span| - n <= k < |span| ==> span[k] == '`')
            && (pad == 1 ==> n >= 2 && span[n] == ' ' && span[n + 1 + |x|] == ' ')
            && (pad == 0 ==> x[0] != '`')
  {
    var fence, pad := Fence(x, 1), Padding(x);
    PaddedHasTick(x);
    assert Inline(x) == fence + pad + x + pad + fence;
    assert x[0] != '`' || pad == " ";
    hide *;
    FiveParts(fence, pad, x, pad, fence);
  }

  lemma PaddedHasTick(x: string)
    requires x != ""
    ensures |Fence(x, 1)| >= 1 && (Padding(x) == "" || Padding(x) == " ") && (Padding(x) == " " ==> |Fence(x, 1)| >= 2)
  {
    if Padding(x) != "" {
      var at := if x[0] == '`' then 0 else |x| - 1;
      assert TicksAt(x, at, 1);
    }
    hide Longest;
  }

  /** A value that is read behind fewer ticks than it was written behind is all ticks and spaces. */
  lemma {:induction false} TicksAndSpaces(x: string, fence: nat, j: nat)
    requires x != "" && 0 < fence < |Fence(x, 1)| && j < |x| && |Padding(x)| == 1
    requires fence + |x| <= |Inline(x)| && Inline(x)[fence..fence + |x|] == x
    ensures x[j] == '`' || x[j] == ' '
  {
    SpanParts(x);
    var span, n := Inline(x), |Fence(x, 1)|;
    assert x[j] == span[fence..fence + |x|][j] == span[fence + j];
    if fence + j > n {
      var earlier := fence + j - n - 1;
      assert span[n + 1..n + 1 + |x|][earlier] == span[fence + j];
      TicksAndSpaces(x, fence, earlier);
    }
  }

  lemma FullCloses(t: string, stop: nat, fence: nat)
    requires ClosesAt(t, stop, fence, Full)
    ensures stop + fence <= |t| <= stop + fence + 1
    ensures forall k :: |t| - fence <= k < |t| ==> t[k] == '`'
  {
  }

  /** The run of ticks that opens the start of an inlined value. */
  lemma OpeningRun(x: string, m: nat)
    requires x != "" && m <= |Inline(x)|
    ensures RunLength(Inline(x)[..m], 0) <= |Fence(x, 1)|
  {
    SpanParts(x);
    var t, n := Inline(x)[..m], |Fence(x, 1)|;
    if m > n {
      assert t[n] != '`';
    }
  }

  /** How a text that is one span is read. */
  lemma FullForm(t: string, x: string) returns (fence: nat, start: nat, stop: nat)
    requires MatchSpan(t, 0, Full) == Some(x)
    ensures 1 <= fence <= RunLength(t, 0) && start < stop && stop == start + |x|
    ensures stop + fence <= |t| <= stop + fence + 1 && t[start..stop] == x
    ensures start == fence || (start == fence + 1 && t[fence] == ' ')
    ensures forall k :: |t| - fence <= k < |t| ==> t[k] == '`'
  {
    fence, start, stop := SpanForm(t, 0, RunLength(t, 0), Full);
    FullCloses(t, stop, fence);
    hide ClosesAt, SpanFenced, RunLength;
    assert |t[start..stop]| == stop - start;
  }

  /** Cut off at an emphasis mark inside it, an inlined value does not read back as the value. */
  lemma CutSpanMisses(x: string, m: nat)
    requires x != "" && m < |Inline(x)| && Inline(x)[m] == '*'
    ensures MatchSpan(Inline(x)[..m], 0, Full) != Some(x)
  {
    hide *;
    var t, n := Inline(x)[..m], |Fence(x, 1)|;
    if MatchSpan(t, 0, Full) == Some(x) {
      var fence, start, stop := FullForm(t, x);
      OpeningRun(x, m);
      CutSlice(Inline(x), m, start, stop);
      if fence < n {
        CutBehindFewer(x, m, fence, start);
      } else {
        var p := CutBehindAll(x, m, start, stop);
      }
    }
  }

  lemma CutSlice(s: string, m: nat, start: nat, stop: nat)
    requires start <= stop <= m <= |s|
    ensures s[..m][start..stop] == s[start..stop]
  {
  }

  lemma CutBehindFewer(x: string, m: nat, fence: nat, start: nat)
    requires x != "" && m < |Inline(x)| && 0 < fence < |Fence(x, 1)| && start + |x| <= m
    requires start == fence || (start == fence + 1 && Inline(x)[fence] == ' ')
    requires Inline(x)[start..start + |x|] == x
    ensures Inline(x)[m] != '*'
  {
    SpanParts(x);
    var span, n, pad := Inline(x), |Fence(x, 1)|, |Padding(x)|;
    assert span[fence] == '`' && start == fence;
    assert x[0] == span[start..start + |x|][0] == '`';
    hide Inline, Fence, Padding;
    if n + pad <= m < n + pad + |x| {
      TicksAndSpaces(x, fence, m - n - pad);
      assert span[m] == span[n + pad..n + pad + |x|][m - n - pad];
    }
  }

  /** A full fence that closes before the last one would reach over the padding space. */
  lemma CutBehindAll(x: string, m: nat, start: nat, stop: nat) returns (p: nat)
    requires x != "" && m < |Inline(x)| && |Fence(x, 1)| <= start && stop == start + |x|
    requires stop + |Fence(x, 1)| <= m <= stop + |Fence(x, 1)| + 1
    ensures m - |Fence(x, 1)| <= p < m && Inline(x)[p] != '`'
  {
    SpanParts(x);
    p := |Fence(x, 1)| + 1 + |x|;
    hide Inline, Fence, Padding;
  }

  /** Run on by three characters or more, it does not either. */
  lemma LongSpanMisses(x: string, t: string)
    requires x != "" && Inline(x) <= t && |t| >= |Inline(x)| + 3
    ensures MatchSpan(t, 0, Full) != Some(x)
  {
    hide MatchSpan, Inline, Fence, Padding;
    var n := |Fence(x, 1)|;
    SpanParts(x);
    assert t[n] == Inline(x)[n] != '`';
    assert RunLength(t, 0) <= n;
    hide RunLength;
    if MatchSpan(t, 0, Full) == Some(x) {
      var fence, start, stop := FullForm(t, x);
    }
  }

  // -- Where a verdict's span is cut -------------------------------------------------------------

  /** Two ticks apart on one line with a value between them, the second with what must follow. */
  predicate TicksAround(s: string, i: nat, k: nat, follow: Follow) {
    i + 2 <= k < |s| && s[i] == '`' && s[k] == '`' && Follows(s, k + 1, follow) && '\n' !in s[i + 1..k]
  }

  lemma {:induction false} OneTickDoes(s: string, i: nat, n: nat, follow: Follow)
    requires i + 1 <= |s| && n > 0 && ValueFrom(s, i + 1, 1, follow).Some?
    ensures SpanFenced(s, i, n, follow).Some?
  {
    hide ValueFrom;
    if n > 1 {
      hide SpanAfter;
      OneTickDoes(s, i, n - 1, follow);
    }
  }

  /** A span can be read wherever two such ticks stand, whatever the runs they belong to. */
  lemma SpanFound(s: string, i: nat, k: nat, follow: Follow)
    requires TicksAround(s, i, k, follow)
    ensures MatchSpan(s, i, follow).Some?
  {
    hide Follows;
    assert ClosesAt(s, k, 1, follow);
    forall j | i + 1 <= j < k
      ensures s[j] != '\n'
    {
      assert s[j] == s[i + 1..k][j - i - 1];
    }
    assert ValueEnd(s, i + 2, 1, follow).Some?;
    hide ValueEnd, ClosesAt, SpanFenced;
    OneTickDoes(s, i, RunLength(s, i), follow);
  }

  lemma LineShape(o: Filed)
    ensures VerdictLine(o)
            == "- **" + Rendered(o.verdict) + "** " + Inline(o.name) + VerdictTail(o.seconds, o.summary)
  {
    hide Rendered, Inline, VerdictTail;
  }

  lemma SpanOfOneLine(x: string)
    requires x != "" && '\n' !in x
    ensures |Inline(x)| >= 2 && Inline(x)[|Inline(x)| - 1] == '`' && '\n' !in Inline(x)
  {
    SpanParts(x);
    assert '\n' !in Inline(x);
    hide Inline, Fence, Padding;
  }

  /** The closing tick of the label, and that its line holds no newline up to there. */
  lemma LabelCloses(o: Filed) returns (k: nat)
    requires o.name != "" && '\n' !in o.name && '\n' !in Rendered(o.verdict)
    ensures var line := VerdictLine(o);
            && 7 + |Rendered(o.verdict)| < k < |line| && line[k] == '`' && Follows(line, k + 1, ParenOrDollar)
            && '\n' !in line[..k]
  {
    hide *;
    var field, span, tail := Rendered(o.verdict), Inline(o.name), VerdictTail(o.seconds, o.summary);
    k := 6 + |field| + |span|;
    VerdictLineParts(o);
    SpanOfOneLine(o.name);
    LineShape(o);
    SpanSlice("- **", field, "** ", span, tail);
    OneLineTo("- **", field, "** ", span, tail);
    LastOf(VerdictLine(o), 7 + |field|, span);
    ShorterIsOneLine(VerdictLine(o), k);
  }

  lemma LastOf(line: string, at: nat, part: string)
    requires part != "" && at + |part| <= |line| && line[at..at + |part|] == part
    ensures line[at + |part| - 1] == part[|part| - 1]
  {
    assert line[at..at + |part|][|part| - 1] == line[at + |part| - 1];
  }

  lemma ShorterIsOneLine(line: string, k: nat)
    requires k < |line| && '\n' !in line[..k + 1]
    ensures '\n' !in line[..k]
  {
    assert line[..k + 1][..k] == line[..k];
  }

  lemma SpanSlice(a: string, b: string, c: string, d: string, e: string)
    ensures var s := a + b + c + d + e;
            var at := |a| + |b| + |c|;
            at + |d| <= |s| && s[at..at + |d|] == d
  {
    assert a + b + c + d + e == (a + b + c) + d + e;
  }

  lemma OneLineTo(a: string, b: string, c: string, d: string, e: string)
    requires '\n' !in a && '\n' !in b && '\n' !in c && '\n' !in d
    ensures '\n' !in (a + b + c + d + e)[..|a| + |b| + |c| + |d|]
  {
    assert (a + b + c + d + e)[..|a| + |b| + |c| + |d|] == a + b + c + d;
  }

  /** Once a label can be read, an emphasis mark before a tick, anywhere in the field, ends the field there. */
  lemma EndsEarlyIff(o: Filed)
    requires o.name != "" && '\n' !in o.name && '\n' !in Rendered(o.verdict) && !Known(o.verdict)
    ensures EndsEarly(o) <==> Contains(Rendered(o.verdict), "** `")
  {
    if Contains(Rendered(o.verdict), "** `") {
      MarkEndsField(o);
    } else {
      NoMarkNoEarlyEnd(o);
    }
  }

  lemma MarkEndsField(o: Filed)
    requires o.name != "" && '\n' !in o.name && '\n' !in Rendered(o.verdict) && !Known(o.verdict)
    requires Contains(Rendered(o.verdict), "** `")
    ensures EndsEarly(o)
  {
    hide *;
    var line, field := VerdictLine(o), Rendered(o.verdict);
    var p := MarkPosition(field);
    UnknownParts(o);
    var k := LabelCloses(o);
    MarkInLine(line, field, p);
    TickOpens(o.verdict);
    MarkNotFirst(field, p);
    RestOfLine(line, p + 7, k);
    EndsOnMark(line, p + 4, k);
    EarlyAt(o, p + 4);
  }

  lemma MarkPosition(field: string) returns (p: nat)
    requires Contains(field, "** `")
    ensures OccursAt(field, "** `", p)
  {
    p := FindFrom(field, "** `", 0).value;
  }

  lemma MarkInLine(line: string, field: string, p: nat)
    requires |line| >= 4 + |field| && line[4..4 + |field|] == field && OccursAt(field, "** `", p)
    ensures p + 4 <= |field| && line[p + 4..p + 7] == "** " && line[p + 7] == '`'
  {
    MarkChars(field, p);
    FieldChar(line, field, p);
    FieldChar(line, field, p + 1);
    FieldChar(line, field, p + 2);
    FieldChar(line, field, p + 3);
    hide *;
    assert line[p + 4..p + 7] == [line[p + 4], line[p + 5], line[p + 6]];
  }

  lemma FieldChar(line: string, field: string, j: nat)
    requires |line| >= 4 + |field| && line[4..4 + |field|] == field && j < |field|
    ensures line[4 + j] == field[j]
  {
    assert line[4..4 + |field|][j] == line[4 + j];
  }

  lemma MarkChars(field: string, p: nat)
    requires OccursAt(field, "** `", p)
    ensures p + 4 <= |field| && field[p] == '*' && field[p + 1] == '*' && field[p + 2] == ' ' && field[p + 3] == '`'
  {
    var mark := field[p..p + 4];
    assert field[p] == mark[0] && field[p + 1] == mark[1] && field[p + 2] == mark[2] && field[p + 3] == mark[3];
  }

  lemma TickOpens(verdict: string)
    ensures Inline(verdict) != "" && Inline(verdict)[0] == '`'
  {
  }

  lemma MarkNotFirst(field: string, p: nat)
    requires field != "" && field[0] == '`' && OccursAt(field, "** `", p)
    ensures p >= 1
  {
    MarkChars(field, p);
  }

  lemma RestOfLine(line: string, i: nat, k: nat)
    requires i + 1 <= k <= |line| && '\n' !in line[..k]
    ensures '\n' !in line[i + 1..k]
  {
    forall j | i + 1 <= j < k
      ensures line[j] != '\n'
    {
      assert line[j] == line[..k][j];
    }
  }

  lemma EndsOnMark(line: string, v: nat, k: nat)
    requires v + 5 <= k < |line| && line[v..v + 3] == "** " && line[v + 3] == '`' && line[k] == '`'
    requires Follows(line, k + 1, ParenOrDollar) && '\n' !in line[v + 4..k]
    ensures EndsField(line, v)
  {
    hide Follows, MatchSpan;
    SpanFound(line, v + 3, k, ParenOrDollar);
  }

  lemma EarlyAt(o: Filed, k: nat)
    requires 5 <= k < 4 + |Rendered(o.verdict)| && EndsField(VerdictLine(o), k)
    ensures EndsEarly(o)
  {
    hide EndsField, VerdictLine, Rendered;
  }

  // -- The whole line ----------------------------------------------------------------------------

  /** The verdict can be told from the line: it is known, or its span reads back as it. */
  predicate VerdictKept(verdict: string) {
    Known(verdict) || Readable(verdict) || verdict == " "
  }

  /** A longer field that starts as a known verdict does is neither a known verdict nor a code span. */
  lemma LongerField(line: string, verdict: string, v: nat)
    requires Known(verdict) && |line| >= 5 + |verdict| && line[4..4 + |verdict|] == verdict && line[4 + |verdict|] == '*'
    requires "- **" <= line && 4 + |verdict| < v <= |line| && FieldAndLabel(line, 5).Some?
    requires FieldAndLabel(line, 5).value.0 == v
    ensures ParseVerdictLine(line) == None
  {
    KnownVerdictsArePlain(verdict);
    var field := line[4..v];
    assert field[0] == line[4..4 + |verdict|][0] && field[|verdict|] == '*';
    if Known(field) {
      StarIsUnknown(field, |verdict|);
    }
    NoTickNoSpan(field, 0, Full);
    hide FieldAndLabel, MatchSpan, Known;
  }

  lemma StarIsUnknown(field: string, k: nat)
    requires k < |field| && field[k] == '*'
    ensures !Known(field)
  {
    if Known(field) {
      KnownLetters(field);
    }
  }

  lemma KnownLetters(v: string)
    requires Known(v)
    ensures forall k :: 0 <= k < |v| ==> 'A' <= v[k] <= 'Z' || 'a' <= v[k] <= 'z' || v[k] == '-'
  {
  }

  /** A line carrying a known verdict is read as that verdict, if it is read at all. */
  lemma KnownVerdictReads(o: Filed)
    requires Known(o.verdict)
    ensures ParseVerdictLine(VerdictLine(o)).Some? ==> ParseVerdictLine(VerdictLine(o)).value.0 == o.verdict
    ensures ParseVerdictLine(VerdictLine(o)) == Some((o.verdict, o.name)) <==> LabelKept(o)
  {
    hide *;
    var line, stop := VerdictLine(o), 4 + |o.verdict|;
    KnownParts(o);
    LabelReadsBack(o);
    NoMarkNoEarlyEnd(o);
    FieldUnbroken(o);
    if EndsField(line, stop) {
      assert line[stop - 1] == line[4..stop][|o.verdict| - 1];
      EndsInPlace(line, stop);
      KnownFieldReads(line, stop, MatchSpan(line, stop + 3, ParenOrDollar).value);
    } else if FieldAndLabel(line, 5).Some? {
      var w, name := FoundLate(o);
      assert line[stop] == line[stop..stop + 3][0];
      LongerField(line, o.verdict, w);
      NoFieldHere(line, stop);
    } else {
      NoFieldNoVerdict(line);
      NoFieldHere(line, stop);
    }
  }

  lemma KnownParts(o: Filed)
    requires Known(o.verdict)
    ensures var line, stop := VerdictLine(o), 4 + |o.verdict|;
            && Rendered(o.verdict) == o.verdict && o.verdict != "" && '\n' !in o.verdict && !Contains(o.verdict, "** `")
            && "- **" <= line && stop + 3 <= |line| && line[4..stop] == o.verdict && line[stop..stop + 3] == "** "
  {
    KnownVerdictsArePlain(o.verdict);
    VerdictLineParts(o);
    hide VerdictLine, Known, Contains;
  }

  lemma KnownFieldReads(line: string, v: nat, name: string)
    requires "- **" <= line && 4 <= v <= |line| && FieldAndLabel(line, 5) == Some((v, name)) && Known(line[4..v])
    ensures ParseVerdictLine(line) == Some((line[4..v], name))
  {
    hide FieldAndLabel, Known, MatchSpan;
  }

  /** Where the mark closes on no span, no label is read. */
  lemma NoFieldHere(line: string, v: nat)
    requires v + 3 <= |line| && line[v..v + 3] == "** " && !EndsField(line, v)
    ensures MatchSpan(line, v + 3, ParenOrDollar) == None
  {
    hide MatchSpan;
  }

  /** A field that ends where it was written to, with the label behind it. */
  lemma EndsInPlace(line: string, v: nat)
    requires 4 < v && EndsField(line, v) && v <= |line| && line[v - 1] != '\n'
    ensures v + 3 <= |line| && MatchSpan(line, v + 3, ParenOrDollar).Some?
    ensures FieldAndLabel(line, v) == Some((v, MatchSpan(line, v + 3, ParenOrDollar).value))
  {
    hide MatchSpan;
  }

  /** The span of an unknown verdict, read alone. */
  lemma SpanAlone(x: string)
    ensures MatchSpan(Inline(x), 0, Full) == Some(x) <==> Readable(x) || x == " "
  {
    assert "" + Inline(x) + "" == Inline(x);
    assert Follows(Inline(x), |Inline(x)|, Full);
    hide Inline, MatchSpan, Readable, Follows, ValueEnd;
    SpanReadsBack("", x, "", Full);
    if x == " " {
      LoneSpaceAlone(Full);
    }
  }

  /** A field of an unknown verdict opens with a tick, so it is read as a span or not at all. */
  lemma FieldIsSpan(o: Filed, w: nat, name: string)
    requires !Known(o.verdict) && 4 < w && FieldAndLabel(VerdictLine(o), 5) == Some((w, name))
    ensures w <= |VerdictLine(o)|
    ensures ParseVerdictLine(VerdictLine(o))
            == match MatchSpan(VerdictLine(o)[4..w], 0, Full) case None => None case Some(value) => Some((value, name))
  {
    VerdictLineParts(o);
    SpansAreUnknown(o.verdict);
    var line := VerdictLine(o);
    assert Rendered(o.verdict)[0] == '`';
    assert line[4] == line[4..4 + |Rendered(o.verdict)|][0];
    assert line[4..w][0] == '`';
    hide VerdictLine, Rendered, MatchSpan, FieldAndLabel;
    if Known(line[4..w]) {
      KnownVerdictsArePlain(line[4..w]);
    }
  }

  /** Where the field of an unknown verdict lies in its line. */
  lemma UnknownParts(o: Filed)
    requires !Known(o.verdict)
    ensures var line, field := VerdictLine(o), Inline(o.verdict);
            && Rendered(o.verdict) == field && field != ""
            && |line| >= 7 + |field| && line[4..4 + |field|] == field && line[4 + |field|..7 + |field|] == "** "
  {
    VerdictLineParts(o);
    SpansAreUnknown(o.verdict);
    hide VerdictLine, Inline;
  }

  lemma FoundEarly(o: Filed) returns (w: nat, name: string)
    requires EndsEarly(o) && FieldAndLabel(VerdictLine(o), 5).Some?
    ensures FieldAndLabel(VerdictLine(o), 5) == Some((w, name))
    ensures 5 <= w < 4 + |Rendered(o.verdict)| && w + 3 <= |VerdictLine(o)| && VerdictLine(o)[w..w + 3] == "** "
  {
    hide VerdictLine, Rendered, FieldAndLabel, MatchSpan;
    FieldFound(VerdictLine(o), 5);
    w, name := FieldAndLabel(VerdictLine(o), 5).value.0, FieldAndLabel(VerdictLine(o), 5).value.1;
  }

  lemma NotEarlier(o: Filed, w: nat)
    requires !EndsEarly(o) && 5 <= w && EndsField(VerdictLine(o), w)
    ensures 4 + |Rendered(o.verdict)| <= w
  {
    hide EndsField, VerdictLine, Rendered;
  }

  lemma MarkAt(line: string, w: nat)
    requires EndsField(line, w)
    ensures w + 3 <= |line| && line[w..w + 3] == "** "
  {
    hide MatchSpan;
  }

  lemma FoundLate(o: Filed) returns (w: nat, name: string)
    requires !EndsEarly(o) && FieldAndLabel(VerdictLine(o), 5).Some?
    requires !EndsField(VerdictLine(o), 4 + |Rendered(o.verdict)|)
    ensures FieldAndLabel(VerdictLine(o), 5) == Some((w, name))
    ensures 4 + |Rendered(o.verdict)| < w && w + 3 <= |VerdictLine(o)| && VerdictLine(o)[w..w + 3] == "** "
  {
    hide *;
    FieldFound(VerdictLine(o), 5);
    w, name := FieldAndLabel(VerdictLine(o), 5).value.0, FieldAndLabel(VerdictLine(o), 5).value.1;
    NotEarlier(o, w);
    MarkAt(VerdictLine(o), w);
  }

  lemma NoFieldNoVerdict(line: string)
    requires FieldAndLabel(line, 5).None?
    ensures ParseVerdictLine(line) == None
  {
  }

  lemma CutField(line: string, field: string, w: nat)
    requires |line| >= 4 + |field| && line[4..4 + |field|] == field && 4 <= w < 4 + |field|
    requires w + 3 <= |line| && line[w..w + 3] == "** "
    ensures line[4..w] == field[..w - 4] && field[w - 4] == '*'
  {
    assert field[w - 4] == line[4..4 + |field|][w - 4] == line[w] == line[w..w + 3][0];
    assert line[4..4 + |field|][..w - 4] == line[4..w];
  }

  lemma UnknownEndsEarly(o: Filed)
    requires !Known(o.verdict) && o.verdict != "" && EndsEarly(o)
    ensures ParseVerdictLine(VerdictLine(o)) != Some((o.verdict, o.name))
  {
    hide *;
    UnknownParts(o);
    if FieldAndLabel(VerdictLine(o), 5).Some? {
      var w, name := FoundEarly(o);
      FieldIsSpan(o, w, name);
      CutField(VerdictLine(o), Inline(o.verdict), w);
      CutSpanMisses(o.verdict, w - 4);
    } else {
      NoFieldNoVerdict(VerdictLine(o));
    }
  }

  lemma LongField(line: string, field: string, w: nat)
    requires |line| >= 7 + |field| && line[4..4 + |field|] == field && line[4 + |field|..7 + |field|] == "** "
    requires 4 + |field| < w && w + 3 <= |line| && line[w..w + 3] == "** "
    ensures field <= line[4..w] && |line[4..w]| >= |field| + 3
  {
    NextMark(line, 4 + |field|, w);
    assert line[4..w][..|field|] == line[4..4 + |field|];
  }

  lemma UnknownRunsOn(o: Filed)
    requires !Known(o.verdict) && o.verdict != "" && !EndsEarly(o)
    requires !EndsField(VerdictLine(o), 4 + |Rendered(o.verdict)|)
    ensures ParseVerdictLine(VerdictLine(o)) != Some((o.verdict, o.name))
  {
    hide *;
    UnknownParts(o);
    if FieldAndLabel(VerdictLine(o), 5).Some? {
      var w, name := FoundLate(o);
      FieldIsSpan(o, w, name);
      LongField(VerdictLine(o), Inline(o.verdict), w);
      LongSpanMisses(o.verdict, VerdictLine(o)[4..w]);
    } else {
      NoFieldNoVerdict(VerdictLine(o));
    }
  }

  /** Two marks in a row do not overlap. */
  lemma NextMark(line: string, stop: nat, w: nat)
    requires stop < w && stop + 3 <= |line| && w + 3 <= |line| && line[stop..stop + 3] == "** " && line[w..w + 3] == "** "
    ensures w >= stop + 3
  {
    assert line[w] == line[w..w + 3][0] && line[w + 1] == line[w..w + 3][1];
    assert line[stop + 1] == line[stop..stop + 3][1] && line[stop + 2] == line[stop..stop + 3][2];
  }

  lemma FieldIsOneLine(o: Filed)
    requires !Known(o.verdict) && '\n' !in o.verdict
    ensures '\n' !in Rendered(o.verdict)
  {
    assert '\n' !in Inline(o.verdict);
    hide Inline;
  }

  lemma UnknownEndsInPlace(o: Filed)
    requires !Known(o.verdict) && '\n' !in o.verdict && !EndsEarly(o)
    requires EndsField(VerdictLine(o), 4 + |Rendered(o.verdict)|)
    ensures ParseVerdictLine(VerdictLine(o)) == Some((o.verdict, o.name))
            <==> LabelKept(o) && (Readable(o.verdict) || o.verdict == " ")
  {
    hide *;
    var line, field := VerdictLine(o), Inline(o.verdict);
    var stop := 4 + |field|;
    UnknownParts(o);
    FieldIsOneLine(o);
    FieldUnbroken(o);
    LabelReadsBack(o);
    assert line[stop - 1] == line[4..stop][|field| - 1];
    EndsInPlace(line, stop);
    FieldIsSpan(o, stop, MatchSpan(line, stop + 3, ParenOrDollar).value);
    SpanAlone(o.verdict);
  }

  lemma SpanHoldsNoNewline(o: Filed)
    requires !Known(o.verdict) && (o.verdict == "" || '\n' in o.verdict)
    ensures ParseVerdictLine(VerdictLine(o)) != Some((o.verdict, o.name))
  {
    hide VerdictLine, MatchSpan, FieldAndLabel;
  }

  lemma UnknownVerdictReadsBack(o: Filed)
    requires !Known(o.verdict)
    ensures ParseVerdictLine(VerdictLine(o)) == Some((o.verdict, o.name))
            <==> LabelKept(o) && (Readable(o.verdict) || o.verdict == " ") && !EndsEarly(o)
  {
    if o.verdict == "" || '\n' in o.verdict {
      SpanHoldsNoNewline(o);
      assert !Readable(o.verdict) && o.verdict != " ";
    } else if EndsEarly(o) {
      UnknownEndsEarly(o);
    } else if EndsField(VerdictLine(o), 4 + |Rendered(o.verdict)|) {
      UnknownEndsInPlace(o);
    } else {
      UnknownRunsOn(o);
      VerdictLineParts(o);
      LabelReadsBack(o);
    }
  }

  lemma KeptIsOneLine(o: Filed)
    requires LabelKept(o)
    ensures o.name != "" && '\n' !in o.name
  {
    hide TickFollows;
  }

  /**
   A verdict line reads back, known verdict or not, exactly when its label is kept, its verdict is known
   or a span that reads back, and no emphasis mark stands before a tick inside that span.
   */
  lemma VerdictReadsBack(o: Filed)
    ensures ParseVerdictLine(VerdictLine(o)) == Some((o.verdict, o.name))
            <==> LabelKept(o) && VerdictKept(o.verdict) && !Contains(Rendered(o.verdict), "** `")
  {
    hide VerdictLine, ParseVerdictLine, LabelKept, Readable, EndsEarly, Rendered, Contains, Known;
    if Known(o.verdict) {
      KnownVerdictReads(o);
      KnownParts(o);
    } else {
      UnknownVerdictReadsBack(o);
      if LabelKept(o) && (Readable(o.verdict) || o.verdict == " ") {
        KeptIsOneLine(o);
        ReadableIsOneLine(o.verdict);
        FieldIsOneLine(o);
        EndsEarlyIff(o);
      }
    }
  }

  lemma ReadableIsOneLine(x: string)
    requires Readable(x) || x == " "
    ensures '\n' !in x
  {
  }

  // -- Which outcomes are listed where -----------------------------------------------------------

  /** The block handed a mutation of this label to the harness. */
  predicate Submitted(attempts: seq<Attempt>, name: string) {
    exists i :: 0 <= i < |attempts| && attempts[i].candidate.Some? && attempts[i].candidate.value.name == name
  }

  lemma {:induction false} HandedMeans(attempts: seq<Attempt>, name: string)
    ensures name in Handed(attempts) <==> Submitted(attempts, name)
  {
    if attempts != [] {
      HandedMeans(attempts[1..], name);
      assert forall i :: 0 < i < |attempts| ==> attempts[i] == attempts[1..][i - 1];
      if i :| 0 <= i < |attempts[1..]| && attempts[1..][i].candidate.Some? && attempts[1..][i].candidate.value.name == name {
        assert attempts[i + 1] == attempts[1..][i];
      }
    }
  }

  /** A filter keeps every copy of what it keeps. */
  lemma {:induction false} KeptCount(outcomes: seq<Filed>, keep: Filed -> bool, o: Filed)
    ensures multiset(Kept(outcomes, keep))[o] == if keep(o) then multiset(outcomes)[o] else 0
  {
    if outcomes != [] {
      KeptCount(outcomes[1..], keep, o);
      assert outcomes == [outcomes[0]] + outcomes[1..];
    }
  }

  /**
   Every copy of every outcome has one place: the control's are listed under the control, those of labels the
   block submitted under their modules, and all others as unattributed.
   */
  lemma SectionsMean(night: Night, o: Filed)
    ensures multiset(ControlsOf(night))[o] == if o.name == "__control__" then multiset(night.outcomes)[o] else 0
    ensures multiset(OrphansOf(night))[o]
         == if o.name != "__control__" && !Submitted(night.attempts, o.name) then multiset(night.outcomes)[o] else 0
  {
    hide Submitted, Handed, Kept;
    HandedMeans(night.attempts, o.name);
    KeptCount(night.outcomes, (o: Filed) => o.IsControl(), o);
    KeptCount(night.outcomes, (o: Filed) => !o.IsControl() && o.name !in Handed(night.attempts), o);
  }

  predicate NotAsked(a: Attempt) {
    a.candidate.None?
  }

  function BarrenAt(attempts: seq<Attempt>): set<nat> {
    set i: nat | i < |attempts| && NotAsked(attempts[i])
  }

  lemma BarrenGrows(attempts: seq<Attempt>)
    requires attempts != []
    ensures |BarrenAt(attempts)|
         == |BarrenAt(attempts[..|attempts| - 1])| + if NotAsked(attempts[|attempts| - 1]) then 1 else 0
  {
    hide NotAsked;
    var n := |attempts| - 1;
    var before := BarrenAt(attempts[..n]);
    assert BarrenAt(attempts) == if NotAsked(attempts[n]) then before + {n} else before;
  }

  lemma NoneBarren()
    ensures Barren([]) == |BarrenAt([])|
  {
  }

  /** The barren slots the header counts are those that were asked nothing. */
  lemma {:induction false} BarrenMeans(attempts: seq<Attempt>)
    ensures Barren(attempts) == |BarrenAt(attempts)|
    decreases |attempts|
  {
    hide *;
    if attempts == [] {
      NoneBarren();
    } else {
      BarrenMeans(attempts[..|attempts| - 1]);
      BarrenLast(attempts);
      BarrenGrows(attempts);
    }
  }

  lemma {:induction false} BarrenLast(attempts: seq<Attempt>)
    requires attempts != []
    ensures Barren(attempts)
         == Barren(attempts[..|attempts| - 1]) + if NotAsked(attempts[|attempts| - 1]) then 1 else 0
  {
    if |attempts| > 1 {
      BarrenLast(attempts[1..]);
      assert attempts[1..][..|attempts| - 2] == attempts[..|attempts| - 1][1..];
      hide NotAsked;
    }
  }

  function AskedAt(attempts: seq<Attempt>): set<nat> {
    set i: nat | i < |attempts| && !NotAsked(attempts[i])
  }

  lemma {:induction false} AskedOrBarren(attempts: seq<Attempt>)
    ensures |AskedAt(attempts)| + |BarrenAt(attempts)| == |attempts|
  {
    hide NotAsked;
    if attempts == [] {
      assert AskedAt(attempts) == {} && BarrenAt(attempts) == {};
    } else {
      var n := |attempts| - 1;
      AskedOrBarren(attempts[..n]);
      BarrenGrows(attempts);
      var before := AskedAt(attempts[..n]);
      assert AskedAt(attempts) == if NotAsked(attempts[n]) then before else before + {n};
    }
  }

  /** The header opens the body, and its lines give the run, the slots asked and barren, the exit and the commit. */
  lemma HeaderShows(night: Night)
    ensures HeaderItems(night) <= BodyItems(night)
    ensures "- **Run:** " + (night.on + " (run " + Decimal(night.run) + ")") in HeaderItems(night)
    ensures "- **Block:** " + (Decimal(|night.attempts|) + " module(s), " + Decimal(|AskedAt(night.attempts)|) + " mutated, "
                               + Decimal(|BarrenAt(night.attempts)|) + " barren") in HeaderItems(night)
    ensures "- **Reading:** " + night.detail in HeaderItems(night)
    ensures "- **Harness exit:** " + Signed(night.mutateExit) in HeaderItems(night)
    ensures night.commit.Some? ==> "- **Commit:** " + Inline(night.commit.value) in HeaderItems(night)
  {
    BarrenMeans(night.attempts);
    AskedOrBarren(night.attempts);
    hide Inline, Decimal, Barren, BarrenAt, AskedAt, ControlItems, ModuleItems, ReproduceItems, Dropped;
    assert Signed(|night.attempts| - Barren(night.attempts)) == Decimal(|AskedAt(night.attempts)|);
    HeaderParts(night);
    var items := HeaderItems(night);
    assert items[4] in items && items[5] in items && items[6] in items && items[7] in items;
    if night.commit.Some? {
      assert items[10] in items;
    }
  }

  lemma HeaderParts(night: Night)
    ensures var items := HeaderItems(night);
            && |items| >= 11
            && items[4] == "- **Run:** " + RunValue(night) && items[5] == "- **Block:** " + BlockValue(night.attempts)
            && items[6] == "- **Reading:** " + night.detail && items[7] == "- **Harness exit:** " + Signed(night.mutateExit)
            && (night.commit.Some? ==> items[10] == "- **Commit:** " + Inline(night.commit.value))
  {
    hide *;
    HeaderOrder(night);
    NamedLine("Run", RunValue(night), "- **Run:** ");
    NamedLine("Block", BlockValue(night.attempts), "- **Block:** ");
    NamedLine("Reading", night.detail, "- **Reading:** ");
    NamedLine("Harness exit", Signed(night.mutateExit), "- **Harness exit:** ");
    if night.commit.Some? {
      NamedLine("Commit", Inline(night.commit.value), "- **Commit:** ");
    }
  }

  lemma HeaderOrder(night: Night)
    ensures var items := HeaderItems(night);
            && |items| >= 11
            && items[4] == HeaderLine("Run", RunValue(night)) && items[5] == HeaderLine("Block", BlockValue(night.attempts))
            && items[6] == HeaderLine("Reading", night.detail)
            && items[7] == HeaderLine("Harness exit", Signed(night.mutateExit))
            && (night.commit.Some? ==> items[10] == HeaderLine("Commit", Inline(night.commit.value)))
  {
    hide Inline, Decimal, RunValue, BlockValue, Signed, HeaderLine, Dropped;
  }

  lemma NamedLine(name: string, value: string, opening: string)
    requires opening == "- **" + name + ":** "
    ensures HeaderLine(name, value) == opening + value
  {
  }

  /** The anchors dropped in a block are those dropped in its parts, down to each slot's own. */
  lemma {:induction false} DroppedAdds(a: seq<Attempt>, b: seq<Attempt>)
    ensures Dropped(a + b) == Dropped(a) + Dropped(b)
    ensures |a| == 1 ==> Dropped(a) == |a[0].generated.skipped|
  {
    if a == [] {
      assert a + b == b;
    } else {
      assert (a + b)[1..] == a[1..] + b;
      DroppedAdds(a[1..], b);
    }
  }

  // -- What a diff shows -------------------------------------------------------------------------

  lemma {:induction false} AllSingle(items: seq<string>)
    requires forall i :: 0 <= i < |items| ==> SingleLine(items[i])
    ensures TextLines.AllLines(items) == items
  {
    hide SplitLines, SingleLine;
    if items != [] {
      TextLines.SplitOne(items[0]);
      AllSingle(items[1..]);
      assert items == [items[0]] + items[1..];
    }
  }

  lemma MarkedIsSingle(marker: char, lines: seq<string>)
    requires marker == '-' || marker == '+'
    requires forall line :: line in lines ==> SingleLine(line)
    ensures |Marked(marker, lines)| == |lines|
    ensures forall i :: 0 <= i < |lines| ==> SingleLine(Marked(marker, lines)[i]) && Marked(marker, lines)[i] != ""
  {
    assert !IsLineBreak('-') && !IsLineBreak('+');
    hide IsLineBreak;
    forall i | 0 <= i < |lines|
      ensures SingleLine(Marked(marker, lines)[i])
    {
      assert lines[i] in lines;
    }
  }

  lemma {:induction false} JoinParts(a: seq<string>, b: seq<string>)
    requires a != [] && b != []
    ensures JoinLines(a) + "\n" + JoinLines(b) == JoinLines(a + b)
    decreases |a|
  {
    if |a| == 1 {
      assert (a + b)[1..] == b;
    } else {
      JoinParts(a[1..], b);
      assert (a + b)[1..] == a[1..] + b;
      assert a[0] + "\n" + JoinLines(a[1..]) + "\n" + JoinLines(b) == a[0] + "\n" + (JoinLines(a[1..]) + "\n" + JoinLines(b));
    }
  }

  lemma SomeLine(s: string)
    requires s != ""
    ensures SplitLines(s) != []
  {
  }

  /**
   The block a candidate shows holds, line by line, what it takes out behind a dash and what it puts in behind
   a plus.
   */
  lemma DiffShows(c: Candidate) returns (text: string)
    requires c.old_ != "" && c.new_ != ""
    ensures Diff(c) == FencedBlock(text, "diff")
    ensures var out, in_, lines := SplitLines(c.old_), SplitLines(c.new_), SplitLines(text);
            && |lines| == |out| + |in_|
            && (forall k :: 0 <= k < |out| ==> lines[k] == "-" + out[k])
            && forall k :: 0 <= k < |in_| ==> lines[|out| + k] == "+" + in_[k]
  {
    var out, in_ := SplitLines(c.old_), SplitLines(c.new_);
    SomeLine(c.old_);
    SomeLine(c.new_);
    text := JoinLines(Marked('-', out)) + "\n" + JoinLines(Marked('+', in_));
    assert Diff(c) == FencedBlock(text, "diff");
    hide SplitLines, JoinLines, SingleLine, FencedBlock;
    MarkedIsSingle('-', out);
    MarkedIsSingle('+', in_);
    hide Marked;
    JoinParts(Marked('-', out), Marked('+', in_));
    SplitsBack(Marked('-', out) + Marked('+', in_));
    MarkedAre(out, in_);
  }

  lemma SplitsBack(all: seq<string>)
    requires all != [] && forall i :: 0 <= i < |all| ==> SingleLine(all[i]) && all[i] != ""
    ensures SplitLines(JoinLines(all)) == all
  {
    hide SplitLines, JoinLines, SingleLine;
    var last := |all| - 1;
    assert all == all[..last] + [all[last]];
    TextLines.LinesOfBody(all[..last], all[last]);
    AllSingle(all);
  }

  lemma MarkedAre(out: seq<string>, in_: seq<string>)
    ensures var lines := Marked('-', out) + Marked('+', in_);
            && |lines| == |out| + |in_|
            && (forall k :: 0 <= k < |out| ==> lines[k] == "-" + out[k])
            && forall k :: 0 <= k < |in_| ==> lines[|out| + k] == "+" + in_[k]
  {
    assert ['-'] == "-" && ['+'] == "+";
    MarkedEach('-', out);
    MarkedEach('+', in_);
    hide Marked;
  }

  lemma MarkedEach(marker: char, lines: seq<string>)
    ensures |Marked(marker, lines)| == |lines| && forall k :: 0 <= k < |lines| ==> Marked(marker, lines)[k] == [marker] + lines[k]
  {
  }

  // -- Numbers -----------------------------------------------------------------------------------

  /** The number a run of digits stands for. */
  function Value(s: string): int {
    if s == "" then 0 else Value(s[..|s| - 1]) * 10 + (s[|s| - 1] as int - '0' as int)
  }

  lemma {:induction false} DecimalReads(n: nat)
    ensures Value(Decimal(n)) == n
  {
    var s := Decimal(n);
    if n >= 10 {
      DecimalReads(n / 10);
      assert s[..|s| - 1] == Decimal(n / 10);
      assert s[|s| - 1] as int - '0' as int == n % 10;
    } else {
      assert s[..0] == "" && Value("") == 0;
    }
  }

  /** A number is written with a minus exactly when it is negative, and its digits stand for it. */
  lemma SignedReads(n: int)
    ensures Signed(n) != "" && (Signed(n)[0] == '-' <==> n < 0)
    ensures n == if Signed(n)[0] == '-' then -Value(Signed(n)[1..]) else Value(Signed(n))
  {
    if n < 0 {
      DecimalReads(-n);
      assert Signed(n)[1..] == Decimal(-n);
    } else {
      DecimalReads(n);
      assert Decimal(n)[0] in Decimal(n);
    }
    hide Decimal;
  }

  // -- The end of a verdict line -----------------------------------------------------------------

  /** A verdict line ends in the seconds in brackets, and behind a dash in the summary, if there is one. */
  lemma TailShows(o: Filed) returns (at: nat)
    ensures var line := VerdictLine(o);
            && at <= |line| && line[..at] == "- **" + Rendered(o.verdict) + "** " + Inline(o.name)
            && if o.summary == "" then line[at..] == " (" + o.seconds + "s)"
               else line[at..] == " (" + o.seconds + "s) -- " + Inline(o.summary)
  {
    hide Rendered, Inline;
    var head := "- **" + Rendered(o.verdict) + "** " + Inline(o.name);
    at := |head|;
    var line := VerdictLine(o);
    assert line == head + VerdictTail(o.seconds, o.summary);
    assert (head + VerdictTail(o.seconds, o.summary))[at..] == VerdictTail(o.seconds, o.summary);
    assert " (" + o.seconds + "s) -- " + Inline(o.summary) == " (" + o.seconds + "s)" + (" -- " + Inline(o.summary));
  }
}
