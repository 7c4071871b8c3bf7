/**
 Markdown delimiters sized against the text they hold (tools/sweep_filing.py), read back by the rules
 of CommonMark 0.31: code spans (section 6.1) and fenced code blocks (section 4.5).
 */
module Delimiters {
  import opened PyText

  // -- Backtick runs -----------------------------------------------------------------------------

  function Ticks(n: nat): (r: string)
    ensures |r| == n && forall k :: 0 <= k < n ==> r[k] == '`'
  {
    seq(n, i => '`')
  }

  predicate TicksAt(s: string, i: nat, n: nat) {
    i + n <= |s| && forall k :: i <= k < i + n ==> s[k] == '`'
  }

  /** The length of the run of backticks that starts at `i`. */
  function RunLength(s: string, i: nat): (n: nat)
    requires i <= |s|
    ensures TicksAt(s, i, n)
    ensures i + n < |s| ==> s[i + n] != '`'
    decreases |s| - i
  {
    if i < |s| && s[i] == '`' then 1 + RunLength(s, i + 1) else 0
  }

  /** The longest run of backticks from `i` on. */
  function LongestFrom(s: string, i: nat): (n: nat)
    requires i <= |s|
    ensures forall q: nat, k: nat :: i <= q && TicksAt(s, q, k) && k > 0 ==> k <= n
    decreases |s| - i
  {
    if i == |s| then 0
    else
      var here, later := RunLength(s, i), LongestFrom(s, i + 1);
      if here > later then here else later
  }

  function Longest(s: string): (n: nat)
    ensures forall q: nat, k: nat :: TicksAt(s, q, k) && k > 0 ==> k <= n
  {
    LongestFrom(s, 0)
  }

  /** `_fence`: at least one tick longer than any run inside. */
  function Fence(text: string, minimum: nat): (r: string)
    ensures |r| > Longest(text) && |r| >= minimum && r == Ticks(|r|)
  {
    Ticks(if minimum > Longest(text) + 1 then minimum else Longest(text) + 1)
  }

  /** `_inline`: one code span. */
  function Padding(text: string): string {
    if text != "" && (text[0] == '`' || text[|text| - 1] == '`') then " " else ""
  }

  function Inline(text: string): string {
    Fence(text, 1) + Padding(text) + text + Padding(text) + Fence(text, 1)
  }

  /** `_block`: a fenced block. */
  function FencedBlock(text: string, language: string): string {
    Fence(text, 3) + language + "\n" + text + "\n" + Fence(text, 3)
  }

  // -- Code spans, read by CommonMark ------------------------------------------------------------

  /** A backtick string of exactly `n` ticks, neither preceded nor followed by another. */
  predicate ExactRun(s: string, p: nat, n: nat) {
    TicksAt(s, p, n) && (p > 0 ==> s[p - 1] != '`') && (p + n < |s| ==> s[p + n] != '`')
  }

  /** Where the first backtick string of exactly `n` ticks at or after `p` starts. */
  function Closer(s: string, p: nat, n: nat): (r: Option<nat>)
    requires p <= |s|
    ensures r.Some? ==> p <= r.value && ExactRun(s, r.value, n)
    ensures forall q :: p <= q && ExactRun(s, q, n) ==> r.Some? && r.value <= q
    decreases |s| - p
  {
    if ExactRun(s, p, n) then Some(p) else if p == |s| then None else Closer(s, p + 1, n)
  }

  predicate IsNewline(c: char) {
    c == '\n' || c == '\r'
  }

  function NewlinesToSpaces(s: string): (r: string)
    ensures |r| <= |s|
    ensures r == s <==> forall k :: 0 <= k < |s| ==> !IsNewline(s[k])
    ensures forall k :: 0 <= k < |r| ==> !IsNewline(r[k])
  {
    if s == "" then ""
    else if s[0] == '\r' && |s| > 1 && s[1] == '\n' then " " + NewlinesToSpaces(s[2..])
    else
      assert s == [s[0]] + s[1..];
      [if IsNewline(s[0]) then ' ' else s[0]] + NewlinesToSpaces(s[1..])
  }

  predicate AllSpaces(s: string) {
    forall k :: 0 <= k < |s| ==> s[k] == ' '
  }

  predicate SpacedOut(s: string) {
    |s| >= 2 && s[0] == ' ' && s[|s| - 1] == ' ' && !AllSpaces(s)
  }

  /** What a reader is shown of the text between the fences. */
  function Shown(raw: string): string {
    if SpacedOut(raw) then raw[1..|raw| - 1] else raw
  }

  /** The code span that opens `s`: its content and where it ends. */
  function CodeSpan(s: string): Option<(string, nat)>
    requires s != "" && s[0] == '`'
  {
    var n := RunLength(s, 0);
    match Closer(s, n, n)
    case None => None
    case Some(p) =>
      Some((Shown(NewlinesToSpaces(s[n..p])), p + n))
  }

  /** Ticks in the middle of a concatenation, seen from the middle part. */
  lemma TicksInside(a: string, b: string, c: string, q: nat, n: nat)
    requires |a| <= q && q + n <= |a| + |b|
    ensures TicksAt(a + b + c, q, n) <==> TicksAt(b, q - |a|, n)
  {
    var whole := a + b + c;
    assert forall k :: |a| <= k < |a| + |b| ==> whole[k] == b[k - |a|];
    if TicksAt(whole, q, n) {
      forall k | q - |a| <= k < q - |a| + n
        ensures b[k] == '`'
      {
        assert whole[k + |a|] == '`';
      }
    }
  }

  /**
   Inside `Inline(text)` and whatever follows it, no run of the fence's length starts before the
   closing fence.
   */
  lemma NoFenceInside(before: string, text: string, after: string, q: nat)
    requires var open := before + Fence(text, 1) + Padding(text);
             |open| <= q < |open| + |text|
    ensures !TicksAt(before + Inline(text) + after, q, |Fence(text, 1)|)
  {
    var fence, pad := Fence(text, 1), Padding(text);
    var open, close := before + fence + pad, pad + fence + after;
    var n, stop := |fence|, |open| + |text|;
    var whole := open + text + close;
    assert before + Inline(text) + after == whole;
    assert whole[stop - 1] == text[|text| - 1] && whole[stop] == close[0];
    if q + n <= stop {
      TicksInside(open, text, close, q, n);
    }
  }

  /** Where the parts of an inlined text lie. */
  lemma InlineParts(before: string, text: string, after: string)
    requires text != ""
    ensures var whole, n, pad := before + Inline(text) + after, |Fence(text, 1)|, |Padding(text)|;
            var start := |before| + n + pad;
            var stop := start + |text|;
            && start + |text| + pad + n <= |whole|
            && whole[start..stop] == text
            && TicksAt(whole, |before|, n) && TicksAt(whole, stop + pad, n)
            && whole[|before| + n] != '`' && whole[stop + pad - 1] != '`'
            && (pad == 1 ==> whole[start - 1] == ' ' && whole[stop] == ' ')
            && whole[stop + pad + n..] == after
  {
    var fence, pad := Fence(text, 1), Padding(text);
    assert before + Inline(text) + after == before + fence + pad + text + pad + fence + after;
  }

  predicate OneLine(s: string) {
    forall k :: 0 <= k < |s| ==> !IsNewline(s[k])
  }

  lemma RunIs(s: string, i: nat, n: nat)
    requires TicksAt(s, i, n) && (i + n < |s| ==> s[i + n] != '`')
    ensures RunLength(s, i) == n
  {
    assert TicksAt(s, i, RunLength(s, i));
  }

  /** No backtick string as long as the fence starts between the fences of an inlined text. */
  lemma NothingCloses(text: string, q: nat)
    requires text != ""
    requires |Fence(text, 1)| <= q < |Inline(text)| - |Fence(text, 1)|
    ensures !ExactRun(Inline(text), q, |Fence(text, 1)|)
  {
    hide Longest;
    var fence, pad := Fence(text, 1), Padding(text);
    assert Inline(text) == "" + Inline(text) + "";
    if |fence| + |pad| <= q < |fence| + |pad| + |text| {
      NoFenceInside("", text, "", q);
    } else {
      assert Inline(text)[q] == ' ';
    }
  }

  /** The two fences of an inlined text that stands alone. */
  lemma InlineEnds(text: string)
    requires text != ""
    ensures var whole, n := Inline(text), |Fence(text, 1)|;
            && |whole| >= 2 * n && whole != "" && whole[0] == '`'
            && TicksAt(whole, 0, n) && whole[n] != '`'
            && ExactRun(whole, |whole| - n, n)
            && whole[n..|whole| - n] == Padding(text) + text + Padding(text)
  {
    var fence, inner := Fence(text, 1), Padding(text) + text + Padding(text);
    assert Inline(text) == fence + inner + fence;
    assert inner[0] != '`' && inner[|inner| - 1] != '`';
    hide Fence, Padding, Inline, Longest;
  }

  /** The first closing fence of an inlined text is its own. */
  lemma InlineCloses(text: string)
    requires text != ""
    ensures RunLength(Inline(text), 0) == |Fence(text, 1)|
    ensures Closer(Inline(text), |Fence(text, 1)|, |Fence(text, 1)|) == Some(|Inline(text)| - |Fence(text, 1)|)
  {
    InlineEnds(text);
    hide Inline, Fence, Padding, ExactRun, RunLength;
    var whole, n := Inline(text), |Fence(text, 1)|;
    RunIs(whole, 0, n);
    forall q | n <= q < |whole| - n
      ensures !ExactRun(whole, q, n)
    {
      NothingCloses(text, q);
    }
  }

  /** What lies between the fences, once the line endings are spaces. */
  lemma InlineHolds(text: string)
    requires text != ""
    ensures CodeSpan(Inline(text)) ==
            Some((Shown(NewlinesToSpaces(Padding(text) + text + Padding(text))), |Inline(text)|))
  {
    hide *;
    var whole, n := Inline(text), |Fence(text, 1)|;
    InlineEnds(text);
    InlineCloses(text);
    SpanFrom(whole, n, |whole| - n);
  }

  /** The code span between an opening run and the first run that closes it. */
  lemma SpanFrom(s: string, n: nat, p: nat)
    requires s != "" && s[0] == '`' && n <= p && p + n <= |s|
    requires RunLength(s, 0) == n && Closer(s, n, n) == Some(p)
    ensures CodeSpan(s) == Some((Shown(NewlinesToSpaces(s[n..p])), p + n))
  {
    hide RunLength, Closer, NewlinesToSpaces, Shown;
  }

  lemma ShownText(text: string)
    requires text != ""
    ensures var inner := Padding(text) + text + Padding(text);
            Shown(NewlinesToSpaces(inner)) == text <==> OneLine(text) && !SpacedOut(text)
  {
    var pad := Padding(text);
    var inner := pad + text + pad;
    var raw := NewlinesToSpaces(inner);
    if OneLine(text) {
      assert raw == inner;
      if pad == " " {
        assert inner[1..|inner| - 1] == text;
        assert inner[1] == '`' || inner[|inner| - 2] == '`';
        assert SpacedOut(inner) && !SpacedOut(text);
      } else {
        assert inner == text;
      }
    } else {
      var k: nat :| k < |text| && IsNewline(text[k]);
      assert forall j :: 0 <= j < |Shown(raw)| ==> !IsNewline(Shown(raw)[j]);
    }
  }

  lemma EdgesMean(text: string)
    requires text != ""
    ensures OneLine(text) <==> '\n' !in text && '\r' !in text
    ensures SpacedOut(text) <==> text[0] == ' ' && text[|text| - 1] == ' ' && exists k :: 0 <= k < |text| && text[k] != ' '
  {
    if k :| 0 <= k < |text| && IsNewline(text[k]) {
      assert text[k] in text;
    }
  }

  /**
   A code span gives back the text it holds exactly when the text is non-empty, has no newline, and
   does not both start and end with a space (all spaces excepted).
   */
  lemma InlineReadsBack(text: string)
    ensures CodeSpan(Inline(text)) == Some((text, |Inline(text)|))
       <==> && text != "" && '\n' !in text && '\r' !in text
            && !(text[0] == ' ' && text[|text| - 1] == ' ' && exists k :: 0 <= k < |text| && text[k] != ' ')
  {
    if text == "" {
      assert Fence("", 1) == "`" && Inline(text) == "``";
      RunIs("``", 0, 2);
      assert Closer("``", 2, 2) == None;
    } else {
      InlineHolds(text);
      ShownText(text);
      EdgesMean(text);
      hide Inline, CodeSpan, NewlinesToSpaces, SpacedOut, OneLine, Shown;
    }
  }
}
