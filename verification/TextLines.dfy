/** How `str.splitlines` sees a text put together from parts. */
module TextLines {
  import opened PyText

  predicate Ended(t: string) {
    t != "" && t[|t| - 1] == '\n'
  }

  lemma {:induction false} LineEndShift(t: string, b: string, j: nat)
    requires j <= |b|
    ensures LineEnd(t + b, |t| + j) == |t| + LineEnd(b, j)
    decreases |b| - j
  {
    if j < |b| {
      assert (t + b)[|t| + j] == b[j];
      if !IsLineBreak(b[j]) {
        hide IsLineBreak;
        LineEndShift(t, b, j + 1);
      }
    }
  }

  /** One step of `splitlines`: a line, and the lines after its break. */
  lemma LinesStep(s: string, from: nat, line: string, rest: seq<string>)
    requires from < |s|
    requires var e := LineEnd(s, from);
             line == s[from..e] && rest == if e == |s| then [] else LinesFrom(s, AfterBreak(s, e))
    ensures LinesFrom(s, from) == [line] + rest
  {
    var e := LineEnd(s, from);
    assert e == |s| ==> s[from..] == s[from..e];
    hide LineEnd, IsLineBreak, SingleLine, AfterBreak;
  }

  /** Breaks fall at the same places behind a prefix. */
  lemma BreakShift(t: string, b: string, e: nat)
    requires e < |b|
    ensures AfterBreak(t + b, |t| + e) == |t| + AfterBreak(b, e)
  {
    assert (t + b)[|t| + e] == b[e];
    assert e + 1 < |b| ==> (t + b)[|t| + e + 1] == b[e + 1];
  }

  lemma SliceShift(t: string, b: string, i: nat, j: nat)
    requires i <= j <= |b|
    ensures (t + b)[|t| + i..|t| + j] == b[i..j]
  {
  }

  lemma LinesDone(s: string)
    ensures LinesFrom(s, |s|) == []
  {
  }

  lemma {:induction false} LinesShift(t: string, b: string, j: nat)
    requires j <= |b|
    ensures LinesFrom(t + b, |t| + j) == LinesFrom(b, j)
    decreases |b| - j
  {
    hide *;
    var s := t + b;
    if j == |b| {
      LinesDone(s);
      LinesDone(b);
    } else {
      var e := LineEnd(b, j);
      var line, rest := b[j..e], if e == |b| then [] else LinesFrom(b, AfterBreak(b, e));
      LineEndShift(t, b, j);
      SliceShift(t, b, j, e);
      if e < |b| {
        BreakShift(t, b, e);
        LinesShift(t, b, AfterBreak(b, e));
      }
      LinesStep(b, j, line, rest);
      LinesStep(s, |t| + j, line, rest);
    }
  }

  lemma {:induction false} LineEndWithin(t: string, b: string, i: nat)
    requires Ended(t) && i < |t|
    ensures LineEnd(t + b, i) == LineEnd(t, i) < |t|
    decreases |t| - i
  {
    assert (t + b)[i] == t[i];
    if !IsLineBreak(t[i]) {
      LineEndWithin(t, b, i + 1);
    }
  }

  lemma BreakWithin(t: string, b: string, e: nat)
    requires Ended(t) && e < |t|
    ensures AfterBreak(t + b, e) == AfterBreak(t, e)
  {
    assert (t + b)[e] == t[e];
    assert e + 1 < |t| ==> (t + b)[e + 1] == t[e + 1];
  }

  lemma {:induction false} LinesPrefix(t: string, b: string, from: nat)
    requires Ended(t) && from <= |t|
    ensures LinesFrom(t + b, from) == LinesFrom(t, from) + LinesFrom(b, 0)
    decreases |t| - from
  {
    hide *;
    var s, more := t + b, LinesFrom(b, 0);
    if from == |t| {
      LinesShift(t, b, 0);
      LinesDone(t);
    } else {
      var e := LineEnd(t, from);
      LineEndWithin(t, b, from);
      var line, rest := t[from..e], LinesFrom(t, AfterBreak(t, e));
      assert s[from..e] == line;
      BreakWithin(t, b, e);
      LinesPrefix(t, b, AfterBreak(t, e));
      LinesStep(t, from, line, rest);
      LinesStep(s, from, line, rest + more);
      assert [line] + (rest + more) == ([line] + rest) + more;
    }
  }

  /** A text that ends in a newline is split on its own. */
  lemma SplitAppend(t: string, b: string)
    requires Ended(t)
    ensures SplitLines(t + b) == SplitLines(t) + SplitLines(b)
  {
    LinesPrefix(t, b, 0);
  }

  lemma {:induction false} NoBreakBefore(s: string, i: nat, stop: nat)
    requires i <= stop <= |s| && SingleLine(s[i..stop]) && (stop < |s| ==> IsLineBreak(s[stop]))
    ensures LineEnd(s, i) == stop
    decreases stop - i
  {
    if i < stop {
      assert s[i] == s[i..stop][0];
      assert s[i + 1..stop] == s[i..stop][1..];
      hide IsLineBreak;
      NoBreakBefore(s, i + 1, stop);
    }
  }

  /** A line with its newline, and a last line without one. */
  lemma SplitOne(x: string)
    requires SingleLine(x)
    ensures SplitLines(x + "\n") == [x]
    ensures x != "" ==> SplitLines(x) == [x]
  {
    var s := x + "\n";
    assert s[0..|x|] == x && x[0..|x|] == x;
    NoBreakBefore(s, 0, |x|);
    NoBreakBefore(x, 0, |x|);
    assert LinesFrom(s, 0) == [x] + LinesFrom(s, AfterBreak(s, |x|));
  }

  /** Every line of a text lies inside it. */
  lemma {:induction false} LinesLieWithin(s: string, from: nat, k: nat) returns (at: nat)
    requires from <= |s| && k < |LinesFrom(s, from)|
    ensures OccursAt(s, LinesFrom(s, from)[k], at)
    decreases |s| - from
  {
    var e := LineEnd(s, from);
    hide LineEnd, IsLineBreak;
    if k == 0 {
      at := from;
      assert e == |s| ==> s[from..] == s[from..|s|];
    } else {
      at := LinesLieWithin(s, AfterBreak(s, e), k - 1);
    }
  }

  /** The lines of several texts, one after another. */
  function AllLines(items: seq<string>): seq<string> {
    if items == [] then [] else SplitLines(items[0] + "\n") + AllLines(items[1..])
  }

  lemma {:induction false} LinesOfJoined(items: seq<string>)
    requires items != []
    ensures SplitLines(JoinLines(items) + "\n") == AllLines(items)
  {
    if |items| > 1 {
      var head, rest := items[0] + "\n", JoinLines(items[1..]) + "\n";
      LinesOfJoined(items[1..]);
      assert JoinLines(items) + "\n" == head + rest;
      hide SplitLines;
      SplitAppend(head, rest);
    }
  }

  lemma {:induction false} AllLinesAppend(a: seq<string>, b: seq<string>)
    ensures AllLines(a + b) == AllLines(a) + AllLines(b)
  {
    hide SplitLines;
    if a == [] {
      assert a + b == b;
    } else {
      assert (a + b)[0] == a[0] && (a + b)[1..] == a[1..] + b;
      AllLinesAppend(a[1..], b);
    }
  }

  /** A final line that is not blank needs no newline of its own. */
  lemma LinesOfBody(items: seq<string>, last: string)
    requires SingleLine(last) && last != ""
    ensures SplitLines(JoinLines(items + [last])) == AllLines(items + [last])
  {
    SplitOne(last);
    JoinLast(items, last);
    if items != [] {
      LinesOfJoined(items);
      AllLinesAppend(items, [last]);
      hide SplitLines;
      SplitAppend(JoinLines(items) + "\n", last);
      assert AllLines([last]) == [last];
    } else {
      assert items + [last] == [last];
    }
  }

  lemma {:induction false} JoinLast(items: seq<string>, last: string)
    ensures JoinLines(items + [last]) == if items == [] then last else JoinLines(items) + "\n" + last
  {
    if items == [] {
      assert items + [last] == [last];
    } else {
      assert (items + [last])[1..] == items[1..] + [last];
      JoinLast(items[1..], last);
    }
  }

  // -- Stripping ---------------------------------------------------------------------------------

  lemma {:induction false} RStripStops(s: string)
    requires s != "" && !IsSpace(s[0])
    ensures RStrip(s) != ""
  {
    if IsSpace(s[|s| - 1]) {
      RStripStops(s[..|s| - 1]);
    }
  }

  lemma StripKeeps(s: string)
    requires s != "" && !IsSpace(s[0])
    ensures Strip(s) != "" && Strip(s) <= s && Strip(s)[0] == s[0]
    ensures forall k :: |Strip(s)| <= k < |s| ==> IsSpace(s[k])
    ensures !IsSpace(s[|s| - 1]) ==> Strip(s) == s
  {
    assert LStrip(s) == s;
    RStripStops(s);
  }
}
