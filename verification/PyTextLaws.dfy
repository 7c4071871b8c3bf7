/** What the string operations of Python mean, by position. */
module PyTextLaws {
  import opened PyText

  // -- Order -------------------------------------------------------------------------------------

  /** The first `k` characters of two texts agree, and then one ends or the characters differ. */
  predicate PartAt(a: string, b: string, k: nat) {
    && k <= |a| && k <= |b| && (forall i :: 0 <= i < k ==> a[i] == b[i])
    && k < |b| && (k == |a| || a[k] < b[k])
  }

  /** A text is before another where, at the first character they do not share, it has ended or has the smaller one. */
  lemma {:induction false} BeforeMeans(a: string, b: string)
    ensures Before(a, b) <==> exists k: nat :: PartAt(a, b, k)
  {
    if b != "" && a != "" {
      BeforeMeans(a[1..], b[1..]);
      if a[0] == b[0] {
        if k: nat :| PartAt(a[1..], b[1..], k) {
          assert forall i :: 0 < i < k + 1 ==> a[i] == a[1..][i - 1] && b[i] == b[1..][i - 1];
          assert k < |a[1..]| ==> a[k + 1] == a[1..][k];
          assert b[k + 1] == b[1..][k];
          assert PartAt(a, b, k + 1);
        }
        if k: nat :| PartAt(a, b, k) {
          assert k > 0;
          assert PartAt(a[1..], b[1..], k - 1);
        }
      } else if a[0] < b[0] {
        assert PartAt(a, b, 0);
      }
    } else if b != "" {
      assert PartAt(a, b, 0);
    }
  }

  // -- Lines -------------------------------------------------------------------------------------

  /** Lines and what ends each of them, one after another. */
  function Spelled(lines: seq<string>, breaks: seq<string>): string
    requires |lines| == |breaks|
  {
    if lines == [] then "" else lines[0] + breaks[0] + Spelled(lines[1..], breaks[1..])
  }

  /** A line ends in CR LF or in one break character. */
  predicate Ending(x: string) {
    x == "\r\n" || (|x| == 1 && x[0] in {'\n', '\r', '\U{0B}', '\U{0C}', '\U{1C}', '\U{1D}', '\U{1E}', '\U{85}', '\U{2028}', '\U{2029}'})
  }

  predicate Unended(line: string) {
    forall i :: 0 <= i < |line| ==> !Ending([line[i]])
  }

  /**
   No line holds a break, each ends in one, the last perhaps in none if it is not empty, and no CR LF is
   taken for two breaks.
   */
  predicate Broken(lines: seq<string>, breaks: seq<string>) {
    && |lines| == |breaks|
    && (forall k :: 0 <= k < |lines| ==> Unended(lines[k]))
    && (forall k :: 0 <= k < |lines| - 1 ==> Ending(breaks[k]))
    && (lines != [] ==> Ending(breaks[|lines| - 1]) || (breaks[|lines| - 1] == "" && lines[|lines| - 1] != ""))
    && forall k :: 0 <= k < |lines| - 1 ==> !(breaks[k] == "\r" && lines[k + 1] == "" && breaks[k + 1] == "\n")
  }

  lemma SingleIsUnended(line: string)
    requires SingleLine(line)
    ensures Unended(line)
  {
    forall i | 0 <= i < |line|
      ensures !Ending([line[i]])
    {
      assert line[i] in line;
      BreaksEnd(line[i]);
    }
  }

  lemma BreaksEnd(c: char)
    ensures IsLineBreak(c) <==> Ending([c])
  {
  }

  /** The text opens with an LF of its own. */
  predicate OpensLF(lines: seq<string>, breaks: seq<string>) {
    |lines| == |breaks| > 0 && lines[0] == "" && breaks[0] == "\n"
  }

  /** `s[from..]` cut into lines, with what ends them. */
  lemma {:induction false} LinesFromMean(s: string, from: nat) returns (breaks: seq<string>)
    requires from <= |s|
    ensures Broken(LinesFrom(s, from), breaks) && s[from..] == Spelled(LinesFrom(s, from), breaks)
    ensures OpensLF(LinesFrom(s, from), breaks) <==> from < |s| && s[from] == '\n'
    decreases |s| - from
  {
    hide *;
    if from == |s| {
      breaks := [];
      NoLines(s);
    } else {
      var e := LineEnd(s, from);
      FirstLine(s, from);
      SingleIsUnended(s[from..e]);
      if e == |s| {
        breaks := [""];
        OneLine(s, from);
      } else {
        var next := AfterBreak(s, e);
        var rest := LinesFromMean(s, next);
        breaks := [s[e..next]] + rest;
        OneBreak(s, e);
        LineThenRest(s, from, e, next, LinesFrom(s, next), rest);
      }
    }
  }

  lemma NoLines(s: string)
    ensures Broken(LinesFrom(s, |s|), []) && s[|s|..] == Spelled(LinesFrom(s, |s|), [])
    ensures !OpensLF(LinesFrom(s, |s|), [])
  {
  }

  lemma FirstLine(s: string, from: nat)
    requires from < |s|
    ensures var e := LineEnd(s, from);
            && from <= e <= |s| && SingleLine(s[from..e]) && (e < |s| ==> IsLineBreak(s[e]))
            && (e < |s| ==> e < AfterBreak(s, e) <= |s|)
            && LinesFrom(s, from) == (if e == |s| then [s[from..e]] else [s[from..e]] + LinesFrom(s, AfterBreak(s, e)))
            && (s[from] == '\n' ==> e == from)
  {
    var e := LineEnd(s, from);
    assert IsLineBreak('\n');
    assert e == |s| ==> s[from..] == s[from..e];
    hide LinesFrom, AfterBreak, IsLineBreak, SingleLine;
  }

  lemma LineThenRest(s: string, from: nat, e: nat, next: nat, lines: seq<string>, breaks: seq<string>)
    requires from <= e < next <= |s| && Unended(s[from..e]) && Ending(s[e..next])
    requires Broken(lines, breaks) && s[next..] == Spelled(lines, breaks)
    requires OpensLF(lines, breaks) ==> s[e..next] != "\r"
    requires s[e..next] == "\n" <==> s[e] == '\n'
    requires s[from] == '\n' ==> e == from
    ensures Broken([s[from..e]] + lines, [s[e..next]] + breaks)
    ensures s[from..] == Spelled([s[from..e]] + lines, [s[e..next]] + breaks)
    ensures OpensLF([s[from..e]] + lines, [s[e..next]] + breaks) <==> s[from] == '\n'
  {
    hide Unended, Ending;
    BrokenCons(s[from..e], s[e..next], lines, breaks);
    SpelledCons(s[from..e], s[e..next], lines, breaks);
    hide Broken, Spelled;
    assert s[from..] == s[from..e] + s[e..next] + s[next..];
    assert s[from..e] == "" <==> e == from;
  }

  lemma OneLine(s: string, from: nat)
    requires from < |s| && Unended(s[from..|s|])
    ensures Broken([s[from..|s|]], [""]) && s[from..] == Spelled([s[from..|s|]], [""])
    ensures s[from] != '\n' && !OpensLF([s[from..|s|]], [""])
  {
    assert s[from..|s|][0] == s[from];
    assert Ending(['\n']) by {
      BreaksEnd('\n');
    }
    hide Unended, Ending;
    assert [s[from..|s|]][1..] == [] && [""][1..] == [];
    assert Spelled([], []) == "";
    assert s[from..|s|] + "" + "" == s[from..];
  }

  /** What ends a line, and that a lone CR is not half of a CR LF. */
  lemma OneBreak(s: string, e: nat)
    requires e < |s| && IsLineBreak(s[e])
    ensures var next := AfterBreak(s, e);
            && e < next <= |s| && Ending(s[e..next])
            && (s[e..next] == "\r" && next < |s| ==> s[next] != '\n')
            && (s[e..next] == "\n" <==> s[e] == '\n')
  {
    BreaksEnd(s[e]);
    var next := AfterBreak(s, e);
    assert next == e + 1 || next == e + 2;
    if next == e + 1 {
      assert s[e..next] == [s[e]];
    } else {
      assert s[e..next] == "\r\n";
    }
  }

  lemma BrokenCons(line: string, end: string, lines: seq<string>, breaks: seq<string>)
    requires Unended(line) && Ending(end) && Broken(lines, breaks)
    requires OpensLF(lines, breaks) ==> end != "\r"
    ensures Broken([line] + lines, [end] + breaks)
  {
    hide Unended, Ending;
    var all, ends := [line] + lines, [end] + breaks;
    assert forall k :: 0 < k < |all| ==> all[k] == lines[k - 1] && ends[k] == breaks[k - 1];
  }

  lemma SpelledCons(line: string, end: string, lines: seq<string>, breaks: seq<string>)
    requires |lines| == |breaks|
    ensures Spelled([line] + lines, [end] + breaks) == line + end + Spelled(lines, breaks)
  {
    assert ([line] + lines)[1..] == lines && ([end] + breaks)[1..] == breaks;
  }

  /** `s.splitlines()`: the text is its lines and their breaks, one after another. */
  lemma SplitLinesMeans(s: string) returns (breaks: seq<string>)
    ensures Broken(SplitLines(s), breaks) && s == Spelled(SplitLines(s), breaks)
  {
    breaks := LinesFromMean(s, 0);
    assert s[0..] == s;
    hide LinesFrom;
  }

  // -- Newlines ----------------------------------------------------------------------------------

  /** Pieces and the newlines between them, as written and as read. */
  function Rejoined(pieces: seq<string>, newlines: seq<string>): string
    requires |pieces| == |newlines| + 1
  {
    if newlines == [] then pieces[0] else pieces[0] + newlines[0] + Rejoined(pieces[1..], newlines[1..])
  }

  function Plain(n: nat): (r: seq<string>)
    ensures |r| == n && forall k :: 0 <= k < n ==> r[k] == "\n"
  {
    seq(n, i => "\n")
  }

  /** Pieces without newlines, and CR LF, CR or LF between them, no CR LF taken for two. */
  predicate Written(pieces: seq<string>, newlines: seq<string>) {
    && |pieces| == |newlines| + 1
    && (forall k :: 0 <= k < |pieces| ==> '\r' !in pieces[k] && '\n' !in pieces[k])
    && (forall k :: 0 <= k < |newlines| ==> newlines[k] in {"\r\n", "\r", "\n"})
    && forall k :: 0 <= k < |newlines| - 1 ==> !(newlines[k] == "\r" && pieces[k + 1] == "" && newlines[k + 1] == "\n")
  }

  lemma WrittenCons(p: string, newline: string, pieces: seq<string>, newlines: seq<string>)
    requires Written(pieces, newlines) && '\r' !in p && '\n' !in p && newline in {"\r\n", "\r", "\n"}
    requires newlines != [] && pieces[0] == "" && newlines[0] == "\n" ==> newline != "\r"
    ensures Written([p] + pieces, [newline] + newlines)
    ensures Rejoined([p] + pieces, [newline] + newlines) == p + newline + Rejoined(pieces, newlines)
    ensures Rejoined([p] + pieces, Plain(|newlines| + 1)) == p + "\n" + Rejoined(pieces, Plain(|newlines|))
  {
    var all, ends := [p] + pieces, [newline] + newlines;
    assert all[1..] == pieces && ends[1..] == newlines && Plain(|newlines| + 1)[1..] == Plain(|newlines|);
    assert forall k :: 0 < k < |all| ==> all[k] == pieces[k - 1];
    assert forall k :: 0 < k < |ends| ==> ends[k] == newlines[k - 1];
  }

  lemma RejoinedStep(pieces: seq<string>, newlines: seq<string>)
    requires |pieces| == |newlines| + 1 && newlines != []
    ensures Rejoined(pieces, newlines) == pieces[0] + (newlines[0] + Rejoined(pieces[1..], newlines[1..]))
  {
    var rest := Rejoined(pieces[1..], newlines[1..]);
    hide Rejoined;
    assert pieces[0] + newlines[0] + rest == pieces[0] + (newlines[0] + rest);
  }

  lemma Grouped(c: char, p: string, rest: string)
    ensures ([c] + p) + rest == [c] + (p + rest)
  {
  }

  lemma OnePiece(p: string)
    ensures Rejoined([p], []) == p
  {
  }

  lemma RejoinedLonger(c: char, pieces: seq<string>, newlines: seq<string>)
    requires |pieces| == |newlines| + 1
    ensures Rejoined([[c] + pieces[0]] + pieces[1..], newlines) == [c] + Rejoined(pieces, newlines)
  {
    hide *;
    var more := [[c] + pieces[0]] + pieces[1..];
    assert more[1..] == pieces[1..] && more[0] == [c] + pieces[0];
    if newlines == [] {
      assert more == [more[0]] && pieces == [pieces[0]];
      OnePiece(more[0]);
      OnePiece(pieces[0]);
    } else {
      RejoinedStep(more, newlines);
      RejoinedStep(pieces, newlines);
      Grouped(c, pieces[0], newlines[0] + Rejoined(pieces[1..], newlines[1..]));
    }
  }

  lemma WrittenLonger(c: char, pieces: seq<string>, newlines: seq<string>)
    requires Written(pieces, newlines) && c != '\r' && c != '\n'
    ensures Written([[c] + pieces[0]] + pieces[1..], newlines)
  {
    var more := [[c] + pieces[0]] + pieces[1..];
    assert forall k :: 0 < k < |more| ==> more[k] == pieces[k];
  }

  /** The text opens with an LF of its own. */
  predicate LFFirst(pieces: seq<string>, newlines: seq<string>) {
    |pieces| == |newlines| + 1 && newlines != [] && pieces[0] == "" && newlines[0] == "\n"
  }

  /** Universal newlines: every CR LF, CR and LF is read as one LF, and the text between them as it stands. */
  lemma {:induction false} TranslateMeans(s: string) returns (pieces: seq<string>, newlines: seq<string>)
    ensures |pieces| == |newlines| + 1 && Written(pieces, newlines) && s == Rejoined(pieces, newlines)
    ensures Translate(s) == Rejoined(pieces, Plain(|newlines|))
    ensures LFFirst(pieces, newlines) <==> s != "" && s[0] == '\n'
    decreases |s|
  {
    hide *;
    if s == "" {
      pieces, newlines := [""], [];
      NothingWritten();
    } else if s[0] == '\r' || s[0] == '\n' {
      var newline := if s[0] == '\n' then "\n" else if |s| > 1 && s[1] == '\n' then "\r\n" else "\r";
      var rest := s[|newline|..];
      var after, ends := TranslateMeans(rest);
      NewlineFirst(s, newline, after, ends);
      pieces, newlines := [""] + after, [newline] + ends;
    } else {
      var after, ends := TranslateMeans(s[1..]);
      CharacterFirst(s, after, ends);
      pieces, newlines := [[s[0]] + after[0]] + after[1..], ends;
    }
  }

  lemma NothingWritten()
    ensures Written([""], []) && "" == Rejoined([""], []) && Translate("") == Rejoined([""], Plain(0))
    ensures !LFFirst([""], [])
  {
  }

  lemma NewlineFirst(s: string, newline: string, pieces: seq<string>, newlines: seq<string>)
    requires s != "" && (s[0] == '\r' || s[0] == '\n')
    requires newline == if s[0] == '\n' then "\n" else if |s| > 1 && s[1] == '\n' then "\r\n" else "\r"
    requires |pieces| == |newlines| + 1 && Written(pieces, newlines) && s[|newline|..] == Rejoined(pieces, newlines)
    requires Translate(s[|newline|..]) == Rejoined(pieces, Plain(|newlines|))
    requires LFFirst(pieces, newlines) <==> s[|newline|..] != "" && s[|newline|..][0] == '\n'
    ensures Written([""] + pieces, [newline] + newlines) && s == Rejoined([""] + pieces, [newline] + newlines)
    ensures Translate(s) == Rejoined([""] + pieces, Plain(|newlines| + 1))
    ensures LFFirst([""] + pieces, [newline] + newlines) <==> s[0] == '\n'
  {
    hide *;
    TranslatedBreak(s, newline);
    LFIsFirst(pieces, newlines, newline);
    WrittenCons("", newline, pieces, newlines);
    Headless(newline, s[|newline|..]);
    Headless("\n", Translate(s[|newline|..]));
  }

  lemma Headless(newline: string, rest: string)
    ensures "" + newline + rest == newline + rest
  {
  }

  lemma LFIsFirst(pieces: seq<string>, newlines: seq<string>, newline: string)
    requires |pieces| == |newlines| + 1
    ensures LFFirst([""] + pieces, [newline] + newlines) <==> newline == "\n"
    ensures LFFirst(pieces, newlines) <==> newlines != [] && pieces[0] == "" && newlines[0] == "\n"
  {
  }

  lemma CharacterFirst(s: string, pieces: seq<string>, newlines: seq<string>)
    requires s != "" && s[0] != '\r' && s[0] != '\n'
    requires |pieces| == |newlines| + 1 && Written(pieces, newlines) && s[1..] == Rejoined(pieces, newlines)
    requires Translate(s[1..]) == Rejoined(pieces, Plain(|newlines|))
    ensures var more := [[s[0]] + pieces[0]] + pieces[1..];
            && Written(more, newlines) && s == Rejoined(more, newlines)
            && Translate(s) == Rejoined(more, Plain(|newlines|)) && !LFFirst(more, newlines)
  {
    hide *;
    TranslatedCharacter(s);
    WrittenLonger(s[0], pieces, newlines);
    RejoinedLonger(s[0], pieces, newlines);
    RejoinedLonger(s[0], pieces, Plain(|newlines|));
    NotLFFirst([[s[0]] + pieces[0]] + pieces[1..], newlines);
  }

  lemma NotLFFirst(pieces: seq<string>, newlines: seq<string>)
    requires pieces != [] && pieces[0] != ""
    ensures !LFFirst(pieces, newlines)
  {
  }

  lemma TranslatedCharacter(s: string)
    requires s != "" && s[0] != '\r'
    ensures Translate(s) == [s[0]] + Translate(s[1..]) && s == [s[0]] + s[1..]
  {
  }

  lemma TranslatedBreak(s: string, newline: string)
    requires s != "" && (s[0] == '\r' || s[0] == '\n')
    requires newline == if s[0] == '\n' then "\n" else if |s| > 1 && s[1] == '\n' then "\r\n" else "\r"
    ensures |newline| <= |s| && s == newline + s[|newline|..]
    ensures Translate(s) == "\n" + Translate(s[|newline|..])
    ensures s[0] == '\n' <==> newline == "\n"
    ensures newline == "\r" && s[1..] != "" ==> s[1] != '\n'
  {
  }
}
