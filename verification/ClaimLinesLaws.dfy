/**
 What each reader makes of one line, and where its blocks begin and end: the regular expressions of
 tools/audit/claim_surfaces.py, by position.
 */
module ClaimLinesLaws {
  import opened PyText
  import opened ClaimSurfaces
  import ClaimSurfacesLaws

  // -- Markers at the head of a line -------------------------------------------------------------

  /** `[ \t]`. */
  predicate Indent(c: char) {
    c in {' ', '\t'}
  }

  /** The line from `i` on, less one blank. */
  function LessBlank(raw: string, i: nat): string
    requires i <= |raw|
  {
    if i < |raw| && Indent(raw[i]) then raw[i + 1..] else raw[i..]
  }

  /** The first character that is no blank is at `h`, or the line has none. */
  predicate Indented(raw: string, h: nat) {
    h <= |raw| && (forall k :: 0 <= k < h ==> Indent(raw[k])) && (h < |raw| ==> !Indent(raw[h]))
  }

  /** The blockquote marker at `g`: nothing but blanks and markers stand before it. */
  predicate MarkerAt(raw: string, g: nat) {
    g < |raw| && raw[g] == '>' && forall k :: 0 <= k < g ==> raw[k] in {' ', '\t', '>'}
  }

  lemma BlanksAreIndents(c: char)
    ensures IsBlank(c) <==> Indent(c)
  {
  }

  /** `SkipBlanks` drops the indent. */
  lemma SkippedTo(raw: string) returns (h: nat)
    ensures Indented(raw, h) && SkipBlanks(raw) == raw[h..]
  {
    h := |raw| - |SkipBlanks(raw)|;
    assert SkipBlanks(raw) != "" ==> SkipBlanks(raw)[0] == raw[h];
  }

  lemma OneBlankLess(raw: string, i: nat)
    requires i <= |raw|
    ensures SkipOneBlank(raw[i..]) == LessBlank(raw, i)
  {
  }

  /** The markers of the rest of a line are those of the line. */
  lemma MarkerOnward(raw: string, from: nat, g: nat)
    requires from <= |raw| && forall k :: 0 <= k < from ==> raw[k] in {' ', '\t', '>'}
    ensures MarkerAt(raw[from..], g) <==> MarkerAt(raw, from + g)
  {
    if from + g < |raw| {
      assert raw[from..][g] == raw[from + g];
    }
    if MarkerAt(raw[from..], g) {
      forall k | 0 <= k < from + g
        ensures raw[k] in {' ', '\t', '>'}
      {
        if k >= from {
          assert raw[from..][k - from] == raw[k];
        }
      }
    }
    if MarkerAt(raw, from + g) {
      assert forall k :: 0 <= k < g ==> raw[from..][k] == raw[from + k];
    }
  }

  lemma NoMarkerFrom(raw: string, h: nat)
    requires Indented(raw, h) && (h == |raw| || raw[h] != '>')
    ensures forall g: nat :: !MarkerAt(raw, g)
  {
    forall g: nat
      ensures !MarkerAt(raw, g)
    {
      if g < h {
        assert Indent(raw[g]);
      } else if h < g < |raw| {
        assert raw[h] !in {' ', '\t', '>'};
      }
    }
  }

  /** `AfterMarkers` finds the last marker, if there is one. */
  lemma {:induction false} MarkersEnd(raw: string)
    ensures AfterMarkers(raw).None? <==> forall g: nat :: !MarkerAt(raw, g)
    ensures forall g: nat :: MarkerAt(raw, g) && (forall k :: g < k ==> !MarkerAt(raw, k)) ==>
              g < |raw| && AfterMarkers(raw) == Some(raw[g + 1..])
    decreases |raw|
  {
    var h := SkippedTo(raw);
    hide SkipBlanks, MarkerAt;
    if h == |raw| || raw[h] != '>' {
      NoMarkerFrom(raw, h);
      assert AfterMarkers(raw).None?;
    } else {
      var from := h + 1;
      assert raw[h..][1..] == raw[from..];
      MarkersEnd(raw[from..]);
      FirstMarker(raw, h);
      forall g: nat
        ensures MarkerAt(raw[from..], g) <==> MarkerAt(raw, from + g)
      {
        MarkerOnward(raw, from, g);
      }
      forall g: nat | MarkerAt(raw, g) && (forall k :: g < k ==> !MarkerAt(raw, k))
        ensures g < |raw| && AfterMarkers(raw) == Some(raw[g + 1..])
      {
        MarkerWithin(raw, g);
        if g > h {
          LastOnward(raw, from, g);
          assert raw[from..][g - from + 1..] == raw[g + 1..];
        } else {
          assert g == h;
          assert forall k: nat :: !MarkerAt(raw[from..], k);
        }
      }
    }
  }

  lemma FirstMarker(raw: string, h: nat)
    requires Indented(raw, h) && h < |raw| && raw[h] == '>'
    ensures MarkerAt(raw, h) && forall g: nat :: g < h ==> !MarkerAt(raw, g)
    ensures forall k :: 0 <= k < h + 1 ==> raw[k] in {' ', '\t', '>'}
  {
    forall g: nat | g < h
      ensures !MarkerAt(raw, g)
    {
      assert Indent(raw[g]);
    }
  }

  lemma MarkerWithin(raw: string, g: nat)
    requires MarkerAt(raw, g)
    ensures g < |raw|
  {
  }

  lemma LastOnward(raw: string, from: nat, g: nat)
    requires from <= g && MarkerAt(raw, g) && forall k :: g < k ==> !MarkerAt(raw, k)
    requires forall k: nat :: MarkerAt(raw[from..], k) <==> MarkerAt(raw, from + k)
    requires from <= |raw|
    ensures MarkerAt(raw[from..], g - from) && forall k :: g - from < k ==> !MarkerAt(raw[from..], k)
  {
    hide MarkerAt;
    assert MarkerAt(raw[from..], g - from) by {
      assert from + (g - from) == g;
    }
  }

  /** A line with no blockquote marker is left alone. */
  lemma UnmarkedStays(raw: string)
    requires forall g: nat :: !MarkerAt(raw, g)
    ensures Unquoted(raw) == raw
  {
    hide *;
    MarkersEnd(raw);
    MarkersDropped(raw);
  }

  /** `^(?:[ \t]*>)+[ \t]?`: the line loses everything up to its last blockquote marker, and one blank behind it. */
  lemma UnquotedMeans(raw: string, g: nat)
    requires MarkerAt(raw, g) && forall k :: g < k ==> !MarkerAt(raw, k)
    ensures g < |raw| && Unquoted(raw) == LessBlank(raw, g + 1)
  {
    hide *;
    MarkersEnd(raw);
    MarkersDropped(raw);
    MarkerWithin(raw, g);
    OneBlankLess(raw, g + 1);
  }

  lemma MarkersDropped(raw: string)
    ensures AfterMarkers(raw).None? ==> Unquoted(raw) == raw
    ensures AfterMarkers(raw).Some? ==> Unquoted(raw) == SkipOneBlank(AfterMarkers(raw).value)
  {
    hide AfterMarkers, SkipOneBlank;
  }

  /** `^[ \t]*#:?[ \t]?`: a comment marker at the head of the line is dropped, colon, blank and all. */
  lemma UncommentedMeans(raw: string, h: nat)
    requires Indented(raw, h)
    ensures Uncommented(raw)
         == if h == |raw| || raw[h] != '#' then raw
            else if h + 1 < |raw| && raw[h + 1] == ':' then LessBlank(raw, h + 2)
            else LessBlank(raw, h + 1)
  {
    var at := SkippedTo(raw);
    assert at == h;
    if h < |raw| && raw[h] == '#' {
      assert raw[h..][1..] == raw[h + 1..];
      if h + 1 < |raw| && raw[h + 1] == ':' {
        assert raw[h..][2..] == raw[h + 2..];
      }
      hide SkipBlanks;
      assert |raw[h..]| > 1 ==> raw[h..][1] == raw[h + 1];
    }
  }

  // -- Comments of a YAML line -------------------------------------------------------------------

  /** Whitespace at `i` and a `#` behind it. */
  predicate CommentAt(raw: string, i: nat) {
    i + 1 < |raw| && IsSpace(raw[i]) && raw[i + 1] == '#'
  }

  lemma {:induction false} InlineFrom(raw: string, i: nat)
    requires i <= |raw|
    ensures InlineComment(raw, i).None? <==> forall k: nat :: i <= k ==> !CommentAt(raw, k)
    ensures forall k: nat :: i <= k && CommentAt(raw, k) && (forall q: nat :: i <= q < k ==> !CommentAt(raw, q)) ==>
              InlineComment(raw, i) == Some(LessBlank(raw, k + 2))
    decreases |raw| - i
  {
    hide IsSpace;
    if i + 1 < |raw| {
      if CommentAt(raw, i) {
        OneBlankLess(raw, i + 2);
      } else {
        InlineFrom(raw, i + 1);
      }
    }
  }

  /**
   `^[ \t]*#[ \t]?(.*)$`, or else the first match of `\s#[ \t]?(.*)$`: the comment a line carries; a line
   that carries none separates blocks.
   */
  lemma YamlMeans(raw: string, h: nat)
    requires Indented(raw, h)
    ensures h < |raw| && raw[h] == '#' ==> YamlFate(raw) == GoesOn(LessBlank(raw, h + 1))
    ensures !(h < |raw| && raw[h] == '#') ==>
              && ((forall k: nat :: !CommentAt(raw, k)) ==> YamlFate(raw) == Gap)
              && forall k: nat :: CommentAt(raw, k) && (forall q: nat :: q < k ==> !CommentAt(raw, q)) ==>
                   YamlFate(raw) == GoesOn(LessBlank(raw, k + 2))
  {
    var at := SkippedTo(raw);
    assert at == h;
    hide SkipBlanks, CommentAt, InlineComment;
    InlineFrom(raw, 0);
    if h < |raw| && raw[h] == '#' {
      assert raw[h..][1..] == raw[h + 1..];
      OneBlankLess(raw, h + 1);
    }
  }

  // -- Lines that open a block -------------------------------------------------------------------

  /** From `h` on the line holds this text. */
  predicate Holds(line: string, h: nat, w: string) {
    h + |w| <= |line| && line[h..h + |w|] == w
  }

  predicate SpaceThere(line: string, i: nat) {
    i < |line| && IsSpace(line[i])
  }

  /** `#` from `h` to `e`. */
  predicate Hashes(line: string, h: nat, e: nat) {
    h <= e <= |line| && forall k :: h <= k < e ==> line[k] == '#'
  }

  /** Digits from `h` to `e`. */
  predicate Digits(line: string, h: nat, e: nat) {
    h <= e <= |line| && forall k :: h <= k < e ==> IsDigit(line[k])
  }

  /** One to six `#` and whitespace. */
  ghost predicate HeadingLine(line: string, h: nat) {
    exists e: nat :: Hashes(line, h, e) && 1 <= e - h <= 6 && SpaceThere(line, e)
  }

  /** A dash, star or plus and whitespace. */
  predicate BulletLine(line: string, h: nat) {
    h < |line| && line[h] in {'-', '*', '+'} && SpaceThere(line, h + 1)
  }

  /** Digits, a full stop and whitespace. */
  ghost predicate OrderedLine(line: string, h: nat) {
    exists e: nat :: Digits(line, h, e) && h < e < |line| && line[e] == '.' && SpaceThere(line, e + 1)
  }

  /** Three dashes and whitespace to the end of the line. */
  predicate RuleLine(line: string, h: nat) {
    Holds(line, h, "---") && forall k :: h + 3 <= k < |line| ==> IsSpace(line[k])
  }

  lemma HashesEnd(line: string, h: nat, e: nat)
    requires Hashes(line, h, e) && SpaceThere(line, e)
    ensures CountLeading(line[h..], '#') == e - h
  {
    var s, c := line[h..], CountLeading(line[h..], '#');
    assert !IsSpace('#');
    hide IsSpace;
    assert forall k :: 0 <= k < |s| ==> s[k] == line[h + k];
    assert s[e - h] == line[e];
    assert c <= e - h && c >= e - h;
  }

  lemma HeadingIff(line: string, h: nat)
    requires h <= |line|
    ensures HeadingLine(line, h) <==> OpensHeading(line[h..])
  {
    var s, c := line[h..], CountLeading(line[h..], '#');
    assert forall k :: 0 <= k < |s| ==> s[k] == line[h + k];
    hide IsSpace;
    if e: nat :| Hashes(line, h, e) && 1 <= e - h <= 6 && SpaceThere(line, e) {
      HashesEnd(line, h, e);
    }
    assert Hashes(line, h, h + c) by {
      assert forall k :: h <= k < h + c ==> line[k] == s[k - h];
    }
  }

  lemma StopIsNoDigit()
    ensures !IsDigit('.')
  {
  }

  lemma DigitsEnd(line: string, h: nat, e: nat)
    requires Digits(line, h, e) && e < |line| && line[e] == '.'
    ensures CountDigits(line[h..]) == e - h
  {
    var s, c := line[h..], CountDigits(line[h..]);
    StopIsNoDigit();
    hide IsDigit;
    assert forall k :: 0 <= k < |s| ==> s[k] == line[h + k];
    assert s[e - h] == line[e];
    assert c <= e - h && c >= e - h;
  }

  lemma NumberOpens(line: string, h: nat, e: nat)
    requires Digits(line, h, e) && h < e < |line| && line[e] == '.' && SpaceThere(line, e + 1)
    ensures OpensNumber(line[h..])
  {
    DigitsEnd(line, h, e);
    hide IsDigit, IsSpace, CountDigits;
    assert line[h..][e - h] == line[e] && line[h..][e - h + 1] == line[e + 1];
  }

  lemma NumberOpened(line: string, h: nat) returns (e: nat)
    requires h <= |line| && OpensNumber(line[h..])
    ensures Digits(line, h, e) && h < e < |line| && line[e] == '.' && SpaceThere(line, e + 1)
  {
    var s, c := line[h..], CountDigits(line[h..]);
    hide IsDigit, IsSpace, CountDigits;
    e := h + c;
    assert s[c] == line[e] && s[c + 1] == line[e + 1];
    assert forall k :: h <= k < e ==> line[k] == s[k - h];
  }

  lemma OrderedIff(line: string, h: nat)
    requires h <= |line|
    ensures OrderedLine(line, h) <==> OpensNumber(line[h..])
  {
    hide IsDigit, IsSpace, CountDigits, OpensNumber, Digits, SpaceThere;
    if e: nat :| Digits(line, h, e) && h < e < |line| && line[e] == '.' && SpaceThere(line, e + 1) {
      NumberOpens(line, h, e);
    }
    if OpensNumber(line[h..]) {
      var e := NumberOpened(line, h);
    }
  }

  lemma HoldsIff(line: string, h: nat, w: string)
    requires h <= |line|
    ensures Holds(line, h, w) <==> w <= line[h..]
  {
    if h + |w| <= |line| {
      assert line[h..][..|w|] == line[h..h + |w|];
    }
  }

  lemma RuleIff(line: string, h: nat)
    requires h <= |line|
    ensures RuleLine(line, h) <==> OpensRule(line[h..])
  {
    HoldsIff(line, h, "---");
    hide Holds;
    if "---" <= line[h..] {
      var rest := line[h..][3..];
      assert rest == line[h + 3..];
      StripBlankIff(rest);
      hide Strip, IsSpace;
      assert forall k :: 0 <= k < |rest| ==> rest[k] == line[h + 3 + k];
      assert forall k :: h + 3 <= k < |line| ==> line[k] == rest[k - h - 3];
    }
  }

  lemma StripBlankIff(s: string)
    ensures Strip(s) == "" <==> forall k :: 0 <= k < |s| ==> IsSpace(s[k])
  {
    var a, c := ClaimSurfacesLaws.StripParts(s);
    hide IsSpace;
    if Strip(s) == "" {
      assert s == a + c;
    } else {
      ClaimSurfacesLaws.StripHasNoEdge(s);
      assert s[|a|] == Strip(s)[0];
    }
  }

  /**
   `[ \t]*(?:#{1,6}\s|[-*+]\s|\d+\.\s|\||` + three ticks + `|---\s*$)`: behind its indent the line is a heading,
   a list item, a table row, a fence or a rule.
   */
  lemma StartsBlockMeans(line: string, h: nat)
    requires Indented(line, h)
    ensures StartsBlock(line)
            <==> || HeadingLine(line, h) || BulletLine(line, h) || OrderedLine(line, h)
                 || Holds(line, h, "|") || Holds(line, h, "```") || RuleLine(line, h)
  {
    hide *;
    IndentSkipped(line, h);
    BlockStarts(line, line[h..]);
    HeadingIff(line, h);
    BulletIff(line, h);
    OrderedIff(line, h);
    HoldsIff(line, h, "|");
    HoldsIff(line, h, "```");
    RuleIff(line, h);
  }

  lemma IndentSkipped(line: string, h: nat)
    requires Indented(line, h)
    ensures h <= |line| && SkipBlanks(line) == line[h..]
  {
    var at := SkippedTo(line);
    assert at == h;
  }

  lemma BulletIff(line: string, h: nat)
    requires h <= |line|
    ensures BulletLine(line, h) <==> OpensBullet(line[h..])
  {
    hide IsSpace;
    assert forall k :: 0 <= k < |line[h..]| ==> line[h..][k] == line[h + k];
  }

  lemma BlockStarts(line: string, s: string)
    requires s == SkipBlanks(line)
    ensures StartsBlock(line)
            <==> OpensHeading(s) || OpensBullet(s) || OpensNumber(s) || "|" <= s || "```" <= s || OpensRule(s)
  {
    hide SkipBlanks, OpensHeading, OpensBullet, OpensNumber, OpensRule;
  }

  // -- The fate of a line ------------------------------------------------------------------------

  predicate Blank(line: string) {
    forall k :: 0 <= k < |line| ==> IsSpace(line[k])
  }

  /** A Markdown line, its blockquote markers gone, separates blocks, opens one or goes on. */
  lemma MarkdownMeans(raw: string)
    ensures var line := Unquoted(raw);
            FateOf(Markdown, raw) == if Blank(line) then Gap else if StartsBlock(line) then Opens(line) else GoesOn(line)
  {
    StripBlankIff(Unquoted(raw));
    hide Unquoted, StartsBlock, Strip, IsSpace;
  }

  /** A line of Python or TOML separates blocks or goes on, its comment marker gone. */
  lemma PythonMeans(raw: string)
    ensures FateOf(Python, raw) == if Blank(raw) then Gap else GoesOn(Uncommented(raw))
  {
    StripBlankIff(raw);
    hide Uncommented, Strip, IsSpace;
  }

  // -- JSON escapes ------------------------------------------------------------------------------

  /** The pieces with `mark` between each and the next. */
  function Spliced(pieces: seq<string>, mark: string): string {
    if pieces == [] then ""
    else if |pieces| == 1 then pieces[0]
    else pieces[0] + mark + Spliced(pieces[1..], mark)
  }

  ghost predicate Absent(s: string, was: string) {
    forall i: nat :: !OccursAt(s, was, i)
  }

  /** `was` is found in the pieces nowhere but where they are spliced, looking from the left. */
  ghost predicate LeftmostCuts(pieces: seq<string>, was: string) {
    && pieces != []
    && (forall k :: 0 <= k < |pieces| - 1 ==> forall i: nat :: i < |pieces[k]| ==> !OccursAt(pieces[k] + was, was, i))
    && Absent(pieces[|pieces| - 1], was)
  }

  /** `s.replace(was, is)`: every occurrence of `was`, found from the left and not overlapping, becomes `new`. */
  lemma {:induction false} UnescapeReplaces(s: string, escaped: char) returns (pieces: seq<string>)
    ensures LeftmostCuts(pieces, ['\\', escaped])
    ensures s == Spliced(pieces, ['\\', escaped]) && Unescape(s, escaped) == Spliced(pieces, [escaped])
  {
    var was := ['\\', escaped];
    if |s| < 2 {
      pieces := [s];
    } else if s[0] == '\\' && s[1] == escaped {
      var rest := UnescapeReplaces(s[2..], escaped);
      pieces := [""] + rest;
      CutsPrepend("", rest, was);
      assert s == was + s[2..];
      SplicedCons("", rest, was);
      SplicedCons("", rest, [escaped]);
    } else {
      var rest := UnescapeReplaces(s[1..], escaped);
      pieces := [[s[0]] + rest[0]] + rest[1..];
      LongerFirst(s, rest, was);
      assert s == [s[0]] + s[1..];
      SplicedLonger(s[0], rest, was);
      SplicedLonger(s[0], rest, [escaped]);
    }
  }

  lemma CutsPrepend(p: string, rest: seq<string>, was: string)
    requires LeftmostCuts(rest, was) && forall i: nat :: i < |p| ==> !OccursAt(p + was, was, i)
    ensures LeftmostCuts([p] + rest, was)
  {
    hide OccursAt;
    var all := [p] + rest;
    assert all[|all| - 1] == rest[|rest| - 1];
    forall k | 0 <= k < |all| - 1
      ensures forall i: nat :: i < |all[k]| ==> !OccursAt(all[k] + was, was, i)
    {
      if k > 0 {
        assert all[k] == rest[k - 1];
      }
    }
  }

  lemma SplicedCons(p: string, rest: seq<string>, mark: string)
    requires rest != []
    ensures Spliced([p] + rest, mark) == p + mark + Spliced(rest, mark)
  {
    assert ([p] + rest)[1..] == rest;
  }

  lemma SplicedLonger(c: char, rest: seq<string>, mark: string)
    requires rest != []
    ensures Spliced([[c] + rest[0]] + rest[1..], mark) == [c] + Spliced(rest, mark)
  {
    var all := [[c] + rest[0]] + rest[1..];
    assert all[1..] == rest[1..];
    if |rest| == 1 {
      assert all == [[c] + rest[0]];
    } else {
      assert ([c] + rest[0]) + mark + Spliced(rest[1..], mark) == [c] + (rest[0] + mark + Spliced(rest[1..], mark));
    }
  }

  /** Where the first piece starts a character earlier, and the text does not open with `was`. */
  lemma LongerFirst(s: string, rest: seq<string>, was: string)
    requires |s| >= 2 && |was| == 2 && LeftmostCuts(rest, was) && s[1..] == Spliced(rest, was)
    requires !(s[0] == was[0] && s[1] == was[1])
    ensures LeftmostCuts([[s[0]] + rest[0]] + rest[1..], was)
  {
    hide OccursAt, Spliced;
    var p := [s[0]] + rest[0];
    var all := [p] + rest[1..];
    if |rest| == 1 {
      OnlyPiece(rest, was);
      StillAbsent(s[0], rest[0], was);
    } else {
      SplicedHead(rest, was);
      assert s[1] == s[1..][0];
      forall i: nat | i < |p|
        ensures !OccursAt(p + was, was, i)
      {
        NotEarlier(s[0], rest[0], was, i);
      }
      assert all[|all| - 1] == rest[|rest| - 1];
      assert forall k :: 0 < k < |all| ==> all[k] == rest[k];
    }
  }

  lemma OnlyPiece(rest: seq<string>, was: string)
    requires |rest| == 1
    ensures Spliced(rest, was) == rest[0]
  {
  }

  lemma StillAbsent(c: char, t: string, was: string)
    requires |was| == 2 && t != "" && Absent(t, was) && !(c == was[0] && t[0] == was[1])
    ensures Absent([c] + t, was)
  {
    forall i: nat
      ensures !OccursAt([c] + t, was, i)
    {
      if OccursAt([c] + t, was, i) {
        OccursOnward(c, t, was, i);
      }
    }
  }

  lemma NotEarlier(c: char, t: string, was: string, i: nat)
    requires |was| == 2 && !(c == was[0] && (t + was)[0] == was[1]) && i < |t| + 1
    requires forall k: nat :: k < |t| ==> !OccursAt(t + was, was, k)
    ensures !OccursAt([c] + t + was, was, i)
  {
    hide OccursAt;
    assert [c] + t + was == [c] + (t + was);
    if OccursAt([c] + (t + was), was, i) {
      OccursOnward(c, t + was, was, i);
    }
  }

  lemma SplicedHead(rest: seq<string>, was: string)
    requires |rest| > 1 && |was| == 2
    ensures |Spliced(rest, was)| >= 2 && (rest[0] + was)[0] == Spliced(rest, was)[0]
  {
  }

  /** An occurrence in a text one character longer is one in the text, or at its head. */
  lemma OccursOnward(c: char, t: string, was: string, i: nat)
    requires |was| == 2 && OccursAt([c] + t, was, i)
    ensures i > 0 ==> OccursAt(t, was, i - 1)
    ensures i == 0 ==> |t| > 0 && c == was[0] && t[0] == was[1]
  {
    var s := [c] + t;
    if i > 0 {
      assert s[i..i + 2] == t[i - 1..i - 1 + 2];
    } else {
      assert s[0..2][0] == c && s[0..2][1] == t[0];
    }
  }

  // -- Where blocks begin and end ----------------------------------------------------------------

  /** A line goes on with the block of the line just above it. */
  predicate Continues(suffix: Suffix, raws: seq<string>, above: Numbered, line: Numbered) {
    above.number + 1 == line.number && 1 <= line.number <= |raws| && FateOf(suffix, raws[line.number - 1]).GoesOn?
  }

  /** A block: lines each of which goes on with the one before. */
  predicate Joined(suffix: Suffix, raws: seq<string>, group: seq<Numbered>) {
    group != [] && forall k :: 0 < k < |group| ==> Continues(suffix, raws, group[k - 1], group[k])
  }

  /** Blocks that could not have been one: no first line goes on with the last line of the block before. */
  predicate Parted(suffix: Suffix, raws: seq<string>, groups: seq<seq<Numbered>>) {
    && (forall n :: 0 <= n < |groups| ==> Joined(suffix, raws, groups[n]))
    && forall n :: 0 < n < |groups| ==>
         !Continues(suffix, raws, groups[n - 1][|groups[n - 1]| - 1], groups[n][0])
  }

  /** The blocks end at line `n` or before it. */
  predicate EndsBy(groups: seq<seq<Numbered>>, n: nat) {
    forall k :: 0 <= k < |groups| ==> groups[k] != [] && groups[k][|groups[k]| - 1].number <= n
  }

  /** After `n` lines: the blocks, the open one included, are parted, and an open one ends at line `n`. */
  predicate Grouping(suffix: Suffix, raws: seq<string>, n: nat, g: Groups) {
    && Parted(suffix, raws, Close(g).closed) && EndsBy(Close(g).closed, n)
    && (g.open != [] ==> g.open[|g.open| - 1].number == n)
    && (g.open == [] && g.closed != [] ==> n > 0 && EndsBy(g.closed, n - 1))
  }

  lemma PartedOneMore(suffix: Suffix, raws: seq<string>, groups: seq<seq<Numbered>>, line: Numbered)
    requires Parted(suffix, raws, groups)
    requires groups != [] ==> !Continues(suffix, raws, groups[|groups| - 1][|groups[|groups| - 1]| - 1], line)
    ensures Parted(suffix, raws, groups + [[line]])
  {
    hide Continues;
    var all := groups + [[line]];
    assert Joined(suffix, raws, [line]);
    forall n | 0 < n < |all|
      ensures !Continues(suffix, raws, all[n - 1][|all[n - 1]| - 1], all[n][0])
    {
      if n < |groups| {
        assert all[n] == groups[n] && all[n - 1] == groups[n - 1];
      }
    }
  }

  lemma PartedLonger(suffix: Suffix, raws: seq<string>, groups: seq<seq<Numbered>>, group: seq<Numbered>, line: Numbered)
    requires Parted(suffix, raws, groups + [group]) && group != []
    requires Continues(suffix, raws, group[|group| - 1], line)
    ensures Parted(suffix, raws, groups + [group + [line]])
  {
    hide Continues;
    var was, all := groups + [group], groups + [group + [line]];
    forall n | 0 <= n < |all|
      ensures Joined(suffix, raws, all[n])
    {
      assert n < |groups| ==> all[n] == was[n];
      assert was[|groups|] == group;
    }
    forall n | 0 < n < |all|
      ensures !Continues(suffix, raws, all[n - 1][|all[n - 1]| - 1], all[n][0])
    {
      assert all[n - 1] == was[n - 1] && all[n][0] == was[n][0];
    }
  }

  lemma EndsByMore(groups: seq<seq<Numbered>>, group: seq<Numbered>, n: nat, m: nat)
    requires EndsBy(groups, n) && n <= m && group != [] && group[|group| - 1].number <= m
    ensures EndsBy(groups + [group], m)
  {
    var all: seq<seq<Numbered>> := groups + [group];
    forall k | 0 <= k < |all|
      ensures all[k] != [] && all[k][|all[k]| - 1].number <= m
    {
      if k < |groups| {
        assert all[k] == groups[k];
      }
    }
  }

  lemma EndsByLater(groups: seq<seq<Numbered>>, n: nat, m: nat)
    requires EndsBy(groups, n) && n <= m
    ensures EndsBy(groups, m)
  {
  }

  lemma EndsBySome(groups: seq<seq<Numbered>>, group: seq<Numbered>, n: nat)
    requires EndsBy(groups + [group], n)
    ensures EndsBy(groups, n)
  {
    assert forall k :: 0 <= k < |groups| ==> (groups + [group])[k] == groups[k];
  }

  lemma LastEndsBy(groups: seq<seq<Numbered>>, n: nat)
    requires EndsBy(groups, n) && groups != []
    ensures groups[|groups| - 1] != [] && groups[|groups| - 1][|groups[|groups| - 1]| - 1].number <= n
  {
  }

  /** A line that separates closes the open block. */
  lemma GapParts(suffix: Suffix, raws: seq<string>, n: nat, g: Groups)
    requires n < |raws| && Grouping(suffix, raws, n, g)
    ensures Grouping(suffix, raws, n + 1, Close(g))
  {
    hide Parted, EndsBy;
    var all := Close(g).closed;
    assert Close(g).open == [] && Close(Close(g)).closed == all;
    EndsByLater(all, n, n + 1);
  }

  /** A line that stands apart from the one above opens a block. */
  lemma OpeningParts(suffix: Suffix, raws: seq<string>, n: nat, g: Groups, text: string)
    requires n < |raws| && Grouping(suffix, raws, n, g)
    requires FateOf(suffix, raws[n]).GoesOn? ==> g.open == []
    ensures Grouping(suffix, raws, n + 1, Groups(Close(g).closed, [Numbered(n + 1, text)]))
  {
    hide Parted, EndsBy, FateOf;
    var all, line := Close(g).closed, Numbered(n + 1, text);
    if all != [] {
      LastEndsBy(all, n);
      if g.open == [] {
        LastEndsBy(all, n - 1);
      }
    }
    PartedOneMore(suffix, raws, all, line);
    EndsByMore(all, [line], n, n + 1);
  }

  /** A line that goes on lengthens the open block. */
  lemma GoingOnParts(suffix: Suffix, raws: seq<string>, n: nat, g: Groups, text: string)
    requires n < |raws| && Grouping(suffix, raws, n, g) && FateOf(suffix, raws[n]).GoesOn? && g.open != []
    ensures Grouping(suffix, raws, n + 1, Groups(g.closed, g.open + [Numbered(n + 1, text)]))
  {
    hide Parted, EndsBy, FateOf;
    PartedLonger(suffix, raws, g.closed, g.open, Numbered(n + 1, text));
    EndsBySome(g.closed, g.open, n);
    EndsByMore(g.closed, g.open + [Numbered(n + 1, text)], n, n + 1);
  }

  /** One line more. */
  lemma PlaceKeepsParted(suffix: Suffix, raws: seq<string>, n: nat, g: Groups)
    requires n < |raws| && Grouping(suffix, raws, n, g)
    ensures Grouping(suffix, raws, n + 1, Place(g, n + 1, FateOf(suffix, raws[n])))
  {
    var fate := FateOf(suffix, raws[n]);
    hide FateOf, Grouping;
    match fate
    case Gap =>
      GapParts(suffix, raws, n, g);
    case Opens(text) =>
      OpeningParts(suffix, raws, n, g, text);
    case GoesOn(text) =>
      if g.open == [] {
        OpeningParts(suffix, raws, n, g, text);
        assert g.open + [Numbered(n + 1, text)] == [Numbered(n + 1, text)];
      } else {
        GoingOnParts(suffix, raws, n, g, text);
      }
  }

  lemma {:induction false} GroupedIsParted(suffix: Suffix, raws: seq<string>, n: nat)
    requires n <= |raws|
    ensures Grouping(suffix, raws, n, Grouped(suffix, raws[..n]))
  {
    hide FateOf, Place, Continues;
    if n > 0 {
      GroupedIsParted(suffix, raws, n - 1);
      assert raws[..n][..n - 1] == raws[..n - 1] && raws[..n][n - 1] == raws[n - 1];
      hide Grouping;
      PlaceKeepsParted(suffix, raws, n - 1, Grouped(suffix, raws[..n - 1]));
    }
  }

  /**
   The blocks of a file are the longest runs of neighbouring lines that go on with one another: inside a
   block every line goes on with the one above it, and no block could be joined to the one before.
   */
  lemma BlocksAreParted(suffix: Suffix, text: string) returns (groups: seq<seq<Numbered>>)
    ensures BlocksOf(suffix, text) == CollapsedAll(groups)
    ensures Parted(suffix, SplitLines(text), groups)
    ensures ClaimSurfacesLaws.Flat(groups) == ClaimSurfacesLaws.Cleaned(suffix, SplitLines(text))
  {
    var raws := SplitLines(text);
    var g := Grouped(suffix, raws);
    groups := Close(g).closed;
    hide SplitLines, CollapsedAll, Parted, FateOf, Grouped;
    GroupedIsParted(suffix, raws, |raws|);
    assert raws[..|raws|] == raws;
    ClaimSurfacesLaws.GroupsKeepLines(suffix, raws);
    ClaimSurfacesLaws.CloseKeepsLines(g);
    assert Close(g).open == [];
    hide ClaimSurfacesLaws.Flat, ClaimSurfacesLaws.Cleaned;
    assert ClaimSurfacesLaws.Flat(groups) + [] == ClaimSurfacesLaws.Flat(groups);
  }
}
