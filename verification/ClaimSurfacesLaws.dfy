/** Every sentence is attributed to the line its first character was typed on. */
module ClaimSurfacesLaws {
  import opened PyText
  import TextLines
  import opened ClaimSurfaces

  // -- Ink: what is left of a text when whitespace is ignored ------------------------------------

  type Ink = seq<(char, nat)>

  /** The characters that are not whitespace, each with its line. */
  function InkOf(s: string, origin: seq<nat>): (r: Ink)
    requires |s| == |origin|
  {
    if s == "" then []
    else (if IsSpace(s[0]) then [] else [(s[0], origin[0])]) + InkOf(s[1..], origin[1..])
  }

  /** What was typed on some lines. */
  function Typed(lines: seq<Numbered>): Ink {
    if lines == [] then []
    else
      var last := lines[|lines| - 1];
      Typed(lines[..|lines| - 1]) + InkOf(last.text, Repeated(last.number, |last.text|))
  }

  lemma {:induction false} InkAppend(s: string, o: seq<nat>, t: string, p: seq<nat>)
    requires |s| == |o| && |t| == |p|
    ensures InkOf(s + t, o + p) == InkOf(s, o) + InkOf(t, p)
  {
    hide IsSpace;
    if s == "" {
      assert s + t == t && o + p == p;
    } else {
      assert (s + t)[1..] == s[1..] + t && (o + p)[1..] == o[1..] + p;
      InkAppend(s[1..], o[1..], t, p);
    }
  }

  lemma {:induction false} NoInk(s: string, o: seq<nat>)
    requires |s| == |o| && forall k :: 0 <= k < |s| ==> IsSpace(s[k])
    ensures InkOf(s, o) == []
  {
    hide IsSpace;
    if s != "" {
      NoInk(s[1..], o[1..]);
    }
  }

  /** Whitespace between two cuts adds no ink. */
  lemma InkSkips(s: string, o: seq<nat>, i: nat, e: nat)
    requires |s| == |o| && i <= e <= |s| && forall k :: i <= k < e ==> IsSpace(s[k])
    ensures InkOf(s[i..], o[i..]) == InkOf(s[e..], o[e..])
  {
    hide IsSpace;
    assert s[i..] == s[i..e] + s[e..] && o[i..] == o[i..e] + o[e..];
    InkAppend(s[i..e], o[i..e], s[e..], o[e..]);
    NoInk(s[i..e], o[i..e]);
  }

  predicate AllSpace(s: string) {
    forall k :: 0 <= k < |s| ==> IsSpace(s[k])
  }

  lemma LeftParts(s: string) returns (a: string)
    ensures s == a + LStrip(s) && AllSpace(a)
  {
    hide IsSpace;
    a := s[..|s| - |LStrip(s)|];
  }

  lemma RightParts(s: string) returns (c: string)
    ensures s == RStrip(s) + c && AllSpace(c)
  {
    hide IsSpace;
    c := s[|RStrip(s)|..];
    assert forall k :: 0 <= k < |c| ==> c[k] == s[|RStrip(s)| + k];
  }

  lemma Regroup(a: string, b: string, c: string)
    ensures a + (b + c) == a + b + c
  {
  }

  lemma StripIsBoth(s: string)
    ensures Strip(s) == RStrip(LStrip(s))
  {
    hide IsSpace, LStrip, RStrip;
  }

  lemma StripParts(s: string) returns (a: string, c: string)
    ensures s == a + Strip(s) + c && AllSpace(a) && AllSpace(c)
  {
    hide *;
    StripIsBoth(s);
    a := LeftParts(s);
    c := RightParts(LStrip(s));
    Regroup(a, Strip(s), c);
  }

  lemma PaddedInk(a: string, r: string, c: string, number: nat)
    requires AllSpace(a) && AllSpace(c)
    ensures InkOf(a + r + c, Repeated(number, |a + r + c|)) == InkOf(r, Repeated(number, |r|))
  {
    NoInk(a, Repeated(number, |a|));
    NoInk(c, Repeated(number, |c|));
    InkAppend(a, Repeated(number, |a|), r, Repeated(number, |r|));
    InkAppend(a + r, Repeated(number, |a|) + Repeated(number, |r|), c, Repeated(number, |c|));
    hide InkOf, AllSpace;
    assert Repeated(number, |a + r + c|) == Repeated(number, |a|) + Repeated(number, |r|) + Repeated(number, |c|);
  }

  /** Stripping a line keeps its ink. */
  lemma StripKeepsInk(s: string, number: nat)
    ensures InkOf(Strip(s), Repeated(number, |Strip(s)|)) == InkOf(s, Repeated(number, |s|))
  {
    hide *;
    var a, c := StripParts(s);
    PaddedInk(a, Strip(s), c, number);
  }

  /** Joining keeps the ink. */
  lemma {:induction false} JoinedKeepsInk(lines: seq<Numbered>)
    ensures InkOf(Joined(lines).text, Joined(lines).origin) == Typed(lines)
  {
    hide IsSpace, Strip;
    if lines != [] {
      var before, last := Joined(lines[..|lines| - 1]), lines[|lines| - 1];
      var piece, tail := Strip(last.text), Repeated(last.number, |Strip(last.text)|);
      JoinedKeepsInk(lines[..|lines| - 1]);
      StripKeepsInk(last.text, last.number);
      if piece != "" && before.text != "" {
        InkAppend(before.text + " ", before.origin + [last.number], piece, tail);
        InkAppend(before.text, before.origin, " ", [last.number]);
        SpaceHasNoInk(last.number);
      }
    }
  }

  lemma SpaceHasNoInk(number: nat)
    ensures InkOf(" ", [number]) == []
  {
    assert IsSpace(' ');
    assert " "[1..] == "";
  }

  /** Collapsing whitespace keeps the ink. */
  lemma {:induction false} SqueezeKeepsInk(s: string, o: seq<nat>, i: nat)
    requires |s| == |o| && i <= |s|
    ensures InkOf(Squeeze(s, i), Rebuilt(s, o, i)) == InkOf(s[i..], o[i..])
    decreases |s| - i
  {
    if i < |s| {
      if IsSpace(s[i]) {
        var e := SpaceEnd(s, i + 1);
        SqueezeKeepsInk(s, o, e);
        SpaceHasNoInk(o[i]);
        InkSkips(s, o, i, e);
        hide IsSpace, InkOf;
        InkAppend(" ", [o[i]], Squeeze(s, e), Rebuilt(s, o, e));
      } else {
        SqueezeKeepsInk(s, o, i + 1);
        assert s[i..][1..] == s[i + 1..] && o[i..][1..] == o[i + 1..];
        assert ([s[i]] + Squeeze(s, i + 1))[1..] == Squeeze(s, i + 1);
        assert ([o[i]] + Rebuilt(s, o, i + 1))[1..] == Rebuilt(s, o, i + 1);
        hide IsSpace;
      }
    }
  }

  /**
   The origin map is as long as the text, and every character that is not whitespace stands in it
   beside the line it was typed on: nothing is lost, added, reordered or moved to another line.
   */
  lemma CollapseKeepsInk(lines: seq<Numbered>)
    ensures |Collapsed(lines).text| == |Collapsed(lines).origin|
    ensures InkOf(Collapsed(lines).text, Collapsed(lines).origin) == Typed(lines)
  {
    var j := Joined(lines);
    JoinedKeepsInk(lines);
    SqueezeKeepsInk(j.text, j.origin, 0);
    assert j.text[0..] == j.text && j.origin[0..] == j.origin;
  }

  // -- Collapsed text ----------------------------------------------------------------------------

  predicate NoEdgeSpace(t: string) {
    t == "" || (!IsSpace(t[0]) && !IsSpace(t[|t| - 1]))
  }

  /** No edge whitespace, and inside only single spaces. */
  predicate Normal(t: string) {
    NoEdgeSpace(t) && forall i :: 0 < i < |t| && IsSpace(t[i]) ==> t[i] == ' ' && !IsSpace(t[i - 1])
  }

  lemma StripHasNoEdge(s: string)
    ensures NoEdgeSpace(Strip(s))
  {
    hide IsSpace;
  }

  lemma ConcatEdges(a: string, b: string)
    requires a != "" && b != "" && NoEdgeSpace(a) && NoEdgeSpace(b)
    ensures NoEdgeSpace(a + " " + b)
  {
    hide IsSpace;
    var t := a + " " + b;
    assert t[0] == a[0] && t[|t| - 1] == b[|b| - 1];
  }

  /** A joined text has no edge whitespace. */
  lemma {:induction false} JoinedEdges(lines: seq<Numbered>)
    ensures NoEdgeSpace(Joined(lines).text)
  {
    hide IsSpace, Strip, NoEdgeSpace;
    if lines == [] {
      EmptyEdges();
    } else {
      JoinedEdges(lines[..|lines| - 1]);
      var before, piece := Joined(lines[..|lines| - 1]).text, Strip(lines[|lines| - 1].text);
      StripHasNoEdge(lines[|lines| - 1].text);
      if before != "" && piece != "" {
        ConcatEdges(before, piece);
      }
    }
  }

  lemma EmptyEdges()
    ensures NoEdgeSpace("")
  {
  }

  lemma OneNormal(c: char)
    requires !IsSpace(c)
    ensures Normal([c])
  {
    hide IsSpace;
  }

  lemma ConsNormal(c: char, rest: string)
    requires !IsSpace(c) && rest != "" && Normal(rest)
    ensures Normal([c] + rest)
  {
    hide IsSpace;
    var t := [c] + rest;
    assert t[|t| - 1] == rest[|rest| - 1];
    forall i | 0 < i < |t| && IsSpace(t[i])
      ensures t[i] == ' ' && !IsSpace(t[i - 1])
    {
      assert t[i] == rest[i - 1];
      assert i > 1 ==> t[i - 1] == rest[i - 2];
    }
  }

  lemma SpacedNormal(c: char, rest: string)
    requires !IsSpace(c) && rest != "" && Normal(rest)
    ensures Normal([c] + (" " + rest))
  {
    hide IsSpace;
    var t := [c] + (" " + rest);
    assert t[|t| - 1] == rest[|rest| - 1];
    forall i | 0 < i < |t| && IsSpace(t[i])
      ensures t[i] == ' ' && !IsSpace(t[i - 1])
    {
      if i > 1 {
        assert t[i] == rest[i - 2];
        assert i > 2 ==> t[i - 1] == rest[i - 3];
      }
    }
  }

  /** What a character that is not whitespace, and the run after it, squeeze to. */
  lemma SqueezeStep(s: string, i: nat)
    requires i < |s| && !IsSpace(s[i]) && !IsSpace(s[|s| - 1])
    ensures i + 1 == |s| ==> Squeeze(s, i) == [s[i]]
    ensures i + 1 < |s| && !IsSpace(s[i + 1]) ==> Squeeze(s, i) == [s[i]] + Squeeze(s, i + 1)
    ensures i + 1 < |s| && IsSpace(s[i + 1]) ==>
              var e := SpaceEnd(s, i + 2);
              i < e < |s| && !IsSpace(s[e]) && Squeeze(s, i) == [s[i]] + (" " + Squeeze(s, e))
  {
    hide IsSpace;
    if i + 1 < |s| && IsSpace(s[i + 1]) {
      assert i + 2 <= |s| - 1;
    }
  }

  /** From a character that is not whitespace on, a text that ends in none squeezes to a normal one. */
  lemma {:induction false} SqueezeIsNormal(s: string, i: nat)
    requires i < |s| && !IsSpace(s[i]) && !IsSpace(s[|s| - 1])
    ensures Squeeze(s, i) != "" && Normal(Squeeze(s, i))
    decreases |s| - i
  {
    hide *;
    SqueezeStep(s, i);
    if i + 1 == |s| {
      OneNormal(s[i]);
    } else if IsSpace(s[i + 1]) {
      var e := SpaceEnd(s, i + 2);
      SqueezeIsNormal(s, e);
      SpacedNormal(s[i], Squeeze(s, e));
    } else {
      SqueezeIsNormal(s, i + 1);
      ConsNormal(s[i], Squeeze(s, i + 1));
    }
  }

  lemma CollapsedIsNormal(lines: seq<Numbered>)
    ensures Normal(Collapsed(lines).text)
  {
    var j := Joined(lines).text;
    JoinedEdges(lines);
    hide IsSpace;
    if j != "" {
      SqueezeIsNormal(j, 0);
    }
  }

  // -- Cutting into sentences --------------------------------------------------------------------

  /** The pieces lie in `t` from `at` on, one space between each and the next. */
  predicate Cut(t: string, pieces: seq<string>, at: nat)
    decreases |pieces|
  {
    && pieces != [] && at + |pieces[0]| <= |t| && t[at..at + |pieces[0]|] == pieces[0]
    && if |pieces| == 1 then at + |pieces[0]| == |t|
       else at + |pieces[0]| < |t| && t[at + |pieces[0]|] == ' ' && Cut(t, pieces[1..], at + |pieces[0]| + 1)
  }

  /** Pieces that neither start nor end in whitespace. */
  predicate Trimmed(pieces: seq<string>) {
    forall p :: p in pieces ==> p != "" && NoEdgeSpace(p)
  }

  lemma SliceEdges(t: string, start: nat, stop: nat)
    requires start < stop <= |t| && !IsSpace(t[start]) && !IsSpace(t[stop - 1])
    ensures t[start..stop] != "" && NoEdgeSpace(t[start..stop])
  {
    hide IsSpace;
    assert t[start..stop][0] == t[start] && t[start..stop][stop - start - 1] == t[stop - 1];
  }

  lemma CutOn(t: string, start: nat, stop: nat, rest: seq<string>)
    requires start <= stop < |t| && t[stop] == ' ' && Cut(t, rest, stop + 1)
    ensures Cut(t, [t[start..stop]] + rest, start)
  {
    assert ([t[start..stop]] + rest)[1..] == rest;
  }

  lemma SplitStep(t: string, start: nat, i: nat)
    requires Normal(t) && start <= i <= |t| && start < |t| && !IsSpace(t[start])
    ensures i == |t| ==> SplitFrom(t, start, i) == [t[start..|t|]]
    ensures i < |t| && !(i > 0 && EndsSentence(t[i - 1]) && IsSpace(t[i])) ==>
              SplitFrom(t, start, i) == SplitFrom(t, start, i + 1)
    ensures i < |t| && i > 0 && EndsSentence(t[i - 1]) && IsSpace(t[i]) ==>
              && start < i && i + 1 < |t| && t[i] == ' ' && !IsSpace(t[i + 1]) && !IsSpace(t[i - 1])
              && SplitFrom(t, start, i) == [t[start..i]] + SplitFrom(t, i + 1, i + 1)
  {
    hide IsSpace;
    assert t[start..] == t[start..|t|];
    if i < |t| && i > 0 && EndsSentence(t[i - 1]) && IsSpace(t[i]) {
      assert i < |t| - 1 && !IsSpace(t[i + 1]);
      assert SpaceEnd(t, i + 1) == i + 1;
    }
  }

  /** A normal text is cut between the sentences, and every piece is trimmed already. */
  lemma {:induction false} SplitIsCut(t: string, start: nat, i: nat)
    requires Normal(t) && start <= i <= |t| && start < |t| && !IsSpace(t[start])
    ensures Cut(t, SplitFrom(t, start, i), start) && Trimmed(SplitFrom(t, start, i))
    decreases |t| - i
  {
    SplitStep(t, start, i);
    hide IsSpace, SplitFrom, EndsSentence, Normal;
    if i == |t| {
      WholeIsCut(t, start);
    } else if i > 0 && EndsSentence(t[i - 1]) && IsSpace(t[i]) {
      SplitIsCut(t, i + 1, i + 1);
      SliceEdges(t, start, i);
      CutOn(t, start, i, SplitFrom(t, i + 1, i + 1));
    } else {
      SplitIsCut(t, start, i + 1);
    }
  }

  lemma WholeIsCut(t: string, start: nat)
    requires Normal(t) && start < |t| && !IsSpace(t[start])
    ensures Cut(t, [t[start..|t|]], start) && Trimmed([t[start..|t|]])
  {
    hide IsSpace;
    SliceEdges(t, start, |t|);
  }

  // -- Where the cuts fall -----------------------------------------------------------------------

  /** A full stop, an exclamation mark or a question mark. */
  predicate Stop(c: char) {
    c in {'.', '!', '?'}
  }

  /** No stop stands directly before whitespace. */
  predicate Unbroken(p: string) {
    forall i :: 0 < i < |p| && IsSpace(p[i]) ==> !Stop(p[i - 1])
  }

  /** Every piece but the last ends in a stop, and none holds one directly before whitespace. */
  predicate AtStops(pieces: seq<string>) {
    && (forall k :: 0 <= k < |pieces| - 1 ==> pieces[k] != "" && Stop(pieces[k][|pieces[k]| - 1]))
    && forall p :: p in pieces ==> Unbroken(p)
  }

  /** The sentences of a normal text: cut behind every stop that whitespace follows, and nowhere else. */
  predicate SentencesIn(t: string, pieces: seq<string>) {
    if t == "" then pieces == [] else Cut(t, pieces, 0) && Trimmed(pieces) && AtStops(pieces)
  }

  lemma StopsEnd(c: char)
    ensures EndsSentence(c) <==> Stop(c)
  {
  }

  lemma AtStopsOne(p: string)
    requires Unbroken(p)
    ensures AtStops([p])
  {
    hide Unbroken;
  }

  lemma AtStopsCons(p: string, rest: seq<string>)
    requires Unbroken(p) && p != "" && Stop(p[|p| - 1]) && AtStops(rest)
    ensures AtStops([p] + rest)
  {
    hide Unbroken, Stop;
  }

  lemma UnbrokenGrows(t: string, start: nat, i: nat)
    requires start <= i < |t| && Unbroken(t[start..i])
    requires start < i && IsSpace(t[i]) ==> !Stop(t[i - 1])
    ensures Unbroken(t[start..i + 1])
  {
    hide IsSpace, Stop;
    var p, q := t[start..i], t[start..i + 1];
    forall k | 0 < k < |q| && IsSpace(q[k])
      ensures !Stop(q[k - 1])
    {
      if k < |p| {
        assert q[k] == p[k] && q[k - 1] == p[k - 1];
      }
    }
  }

  lemma NothingBroken(t: string, start: nat)
    requires start <= |t|
    ensures Unbroken(t[start..start])
  {
  }

  /** The splitter cuts behind every stop that whitespace follows, and nowhere else. */
  lemma {:induction false} SplitAtStops(t: string, start: nat, i: nat)
    requires Normal(t) && start <= i <= |t| && start < |t| && !IsSpace(t[start]) && Unbroken(t[start..i])
    ensures AtStops(SplitFrom(t, start, i))
    decreases |t| - i
  {
    SplitStep(t, start, i);
    hide IsSpace, SplitFrom, Normal, Unbroken, Stop, AtStops, EndsSentence;
    if i == |t| {
      AtStopsOne(t[start..i]);
    } else if i > 0 && EndsSentence(t[i - 1]) && IsSpace(t[i]) {
      StopsEnd(t[i - 1]);
      NothingBroken(t, i + 1);
      SplitAtStops(t, i + 1, i + 1);
      assert t[start..i][i - start - 1] == t[i - 1];
      AtStopsCons(t[start..i], SplitFrom(t, i + 1, i + 1));
    } else {
      if i > 0 {
        StopsEnd(t[i - 1]);
      }
      UnbrokenGrows(t, start, i);
      SplitAtStops(t, start, i + 1);
    }
  }

  lemma SplitIsSentences(t: string)
    requires Normal(t) && t != ""
    ensures SentencesIn(t, SplitSentences(t))
  {
    hide IsSpace;
    assert !IsSpace(t[0]);
    NothingBroken(t, 0);
    SplitIsCut(t, 0, 0);
    SplitAtStops(t, 0, 0);
  }

  lemma LongerIsBroken(t: string, at: nat, a: seq<string>, b: string)
    requires Cut(t, a, at) && a[0] != "" && |a| > 1 && Stop(a[0][|a[0]| - 1])
    requires at + |b| <= |t| && t[at..at + |b|] == b && |a[0]| < |b|
    ensures !Unbroken(b)
  {
    assert IsSpace(' ');
    hide IsSpace, Stop;
    var n := |a[0]|;
    assert b[n] == t[at + n] && b[n - 1] == t[at + n - 1] == t[at..at + n][n - 1] == a[0][n - 1];
  }

  /** A text has only one list of sentences. */
  lemma {:induction false} OneReading(t: string, a: seq<string>, b: seq<string>, at: nat)
    requires Cut(t, a, at) && Cut(t, b, at) && AtStops(a) && AtStops(b)
    ensures a == b
    decreases |a|
  {
    hide Unbroken, Stop;
    assert a[0] in a && b[0] in b;
    if |a[0]| < |b[0]| {
      LongerIsBroken(t, at, a, b[0]);
    } else if |b[0]| < |a[0]| {
      LongerIsBroken(t, at, b, a[0]);
    }
    assert a[0] == b[0];
    if |a| > 1 {
      assert forall k :: 0 <= k < |a| - 2 ==> a[1..][k] == a[k + 1];
      assert forall k :: 0 <= k < |b| - 2 ==> b[1..][k] == b[k + 1];
      OneReading(t, a[1..], b[1..], at + |a[0]| + 1);
      assert a == [a[0]] + a[1..] && b == [b[0]] + b[1..];
    }
  }

  lemma OccurrenceStarts(t: string, p: string, i: nat)
    requires OccursAt(t, p, i) && p != ""
    ensures t[i] == p[0]
  {
    assert t[i..i + |p|][0] == t[i];
  }

  /** Looking for a piece from the end of the one before it finds it where it was cut. */
  lemma FindLands(t: string, pieces: seq<string>, at: nat, offset: nat)
    requires Cut(t, pieces, at) && pieces[0] != "" && NoEdgeSpace(pieces[0])
    requires at == offset || (at == offset + 1 && t[offset] == ' ')
    ensures FindFrom(t, pieces[0], offset) == Some(at)
  {
    assert IsSpace(' ');
    hide IsSpace;
    assert OccursAt(t, pieces[0], at);
    if at == offset + 1 {
      if OccursAt(t, pieces[0], offset) {
        OccurrenceStarts(t, pieces[0], offset);
      }
    }
  }

  // -- Attribution -------------------------------------------------------------------------------

  function Chars(ink: Ink): (r: string)
    ensures |r| == |ink| && forall k :: 0 <= k < |ink| ==> r[k] == ink[k].0
  {
    seq(|ink|, k requires 0 <= k < |ink| => ink[k].0)
  }

  /** A text without its whitespace. */
  function TextInk(s: string): string {
    Chars(InkOf(s, Repeated(0, |s|)))
  }

  lemma {:induction false} InkIgnoresLines(s: string, o: seq<nat>, p: seq<nat>)
    requires |s| == |o| == |p|
    ensures Chars(InkOf(s, o)) == Chars(InkOf(s, p))
  {
    hide IsSpace;
    if s != "" {
      InkIgnoresLines(s[1..], o[1..], p[1..]);
      var rest, rest' := InkOf(s[1..], o[1..]), InkOf(s[1..], p[1..]);
      if IsSpace(s[0]) {
        assert InkOf(s, o) == rest && InkOf(s, p) == rest';
      } else {
        assert InkOf(s, o) == [(s[0], o[0])] + rest && InkOf(s, p) == [(s[0], p[0])] + rest';
        hide InkOf;
        assert forall k :: 0 <= k < |rest| ==> Chars(rest)[k] == Chars(rest')[k];
      }
    }
  }

  /** The texts of the sentences, without whitespace, one after another. */
  function Spelled(found: seq<Sentence>): string {
    if found == [] then "" else Spelled(found[..|found| - 1]) + TextInk(found[|found| - 1].text)
  }

  /**
   The sentences spell out the ink, and the first character of each is, at its place in the ink, on
   the line the sentence is reported at.
   */
  predicate Attributed(found: seq<Sentence>, ink: Ink) {
    && Spelled(found) == Chars(ink)
    && forall j :: 0 <= j < |found| ==>
         var m := |Spelled(found[..j])|;
         found[j].text != "" && m < |ink| && ink[m] == (found[j].text[0], found[j].line)
  }

  lemma OneMoreSentence(found: seq<Sentence>, ink: Ink, s: Sentence, more: Ink)
    requires Attributed(found, ink)
    requires s.text != "" && Chars(more) == TextInk(s.text) && more != [] && more[0] == (s.text[0], s.line)
    ensures Attributed(found + [s], ink + more)
  {
    hide TextInk;
    var all := found + [s];
    assert all[..|found|] == found;
    assert Chars(ink + more) == Chars(ink) + Chars(more);
    forall j | 0 <= j < |all|
      ensures var m := |Spelled(all[..j])|;
              all[j].text != "" && m < |ink + more| && (ink + more)[m] == (all[j].text[0], all[j].line)
    {
      if j < |found| {
        assert all[..j] == found[..j];
      }
    }
  }

  lemma InkOfPiece(p: string, o: seq<nat>)
    requires |p| == |o| && p != "" && !IsSpace(p[0])
    ensures InkOf(p, o) != [] && InkOf(p, o)[0] == (p[0], o[0])
    ensures Chars(InkOf(p, o)) == TextInk(p)
  {
    hide IsSpace, Chars;
    InkIgnoresLines(p, o, Repeated(0, |p|));
  }

  lemma InkUpTo(t: string, o: seq<nat>, offset: nat, start: nat, stop: nat)
    requires |t| == |o| && offset <= start <= stop <= |t|
    requires start == offset || (start == offset + 1 && t[offset] == ' ')
    ensures InkOf(t[..stop], o[..stop]) == InkOf(t[..offset], o[..offset]) + InkOf(t[start..stop], o[start..stop])
  {
    var between := t[offset..start];
    assert AllSpace(between) by {
      assert IsSpace(' ');
    }
    NoInk(between, o[offset..start]);
    hide IsSpace, AllSpace, InkOf;
    assert t[..stop] == t[..offset] + between + t[start..stop];
    assert o[..stop] == o[..offset] + o[offset..start] + o[start..stop];
    InkAppend(t[..offset] + between, o[..offset] + o[offset..start], t[start..stop], o[start..stop]);
    InkAppend(t[..offset], o[..offset], between, o[offset..start]);
  }

  /** Each sentence with the block it is shown in. */
  function Texts(found: seq<Sentence>): (r: seq<(string, string)>)
    ensures |r| == |found| && forall k :: 0 <= k < |r| ==> r[k] == (found[k].text, found[k].block)
  {
    seq(|found|, k requires 0 <= k < |found| => (found[k].text, found[k].block))
  }

  function InBlock(pieces: seq<string>, t: string): (r: seq<(string, string)>)
    ensures |r| == |pieces| && forall k :: 0 <= k < |r| ==> r[k] == (pieces[k], t)
  {
    seq(|pieces|, k requires 0 <= k < |pieces| => (pieces[k], t))
  }

  /** The sentences of a block that has any text. */
  function PiecesOf(t: string): seq<(string, string)> {
    if t == "" then [] else InBlock(SplitSentences(t), t)
  }

  /** The first `n` pieces of a block have been read, up to `offset`. */
  ghost predicate ReadUpTo(b: Block, pieces: seq<string>, n: nat, offset: nat, found: seq<Sentence>,
                           before: seq<Sentence>, ink: Ink)
    requires |b.text| == |b.origin|
  {
    && n <= |pieces| && offset <= |b.text|
    && Trimmed(pieces)
    && (n == 0 ==> offset == 0)
    && (n > 0 && n < |pieces| ==> offset < |b.text| && b.text[offset] == ' ')
    && (n < |pieces| ==> Cut(b.text, pieces[n..], if n == 0 then 0 else offset + 1))
    && (n == |pieces| ==> offset == |b.text|)
    && Attributed(found, ink + InkOf(b.text[..offset], b.origin[..offset]))
    && Texts(found) == Texts(before) + InBlock(pieces[..n], b.text)
  }

  /** The next piece is found where it was cut. */
  lemma NextPiece(t: string, pieces: seq<string>, n: nat, offset: nat, start: nat)
    requires n < |pieces| && offset <= |t| && Trimmed(pieces) && Cut(t, pieces[n..], start)
    requires start == offset || (start == offset + 1 && offset < |t| && t[offset] == ' ')
    ensures var p, stop := pieces[n], start + |pieces[n]|;
            && p != "" && !IsSpace(p[0]) && start < stop <= |t| && t[start..stop] == p
            && FindFrom(t, p, offset) == Some(start) && Strip(p) == p
            && (n + 1 < |pieces| ==> stop < |t| && t[stop] == ' ' && Cut(t, pieces[n + 1..], stop + 1))
            && (n + 1 == |pieces| ==> stop == |t|)
  {
    var p := pieces[n];
    assert pieces[n..][0] == p && pieces[n..][1..] == pieces[n + 1..];
    assert p in pieces && p != "" && NoEdgeSpace(p);
    hide IsSpace, Strip, FindFrom;
    TextLines.StripKeeps(p);
    FindLands(t, pieces[n..], start, offset);
  }

  /** The ink of the next piece, and the texts so far. */
  lemma NextInk(b: Block, pieces: seq<string>, n: nat, offset: nat, start: nat, found: seq<Sentence>,
                before: seq<Sentence>, ink: Ink)
    requires |b.text| == |b.origin| && n < |pieces| && pieces[n] != ""
    requires offset <= start < start + |pieces[n]| <= |b.text| && b.text[start..start + |pieces[n]|] == pieces[n]
    requires start == offset || (start == offset + 1 && b.text[offset] == ' ')
    requires !IsSpace(pieces[n][0])
    requires Attributed(found, ink + InkOf(b.text[..offset], b.origin[..offset]))
    requires Texts(found) == Texts(before) + InBlock(pieces[..n], b.text)
    ensures var s, stop := Sentence(b.origin[start], pieces[n], b.text), start + |pieces[n]|;
            && Attributed(found + [s], ink + InkOf(b.text[..stop], b.origin[..stop]))
            && Texts(found + [s]) == Texts(before) + InBlock(pieces[..n + 1], b.text)
  {
    hide IsSpace, InkOf, Attributed;
    var p, stop := pieces[n], start + |pieces[n]|;
    var s, more := Sentence(b.origin[start], p, b.text), InkOf(b.text[start..stop], b.origin[start..stop]);
    var read := InkOf(b.text[..offset], b.origin[..offset]);
    InkUpTo(b.text, b.origin, offset, start, stop);
    InkOfPiece(p, b.origin[start..stop]);
    OneMoreSentence(found, ink + read, s, more);
    assert ink + read + more == ink + (read + more);
    assert Texts(found + [s]) == Texts(found) + [(p, b.text)];
    assert InBlock(pieces[..n + 1], b.text) == InBlock(pieces[..n], b.text) + [(p, b.text)];
  }

  /** One more piece, found where it was cut and attributed to the line of its first character. */
  lemma ReadOneMore(b: Block, pieces: seq<string>, n: nat, offset: nat, found: seq<Sentence>,
                    before: seq<Sentence>, ink: Ink)
    requires |b.text| == |b.origin| && n < |pieces|
    requires ReadUpTo(b, pieces, n, offset, found, before, ink)
    ensures var start := if n == 0 then 0 else offset + 1;
            var stop := start + |pieces[n]|;
            && FindFrom(b.text, pieces[n], offset) == Some(start) && start < stop <= |b.text|
            && Strip(pieces[n]) == pieces[n] != ""
            && ReadUpTo(b, pieces, n + 1, stop, found + [Sentence(b.origin[start], pieces[n], b.text)], before, ink)
  {
    hide IsSpace, InkOf, Strip, FindFrom, Attributed, Cut, Trimmed, Texts;
    var start := if n == 0 then 0 else offset + 1;
    NextPiece(b.text, pieces, n, offset, start);
    NextInk(b, pieces, n, offset, start, found, before, ink);
  }

  lemma EmptyBlock(b: Block, before: seq<Sentence>, ink: Ink)
    requires b.text == "" && b.origin == [] && Attributed(before, ink)
    ensures SplitSentences(b.text) == [""] && PiecesOf(b.text) == []
    ensures ink + InkOf(b.text, b.origin) == ink && Texts(before) + [] == Texts(before)
  {
    assert ""[0..] == "";
  }

  lemma BlankPiece(offset: nat)
    requires offset == 0
    ensures Strip("") == "" && FindFrom("", "", offset) == Some(0)
  {
  }

  lemma StartReading(b: Block, before: seq<Sentence>, ink: Ink)
    requires |b.text| == |b.origin| && Normal(b.text) && b.text != "" && Attributed(before, ink)
    ensures ReadUpTo(b, SplitSentences(b.text), 0, 0, before, before, ink)
    ensures PiecesOf(b.text) == InBlock(SplitSentences(b.text), b.text)
  {
    SplitIsCut(b.text, 0, 0);
    var pieces := SplitSentences(b.text);
    assert pieces[0..] == pieces && InkOf(b.text[..0], b.origin[..0]) == [];
    assert ink + [] == ink && Texts(before) + InBlock(pieces[..0], b.text) == Texts(before);
    hide Cut, Normal, Attributed, Texts, InkOf;
  }

  lemma BlockRead(b: Block, pieces: seq<string>, offset: nat, found: seq<Sentence>, before: seq<Sentence>, ink: Ink)
    requires |b.text| == |b.origin| && ReadUpTo(b, pieces, |pieces|, offset, found, before, ink)
    ensures Attributed(found, ink + InkOf(b.text, b.origin)) && Texts(found) == Texts(before) + InBlock(pieces, b.text)
  {
    hide Cut, Attributed, Texts, InkOf, Trimmed;
    assert b.text[..offset] == b.text && b.origin[..offset] == b.origin && pieces[..|pieces|] == pieces;
  }

  lemma NothingRead(before: seq<Sentence>, ink: Ink, b: Block)
    requires b.text == "" && b.origin == [] && Attributed(before, ink)
    ensures Attributed(before, ink + InkOf(b.text, b.origin)) && Texts(before) == Texts(before) + PiecesOf(b.text)
  {
    hide Attributed, Texts;
    assert ink + [] == ink;
  }

  /** The loop of `sentences` over one block. */
  method ReadBlock(b: Block, before: seq<Sentence>, ghost ink: Ink) returns (found: seq<Sentence>)
    requires |b.text| == |b.origin| && Normal(b.text) && Attributed(before, ink)
    ensures Attributed(found, ink + InkOf(b.text, b.origin))
    ensures Texts(found) == Texts(before) + PiecesOf(b.text)
  {
    hide *;
    found := before;
    var pieces := SplitSentences(b.text);
    var offset: nat := 0;
    if b.text == "" {
      EmptyBlock(b, before, ink);
      NothingRead(before, ink, b);
    } else {
      StartReading(b, before, ink);
    }
    var n: nat := 0;
    while n < |pieces|
      invariant n <= |pieces| && offset <= |b.text|
      invariant b.text == "" ==> found == before && (n < |pieces| ==> pieces[n] == "" && offset == 0)
      invariant b.text != "" ==> ReadUpTo(b, pieces, n, offset, found, before, ink)
    {
      if b.text != "" {
        ReadOneMore(b, pieces, n, offset, found, before, ink);
      } else {
        BlankPiece(offset);
      }
      var piece := pieces[n];
      var at := FindFrom(b.text, piece, offset);
      var start := if at.None? then offset else at.value;
      if Strip(piece) != "" {
        found := found + [Sentence(if b.origin != [] then b.origin[start] else 1, Strip(piece), b.text)];
      }
      offset := start + |piece|;
      n := n + 1;
    }
    if b.text != "" {
      BlockRead(b, pieces, offset, found, before, ink);
    }
  }

  // -- Whole files -------------------------------------------------------------------------------

  /** The lines of a file that carry prose, markers and escapes undone, under their own numbers. */
  function Cleaned(suffix: Suffix, raws: seq<string>): seq<Numbered> {
    if raws == [] then []
    else
      Cleaned(suffix, raws[..|raws| - 1])
      + match FateOf(suffix, raws[|raws| - 1])
        case Gap => []
        case Opens(text) => [Numbered(|raws|, text)]
        case GoesOn(text) => [Numbered(|raws|, text)]
  }

  function Flat(groups: seq<seq<Numbered>>): seq<Numbered> {
    if groups == [] then [] else Flat(groups[..|groups| - 1]) + groups[|groups| - 1]
  }

  lemma FlatOneMore(groups: seq<seq<Numbered>>, group: seq<Numbered>)
    ensures Flat(groups + [group]) == Flat(groups) + group
  {
    assert (groups + [group])[..|groups|] == groups;
  }

  lemma CloseKeepsLines(g: Groups)
    ensures Flat(Close(g).closed) + Close(g).open == Flat(g.closed) + g.open
  {
    FlatOneMore(g.closed, g.open);
  }

  lemma PlaceKeepsLines(g: Groups, number: nat, fate: Fate)
    ensures Flat(Place(g, number, fate).closed) + Place(g, number, fate).open
         == Flat(g.closed) + g.open + match fate case Gap => [] case Opens(t) => [Numbered(number, t)] case GoesOn(u) => [Numbered(number, u)]
  {
    CloseKeepsLines(g);
    hide Flat;
    match fate
    case Gap => assert Close(g).open == [];
    case Opens(text) => assert Close(g).open == [];
    case GoesOn(text) =>
      assert Flat(g.closed) + (g.open + [Numbered(number, text)]) == Flat(g.closed) + g.open + [Numbered(number, text)];
  }

  /** Grouping into blocks neither loses nor repeats a line. */
  lemma {:induction false} GroupsKeepLines(suffix: Suffix, raws: seq<string>)
    ensures Flat(Grouped(suffix, raws).closed) + Grouped(suffix, raws).open == Cleaned(suffix, raws)
  {
    hide FateOf;
    if raws != [] {
      GroupsKeepLines(suffix, raws[..|raws| - 1]);
      PlaceKeepsLines(Grouped(suffix, raws[..|raws| - 1]), |raws|, FateOf(suffix, raws[|raws| - 1]));
    }
  }

  lemma {:induction false} TypedAppend(a: seq<Numbered>, b: seq<Numbered>)
    ensures Typed(a + b) == Typed(a) + Typed(b)
  {
    hide InkOf;
    if b == [] {
      assert a + b == a;
    } else {
      var n := |b| - 1;
      assert (a + b)[..|a| + n] == a + b[..n];
      TypedAppend(a, b[..n]);
    }
  }

  predicate Sized(blocks: seq<Block>) {
    forall b :: b in blocks ==> |b.text| == |b.origin|
  }

  function InkBlocks(blocks: seq<Block>): Ink
    requires Sized(blocks)
  {
    if blocks == [] then []
    else InkBlocks(blocks[..|blocks| - 1]) + InkOf(blocks[|blocks| - 1].text, blocks[|blocks| - 1].origin)
  }

  function AllPieces(blocks: seq<Block>): seq<(string, string)> {
    if blocks == [] then [] else AllPieces(blocks[..|blocks| - 1]) + PiecesOf(blocks[|blocks| - 1].text)
  }

  /** The blocks hold exactly what was typed on the lines grouped into them, in normal form. */
  lemma {:induction false} BlocksKeepInk(groups: seq<seq<Numbered>>)
    ensures var blocks := CollapsedAll(groups);
            && Sized(blocks) && (forall b :: b in blocks ==> Normal(b.text))
            && InkBlocks(blocks) == Typed(Flat(groups))
  {
    hide Collapsed, InkOf, Normal;
    if groups != [] {
      var n := |groups| - 1;
      BlocksKeepInk(groups[..n]);
      CollapseKeepsInk(groups[n]);
      CollapsedIsNormal(groups[n]);
      TypedAppend(Flat(groups[..n]), groups[n]);
      assert CollapsedAll(groups)[..n] == CollapsedAll(groups[..n]);
    }
  }

  lemma FileInk(suffix: Suffix, text: string)
    ensures var blocks := BlocksOf(suffix, text);
            && Sized(blocks) && (forall b :: b in blocks ==> Normal(b.text))
            && InkBlocks(blocks) == Typed(Cleaned(suffix, SplitLines(text)))
  {
    var g := Grouped(suffix, SplitLines(text));
    assert BlocksOf(suffix, text) == CollapsedAll(Close(g).closed);
    assert Flat(Close(g).closed) + Close(g).open == Flat(Close(g).closed);
    hide *;
    GroupsKeepLines(suffix, SplitLines(text));
    CloseKeepsLines(g);
    BlocksKeepInk(Close(g).closed);
  }

  /** Lines never go back. */
  predicate Ascending(ink: Ink) {
    forall i, j :: 0 <= i < j < |ink| ==> ink[i].1 <= ink[j].1
  }

  lemma {:induction false} LineInk(s: string, number: nat)
    ensures forall k :: 0 <= k < |InkOf(s, Repeated(number, |s|))| ==> InkOf(s, Repeated(number, |s|))[k].1 == number
  {
    hide IsSpace;
    if s != "" {
      assert Repeated(number, |s|)[1..] == Repeated(number, |s[1..]|);
      LineInk(s[1..], number);
    }
  }

  lemma {:induction false} CleanedNumbers(suffix: Suffix, raws: seq<string>)
    ensures Ascending(Typed(Cleaned(suffix, raws)))
    ensures forall k :: 0 <= k < |Typed(Cleaned(suffix, raws))| ==> Typed(Cleaned(suffix, raws))[k].1 <= |raws|
  {
    hide FateOf, InkOf;
    if raws != [] {
      var before := Cleaned(suffix, raws[..|raws| - 1]);
      CleanedNumbers(suffix, raws[..|raws| - 1]);
      match FateOf(suffix, raws[|raws| - 1])
      case Gap =>
        assert Cleaned(suffix, raws) == before;
      case Opens(text) =>
        OneMoreLine(before, Numbered(|raws|, text));
      case GoesOn(text) =>
        OneMoreLine(before, Numbered(|raws|, text));
    }
  }

  lemma OneMoreLine(lines: seq<Numbered>, l: Numbered)
    requires Ascending(Typed(lines)) && forall k :: 0 <= k < |Typed(lines)| ==> Typed(lines)[k].1 <= l.number
    ensures Ascending(Typed(lines + [l]))
    ensures forall k :: 0 <= k < |Typed(lines + [l])| ==> Typed(lines + [l])[k].1 <= l.number
  {
    hide InkOf;
    LineInk(l.text, l.number);
    assert (lines + [l])[..|lines|] == lines;
  }

  lemma {:induction false} SpelledGrows(found: seq<Sentence>, i: nat, j: nat)
    requires i <= j <= |found|
    ensures |Spelled(found[..i])| <= |Spelled(found[..j])|
  {
    if i < j {
      assert found[..j][..j - 1] == found[..j - 1];
      SpelledGrows(found, i, j - 1);
    }
  }

  /** Sentences come in the order of their lines. */
  lemma SentencesAscend(found: seq<Sentence>, ink: Ink)
    requires Attributed(found, ink) && Ascending(ink)
    ensures forall i, j :: 0 <= i < j < |found| ==> found[i].line <= found[j].line
  {
    hide Spelled;
    forall i, j | 0 <= i < j < |found|
      ensures found[i].line <= found[j].line
    {
      SpelledGrows(found, i, j);
    }
  }

  /** The texts of some sentences. */
  function Bare(found: seq<Sentence>): (r: seq<string>)
    ensures |r| == |found| && forall k :: 0 <= k < |r| ==> r[k] == found[k].text
  {
    seq(|found|, k requires 0 <= k < |found| => found[k].text)
  }

  /** The sentences are those of the blocks, block after block, each shown in its own. */
  ghost predicate ReadOff(found: seq<Sentence>, blocks: seq<Block>)
    decreases |blocks|
  {
    if blocks == [] then found == []
    else
      var t := blocks[|blocks| - 1].text;
      exists n: nat :: n <= |found| && ReadOff(found[..n], blocks[..|blocks| - 1])
                       && SentencesIn(t, Bare(found[n..])) && forall s :: s in found[n..] ==> s.block == t
  }

  lemma PiecesAreSentences(found: seq<Sentence>, t: string)
    requires Normal(t) && Texts(found) == PiecesOf(t)
    ensures SentencesIn(t, Bare(found)) && forall s :: s in found ==> s.block == t
  {
    hide Normal, Cut, Trimmed, AtStops;
    if t != "" {
      SplitIsSentences(t);
      var pieces := SplitSentences(t);
      forall k | 0 <= k < |found|
        ensures found[k].text == pieces[k] && found[k].block == t
      {
        assert Texts(found)[k] == InBlock(pieces, t)[k];
      }
      assert Bare(found) == pieces;
    }
  }

  lemma {:induction false} PiecesReadOff(found: seq<Sentence>, blocks: seq<Block>)
    requires Texts(found) == AllPieces(blocks) && forall b :: b in blocks ==> Normal(b.text)
    ensures ReadOff(found, blocks)
    decreases |blocks|
  {
    hide Normal, PiecesOf, SentencesIn;
    if blocks != [] {
      var last := |blocks| - 1;
      var before := AllPieces(blocks[..last]);
      var n := |before|;
      assert Texts(found) == before + PiecesOf(blocks[last].text);
      assert Texts(found[..n]) == before;
      forall k | 0 <= k < |found| - n
        ensures Texts(found[n..])[k] == PiecesOf(blocks[last].text)[k]
      {
        assert Texts(found)[n + k] == PiecesOf(blocks[last].text)[k];
      }
      assert Texts(found[n..]) == PiecesOf(blocks[last].text);
      PiecesReadOff(found[..n], blocks[..last]);
      PiecesAreSentences(found[n..], blocks[last].text);
    }
  }

  /**
   Every sentence of a file: its blocks cut behind every stop that whitespace follows and nowhere else.
   The texts spell out what was typed, and each is reported at the line that supplied its first character.
   */
  method Sentences(suffix: Suffix, text: string) returns (found: seq<Sentence>)
    ensures Attributed(found, Typed(Cleaned(suffix, SplitLines(text))))
    ensures Texts(found) == AllPieces(BlocksOf(suffix, text))
    ensures ReadOff(found, BlocksOf(suffix, text))
    ensures forall i, j :: 0 <= i < j < |found| ==> found[i].line <= found[j].line
  {
    hide InkOf, Normal, BlocksOf, SplitLines, Cleaned, PiecesOf, Ascending, Attributed;
    var blocks := Blocks(suffix, text);
    FileInk(suffix, text);
    found := [];
    NoSentences();
    for n := 0 to |blocks|
      invariant Attributed(found, InkBlocks(blocks[..n]))
      invariant Texts(found) == AllPieces(blocks[..n])
    {
      assert blocks[..n + 1][..n] == blocks[..n] && blocks[n] in blocks;
      found := ReadBlock(blocks[n], found, InkBlocks(blocks[..n]));
    }
    assert blocks[..|blocks|] == blocks;
    PiecesReadOff(found, blocks);
    CleanedNumbers(suffix, SplitLines(text));
    SentencesAscend(found, Typed(Cleaned(suffix, SplitLines(text))));
  }

  lemma NoSentences()
    ensures Attributed([], [])
  {
  }
}
