/**
 The generator's anchors mean the same thing to the applier, and its coordinates are exact
 (tools/sweep_mutations.py against tools/mutate_edits.py).
 */
module SweepMutationsLaws {
  import opened PyText
  import opened MutateEdits
  import MutateEditsLaws
  import opened SweepMutations

  // -- Generator and applier ---------------------------------------------------------------------

  /** The one-token change a candidate is meant to be. */
  function Flipped(source: string, hit: Hit): string
    requires Bracketed(source, hit)
  {
    source[..hit.token.start] + hit.replacement + source[hit.token.end..]
  }

  /** What an offered anchor is: the text of its bounds, counted once, with the token swapped. */
  lemma AnchorShape(source: string, hit: Hit, a: Anchor)
    requires Bracketed(source, hit) && Anchored(source, hit) == Some(a)
    ensures var bounds := Bounds(source, hit.span, a.rung);
            && bounds.start <= hit.token.start <= hit.token.end <= bounds.end <= |source|
            && a.old_ == source[bounds.start..bounds.end]
            && a.new_ == source[bounds.start..hit.token.start] + hit.replacement + source[hit.token.end..bounds.end]
            && OccursAt(source, a.old_, bounds.start)
            && Count(source, a.old_) == 1 && a.old_ != ""
  {
    hide *;
    TokenThere(source, hit);
    var bounds := Bounds(source, hit.span, a.rung);
    BoundsHold(source, hit, a.rung);
    AnchorIs(source, hit, a);
    TokenNotEmpty(source, hit);
    ThreeSlices(source, bounds.start, bounds.end, hit.token.start, hit.token.end);
    SliceOccurs(source, bounds.start, bounds.end);
    assert |a.old_| == bounds.end - bounds.start > 0;
  }

  lemma SliceOccurs(s: string, i: nat, j: nat)
    requires i <= j <= |s|
    ensures OccursAt(s, s[i..j], i)
  {
  }

  /** The rung that made the anchor, read off the ladder. */
  lemma AnchorIs(source: string, hit: Hit, a: Anchor)
    requires Bracketed(source, hit) && Anchored(source, hit) == Some(a)
    requires var bounds := Bounds(source, hit.span, a.rung);
             bounds.start <= hit.token.start <= hit.token.end <= bounds.end <= |source|
    ensures var bounds := Bounds(source, hit.span, a.rung);
            && Count(source, a.old_) == 1 && a.old_ == source[bounds.start..bounds.end]
            && a.new_ == a.old_[..hit.token.start - bounds.start] + hit.replacement
                         + a.old_[hit.token.end - bounds.start..]
  {
    hide Count, IsFlip, Bounds, Bracketed;
    assert AnchorOn(source, hit, a.rung) == Some(a);
  }

  /** Either rung's bounds hold the token. */
  lemma BoundsHold(source: string, hit: Hit, rung: Rung)
    requires Bracketed(source, hit)
    ensures var bounds := Bounds(source, hit.span, rung);
            bounds.start <= hit.token.start <= hit.token.end <= bounds.end <= |source|
  {
    hide IsFlip, LineStart, LineStop;
  }

  lemma TokenNotEmpty(source: string, hit: Hit)
    requires Bracketed(source, hit)
    ensures hit.token.start < hit.token.end && |hit.token.text| == hit.token.end - hit.token.start
    ensures hit.replacement != "" && hit.token.text != hit.replacement
    ensures hit.token.text[0] != hit.replacement[0]
            || hit.token.text[|hit.token.text| - 1] != hit.replacement[|hit.replacement| - 1]
    ensures !HasCR(hit.replacement)
  {
  }

  lemma CountedOnceHere(source: string, hit: Hit, a: Anchor)
    requires Bracketed(source, hit) && Anchored(source, hit) == Some(a)
    ensures Count(source, a.old_) == 1
  {
    AnchorShape(source, hit, a);
  }

  /** What the applier writes for an anchor: the token swapped inside the anchor's first occurrence. */
  lemma AppliedText(source: string, hit: Hit, a: Anchor) returns (f: nat, d: nat, start: nat)
    requires Bracketed(source, hit) && Anchored(source, hit) == Some(a)
    ensures start == Bounds(source, hit.span, a.rung).start && start + d == hit.token.start
    ensures FindFrom(source, a.old_, 0) == Some(f) && f <= start
    ensures start + d + |hit.token.text| == hit.token.end <= |source|
    ensures source[start + d..start + d + |hit.token.text|] == hit.token.text
    ensures source[f + d..f + d + |hit.token.text|] == hit.token.text
    ensures ReplaceFirst(source, a.old_, a.new_)
            == source[..f + d] + hit.replacement + source[f + d + |hit.token.text|..]
  {
    hide *;
    AnchorShape(source, hit, a);
    TokenThere(source, hit);
    CountedOnce(source, a.old_);
    start := Bounds(source, hit.span, a.rung).start;
    f, d := FindFrom(source, a.old_, 0).value, hit.token.start - start;
    Spliced(source, hit, a.old_, a.new_, Bounds(source, hit.span, a.rung), f);
  }

  /** The splice, with the token's own length in place of its end. */
  lemma Spliced(source: string, hit: Hit, old_: string, new_: string, bounds: Span, f: nat)
    requires bounds.start <= hit.token.start <= hit.token.end <= bounds.end <= |source|
    requires source[hit.token.start..hit.token.end] == hit.token.text
    requires old_ == source[bounds.start..bounds.end]
    requires new_ == source[bounds.start..hit.token.start] + hit.replacement + source[hit.token.end..bounds.end]
    requires FindFrom(source, old_, 0) == Some(f)
    ensures var d, n := hit.token.start - bounds.start, |hit.token.text|;
            && hit.token.start + n == hit.token.end && f + d + n <= |source|
            && source[f + d..f + d + n] == hit.token.text
            && ReplaceFirst(source, old_, new_) == source[..f + d] + hit.replacement + source[f + d + n..]
  {
    hide *;
    assert |hit.token.text| == hit.token.end - hit.token.start;
    OccurrenceFits(source, old_, f);
    FirstOccurrenceSplice(source, hit, old_, new_, bounds, f);
    ReplacedAt(source, old_, new_);
  }

  lemma TokenThere(source: string, hit: Hit)
    requires Bracketed(source, hit)
    ensures hit.span.start <= |source| && hit.span.end <= |source|
    ensures hit.token.start <= hit.token.end <= |source| && source[hit.token.start..hit.token.end] == hit.token.text
  {
    hide IsFlip;
  }

  lemma FirstOccurrenceSplice(source: string, hit: Hit, old_: string, new_: string, bounds: Span, f: nat)
    requires bounds.start <= hit.token.start <= hit.token.end <= bounds.end <= |source|
    requires source[hit.token.start..hit.token.end] == hit.token.text
    requires old_ == source[bounds.start..bounds.end]
    requires new_ == source[bounds.start..hit.token.start] + hit.replacement + source[hit.token.end..bounds.end]
    requires OccursAt(source, old_, f)
    ensures var d, e := hit.token.start - bounds.start, hit.token.end - bounds.start;
            && source[f + d..f + e] == hit.token.text
            && source[..f] + new_ + source[f + |old_|..] == source[..f + d] + hit.replacement + source[f + e..]
  {
    hide *;
    var d, e := hit.token.start - bounds.start, hit.token.end - bounds.start;
    OccurrenceFits(source, old_, f);
    ThreeSlices(source, bounds.start, bounds.end, hit.token.start, hit.token.end);
    OccurrenceParts(source, old_, f, d, e);
    SwappedInPlace(source, old_, f, d, e, hit.replacement);
  }

  /** Swapping the middle of an occurrence swaps the middle of the text. */
  lemma SwappedInPlace(source: string, old_: string, f: nat, d: nat, e: nat, rep: string)
    requires OccursAt(source, old_, f) && f + |old_| <= |source| && d <= e <= |old_|
    ensures source[..f] + (old_[..d] + rep + old_[e..]) + source[f + |old_|..] == source[..f + d] + rep + source[f + e..]
  {
    hide *;
    OccurrenceParts(source, old_, f, d, e);
    Regroup(source[..f], old_[..d], rep, old_[e..], source[f + |old_|..]);
  }

  lemma OccurrenceFits(source: string, old_: string, f: nat)
    requires OccursAt(source, old_, f)
    ensures f + |old_| <= |source|
  {
  }

  lemma ThreeSlices(s: string, i: nat, j: nat, a: nat, b: nat)
    requires i <= a <= b <= j <= |s|
    ensures var t := s[i..j];
            t[..a - i] == s[i..a] && t[a - i..b - i] == s[a..b] && t[b - i..] == s[b..j]
  {
    SliceOfSlice(s, i, j, 0, a - i);
    SliceOfSlice(s, i, j, a - i, b - i);
    SliceOfSlice(s, i, j, b - i, j - i);
  }

  /** The parts of an occurrence, and what stands before and after them. */
  lemma OccurrenceParts(source: string, old_: string, f: nat, d: nat, e: nat)
    requires OccursAt(source, old_, f) && d <= e <= |old_|
    ensures source[f + d..f + e] == old_[d..e]
    ensures source[..f] + old_[..d] == source[..f + d] && old_[e..] + source[f + |old_|..] == source[f + e..]
  {
    var n := |old_|;
    SliceOfSlice(source, f, f + n, 0, d);
    SliceOfSlice(source, f, f + n, d, e);
    SliceOfSlice(source, f, f + n, e, n);
    assert source[..f] + source[f..f + d] == source[..f + d];
    assert source[f + e..f + n] + source[f + n..] == source[f + e..];
  }

  lemma Regroup(a: string, b: string, c: string, d: string, e: string)
    ensures a + (b + c + d) + e == (a + b) + c + (d + e)
  {
  }

  lemma ReplacedAt(s: string, old_: string, new_: string)
    requires FindFrom(s, old_, 0).Some?
    ensures var f := FindFrom(s, old_, 0).value;
            ReplaceFirst(s, old_, new_) == s[..f] + new_ + s[f + |old_|..]
  {
  }

  lemma SliceOfSlice(s: string, i: nat, j: nat, a: nat, b: nat)
    requires i <= j <= |s| && a <= b <= j - i
    ensures s[i..j][a..b] == s[i + a..i + b]
  {
    assert forall k :: 0 <= k < b - a ==> s[i..j][a..b][k] == s[i + a + k];
  }

  /** The same swap made at two different places gives two different texts. */
  lemma SwapsDiffer(s: string, token: string, rep: string, i: nat, j: nat)
    requires token != "" && rep != ""
    requires token[0] != rep[0] || token[|token| - 1] != rep[|rep| - 1]
    requires i < j && j + |token| <= |s|
    requires s[i..i + |token|] == token && s[j..j + |token|] == token
    ensures s[..i] + rep + s[i + |token|..] != s[..j] + rep + s[j + |token|..]
  {
    var t, r := |token|, |rep|;
    var a, b := s[..i] + rep + s[i + t..], s[..j] + rep + s[j + t..];
    if token[0] != rep[0] {
      assert a[i] == rep[0];
      assert b[i] == s[i] == s[i..i + t][0];
    } else {
      assert b[j + r - 1] == rep[r - 1];
      assert a[j + r - 1] == s[j + t - 1] == s[j..j + t][t - 1];
    }
  }

  /** An anchor the generator emits is always accepted by the applier, on the source it was read from. */
  lemma AnchorAccepted(path: Path, source: string, hit: Hit, a: Anchor)
    requires !HasCR(source) && Bracketed(source, hit) && Anchored(source, hit) == Some(a)
    ensures Landing(map[path := Utf8(source)], Edit(path, a.old_, a.new_), Calm).1.Ok?
    ensures Landing(map[path := Utf8(source)], Edit(path, a.old_, a.new_), Calm).0
            == map[path := Utf8(ReplaceFirst(source, a.old_, a.new_))]
  {
    hide Anchored, Bracketed, FindFrom, Count, Landing, ReplaceFirst, HasCR, LineSpan, Bounds;
    var files: Files, edit := map[path := Utf8(source)], Edit(path, a.old_, a.new_);
    TokenNotEmpty(source, hit);
    NewHasNoCR(source, hit, a);
    var f, d, start := AppliedText(source, hit, a);
    CountedOnceHere(source, hit, a);
    MutateEditsLaws.LandsIff(files, edit);
    SwapChanges(source, f + d, hit.token.text, hit.replacement);
    LandedText(path, source, edit);
  }

  /**
   What the applier writes is the one-token change the candidate names, and nothing else, exactly when
   the anchor does not also occur further left, overlapping itself.
   */
  lemma AnchorPlacedIff(source: string, hit: Hit, a: Anchor)
    requires Bracketed(source, hit) && Anchored(source, hit) == Some(a)
    ensures ReplaceFirst(source, a.old_, a.new_) == Flipped(source, hit)
            <==> FindFrom(source, a.old_, 0) == Some(Bounds(source, hit.span, a.rung).start)
  {
    hide IsFlip, Anchored, Bounds, FindFrom, ReplaceFirst;
    TokenNotEmpty(source, hit);
    var f, d, start := AppliedText(source, hit, a);
    assert Flipped(source, hit)
           == source[..start + d] + hit.replacement + source[start + d + |hit.token.text|..];
    hide *;
    if f < start {
      SwapsDiffer(source, hit.token.text, hit.replacement, f + d, start + d);
    }
  }

  lemma LandedText(path: Path, source: string, edit: Edit)
    requires !HasCR(source) && edit.path == path
    requires Landing(map[path := Utf8(source)], edit, Calm).1.Ok?
    ensures Landing(map[path := Utf8(source)], edit, Calm).0
            == map[path := Utf8(ReplaceFirst(source, edit.old_, edit.new_))]
  {
    MutateEditsLaws.LandedEdit(map[path := Utf8(source)], edit, Calm);
  }

  lemma SwapChanges(s: string, i: nat, token: string, rep: string)
    requires i + |token| <= |s| && s[i..i + |token|] == token && token != rep
    ensures s[..i] + rep + s[i + |token|..] != s
  {
    var swapped := s[..i] + rep + s[i + |token|..];
    if |rep| == |token| {
      assert swapped[i..i + |token|] == rep;
    }
  }

  lemma NewHasNoCR(source: string, hit: Hit, a: Anchor)
    requires !HasCR(source) && !HasCR(hit.replacement) && Bracketed(source, hit) && Anchored(source, hit) == Some(a)
    ensures !HasCR(a.new_)
  {
    hide *;
    AnchorShape(source, hit, a);
    TokenThere(source, hit);
    SplicedHasNoCR(source, Bounds(source, hit.span, a.rung), hit);
  }

  lemma SplicedHasNoCR(source: string, bounds: Span, hit: Hit)
    requires !HasCR(source) && !HasCR(hit.replacement)
    requires bounds.start <= hit.token.start <= hit.token.end <= bounds.end <= |source|
    ensures !HasCR(source[bounds.start..hit.token.start] + hit.replacement + source[hit.token.end..bounds.end])
  {
  }

  /**
   A single-line anchor from the "line" rung cannot overlap another occurrence of itself: it starts and
   stops at line boundaries and holds none. So it always changes exactly its own token.
   */
  lemma LineAnchorLands(path: Path, source: string, hit: Hit, a: Anchor)
    requires !HasCR(source) && Bracketed(source, hit) && Anchored(source, hit) == Some(a)
    requires a.rung == Line && '\n' !in a.old_
    ensures Landing(map[path := Utf8(source)], Edit(path, a.old_, a.new_), Calm).0
            == map[path := Utf8(Flipped(source, hit))]
  {
    hide IsFlip, Count, Anchored, Landing, ReplaceFirst;
    LineAnchorIsFirst(source, hit, a);
    AnchorAccepted(path, source, hit, a);
    AnchorPlacedIff(source, hit, a);
  }

  lemma LineAnchorIsFirst(source: string, hit: Hit, a: Anchor)
    requires Bracketed(source, hit) && Anchored(source, hit) == Some(a)
    requires a.rung == Line && '\n' !in a.old_
    ensures FindFrom(source, a.old_, 0) == Some(Bounds(source, hit.span, a.rung).start)
  {
    hide IsFlip, Anchored;
    CountedOnceHere(source, hit, a);
    AnchorShape(source, hit, a);
    CountedOnce(source, a.old_);
    hide Count;
    var f, start := FindFrom(source, a.old_, 0).value, LineSpan(source, hit.span).start;
    if f < start {
      StopsBeforeLine(source, a.old_, start, f);
    }
  }

  /** Text without a newline that starts before a line ends before it. */
  lemma StopsBeforeLine(source: string, text: string, start: nat, f: nat)
    requires f < start <= |source| && source[start - 1] == '\n' && '\n' !in text
    requires OccursAt(source, text, f)
    ensures f + |text| < start
  {
    var here := source[f..f + |text|];
    assert forall k :: 0 <= k < |text| ==> here[k] == source[f + k];
  }

  /**
   The overlap is possible for an expression: a comparison over three lines whose text also ends a
   comment and runs on from there. It is counted once, yet the swap lands in the comment, and the
   operator the candidate names is left as it was.
   */
  lemma OverlappingAnchorMisses()
    ensures var source := "(#x<\nx<\nx)";
            var hit := Hit(Token("<", 6, 7), Span(5, 9), "<=");
            && Bracketed(source, hit)
            && Anchored(source, hit) == Some(Anchor(Expression, "x<\nx", "x<=\nx"))
            && ReplaceFirst(source, "x<\nx", "x<=\nx") == "(#x<=\nx<\nx)"
            && Flipped(source, hit) == "(#x<\nx<=\nx)"
  {
    hide *;
    MissedAnchor();
    MissedSwap();
  }

  lemma MissedAnchor()
    ensures var source := "(#x<\nx<\nx)";
            && Bracketed(source, Hit(Token("<", 6, 7), Span(5, 9), "<="))
            && Anchored(source, Hit(Token("<", 6, 7), Span(5, 9), "<=")) == Some(Anchor(Expression, "x<\nx", "x<=\nx"))
            && FindFrom(source, "x<\nx", 0) == Some(2)
  {
    var source, old_ := "(#x<\nx<\nx)", "x<\nx";
    assert source[6..7] == "<" && source[5..9] == old_ && source[2..6] == old_;
    assert Bracketed(source, Hit(Token("<", 6, 7), Span(5, 9), "<="));
    forall k | OccursAt(source, old_, k)
      ensures 2 <= k < 6
    {
      assert source[k..k + 4][0] == source[k];
    }
    hide Count, FindFrom;
    OverlapsCountOnce(source, old_, 2);
    assert old_[..1] + "<=" + old_[2..] == "x<=\nx";
  }

  lemma MissedSwap()
    requires FindFrom("(#x<\nx<\nx)", "x<\nx", 0) == Some(2)
    ensures var source := "(#x<\nx<\nx)";
            && Bracketed(source, Hit(Token("<", 6, 7), Span(5, 9), "<="))
            && ReplaceFirst(source, "x<\nx", "x<=\nx") == "(#x<=\nx<\nx)"
            && Flipped(source, Hit(Token("<", 6, 7), Span(5, 9), "<=")) == "(#x<\nx<=\nx)"
  {
    var source := "(#x<\nx<\nx)";
    hide FindFrom;
    assert source[6..7] == "<";
    assert source[..2] + "x<=\nx" + source[6..] == "(#x<=\nx<\nx)";
    assert source[..6] + "<=" + source[7..] == "(#x<\nx<=\nx)";
  }

  /** Every candidate a file yields is a mutation the harness will land, on that file as it was read. */
  lemma {:induction false} EveryCandidateLands(
      path: string, source: string, hits: seq<Hit>, nameOf: (nat, Hit) -> string, c: Candidate)
    requires forall h :: h in hits ==> Bracketed(source, h)
    requires !HasCR(source) && c in Emitted(path, source, hits, nameOf)
    ensures Landing(map[path := Utf8(source)], Edit(c.path, c.old_, c.new_), Calm).1.Ok?
    ensures exists i :: 0 <= i < |hits| && Some(c) == CandidateFor(path, source, hits[i], nameOf(i, hits[i]))
  {
    var last := |hits| - 1;
    var newest := CandidateFor(path, source, hits[last], nameOf(last, hits[last]));
    hide Landing, Bracketed;
    if c in Emitted(path, source, hits[..last], nameOf) {
      EveryCandidateLands(path, source, hits[..last], nameOf, c);
      var i :| 0 <= i < last && Some(c) == CandidateFor(path, source, hits[..last][i], nameOf(i, hits[..last][i]));
      assert hits[..last][i] == hits[i];
    } else {
      assert newest == Some(c);
      AnchorAccepted(path, source, hits[last], Anchored(source, hits[last]).value);
    }
  }

  // -- Coordinates -------------------------------------------------------------------------------

  /** The lines rejoin to the source, and each starts where `starts` says. */
  lemma {:induction false} LinesRejoin(source: string)
    ensures JoinLines(SplitNewlines(source)) == source
    decreases |source|
  {
    var stop := LineStop(source, 0);
    if stop < |source| {
      LinesRejoin(source[stop + 1..]);
      var rest := SplitNewlines(source[stop + 1..]);
      assert ([source[..stop]] + rest)[1..] == rest;
      assert source == source[..stop] + "\n" + source[stop + 1..];
    }
  }

  lemma {:induction false} LengthOfTail(lines: seq<string>, n: nat)
    requires 0 < n <= |lines|
    ensures LengthBefore(lines, n) == |lines[0]| + 1 + LengthBefore(lines[1..], n - 1)
  {
    if n > 1 {
      LengthOfTail(lines, n - 1);
    }
  }

  /** `line` is the whole line of the source that starts at `start`. */
  ghost predicate LineAt(source: string, start: nat, line: string) {
    && start + |line| <= |source|
    && source[start..start + |line|] == line
    && (start + |line| < |source| ==> source[start + |line|] == '\n')
    && (start > 0 ==> source[start - 1] == '\n')
  }

  lemma LineAtShift(source: string, cut: nat, start: nat, line: string)
    requires cut < |source| && source[cut] == '\n' && LineAt(source[cut + 1..], start, line)
    ensures LineAt(source, cut + 1 + start, line)
  {
    var tail := source[cut + 1..];
    assert forall k :: 0 <= k < |tail| ==> tail[k] == source[cut + 1 + k];
    assert tail[start..start + |line|] == source[cut + 1 + start..cut + 1 + start + |line|];
  }

  lemma FirstLineAtStart(source: string)
    ensures LineAt(source, Starts(SplitNewlines(source))[0], SplitNewlines(source)[0])
  {
  }

  /** Every start is the true offset of its line. */
  lemma {:induction false} LineAtStart(source: string, i: nat)
    requires i < |SplitNewlines(source)|
    ensures LineAt(source, Starts(SplitNewlines(source))[i], SplitNewlines(source)[i])
    decreases |source|
  {
    hide *;
    if i == 0 {
      FirstLineAtStart(source);
    } else {
      var stop := LineStop(source, 0);
      var lines := SplitNewlines(source);
      TailLines(source, i);
      LineAtStart(source[stop + 1..], i - 1);
      LengthOfTail(lines, i);
      StartIsLength(lines, i);
      StartIsLength(lines[1..], i - 1);
      LineAtShift(source, stop, LengthBefore(lines[1..], i - 1), lines[i]);
    }
  }

  lemma StartIsLength(lines: seq<string>, i: nat)
    requires i < |lines|
    ensures |Starts(lines)| == |lines| && Starts(lines)[i] == LengthBefore(lines, i)
  {
  }

  /** The lines after the first are the lines of what follows its newline. */
  lemma TailLines(source: string, i: nat)
    requires 0 < i < |SplitNewlines(source)|
    ensures var stop, lines := LineStop(source, 0), SplitNewlines(source);
            && stop < |source| && source[stop] == '\n' && |lines[0]| == stop
            && lines[1..] == SplitNewlines(source[stop + 1..])
  {
    hide LineStop;
  }

  // -- UTF-8 -------------------------------------------------------------------------------------

  lemma EncodeDecodeChar(c: char)
    ensures var b := EncodeChar(c);
            && SequenceLength(b[0]) == |b|
            && (forall k :: 1 <= k < |b| ==> Continuation(b[k]))
            && ScalarOf(b) == c as int && ScalarValue(c as int)
  {
    var n := c as int;
    if n < 0x80 {
    } else if n < 0x800 {
      assert n == n / 64 * 64 + n % 64;
    } else if n < 0x1_0000 {
      assert n / 64 / 64 == n / 4096;
      assert n == n / 64 * 64 + n % 64 && n / 64 == n / 4096 * 64 + n / 64 % 64;
    } else {
      assert n / 64 / 64 == n / 4096 && n / 4096 / 64 == n / 262144;
      assert n == n / 64 * 64 + n % 64 && n / 64 == n / 4096 * 64 + n / 64 % 64;
      assert n / 4096 == n / 262144 * 64 + n / 4096 % 64;
    }
  }

  /** A column of the line: the number of bytes before its `k`-th character. */
  function ByteColumn(line: string, k: nat): nat
    requires k <= |line|
  {
    |Encode(line[..k])|
  }

  lemma {:induction false} EncodePrefix(line: string, k: nat)
    requires k <= |line|
    ensures ByteColumn(line, k) <= |Encode(line)|
    ensures Encode(line)[..ByteColumn(line, k)] == Encode(line[..k])
  {
    hide EncodeChar;
    if k > 0 {
      EncodePrefix(line[1..], k - 1);
      assert line[..k][0] == line[0] && line[..k][1..] == line[1..][..k - 1];
      var head, rest := EncodeChar(line[0]), Encode(line[1..]);
      assert (head + rest)[..|head| + ByteColumn(line[1..], k - 1)] == head + rest[..ByteColumn(line[1..], k - 1)];
    }
  }

  lemma EncodeHead(line: string)
    requires line != ""
    ensures Encode(line) == EncodeChar(line[0]) + Encode(line[1..])
  {
  }

  /** Decoding bytes that open with a whole character decodes that character and the rest. */
  lemma DecodeHead(c: char, rest: seq<Byte>)
    ensures Decode(EncodeChar(c) + rest)
            == match Decode(rest) case None => None case Some(text) => Some([c] + text)
  {
    EncodeDecodeChar(c);
    var head := EncodeChar(c);
    hide EncodeChar, SequenceLength, ScalarOf, ScalarValue, Continuation;
    var b := head + rest;
    assert b[0] == head[0] && b[..|head|] == head && b[|head|..] == rest;
    assert forall k :: 1 <= k < |head| ==> b[k] == head[k];
  }

  lemma {:induction false} DecodeEncode(s: string)
    ensures Decode(Encode(s)) == Some(s)
  {
    if s != "" {
      hide Encode, Decode;
      DecodeEncode(s[1..]);
      EncodeHead(s);
      DecodeHead(s[0], Encode(s[1..]));
      assert s == [s[0]] + s[1..];
    } else {
      assert Encode("") == [];
    }
  }

  lemma DivMod(q: nat, r: nat, n: nat)
    requires r < n
    ensures (q * n + r) / n == q && (q * n + r) % n == r
  {
    SweepCensus.NotNegative(q, n);
    SweepCensus.Place(q * n + r, n, q, r);
  }

  /** A well-formed sequence is the encoding of its scalar. */
  lemma ScalarRebuilds(b: seq<Byte>)
    requires 1 <= |b| <= 4 && SequenceLength(b[0]) == |b| && forall k :: 1 <= k < |b| ==> Continuation(b[k])
    requires ScalarValue(ScalarOf(b)) && |EncodeChar(ScalarOf(b) as char)| == |b|
    ensures EncodeChar(ScalarOf(b) as char) == b
  {
    if |b| == 2 {
      DivMod(b[0] as int - 0xC0, b[1] as int - 0x80, 64);
    } else if |b| == 3 {
      ThreeRebuild(b);
    } else if |b| == 4 {
      FourRebuild(b);
    }
  }

  lemma ThreeRebuild(b: seq<Byte>)
    requires |b| == 3 && 0xE0 <= b[0] && forall k :: 1 <= k < 3 ==> Continuation(b[k])
    ensures var n := ScalarOf(b);
            n >= 0 && [0xE0 + n / 4096, 0x80 + n / 64 % 64, 0x80 + n % 64] == [b[0] as int, b[1] as int, b[2] as int]
  {
    var x, y, z := b[0] as int - 0xE0, b[1] as int - 0x80, b[2] as int - 0x80;
    var n := ScalarOf(b);
    assert n == (x * 64 + y) * 64 + z && 0 <= y < 64 && 0 <= z < 64;
    hide *;
    DivMod(x, y, 64);
    DivMod(x * 64 + y, z, 64);
    assert n / 4096 == n / 64 / 64;
  }

  lemma FourRebuild(b: seq<Byte>)
    requires |b| == 4 && 0xF0 <= b[0] && forall k :: 1 <= k < 4 ==> Continuation(b[k])
    ensures var n := ScalarOf(b);
            && n >= 0
            && [0xF0 + n / 262144, 0x80 + n / 4096 % 64, 0x80 + n / 64 % 64, 0x80 + n % 64]
               == [b[0] as int, b[1] as int, b[2] as int, b[3] as int]
  {
    var w, x, y, z := b[0] as int - 0xF0, b[1] as int - 0x80, b[2] as int - 0x80, b[3] as int - 0x80;
    var n := ScalarOf(b);
    assert n == ((w * 64 + x) * 64 + y) * 64 + z && 0 <= x < 64 && 0 <= y < 64 && 0 <= z < 64;
    hide *;
    DivMod(w, x, 64);
    DivMod(w * 64 + x, y, 64);
    DivMod((w * 64 + x) * 64 + y, z, 64);
    assert n / 4096 == n / 64 / 64 && n / 262144 == n / 4096 / 64;
  }

  /** What a successful decoding says of the first character. */
  lemma DecodedHead(b: seq<Byte>)
    requires b != [] && Decode(b).Some?
    ensures var n, s := SequenceLength(b[0]), Decode(b).value;
            && 1 <= n <= |b| && Decode(b[n..]).Some? && s != ""
            && EncodeChar(s[0]) == b[..n] && s[1..] == Decode(b[n..]).value
  {
    hide *;
    DecodeAccepts(b);
    HeadWellFormed(b, SequenceLength(b[0]));
    ScalarRebuilds(b[..SequenceLength(b[0])]);
  }

  lemma DecodeAccepts(b: seq<Byte>)
    requires b != [] && Decode(b).Some?
    ensures var n := SequenceLength(b[0]);
            && 1 <= n <= 4 && n <= |b| && (forall k :: 1 <= k < n ==> Continuation(b[k])) && Decode(b[n..]).Some?
            && ScalarValue(ScalarOf(b[..n])) && |EncodeChar(ScalarOf(b[..n]) as char)| == n
            && Decode(b).value == [ScalarOf(b[..n]) as char] + Decode(b[n..]).value
  {
    assert SequenceLength(b[0]) <= 4;
    hide EncodeChar, ScalarOf, ScalarValue, Continuation, SequenceLength;
  }

  lemma HeadWellFormed(b: seq<Byte>, n: nat)
    requires 1 <= n <= |b| && n == SequenceLength(b[0]) && forall k :: 1 <= k < n ==> Continuation(b[k])
    ensures SequenceLength(b[..n][0]) == |b[..n]| && forall k :: 1 <= k < |b[..n]| ==> Continuation(b[..n][k])
  {
    hide SequenceLength, Continuation;
  }

  lemma NothingDecodes()
    ensures Decode([]) == Some("") && Encode("") == []
  {
  }

  /** Only encodings decode: the decoder accepts exactly what some text encodes to, and gives that text. */
  lemma {:induction false} DecodesEncodings(b: seq<Byte>)
    requires Decode(b).Some?
    ensures Encode(Decode(b).value) == b
    decreases |b|
  {
    hide *;
    if b == [] {
      NothingDecodes();
    } else {
      DecodedHead(b);
      var n := SequenceLength(b[0]);
      DecodesEncodings(b[n..]);
      var s := Decode(b).value;
      EncodeHead(s);
      assert b == b[..n] + b[n..];
    }
  }

  /** Strict decoding is the inverse of encoding, both ways. */
  lemma DecodeIff(b: seq<Byte>, s: string)
    ensures Decode(b) == Some(s) <==> Encode(s) == b
  {
    DecodeEncode(s);
    hide Encode, Decode;
    if Decode(b) == Some(s) {
      DecodesEncodings(b);
    }
  }

  /** A prefix shorter than its first character does not decode. */
  lemma Truncated(c: char, n: nat)
    requires 0 < n < |EncodeChar(c)|
    ensures Decode(EncodeChar(c)[..n]).None?
  {
    EncodeDecodeChar(c);
  }

  /** The decoder accepts a prefix of an encoded line exactly at a character's column. */
  lemma {:induction false} DecodePrefix(line: string, n: nat) returns (k: nat)
    requires n <= |Encode(line)| && Decode(Encode(line)[..n]).Some?
    ensures k <= |line| && n == ByteColumn(line, k)
  {
    if n == 0 {
      k := 0;
    } else {
      EncodeHead(line);
      hide EncodeChar, Decode, Encode;
      var head, rest := EncodeChar(line[0]), Encode(line[1..]);
      if n < |head| {
        assert (head + rest)[..n] == head[..n];
        Truncated(line[0], n);
      } else {
        assert (head + rest)[..n] == head + rest[..n - |head|];
        DecodeHead(line[0], rest[..n - |head|]);
        var j := DecodePrefix(line[1..], n - |head|);
        k := j + 1;
        assert line[..k][0] == line[0] && line[..k][1..] == line[1..][..j];
        EncodeHead(line[..k]);
      }
    }
  }

  /**
   `_offset` is exact: a byte column is accepted exactly when it is the column of some character (or
   past the end of the line), and then the offset is that character's own position in the source.
   */
  lemma OffsetExact(lines: seq<string>, i: nat, column: nat, at: nat)
    requires i < |lines|
    ensures Offset(lines, Starts(lines), i + 1, column) == Some(at)
            <==> exists k: nat ::
                   && k <= |lines[i]| && at == Starts(lines)[i] + k
                   && (column == ByteColumn(lines[i], k) || (k == |lines[i]| && column > ByteColumn(lines[i], k)))
  {
    var line, start := lines[i], Starts(lines)[i];
    var bytes := Encode(line);
    assert line[..|line|] == line;
    hide Encode, Decode;
    if Offset(lines, Starts(lines), i + 1, column) == Some(at) {
      var n := if column <= |bytes| then column else |bytes|;
      assert bytes[..|bytes|] == bytes;
      var k := DecodePrefix(line, n);
      EncodePrefix(line, k);
      DecodeEncode(line[..k]);
      ColumnsIncrease(line, k, |line|);
      assert at == start + k;
    }
    if k: nat :| k <= |line| && at == start + k
                 && (column == ByteColumn(line, k) || (k == |line| && column > ByteColumn(line, k))) {
      EncodePrefix(line, k);
      DecodeEncode(line[..k]);
      assert bytes[..|bytes|] == bytes;
    }
  }

  /** Columns strictly increase along a line, so offsets strictly increase across positions. */
  lemma {:induction false} ColumnsIncrease(line: string, j: nat, k: nat)
    requires j <= k <= |line|
    ensures j < k ==> ByteColumn(line, j) < ByteColumn(line, k)
    ensures j == k ==> ByteColumn(line, j) == ByteColumn(line, k)
  {
    if j < k {
      ColumnsIncrease(line, j, k - 1);
      EncodeAppend(line[..k - 1], line[k - 1]);
      assert line[..k] == line[..k - 1] + [line[k - 1]];
    }
  }

  lemma {:induction false} EncodeAppend(s: string, c: char)
    ensures Encode(s + [c]) == Encode(s) + EncodeChar(c)
  {
    if s != "" {
      EncodeAppend(s[1..], c);
      assert (s + [c])[1..] == s[1..] + [c];
    } else {
      assert Encode([c]) == EncodeChar(c) + Encode([]);
    }
  }

  /** Positions in different lines keep their order too: a later line starts past the end of an earlier one. */
  lemma {:induction false} StartsIncrease(lines: seq<string>, i: nat, j: nat)
    requires i < j < |lines|
    ensures Starts(lines)[i] + |lines[i]| < Starts(lines)[j]
  {
    if i + 1 < j {
      StartsIncrease(lines, i, j - 1);
    }
  }

  // -- Line numbers ------------------------------------------------------------------------------

  /** The number of newlines in a text. */
  function Newlines(s: string): nat {
    if s == "" then 0 else (if s[0] == '\n' then 1 else 0) + Newlines(s[1..])
  }

  lemma {:induction false} NewlinesAppend(s: string, t: string)
    ensures Newlines(s + t) == Newlines(s) + Newlines(t)
  {
    if s == "" {
      assert s + t == t;
    } else {
      assert (s + t)[1..] == s[1..] + t;
      NewlinesAppend(s[1..], t);
    }
  }

  lemma {:induction false} NoNewlines(s: string)
    requires '\n' !in s
    ensures Newlines(s) == 0
  {
    if s != "" {
      NoNewlines(s[1..]);
    }
  }

  /** Where the next newline is, and what that makes of the count. */
  lemma NextNewline(s: string, from: nat) returns (stop: nat)
    requires from <= |s|
    ensures from <= stop <= |s| && '\n' !in s[from..stop]
    ensures stop == |s| ==> CountFrom(s, "\n", from) == 0
    ensures stop < |s| ==> s[stop] == '\n' && CountFrom(s, "\n", from) == 1 + CountFrom(s, "\n", stop + 1)
  {
    var found := FindFrom(s, "\n", from);
    hide FindFrom;
    stop := if found.Some? then found.value else |s|;
    forall k | from <= k < stop
      ensures s[k] != '\n'
    {
      assert !OccursAt(s, "\n", k) && s[k..k + 1] == [s[k]];
    }
    assert found.Some? ==> s[stop..stop + 1] == [s[stop]];
  }

  lemma NewlinesApart(s: string, from: nat, stop: nat)
    requires from <= stop <= |s| && '\n' !in s[from..stop]
    ensures stop == |s| ==> Newlines(s[from..]) == 0
    ensures stop < |s| && s[stop] == '\n' ==> Newlines(s[from..]) == 1 + Newlines(s[stop + 1..])
  {
    hide Newlines;
    NoNewlines(s[from..stop]);
    if stop == |s| {
      assert s[from..] == s[from..stop];
    } else if s[stop] == '\n' {
      assert s[from..] == s[from..stop] + ("\n" + s[stop + 1..]);
      NewlinesAppend(s[from..stop], "\n" + s[stop + 1..]);
      NewlinesAppend("\n", s[stop + 1..]);
      OneNewline();
    }
  }

  lemma {:induction false} CountsNewlines(s: string, from: nat)
    requires from <= |s|
    ensures CountFrom(s, "\n", from) == Newlines(s[from..])
    decreases |s| - from
  {
    hide *;
    var stop := NextNewline(s, from);
    NewlinesApart(s, from, stop);
    if stop < |s| {
      CountsNewlines(s, stop + 1);
    }
  }

  lemma LineNumberCounts(source: string, at: nat)
    requires at <= |source|
    ensures LineNumber(source, at) == Newlines(source[..at]) + 1
  {
    CountsNewlines(source[..at], 0);
    assert source[..at][0..] == source[..at];
    hide CountFrom, Newlines;
  }

  lemma OneLineMore(source: string, start: nat, line: string)
    requires LineAt(source, start, line) && start + |line| < |source| && '\n' !in line
    ensures Newlines(source[..start + |line| + 1]) == Newlines(source[..start]) + 1
  {
    hide Newlines;
    assert source[..start + |line| + 1] == source[..start] + (line + "\n");
    NewlinesAppend(source[..start], line + "\n");
    NewlinesAppend(line, "\n");
    NoNewlines(line);
    OneNewline();
  }

  lemma OneNewline()
    ensures Newlines("\n") == 1
  {
    assert "\n"[1..] == "";
  }

  /** The text before the start of line `i` holds `i` newlines. */
  lemma {:induction false} NewlinesBefore(source: string, i: nat)
    requires i < |SplitNewlines(source)|
    ensures LengthBefore(SplitNewlines(source), i) <= |source|
    ensures Newlines(source[..LengthBefore(SplitNewlines(source), i)]) == i
  {
    var lines := SplitNewlines(source);
    if i > 0 {
      NewlinesBefore(source, i - 1);
      LineAtStart(source, i - 1);
      LineAtStart(source, i);
      StartIsLength(lines, i - 1);
      StartIsLength(lines, i);
      var start, next := LengthBefore(lines, i - 1), LengthBefore(lines, i);
      assert lines[i - 1] in lines;
      hide SplitNewlines, Starts, Newlines;
      OneLineMore(source, start, lines[i - 1]);
    }
  }

  /** A position is on line `i + 1` exactly when it lies between that line's start and its end. */
  lemma LineNumberMeans(source: string, at: nat, i: nat)
    requires at <= |source| && i < |SplitNewlines(source)|
    requires var start := Starts(SplitNewlines(source))[i]; start <= at <= start + |SplitNewlines(source)[i]|
    ensures LineNumber(source, at) == i + 1
  {
    var line := SplitNewlines(source)[i];
    assert line in SplitNewlines(source);
    hide *;
    StartIsLength(SplitNewlines(source), i);
    NewlinesBefore(source, i);
    LineAtStart(source, i);
    LineNumberCounts(source, at);
    OnTheLine(source, Starts(SplitNewlines(source))[i], line, at);
  }

  lemma OnTheLine(source: string, start: nat, line: string, at: nat)
    requires LineAt(source, start, line) && '\n' !in line && start <= at <= start + |line|
    ensures Newlines(source[..at]) == Newlines(source[..start])
  {
    hide Newlines;
    assert source[start..at] == line[..at - start];
    assert source[..at] == source[..start] + source[start..at];
    NewlinesAppend(source[..start], source[start..at]);
    NoNewlines(source[start..at]);
  }

  // -- What a candidate says ---------------------------------------------------------------------

  /** Every operator flips to another, and that one flips back. */
  lemma FlipsUndo(text: string, replacement: string)
    requires IsFlip(text, replacement)
    ensures text != replacement && IsFlip(replacement, text)
    ensures text in {"<", "<=", ">", ">=", "==", "!=", "and", "or", "True", "False"}
  {
  }

  /** A candidate names the operator at its hit, what becomes of it and the line it is on. */
  lemma CandidateTells(path: string, source: string, hit: Hit, name: string, c: Candidate)
    requires Bracketed(source, hit) && CandidateFor(path, source, hit, name) == Some(c)
    ensures c.name == name && c.path == path
    ensures source[hit.token.start..hit.token.end] == c.swappedFrom && c.swappedTo == hit.replacement
    ensures IsFlip(c.swappedFrom, c.swappedTo) && c.line == LineNumber(source, hit.token.start)
    ensures Anchored(source, hit) == Some(Anchor(c.anchor, c.old_, c.new_))
  {
    hide Anchored, LineNumber, IsFlip;
  }

  // -- Visits ------------------------------------------------------------------------------------

  predicate Apart(candidates: seq<Candidate>) {
    forall i, j :: 0 <= i < j < |candidates| ==> candidates[i] != candidates[j]
  }

  /**
   Any `n` consecutive visits to a file with `n` candidates pick each of them exactly once, whatever
   the census size and the lap of the first visit.
   */
  lemma EachCandidateOnce(g: Generated, files: seq<string>, p: nat, c: nat) returns (v: nat)
    requires files != [] && c < |g.candidates| && Apart(g.candidates)
    ensures v < |g.candidates|
    ensures forall w: nat :: w < |g.candidates| ==>
              (g.AtLap(SweepCensus.VisitSlot(files, p, w).lap) == Some(g.candidates[c]) <==> w == v)
  {
    hide SweepCensus.IndexAt, SweepCensus.VisitSlot;
    v := SweepCensus.EachIndexOnce(files, p, |g.candidates|, c);
  }

  /** Slot `k` of run `r`. */
  function RunSlot(files: seq<string>, size: nat, r: nat, k: nat): SweepCensus.Slot
    requires files != []
  {
    SweepCensus.SlotAt(files, r * size + k)
  }

  /** What `ForBlock` makes of the block of run `r`: each slot's pick, or a refusal if no file of it offers any. */
  ghost predicate Attempted(files: seq<string>, size: nat, generate: string -> Generated, r: nat,
                            result: Option<seq<Attempt>>)
    requires files != []
  {
    && (result.None? <==>
        forall k: nat :: k < size ==> generate(RunSlot(files, size, r, k).path).candidates == [])
    && (result.Some? ==>
        && |result.value| == size
        && forall k: nat :: k < size ==>
             var slot := RunSlot(files, size, r, k);
             result.value[k] == Attempt(slot, generate(slot.path), generate(slot.path).AtLap(slot.lap)))
  }

  /** One run of the sweep: the block of the date, and what it attempts. */
  method AttemptRun(files: seq<string>, on: SweepCensus.Ordinal, size: int, generate: string -> Generated)
    returns (r: Result<Option<seq<Attempt>>, SweepCensus.SweepError>)
    ensures r.Err? <==> files == [] || size <= 0
    ensures r.Ok? ==> Attempted(files, size, generate, SweepCensus.RunIndex(on), r.value)
  {
    var slots := SweepCensus.Block(files, on, size);
    if slots.Err? {
      return Err(slots.error);
    }
    assert forall k: nat :: k < size ==> slots.value[k] == RunSlot(files, size, SweepCensus.RunIndex(on), k);
    hide SweepCensus.SlotAt, RunSlot, SweepCensus.RunIndex;
    var attempts := ForBlock(slots.value, generate);
    return Ok(attempts);
  }

  /** The attempt at a position of the walk, if its run makes any. */
  function AttemptAt(runs: nat -> Option<seq<Attempt>>, size: nat, q: nat): Option<Attempt>
    requires size > 0
  {
    var result := runs(q / size);
    if result.Some? && q % size < |result.value| then Some(result.value[q % size]) else None
  }

  /** A run that meets a file with candidates is not refused. */
  lemma AttemptThere(files: seq<string>, size: nat, generate: string -> Generated, runs: nat -> Option<seq<Attempt>>,
                     q: nat)
    requires files != [] && size > 0 && Attempted(files, size, generate, q / size, runs(q / size))
    requires generate(SweepCensus.SlotAt(files, q).path).candidates != []
    ensures var slot := SweepCensus.SlotAt(files, q);
            AttemptAt(runs, size, q) == Some(Attempt(slot, generate(slot.path), generate(slot.path).AtLap(slot.lap)))
  {
    assert q == q / size * size + q % size;
    assert RunSlot(files, size, q / size, q % size) == SweepCensus.SlotAt(files, q);
    hide SweepCensus.SlotAt;
  }

  /**
   Over the runs that make them, whatever the block size: of any `n` consecutive visits to a file with
   `n` candidates exactly one attempts each candidate.
   */
  lemma EachAttemptedOnce(files: seq<string>, size: nat, generate: string -> Generated,
                          runs: nat -> Option<seq<Attempt>>, p: nat, c: nat)
    returns (v: nat)
    requires files != [] && size > 0
    requires forall r: nat :: Attempted(files, size, generate, r, runs(r))
    requires var g := generate(SweepCensus.SlotAt(files, p).path); c < |g.candidates| && Apart(g.candidates)
    ensures var g := generate(SweepCensus.SlotAt(files, p).path);
            && v < |g.candidates|
            && forall w: nat :: w < |g.candidates| ==>
                 && AttemptAt(runs, size, p + w * |files|).Some?
                 && (AttemptAt(runs, size, p + w * |files|).value.candidate == Some(g.candidates[c]) <==> w == v)
  {
    hide AttemptAt, Attempted, SweepCensus.SlotAt, Apart;
    var path := SweepCensus.SlotAt(files, p).path;
    var g := generate(path);
    v := EachCandidateOnce(g, files, p, c);
    forall w: nat | w < |g.candidates|
      ensures AttemptAt(runs, size, p + w * |files|).Some?
      ensures AttemptAt(runs, size, p + w * |files|).value.candidate == Some(g.candidates[c]) <==> w == v
    {
      SweepCensus.VisitSlotLap(files, p, w);
      AttemptThere(files, size, generate, runs, p + w * |files|);
    }
  }

  /** A file that offers more than one candidate is asked another one on its next visit. */
  lemma NextVisitAsksAnother(g: Generated, files: seq<string>, p: nat)
    requires files != [] && |g.candidates| > 1 && Apart(g.candidates)
    ensures g.AtLap(SweepCensus.SlotAt(files, p).lap) != g.AtLap(SweepCensus.VisitSlot(files, p, 1).lap)
  {
    var n, lap := |g.candidates|, SweepCensus.SlotAt(files, p).lap;
    SweepCensus.VisitSlotLap(files, p, 1);
    SweepCensus.StepRound(lap, 1, n);
    hide SweepCensus.IndexAt, SweepCensus.SlotAt, SweepCensus.VisitSlot;
  }

  /** Candidates made under their own names are never one another. */
  lemma {:induction false} EmittedApart(path: string, source: string, hits: seq<Hit>, nameOf: (nat, Hit) -> string)
    requires forall h :: h in hits ==> Bracketed(source, h)
    requires forall i: nat, j: nat :: i < j < |hits| ==> nameOf(i, hits[i]) != nameOf(j, hits[j])
    ensures Apart(Emitted(path, source, hits, nameOf))
    ensures forall c :: c in Emitted(path, source, hits, nameOf) ==>
              exists i: nat :: i < |hits| && c.name == nameOf(i, hits[i])
  {
    if hits != [] {
      var last := |hits| - 1;
      var before := hits[..last];
      EmittedApart(path, source, before, nameOf);
      LastEmitted(path, source, hits, nameOf);
      hide Emitted, CandidateFor, Bracketed;
      forall c | c in Emitted(path, source, hits, nameOf)
        ensures exists i: nat :: i < |hits| && c.name == nameOf(i, hits[i])
      {
        if c in Emitted(path, source, before, nameOf) {
          var i: nat :| i < |before| && c.name == nameOf(i, before[i]);
          assert before[i] == hits[i];
        }
      }
    }
  }

  lemma LastEmitted(path: string, source: string, hits: seq<Hit>, nameOf: (nat, Hit) -> string)
    requires hits != [] && forall h :: h in hits ==> Bracketed(source, h)
    ensures var last := |hits| - 1;
            var c := CandidateFor(path, source, hits[last], nameOf(last, hits[last]));
            && Emitted(path, source, hits, nameOf)
               == Emitted(path, source, hits[..last], nameOf) + (if c.Some? then [c.value] else [])
            && (c.Some? ==> c.value.name == nameOf(last, hits[last]))
  {
    hide Anchored, LineNumber, Bracketed;
  }
}
