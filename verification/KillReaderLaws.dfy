/** What the reader credits, and to whom, in any body at all (tools/audit/sweep_kill_rates.py). */
module KillReaderLaws {
  import opened PyText
  import opened Delimiters
  import opened SweepFiling
  import SweepFilingLaws
  import opened KillRates
  import opened Verdicts

  // -- Lines outside every fence -----------------------------------------------------------------

  /** A fence is three or more ticks and then no tick, to the end of the line. */
  lemma FenceMeans(line: string, n: nat, language: string)
    ensures FenceLine(line) == Some((n, language))
            <==> && 3 <= n <= |line| && (forall k :: 0 <= k < n ==> line[k] == '`')
                 && language == line[n..] && '`' !in language
  {
    if 3 <= n <= |line| && (forall k :: 0 <= k < n ==> line[k] == '`') && '`' !in line[n..] {
      assert n < |line| ==> line[n] == line[n..][0];
      RunIs(line, 0, n);
    }
    assert forall k :: 0 <= k < RunLength(line, 0) ==> line[k] == '`' by {
      RunTicks(line);
    }
  }

  lemma RunTicks(line: string)
    ensures RunLength(line, 0) <= |line| && forall k :: 0 <= k < RunLength(line, 0) ==> line[k] == '`'
  {
  }

  /** The ticks of the fence that is open before line `n`, none when it is 0. */
  function OpenFence(lines: seq<string>, n: nat): nat
    requires n <= |lines|
  {
    if n == 0 then 0
    else
      var before, mark := OpenFence(lines, n - 1), FenceLine(Strip(lines[n - 1]));
      if mark.None? then before
      else if before == 0 then mark.value.0
      else if mark.value.0 >= before && Strip(mark.value.1) == "" then 0
      else before
  }

  /** Line `k` is no fence and in none. */
  predicate Outside(lines: seq<string>, k: nat) {
    k < |lines| && OpenFence(lines, k) == 0 && FenceLine(Strip(lines[k])).None?
  }

  predicate SectionAt(lines: seq<string>, k: nat) {
    Outside(lines, k) && "## " <= Strip(lines[k])
  }

  function HeadingAt(lines: seq<string>, k: nat): Option<string> {
    if Outside(lines, k) then ParseHeading(Strip(lines[k])) else None
  }

  // -- Whose line it is --------------------------------------------------------------------------

  /** The last section line before line `n` is at `s`. */
  ghost predicate Under(lines: seq<string>, n: nat, s: nat) {
    s < n <= |lines| && SectionAt(lines, s) && forall q :: s < q < n ==> !SectionAt(lines, q)
  }

  /** The last module heading before line `n`, and after the section line `s`, names `owner`. */
  ghost predicate HeadedBy(lines: seq<string>, s: nat, n: nat, owner: string) {
    exists h: nat :: s < h < n && HeadingAt(lines, h) == Some(owner) && forall q :: h < q < n ==> HeadingAt(lines, q).None?
  }

  ghost predicate InModules(lines: seq<string>, n: nat) {
    exists s: nat :: Under(lines, n, s) && Strip(lines[s]) == "## Modules"
  }

  /**
   A verdict on line `n` belongs to `owner`: under `## Modules` to the last module heading, under
   `## Verdicts` to the legacy target until a heading comes, and under any other section to nobody.
   */
  ghost predicate OwnedBy(legacy: Option<string>, lines: seq<string>, n: nat, owner: string) {
    exists s: nat ::
      && Under(lines, n, s)
      && ((Strip(lines[s]) == "## Modules" && HeadedBy(lines, s, n, owner))
          || (Strip(lines[s]) == "## Verdicts" && legacy == Some(owner)
              && forall q :: s < q < n ==> HeadingAt(lines, q).None?))
  }

  lemma OneSection(lines: seq<string>, n: nat, s: nat, t: nat)
    requires Under(lines, n, s) && Under(lines, n, t)
    ensures s == t
  {
    hide SectionAt;
  }

  lemma OneOwner(legacy: Option<string>, lines: seq<string>, n: nat, a: string, b: string)
    requires OwnedBy(legacy, lines, n, a) && OwnedBy(legacy, lines, n, b)
    ensures a == b
  {
    hide SectionAt, HeadingAt, Under, Strip;
    forall s: nat, t: nat | Under(lines, n, s) && Under(lines, n, t)
      ensures s == t
    {
      OneSection(lines, n, s, t);
    }
  }

  /** A line that is neither a section nor a heading changes nothing. */
  lemma SameOwner(legacy: Option<string>, lines: seq<string>, n: nat, owner: string)
    requires n < |lines| && !SectionAt(lines, n) && HeadingAt(lines, n).None?
    ensures OwnedBy(legacy, lines, n + 1, owner) <==> OwnedBy(legacy, lines, n, owner)
    ensures InModules(lines, n + 1) <==> InModules(lines, n)
  {
    hide SectionAt, HeadingAt, Strip;
    forall s: nat
      ensures Under(lines, n + 1, s) <==> Under(lines, n, s)
    {
    }
    hide Under;
    forall s: nat
      ensures Under(lines, n, s) ==> (HeadedBy(lines, s, n + 1, owner) <==> HeadedBy(lines, s, n, owner))
    {
      SameHeading(lines, s, n, owner);
    }
    assert forall s: nat :: Under(lines, n, s) ==>
      ((forall q :: s < q < n + 1 ==> HeadingAt(lines, q).None?) <==> forall q :: s < q < n ==> HeadingAt(lines, q).None?);
    hide HeadedBy;
  }

  lemma SameHeading(lines: seq<string>, s: nat, n: nat, owner: string)
    requires n < |lines| && HeadingAt(lines, n).None?
    ensures HeadedBy(lines, s, n + 1, owner) <==> HeadedBy(lines, s, n, owner)
  {
    hide HeadingAt;
    if h: nat :| s < h < n + 1 && HeadingAt(lines, h) == Some(owner) && forall q :: h < q < n + 1 ==> HeadingAt(lines, q).None? {
      assert h != n;
    }
    if h: nat :| s < h < n && HeadingAt(lines, h) == Some(owner) && forall q :: h < q < n ==> HeadingAt(lines, q).None? {
      assert forall q :: h < q < n + 1 ==> HeadingAt(lines, q).None?;
    }
  }

  /** A section line opens a region of its own. */
  lemma SectionOwner(legacy: Option<string>, lines: seq<string>, n: nat, owner: string)
    requires n < |lines| && SectionAt(lines, n)
    ensures OwnedBy(legacy, lines, n + 1, owner) <==> Strip(lines[n]) == "## Verdicts" && legacy == Some(owner)
    ensures InModules(lines, n + 1) <==> Strip(lines[n]) == "## Modules"
  {
    hide SectionAt, HeadingAt, Strip;
    var m := n + 1;
    assert Under(lines, m, n);
    forall s: nat
      ensures Under(lines, m, s) ==> s == n
    {
      if Under(lines, m, s) {
        OneSection(lines, m, s, n);
      }
    }
    hide Under;
    assert !HeadedBy(lines, n, n + 1, owner);
    hide HeadedBy;
  }

  /** A heading takes what follows it under `## Modules`, and closes any other region. */
  lemma HeadingOwner(legacy: Option<string>, lines: seq<string>, n: nat, owner: string)
    requires n < |lines| && !SectionAt(lines, n) && HeadingAt(lines, n).Some?
    ensures OwnedBy(legacy, lines, n + 1, owner) <==> InModules(lines, n) && HeadingAt(lines, n) == Some(owner)
    ensures InModules(lines, n + 1) <==> InModules(lines, n)
  {
    hide SectionAt, HeadingAt, Strip;
    forall s: nat
      ensures Under(lines, n + 1, s) <==> Under(lines, n, s)
    {
    }
    forall s: nat | Under(lines, n, s)
      ensures HeadedBy(lines, s, n + 1, owner) <==> HeadingAt(lines, n) == Some(owner)
      ensures !(forall q :: s < q < n + 1 ==> HeadingAt(lines, q).None?)
    {
      LastHeading(lines, s, n, owner);
      assert s < n < n + 1;
    }
    hide Under, HeadedBy;
  }

  lemma LastHeading(lines: seq<string>, s: nat, n: nat, owner: string)
    requires s < n < |lines| && HeadingAt(lines, n).Some?
    ensures HeadedBy(lines, s, n + 1, owner) <==> HeadingAt(lines, n) == Some(owner)
  {
    hide HeadingAt;
    if h: nat :| s < h < n + 1 && HeadingAt(lines, h) == Some(owner) && forall q :: h < q < n + 1 ==> HeadingAt(lines, q).None? {
      assert h == n;
    }
  }

  lemma NobodyYet(legacy: Option<string>, lines: seq<string>, owner: string)
    ensures !OwnedBy(legacy, lines, 0, owner) && !InModules(lines, 0)
  {
    hide SectionAt, HeadedBy, HeadingAt, Strip;
  }

  // -- The reader's state ------------------------------------------------------------------------

  /** The reader stands before line `n` as the lines above say. */
  ghost predicate Stands(legacy: Option<string>, lines: seq<string>, n: nat, r: Reader) {
    && n <= |lines| && r.fence == OpenFence(lines, n) && (r.inModules <==> InModules(lines, n))
    && forall owner :: r.owner == Some(owner) <==> OwnedBy(legacy, lines, n, owner)
  }

  lemma SectionsAreNoHeadings(line: string)
    ensures "## " <= line ==> ParseHeading(line).None? && ParseVerdictLine(line).None?
    ensures ParseHeading(line).Some? ==> ParseVerdictLine(line).None?
    ensures "## " <= MODULES_HEADING && "## " <= LEGACY_VERDICTS
    ensures MODULES_HEADING == "## Modules" && LEGACY_VERDICTS == "## Verdicts"
  {
    hide MatchSpan, FieldAndLabel;
    assert "## " <= line ==> line[2] == ' ';
    assert "### " <= line ==> line[0] == '#' && line[2] == '#';
  }

  lemma FencedLine(legacy: Option<string>, lines: seq<string>, n: nat, r: Reader)
    requires n < |lines| && r.fence == OpenFence(lines, n) && !Outside(lines, n)
    ensures ReadLine(legacy, r, lines[n]) == r.(fence := OpenFence(lines, n + 1))
    ensures !SectionAt(lines, n) && HeadingAt(lines, n).None?
  {
    hide Strip, FenceLine, ReadOpen, ParseHeading;
  }

  /** One line more. */
  lemma StandsOn(legacy: Option<string>, lines: seq<string>, n: nat, r: Reader)
    requires n < |lines| && Stands(legacy, lines, n, r)
    ensures Stands(legacy, lines, n + 1, ReadLine(legacy, r, lines[n]))
  {
    hide Strip, ReadLine, OpenFence, Outside, OwnedBy, InModules, SectionAt, HeadingAt;
    if Outside(lines, n) {
      OutsideStandsOn(legacy, lines, n, r, Strip(lines[n]));
    } else {
      FencedLine(legacy, lines, n, r);
      SameOwner(legacy, lines, n, "");
      forall owner: string
        ensures OwnedBy(legacy, lines, n + 1, owner) <==> OwnedBy(legacy, lines, n, owner)
      {
        SameOwner(legacy, lines, n, owner);
      }
    }
  }

  /** The same, for a line that is read. */
  lemma OutsideStandsOn(legacy: Option<string>, lines: seq<string>, n: nat, r: Reader, line: string)
    requires n < |lines| && Stands(legacy, lines, n, r) && Outside(lines, n) && line == Strip(lines[n])
    ensures Stands(legacy, lines, n + 1, ReadLine(legacy, r, lines[n]))
  {
    SectionsAreNoHeadings(line);
    hide ParseHeading, ParseVerdictLine, Strip, FenceLine, OwnedBy, InModules;
    assert ReadLine(legacy, r, lines[n]) == ReadOpen(legacy, r, line);
    assert OpenFence(lines, n + 1) == 0;
    forall owner: string
      ensures ReadOpen(legacy, r, line).owner == Some(owner) <==> OwnedBy(legacy, lines, n + 1, owner)
    {
      OwnerAfter(legacy, lines, n, r, line, owner);
    }
    OwnerAfter(legacy, lines, n, r, line, "");
  }

  lemma OwnerAfter(legacy: Option<string>, lines: seq<string>, n: nat, r: Reader, line: string, owner: string)
    requires n < |lines| && Stands(legacy, lines, n, r) && Outside(lines, n) && line == Strip(lines[n])
    ensures ReadOpen(legacy, r, line).owner == Some(owner) <==> OwnedBy(legacy, lines, n + 1, owner)
    ensures ReadOpen(legacy, r, line).inModules <==> InModules(lines, n + 1)
  {
    SectionsAreNoHeadings(line);
    hide ParseHeading, ParseVerdictLine, Strip, FenceLine, OwnedBy, InModules;
    if SectionAt(lines, n) {
      SectionOwner(legacy, lines, n, owner);
    } else if HeadingAt(lines, n).Some? {
      HeadingOwner(legacy, lines, n, owner);
    } else {
      SameOwner(legacy, lines, n, owner);
    }
  }

  // -- What is collected -------------------------------------------------------------------------

  /** The verdict and the label that line `k` states, if it is a verdict of a mutation outside every fence. */
  function VerdictAt(lines: seq<string>, k: nat): Option<(string, string)> {
    if !Outside(lines, k) then None
    else
      match ParseVerdictLine(Strip(lines[k]))
      case None => None
      case Some(v) => if v.0 in {"control-green", "control-red"} then None else Some(v)
  }

  /** Line `k` is credited, and to the module it belongs to. */
  ghost predicate CreditedAs(legacy: Option<string>, lines: seq<string>, k: nat, v: ModuleVerdict) {
    VerdictAt(lines, k) == Some((v.verdict, v.name)) && OwnedBy(legacy, lines, k, v.path)
  }

  ghost predicate Credited(legacy: Option<string>, lines: seq<string>, k: nat) {
    VerdictAt(lines, k).Some? && exists owner :: OwnedBy(legacy, lines, k, owner)
  }

  ghost predicate Rising(at: seq<nat>) {
    forall i, j :: 0 <= i < j < |at| ==> at[i] < at[j]
  }

  /** `found` is what the lines before `n` are credited with, in their order; `at` says which lines. */
  ghost predicate CollectedFrom(legacy: Option<string>, lines: seq<string>, n: nat, at: seq<nat>, found: seq<ModuleVerdict>) {
    && |at| == |found| && Rising(at)
    && (forall i :: 0 <= i < |at| ==> CreditedAs(legacy, lines, at[i], found[i]))
    && forall k: nat :: k in at <==> k < n && Credited(legacy, lines, k)
  }

  lemma CollectOn(legacy: Option<string>, lines: seq<string>, n: nat, at: seq<nat>, found: seq<ModuleVerdict>, v: ModuleVerdict)
    requires CollectedFrom(legacy, lines, n, at, found) && CreditedAs(legacy, lines, n, v)
    ensures CollectedFrom(legacy, lines, n + 1, at + [n], found + [v])
  {
    hide VerdictAt, OwnedBy;
    assert forall i :: 0 <= i < |at| ==> at[i] in at;
    forall k: nat
      ensures k in at + [n] <==> k < n + 1 && Credited(legacy, lines, k)
    {
      assert k in at + [n] <==> k in at || k == n;
    }
  }

  lemma PassOver(legacy: Option<string>, lines: seq<string>, n: nat, at: seq<nat>, found: seq<ModuleVerdict>)
    requires CollectedFrom(legacy, lines, n, at, found) && !Credited(legacy, lines, n)
    ensures CollectedFrom(legacy, lines, n + 1, at, found)
  {
    hide Credited, CreditedAs;
  }

  /** What reading one line collects. */
  lemma LineCollects(legacy: Option<string>, lines: seq<string>, n: nat, r: Reader)
    requires n < |lines| && Stands(legacy, lines, n, r)
    ensures var after := ReadLine(legacy, r, lines[n]).found;
            if Credited(legacy, lines, n) then
              |after| == |r.found| + 1 && after[..|r.found|] == r.found && CreditedAs(legacy, lines, n, after[|r.found|])
            else after == r.found
  {
    var line := Strip(lines[n]);
    SectionsAreNoHeadings(line);
    hide ParseHeading, ParseVerdictLine, Strip, FenceLine, OwnedBy, InModules;
    var verdict := VerdictAt(lines, n);
    if verdict.Some? {
      assert ReadLine(legacy, r, lines[n]) == Credit(r, ParseVerdictLine(line));
      assert ParseVerdictLine(line) == verdict && !ControlVerdict(verdict.value.0);
      if r.owner.Some? {
        assert OwnedBy(legacy, lines, n, r.owner.value);
      }
    } else {
      NoVerdictNoCredit(legacy, lines, n, r, line);
    }
  }

  lemma NoVerdictNoCredit(legacy: Option<string>, lines: seq<string>, n: nat, r: Reader, line: string)
    requires n < |lines| && Stands(legacy, lines, n, r) && line == Strip(lines[n]) && VerdictAt(lines, n).None?
    ensures ReadLine(legacy, r, lines[n]).found == r.found
  {
    hide ParseHeading, ParseVerdictLine, Strip, FenceLine, OwnedBy, InModules;
    assert ControlVerdict("control-green") && ControlVerdict("control-red");
  }

  lemma ReadOneMore(legacy: Option<string>, lines: seq<string>, n: nat)
    requires n < |lines|
    ensures ReadLines(legacy, START, lines[..n + 1]) == ReadLine(legacy, ReadLines(legacy, START, lines[..n]), lines[n])
  {
    hide ReadLine;
    assert lines[..n + 1][..n] == lines[..n] && lines[..n + 1][n] == lines[n];
  }

  /** What has been collected, one line further on. */
  lemma CollectedOn(legacy: Option<string>, lines: seq<string>, n: nat, r: Reader, at: seq<nat>) returns (at': seq<nat>)
    requires n < |lines| && Stands(legacy, lines, n, r) && CollectedFrom(legacy, lines, n, at, r.found)
    ensures CollectedFrom(legacy, lines, n + 1, at', ReadLine(legacy, r, lines[n]).found)
  {
    hide *;
    LineCollects(legacy, lines, n, r);
    var after := ReadLine(legacy, r, lines[n]).found;
    if Credited(legacy, lines, n) {
      CollectOn(legacy, lines, n, at, r.found, after[|r.found|]);
      assert r.found + [after[|r.found|]] == after;
      at' := at + [n];
    } else {
      PassOver(legacy, lines, n, at, r.found);
      at' := at;
    }
  }

  lemma {:induction false} CollectedUpTo(legacy: Option<string>, lines: seq<string>, n: nat) returns (at: seq<nat>)
    requires n <= |lines|
    ensures var r := ReadLines(legacy, START, lines[..n]);
            Stands(legacy, lines, n, r) && CollectedFrom(legacy, lines, n, at, r.found)
  {
    hide *;
    at := [];
    if n == 0 {
      NobodyAtAll(legacy, lines);
    } else {
      at := CollectedUpTo(legacy, lines, n - 1);
      var r := ReadLines(legacy, START, lines[..n - 1]);
      ReadOneMore(legacy, lines, n - 1);
      StandsOn(legacy, lines, n - 1, r);
      at := CollectedOn(legacy, lines, n - 1, r, at);
    }
  }

  lemma NobodyAtAll(legacy: Option<string>, lines: seq<string>)
    ensures Stands(legacy, lines, 0, ReadLines(legacy, START, lines[..0]))
    ensures CollectedFrom(legacy, lines, 0, [], ReadLines(legacy, START, lines[..0]).found)
  {
    forall owner: string
      ensures !OwnedBy(legacy, lines, 0, owner) && !InModules(lines, 0)
    {
      NobodyYet(legacy, lines, owner);
    }
    NobodyYet(legacy, lines, "");
    hide OwnedBy, InModules, CreditedAs, Credited;
    assert ReadLines(legacy, START, lines[..0]) == START;
  }

  // -- The legacy target -------------------------------------------------------------------------

  /** The target of an issue in the older form is that of its first line that states one. */
  lemma {:induction false} FirstTargetMeans(lines: seq<string>, path: string)
    ensures FirstTarget(lines) == Some(path)
            <==> exists k: nat :: k < |lines| && LegacyTarget(Strip(lines[k])) == Some(path)
                                  && forall q: nat :: q < k ==> LegacyTarget(Strip(lines[q])).None?
  {
    hide LegacyTarget, Strip;
    if lines != [] {
      FirstTargetMeans(lines[1..], path);
      assert forall k: nat :: 0 < k < |lines| ==> lines[k] == lines[1..][k - 1];
      if LegacyTarget(Strip(lines[0])).None? {
        if k: nat :| k < |lines[1..]| && LegacyTarget(Strip(lines[1..][k])) == Some(path)
                     && forall q: nat :: q < k ==> LegacyTarget(Strip(lines[1..][q])).None? {
          assert lines[k + 1] == lines[1..][k];
          assert forall q: nat :: q < k + 1 ==> LegacyTarget(Strip(lines[q])).None?;
        }
        if k: nat :| k < |lines| && LegacyTarget(Strip(lines[k])) == Some(path)
                     && forall q: nat :: q < k ==> LegacyTarget(Strip(lines[q])).None? {
          assert lines[1..][k - 1] == lines[k];
          assert forall q: nat :: q < k - 1 ==> LegacyTarget(Strip(lines[1..][q])).None?;
        }
      }
    }
  }

  /** A target line gives its path back exactly as a module heading does. */
  lemma TargetReadsBack(path: string)
    ensures LegacyTarget("- **Target:** " + Inline(path)) == Some(path) <==> SweepFilingLaws.Readable(path) || path == " "
  {
    var line := "- **Target:** " + Inline(path);
    assert line == "- **Target:** " + Inline(path) + "";
    assert "- **Target:** " <= line && |"- **Target:** "| == 14;
    hide Inline, MatchSpan, SweepFilingLaws.Readable;
    SweepFilingLaws.SpanReadsBack("- **Target:** ", path, "", Dollar);
    if path == " " {
      SweepFilingLaws.LoneSpaceAlone(Dollar);
    }
  }

  /**
   Whatever the body, hand-edited or filed in either form: the verdicts collected are those stated outside
   every fence on a line that belongs to a module, in order, each credited to the module it belongs to.
   */
  lemma ParsedMeans(body: string) returns (at: seq<nat>)
    ensures var lines := SplitLines(body);
            CollectedFrom(FirstTarget(lines), lines, |lines|, at, Parsed(body))
  {
    var lines := SplitLines(body);
    hide SplitLines, ReadLines, CollectedFrom, FirstTarget;
    assert lines[..|lines|] == lines;
    at := CollectedUpTo(FirstTarget(lines), lines, |lines|);
  }
}
