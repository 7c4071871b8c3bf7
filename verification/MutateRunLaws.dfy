/** What a suite's output is read as, and the verdict it earns (tools/mutate_run.py). */
module MutateRunLaws {
  import opened PyText
  import opened MutateEdits
  import opened MutateRun

  // -- Which lines are read ----------------------------------------------------------------------

  predicate Blank(line: string) {
    forall c :: c in line ==> IsSpace(c)
  }

  /** Line `k` is written on, and nothing but blank lines follow it. */
  predicate LastWritten(lines: seq<string>, k: nat) {
    k < |lines| && !Blank(lines[k]) && forall j :: k < j < |lines| ==> Blank(lines[j])
  }

  predicate NamesFailure(line: string) {
    "FAILED" <= line || "ERROR" <= line
  }

  /** `at` lists, in order, every line that names a failure. */
  ghost predicate FailureLines(lines: seq<string>, at: seq<nat>) {
    && (forall i, j :: 0 <= i < j < |at| ==> at[i] < at[j])
    && forall k: nat :: k in at <==> k < |lines| && NamesFailure(lines[k])
  }

  lemma RightBlank(line: string)
    ensures RStrip(line) == "" <==> Blank(line)
  {
    hide IsSpace;
    var r := RStrip(line);
    if r != "" {
      assert r[|r| - 1] == line[|r| - 1] && line[|r| - 1] in line;
    }
  }

  lemma LeftBlank(line: string)
    ensures Blank(LStrip(line)) <==> Blank(line)
  {
    hide IsSpace;
    var l := LStrip(line);
    assert line == line[..|line| - |l|] + l;
    if l != "" {
      assert l[0] in l && l[0] in line;
    }
  }

  lemma StripIsBoth(line: string)
    ensures Strip(line) == RStrip(LStrip(line))
  {
    hide IsSpace, LStrip, RStrip;
  }

  lemma StripBlank(line: string)
    ensures Strip(line) == "" <==> Blank(line)
  {
    hide *;
    StripIsBoth(line);
    RightBlank(LStrip(line));
    LeftBlank(line);
  }

  /** What a filter keeps, by position. */
  lemma {:induction false} FilterAt(lines: seq<string>, keep: string -> bool) returns (at: seq<nat>)
    ensures |at| == |Filter(lines, keep)|
    ensures forall i :: 0 <= i < |at| ==> at[i] < |lines| && Filter(lines, keep)[i] == lines[at[i]]
    ensures forall i, j :: 0 <= i < j < |at| ==> at[i] < at[j]
    ensures forall k: nat :: k in at <==> k < |lines| && keep(lines[k])
  {
    if lines == [] {
      at := [];
    } else {
      hide *;
      var rest := FilterAt(lines[1..], keep);
      at := (if keep(lines[0]) then [0] else []) + Shifted(rest);
      FilterStep(lines, keep);
      PlacedOnward(lines, keep, rest);
      KeptOnward(lines, Filter(lines[1..], keep), keep(lines[0]), rest);
    }
  }

  lemma KeptOnward(lines: seq<string>, kept: seq<string>, first: bool, rest: seq<nat>)
    requires lines != [] && |rest| == |kept|
    requires forall i :: 0 <= i < |rest| ==> rest[i] < |lines[1..]| && kept[i] == lines[1..][rest[i]]
    requires forall i, j :: 0 <= i < j < |rest| ==> rest[i] < rest[j]
    ensures var at := (if first then [0] else []) + Shifted(rest);
            var all := (if first then [lines[0]] else []) + kept;
            && |at| == |all| && (forall i :: 0 <= i < |at| ==> at[i] < |lines| && all[i] == lines[at[i]])
            && forall i, j :: 0 <= i < j < |at| ==> at[i] < at[j]
  {
    hide Shifted;
  }

  lemma FilterStep(lines: seq<string>, keep: string -> bool)
    requires lines != []
    ensures Filter(lines, keep) == (if keep(lines[0]) then [lines[0]] else []) + Filter(lines[1..], keep)
  {
  }

  lemma PlacedOnward(lines: seq<string>, keep: string -> bool, rest: seq<nat>)
    requires lines != [] && forall k: nat :: k in rest <==> k < |lines[1..]| && keep(lines[1..][k])
    ensures var at := (if keep(lines[0]) then [0] else []) + Shifted(rest);
            forall k: nat :: k in at <==> k < |lines| && keep(lines[k])
  {
    hide Shifted;
    ShiftedHolds(rest);
    var first: seq<nat> := if keep(lines[0]) then [0] else [];
    forall k: nat
      ensures k in first + Shifted(rest) <==> k < |lines| && keep(lines[k])
    {
      if 0 < k < |lines| {
        assert lines[k] == lines[1..][k - 1];
      }
    }
  }

  function Shifted(at: seq<nat>): (r: seq<nat>)
    ensures |r| == |at| && forall i :: 0 <= i < |r| ==> r[i] == at[i] + 1
  {
    seq(|at|, i requires 0 <= i < |at| => at[i] + 1)
  }

  lemma ShiftedHolds(at: seq<nat>)
    ensures forall k: nat :: k in Shifted(at) <==> k > 0 && k - 1 in at
  {
    forall k: nat | k > 0 && k - 1 in at
      ensures k in Shifted(at)
    {
      var i :| 0 <= i < |at| && at[i] == k - 1;
      assert Shifted(at)[i] == k;
    }
  }

  /** Where the lines that are not blank stand. */
  lemma WrittenAt(stdout: string) returns (at: seq<nat>)
    ensures var lines := SplitLines(stdout);
            && |at| == |Written(stdout)|
            && (forall i :: 0 <= i < |at| ==> at[i] < |lines| && Written(stdout)[i] == lines[at[i]])
            && (forall i, j :: 0 <= i < j < |at| ==> at[i] < at[j])
            && (forall k: nat :: k in at <==> k < |lines| && !Blank(lines[k]))
  {
    hide Strip, SplitLines, Filter, Blank;
    var lines := SplitLines(stdout);
    at := FilterAt(lines, line => Strip(line) != "");
    forall k: nat | k < |lines|
      ensures Strip(lines[k]) == "" <==> Blank(lines[k])
    {
      StripBlank(lines[k]);
    }
  }

  lemma FailureIsWritten(line: string)
    requires NamesFailure(line)
    ensures !Blank(line)
  {
    assert line[0] in line && !IsSpace('F') && !IsSpace('E');
    assert line[0] == 'F' || line[0] == 'E';
  }

  /** Where the lines that name a failure stand, of all the lines. */
  lemma FailingAt(stdout: string) returns (at: seq<nat>)
    ensures var lines, failing := SplitLines(stdout), Failing(Written(stdout));
            && FailureLines(lines, at) && |at| == |failing|
            && forall i :: 0 <= i < |at| ==> at[i] < |lines| && failing[i] == lines[at[i]]
  {
    hide SplitLines, Filter, Blank, Written, NamesFailure;
    var lines, written := SplitLines(stdout), Written(stdout);
    var place := WrittenAt(stdout);
    var chosen := ChosenAt(written);
    FailingChosen(stdout, place, chosen);
    at := Composed(place, chosen);
  }

  lemma ChosenAt(written: seq<string>) returns (chosen: seq<nat>)
    ensures |chosen| == |Failing(written)|
    ensures forall i :: 0 <= i < |chosen| ==> chosen[i] < |written| && Failing(written)[i] == written[chosen[i]]
    ensures forall i, j :: 0 <= i < j < |chosen| ==> chosen[i] < chosen[j]
    ensures forall k: nat :: k in chosen <==> k < |written| && NamesFailure(written[k])
  {
    chosen := FilterAt(written, line => "FAILED" <= line || "ERROR" <= line);
  }

  function Composed(place: seq<nat>, chosen: seq<nat>): (r: seq<nat>)
    requires forall i :: 0 <= i < |chosen| ==> chosen[i] < |place|
    ensures |r| == |chosen| && forall i :: 0 <= i < |r| ==> r[i] == place[chosen[i]]
  {
    seq(|chosen|, i requires 0 <= i < |chosen| => place[chosen[i]])
  }

  lemma FailingChosen(stdout: string, place: seq<nat>, chosen: seq<nat>)
    requires var lines, written := SplitLines(stdout), Written(stdout);
             && |place| == |written|
             && (forall i :: 0 <= i < |place| ==> place[i] < |lines| && written[i] == lines[place[i]])
             && (forall i, j :: 0 <= i < j < |place| ==> place[i] < place[j])
             && (forall k: nat :: k in place <==> k < |lines| && !Blank(lines[k]))
             && (forall i, j :: 0 <= i < j < |chosen| ==> chosen[i] < chosen[j])
             && (forall k: nat :: k in chosen <==> k < |written| && NamesFailure(written[k]))
    ensures forall i :: 0 <= i < |chosen| ==> chosen[i] < |place|
    ensures FailureLines(SplitLines(stdout), Composed(place, chosen))
  {
    hide SplitLines, Blank, Written, NamesFailure;
    var lines, written := SplitLines(stdout), Written(stdout);
    forall i | 0 <= i < |chosen|
      ensures chosen[i] < |place| && NamesFailure(written[chosen[i]])
    {
      assert chosen[i] in chosen;
    }
    var at := Composed(place, chosen);
    forall k: nat
      ensures k in at <==> k < |lines| && NamesFailure(lines[k])
    {
      if k in at {
        var i :| 0 <= i < |at| && at[i] == k;
      }
      if k < |lines| && NamesFailure(lines[k]) {
        FailureIsWritten(lines[k]);
        assert k in place;
        var j: nat :| j < |place| && place[j] == k;
        assert j in chosen;
        var i :| 0 <= i < |chosen| && chosen[i] == j;
        assert at[i] == k;
      }
    }
  }

  /**
   The summary is the last line that is not blank, and the failures are the lines that name one, in
   order, the first twenty at most.
   */
  lemma SummariseMeans(stdout: string) returns (at: seq<nat>)
    ensures var lines := SplitLines(stdout);
            && (forall k: nat :: LastWritten(lines, k) ==> Summarise(stdout).0 == lines[k])
            && ((forall line :: line in lines ==> Blank(line)) ==> Summarise(stdout).0 == "(no output)")
            && FailureLines(lines, at)
            && |Summarise(stdout).1| == (if |at| < 20 then |at| else 20)
            && forall i :: 0 <= i < |Summarise(stdout).1| ==> at[i] < |lines| && Summarise(stdout).1[i] == lines[at[i]]
  {
    hide *;
    at := FailingAt(stdout);
    FailuresRead(stdout, at);
    SummaryRead(stdout);
  }

  lemma FailuresRead(stdout: string, at: seq<nat>)
    requires var lines, failing := SplitLines(stdout), Failing(Written(stdout));
             |at| == |failing| && forall i :: 0 <= i < |at| ==> at[i] < |lines| && failing[i] == lines[at[i]]
    ensures |Summarise(stdout).1| == (if |at| < 20 then |at| else 20)
    ensures forall i :: 0 <= i < |Summarise(stdout).1| ==>
              at[i] < |SplitLines(stdout)| && Summarise(stdout).1[i] == SplitLines(stdout)[at[i]]
  {
    hide SplitLines, Written, Failing;
  }

  lemma SummaryRead(stdout: string)
    ensures var lines := SplitLines(stdout);
            && (forall k: nat :: LastWritten(lines, k) ==> Summarise(stdout).0 == lines[k])
            && ((forall line :: line in lines ==> Blank(line)) ==> Summarise(stdout).0 == "(no output)")
  {
    hide SplitLines, Blank, Written, Failing;
    var place := WrittenAt(stdout);
    var lines := SplitLines(stdout);
    if place == [] {
      forall k: nat
        ensures !LastWritten(lines, k)
      {
        assert k !in place;
      }
    } else {
      LastIsLast(stdout, place);
      assert place[0] in place && lines[place[0]] in lines;
    }
  }

  lemma LastIsLast(stdout: string, place: seq<nat>)
    requires var lines := SplitLines(stdout);
             && |place| == |Written(stdout)| > 0
             && (forall i :: 0 <= i < |place| ==> place[i] < |lines| && Written(stdout)[i] == lines[place[i]])
             && (forall i, j :: 0 <= i < j < |place| ==> place[i] < place[j])
             && (forall k: nat :: k in place <==> k < |lines| && !Blank(lines[k]))
    ensures forall k: nat :: LastWritten(SplitLines(stdout), k) ==>
              Written(stdout)[|place| - 1] == SplitLines(stdout)[k]
  {
    hide SplitLines, Blank, Written;
    var lines := SplitLines(stdout);
    forall k: nat | LastWritten(lines, k)
      ensures place[|place| - 1] == k
    {
      assert k in place;
      var i :| 0 <= i < |place| && place[i] == k;
      assert place[|place| - 1] in place;
    }
  }

  /** Some output is on a line, or none is. */
  lemma LastWrittenExists(lines: seq<string>) returns (k: nat)
    requires exists line :: line in lines && !Blank(line)
    ensures LastWritten(lines, k)
  {
    hide Blank;
    var n := |lines| - 1;
    if !Blank(lines[n]) {
      k := n;
    } else {
      var line :| line in lines && !Blank(line);
      assert lines == lines[..n] + [lines[n]];
      k := LastWrittenExists(lines[..n]);
    }
  }

  // -- Which summaries are pytest's own ----------------------------------------------------------

  /** The letter of a word in lower case, in either case. */
  predicate EitherCase(c: char, w: char) {
    c == w || c as int + 32 == w as int
  }

  predicate SaysAt(line: string, word: string, i: nat) {
    i + |word| <= |line| && forall k :: 0 <= k < |word| ==> EitherCase(line[i + k], word[k])
  }

  predicate Says(line: string, word: string) {
    exists i :: 0 <= i < |line| && SaysAt(line, word, i)
  }

  /** The last line that is not blank counts something that passed, failed or was in error. */
  predicate Concludes(stdout: string) {
    var lines := SplitLines(stdout);
    exists k: nat :: k < |lines| && LastWritten(lines, k)
                && (Says(lines[k], "passed") || Says(lines[k], "failed") || Says(lines[k], "error"))
  }

  /** The suite ended, and pytest's own summary line says so. */
  predicate Conclusive(run: SuiteRun) {
    run.Completed? && Concludes(run.stdout)
  }

  lemma SaysMeans(line: string, word: string)
    requires word != "" && forall c :: c in word ==> 'a' <= c <= 'z'
    ensures Contains(LowerAscii(line), word) <==> Says(line, word)
  {
    var lowered := LowerAscii(line);
    forall i: nat
      ensures OccursAt(lowered, word, i) <==> SaysAt(line, word, i)
    {
      if OccursAt(lowered, word, i) {
        forall k | 0 <= k < |word|
          ensures EitherCase(line[i + k], word[k])
        {
          assert lowered[i..i + |word|][k] == lowered[i + k];
        }
      }
      if SaysAt(line, word, i) {
        forall k | 0 <= k < |word|
          ensures lowered[i..i + |word|][k] == word[k]
        {
          assert word[k] in word && EitherCase(line[i + k], word[k]);
        }
      }
    }
    hide LowerAscii, SaysAt, OccursAt;
    if Contains(lowered, word) {
      var i := FindFrom(lowered, word, 0).value;
      SaysInside(line, word, i);
    }
    if i: nat :| i < |line| && SaysAt(line, word, i) {
      OccursMeansContains(lowered, word, i);
    }
  }

  lemma SaysInside(line: string, word: string, i: nat)
    requires word != "" && SaysAt(line, word, i)
    ensures Says(line, word)
  {
    hide EitherCase;
  }

  lemma RecognisedMeans(summary: string)
    ensures RecognisedSummary(summary) <==> Says(summary, "passed") || Says(summary, "failed") || Says(summary, "error")
  {
    SaysMeans(summary, "passed");
    SaysMeans(summary, "failed");
    SaysMeans(summary, "error");
    hide Says, Contains, LowerAscii;
  }

  lemma NoE()
    ensures forall i :: 0 <= i < |"(no output)"| ==> !EitherCase("(no output)"[i], 'e')
  {
  }

  lemma NoOutputSaysNothing()
    ensures !RecognisedSummary("(no output)")
  {
    RecognisedMeans("(no output)");
    NoE();
    assert "passed"[4] == 'e' && "failed"[4] == 'e' && "error"[0] == 'e';
    hide Says, EitherCase, RecognisedSummary;
    NotSaid("(no output)", "passed", 4);
    NotSaid("(no output)", "failed", 4);
    NotSaid("(no output)", "error", 0);
  }

  /** A word is not said where one of its letters is missing. */
  lemma NotSaid(line: string, word: string, k: nat)
    requires k < |word| && forall i :: 0 <= i < |line| ==> !EitherCase(line[i], word[k])
    ensures !Says(line, word)
  {
    forall i: nat | i + |word| <= |line|
      ensures !SaysAt(line, word, i)
    {
      assert !EitherCase(line[i + k], word[k]);
    }
  }

  /** A run is judged by its return code exactly when its last written line is one of pytest's own. */
  lemma ConcludesMeans(stdout: string)
    ensures RecognisedSummary(Summarise(stdout).0) <==> Concludes(stdout)
  {
    var lines := SplitLines(stdout);
    var at := SummariseMeans(stdout);
    hide SplitLines, Summarise, RecognisedSummary, Blank, Says;
    if exists line :: line in lines && !Blank(line) {
      var k := LastWrittenExists(lines);
      RecognisedMeans(lines[k]);
      forall j: nat | LastWritten(lines, j)
        ensures j == k
      {
      }
    } else {
      NoOutputSaysNothing();
      forall k: nat | k < |lines|
        ensures !LastWritten(lines, k)
      {
        assert lines[k] in lines;
      }
    }
  }

  /** The progress line of a truncated run is not a conclusion, whatever came before it. */
  lemma ProgressIsInconclusive(stdout: string, k: nat)
    requires LastWritten(SplitLines(stdout), k) && SplitLines(stdout)[k] == "......[100%]"
    ensures !Concludes(stdout)
  {
    hide SplitLines, Blank;
    NotSaid("......[100%]", "passed", 0);
    NotSaid("......[100%]", "failed", 0);
    NotSaid("......[100%]", "error", 0);
  }

  // -- The verdicts ------------------------------------------------------------------------------

  /** What a mutation's run earns: hung, or judged by the return code if it concluded, else an error. */
  lemma MutationVerdict(name: string, run: SuiteRun, digests: Trails)
    ensures MutationOutcome(name, run, digests).Err? <==> run.Broken?
    ensures run.Broken? ==> MutationOutcome(name, run, digests) == Err(run.failure)
    ensures !run.Broken? ==>
              var o := MutationOutcome(name, run, digests).value;
              && o.name == name && o.digests == digests
              && (o.timedOut <==> run.Hung?) && (o.verdict == HUNG <==> run.Hung?)
              && (o.verdict == ERROR <==> run.Completed? && !Conclusive(run))
              && (o.verdict == KILLED <==> Conclusive(run) && run.returncode != 0)
              && (o.verdict == SURVIVED <==> Conclusive(run) && run.returncode == 0)
  {
    hide Summarise, RecognisedSummary, HungSummary, Concludes;
    if run.Completed? {
      ConcludesMeans(run.stdout);
    }
  }

  /** What a control's run earns: a hang is an error of its own. */
  lemma ControlVerdicts(name: string, run: SuiteRun)
    ensures ControlOutcome(name, run).Err? <==> run.Broken?
    ensures run.Broken? ==> ControlOutcome(name, run) == Err(run.failure)
    ensures !run.Broken? ==>
              var o := ControlOutcome(name, run).value;
              && o.name == name && o.digests == map[] && (o.timedOut <==> run.Hung?)
              && (o.verdict == ERROR <==> !Conclusive(run))
              && (o.verdict == CONTROL_GREEN <==> Conclusive(run) && run.returncode == 0)
              && (o.verdict == CONTROL_RED <==> Conclusive(run) && run.returncode != 0)
  {
    hide Summarise, RecognisedSummary, HungSummary, Concludes;
    if run.Completed? {
      ConcludesMeans(run.stdout);
    }
  }

  /** What is kept of a hang: the message if nothing was printed, else its failures or the line it stopped at. */
  lemma HangMeans(run: SuiteRun) returns (at: seq<nat>)
    requires run.Hung?
    ensures var lines := SplitLines(run.output);
            && FailureLines(lines, at)
            && (run.output == "" ==> HungSummary(run) == (run.message, []))
            && (run.output != "" && at != [] ==> HungSummary(run) == Summarise(run.output))
            && (run.output != "" && at == [] ==>
                  HungSummary(run)
                  == ("timed out after " + Decimal(run.seconds) + "s (no failing test); last line: "
                      + Summarise(run.output).0, []))
  {
    at := SummariseMeans(run.output);
    hide Summarise, SplitLines, FailureLines;
  }
}
