/**
 A night on which the harness and the sweep disagree, as a run of the batch machine: its one mutation
 carries the control's label (tools/sweep_verdict.py against tools/mutate.py).
 */
module MislabelledNight {
  import opened PyText
  import opened MutateEdits
  import MutateEditsLaws
  import opened MutateRun
  import opened MutatePool
  import opened SweepVerdict
  import TextLines
  import opened Verdicts

  const FILES: Files := map["f" := Utf8("a")]
  const EDITS := [Edit("f", "a", "b")]
  const BATCH := Batch([Control(CONTROL), Mutation(CONTROL, EDITS)], 1, FILES)

  const PASSED := Completed(0, "1 passed")
  const FAILED := Completed(1, "1 failed")

  // -- What the two jobs come to -----------------------------------------------------------------

  lemma SummaryOf(text: string)
    requires SingleLine(text) && text != "" && !IsSpace(text[0]) && !IsSpace(text[|text| - 1])
    ensures Summarise(text).0 == text
  {
    TextLines.SplitOne(text);
    TextLines.StripKeeps(text);
    FilterOne(text);
    hide SplitLines, Strip, SingleLine, IsSpace, Filter;
  }

  lemma FilterOne(line: string)
    ensures forall keep: string -> bool :: Filter([line], keep) == if keep(line) then [line] else []
  {
    assert [line][1..] == [];
  }

  lemma Recognised()
    ensures RecognisedSummary("1 passed") && RecognisedSummary("1 failed")
  {
    assert LowerAscii("1 passed") == "1 passed" && LowerAscii("1 failed") == "1 failed";
    assert "1 passed"[2..8] == "passed" && "1 failed"[2..8] == "failed";
    OccursMeansContains("1 passed", "passed", 2);
    OccursMeansContains("1 failed", "failed", 2);
    hide Contains, LowerAscii;
  }

  lemma ControlPasses() returns (green: Outcome)
    ensures ControlOutcome(CONTROL, PASSED) == Ok(green)
    ensures green.name == CONTROL && green.verdict == CONTROL_GREEN
  {
    SummaryOf("1 passed");
    Recognised();
    hide Summarise, RecognisedSummary;
    green := ControlOutcome(CONTROL, PASSED).value;
  }

  lemma MutationDies(digests: Trails) returns (caught: Outcome)
    ensures MutationOutcome(CONTROL, FAILED, digests) == Ok(caught)
    ensures caught.name == CONTROL && caught.verdict == KILLED
  {
    SummaryOf("1 failed");
    Recognised();
    hide Summarise, RecognisedSummary;
    caught := MutationOutcome(CONTROL, FAILED, digests).value;
  }

  /** The edit lands, and undoing it gives the tree back. */
  lemma EditRoundTrip() returns (mutated: Files, landed: seq<Applied>, digests: Trails)
    ensures ApplyAll(FILES, EDITS, NO_FAULTS, NO_FAULTS) == (mutated, Ok(landed))
    ensures RestoreAll(mutated, landed, NO_FAULTS) == (FILES, Ok(digests))
  {
    EditLands();
    var (files, r) := ApplyAll(FILES, EDITS, NO_FAULTS, NO_FAULTS);
    mutated, landed := files, r.value;
    assert forall p :: p in Paths(EDITS) ==> PlainText(FILES, p);
    hide ApplyAll, RestoreAll;
    MutateEditsLaws.ApplyThenRestore(FILES, EDITS, mutated);
    digests := RestoreAll(mutated, landed, NO_FAULTS).1.value;
  }

  lemma EditLands()
    ensures ApplyAll(FILES, EDITS, NO_FAULTS, NO_FAULTS).1.Ok?
  {
    var edit := EDITS[0];
    assert Translate("a") == "a";
    MutateEditsLaws.SoleOccurrence("a", "a");
    assert ReplaceFirst("a", "a", "b") == "b";
    hide Translate, Count, ReplaceFirst, Contains, HasCR;
    MutateEditsLaws.LandsIff(FILES, edit);
    assert !HasCR("b") by {
      NoReturn();
    }
    assert "a"[0] != "b"[0];
    hide Landing;
    assert LandFirst(FILES, EDITS, NO_FAULTS, 0) == Progress(FILES, [], None);
  }

  lemma NoReturn()
    ensures !HasCR("b")
  {
  }

  // -- The run -----------------------------------------------------------------------------------

  function At(files: Files, queue: seq<nat>, control: Phase, mutation: Phase, sightings: map<nat, Sighting>,
              collected: seq<nat>, outcomes: seq<Outcome>): State
  {
    State([files], queue, [control, mutation], sightings, collected, outcomes, false)
  }

  lemma Extended(run: seq<State>, s: State) returns (longer: seq<State>)
    requires run != [] && Behaviour(BATCH, run) && Step(BATCH, run[|run| - 1], s)
    ensures longer == run + [s] && Behaviour(BATCH, longer) && longer != [] && longer[|longer| - 1] == s
  {
    hide Step, Init;
    longer := run + [s];
    forall i | 0 <= i < |longer| - 1
      ensures Step(BATCH, longer[i], longer[i + 1])
    {
      if i < |run| - 1 {
        assert longer[i] == run[i] && longer[i + 1] == run[i + 1];
      }
    }
  }

  lemma Moved(s: State, j: nat, m: Move, s': State)
    requires Enabled(BATCH, s, j, m) && Next(BATCH, s, j, m) == s'
    ensures Step(BATCH, s, s')
  {
  }

  lemma Idle(control: Phase, mutation: Phase)
    requires !control.Active() && !mutation.Active()
    ensures CountActive([control, mutation]) == 0
  {
    var both, one := [control, mutation], [mutation];
    assert both[1..] == one && one[1..] == [];
    assert CountActive(one) == CountActive([]);
  }

  lemma ControlTaken()
    ensures Step(BATCH, At(FILES, [0], Queued, Queued, map[], [], []), At(FILES, [0], Taken, Queued, map[], [], []))
  {
    Idle(Queued, Queued);
    hide CountActive;
    Moved(At(FILES, [0], Queued, Queued, map[], [], []), 0, Take, At(FILES, [0], Taken, Queued, map[], [], []));
  }

  lemma ControlBorrows()
    ensures Step(BATCH, At(FILES, [0], Taken, Queued, map[], [], []), At(FILES, [], Holding(0), Queued, map[], [], []))
  {
    Moved(At(FILES, [0], Taken, Queued, map[], [], []), 0, Borrow, At(FILES, [], Holding(0), Queued, map[], [], []));
  }

  const GREEN_SEEN: map<nat, Sighting> := map[0 := Sighting(FILES, PASSED)]

  lemma ControlIsRun()
    ensures Step(BATCH, At(FILES, [], Holding(0), Queued, map[], [], []),
                 At(FILES, [], Tested(0, [], PASSED), Queued, GREEN_SEEN, [], []))
  {
    Moved(At(FILES, [], Holding(0), Queued, map[], [], []), 0, RunSuite(PASSED, FILES),
          At(FILES, [], Tested(0, [], PASSED), Queued, GREEN_SEEN, [], []));
  }

  lemma ControlIsJudged(green: Outcome)
    requires ControlOutcome(CONTROL, PASSED) == Ok(green)
    ensures Step(BATCH, At(FILES, [], Tested(0, [], PASSED), Queued, GREEN_SEEN, [], []),
                 At(FILES, [], Finished(0, Ok(green)), Queued, GREEN_SEEN, [], []))
  {
    hide ControlOutcome;
    Moved(At(FILES, [], Tested(0, [], PASSED), Queued, GREEN_SEEN, [], []), 0, Restore(NO_FAULTS),
          At(FILES, [], Finished(0, Ok(green)), Queued, GREEN_SEEN, [], []));
  }

  lemma ControlReturns(green: Outcome)
    ensures Step(BATCH, At(FILES, [], Finished(0, Ok(green)), Queued, GREEN_SEEN, [], []),
                 At(FILES, [0], Resolved(Ok(green)), Queued, GREEN_SEEN, [], []))
  {
    Moved(At(FILES, [], Finished(0, Ok(green)), Queued, GREEN_SEEN, [], []), 0, Return,
          At(FILES, [0], Resolved(Ok(green)), Queued, GREEN_SEEN, [], []));
  }

  lemma ControlIsCollected(green: Outcome)
    ensures Step(BATCH, At(FILES, [0], Resolved(Ok(green)), Queued, GREEN_SEEN, [], []),
                 At(FILES, [0], Resolved(Ok(green)), Queued, GREEN_SEEN, [0], [green]))
  {
    Moved(At(FILES, [0], Resolved(Ok(green)), Queued, GREEN_SEEN, [], []), 0, Collect(false),
          At(FILES, [0], Resolved(Ok(green)), Queued, GREEN_SEEN, [0], [green]));
  }

  lemma Begins()
    ensures Behaviour(BATCH, [At(FILES, [0], Queued, Queued, map[], [], [])])
  {
    assert [0] == seq(1, t => t);
  }

  /** The control: taken, given the tree, run, judged, and the tree returned. */
  lemma ControlRuns(green: Outcome) returns (run: seq<State>)
    requires ControlOutcome(CONTROL, PASSED) == Ok(green)
    ensures Behaviour(BATCH, run)
    ensures run != []
            && run[|run| - 1] == At(FILES, [0], Resolved(Ok(green)), Queued, GREEN_SEEN, [0], [green])
  {
    hide *;
    Begins();
    run := [At(FILES, [0], Queued, Queued, map[], [], [])];
    ControlTaken();
    run := Extended(run, At(FILES, [0], Taken, Queued, map[], [], []));
    ControlBorrows();
    run := Extended(run, At(FILES, [], Holding(0), Queued, map[], [], []));
    ControlIsRun();
    run := Extended(run, At(FILES, [], Tested(0, [], PASSED), Queued, GREEN_SEEN, [], []));
    ControlIsJudged(green);
    run := Extended(run, At(FILES, [], Finished(0, Ok(green)), Queued, GREEN_SEEN, [], []));
    ControlReturns(green);
    run := Extended(run, At(FILES, [0], Resolved(Ok(green)), Queued, GREEN_SEEN, [], []));
    ControlIsCollected(green);
    run := Extended(run, At(FILES, [0], Resolved(Ok(green)), Queued, GREEN_SEEN, [0], [green]));
  }

  /** While the mutation's job is under way the control's is over. */
  function Then(files: Files, queue: seq<nat>, green: Outcome, mutation: Phase): State {
    At(files, queue, Resolved(Ok(green)), mutation, GREEN_SEEN, [0], [green])
  }

  function Shown(files: Files): map<nat, Sighting> {
    GREEN_SEEN[1 := Sighting(files, FAILED)]
  }

  function After(files: Files, queue: seq<nat>, green: Outcome, mutation: Phase, seen: Files): State {
    At(files, queue, Resolved(Ok(green)), mutation, Shown(seen), [0], [green])
  }

  lemma MutationTaken(green: Outcome)
    ensures Step(BATCH, Then(FILES, [0], green, Queued), Then(FILES, [0], green, Taken))
  {
    Idle(Resolved(Ok(green)), Queued);
    hide CountActive;
    Moved(Then(FILES, [0], green, Queued), 1, Take, Then(FILES, [0], green, Taken));
  }

  lemma MutationBorrows(green: Outcome)
    ensures Step(BATCH, Then(FILES, [0], green, Taken), Then(FILES, [], green, Holding(0)))
  {
    Moved(Then(FILES, [0], green, Taken), 1, Borrow, Then(FILES, [], green, Holding(0)));
  }

  lemma MutationLands(green: Outcome, mutated: Files, landed: seq<Applied>)
    requires ApplyAll(FILES, EDITS, NO_FAULTS, NO_FAULTS) == (mutated, Ok(landed))
    ensures Step(BATCH, Then(FILES, [], green, Holding(0)), Then(mutated, [], green, Landed(0, landed)))
  {
    hide ApplyAll;
    Moved(Then(FILES, [], green, Holding(0)), 1, Land(Weather(NO_FAULTS, NO_FAULTS, NO_FAULTS)),
          Then(mutated, [], green, Landed(0, landed)));
  }

  lemma MutationIsRun(green: Outcome, mutated: Files, landed: seq<Applied>)
    ensures Step(BATCH, Then(mutated, [], green, Landed(0, landed)),
                 After(mutated, [], green, Tested(0, landed, FAILED), mutated))
  {
    Moved(Then(mutated, [], green, Landed(0, landed)), 1, RunSuite(FAILED, mutated),
          After(mutated, [], green, Tested(0, landed, FAILED), mutated));
  }

  lemma MutationIsJudged(green: Outcome, mutated: Files, landed: seq<Applied>, digests: Trails, caught: Outcome)
    requires RestoreAll(mutated, landed, NO_FAULTS) == (FILES, Ok(digests))
    requires MutationOutcome(CONTROL, FAILED, digests) == Ok(caught)
    ensures Step(BATCH, After(mutated, [], green, Tested(0, landed, FAILED), mutated),
                 After(FILES, [], green, Finished(0, Ok(caught)), mutated))
  {
    hide RestoreAll, MutationOutcome;
    Moved(After(mutated, [], green, Tested(0, landed, FAILED), mutated), 1, Restore(NO_FAULTS),
          After(FILES, [], green, Finished(0, Ok(caught)), mutated));
  }

  lemma MutationReturns(green: Outcome, mutated: Files, caught: Outcome)
    ensures Step(BATCH, After(FILES, [], green, Finished(0, Ok(caught)), mutated),
                 After(FILES, [0], green, Resolved(Ok(caught)), mutated))
  {
    Moved(After(FILES, [], green, Finished(0, Ok(caught)), mutated), 1, Return,
          After(FILES, [0], green, Resolved(Ok(caught)), mutated));
  }

  function Over(green: Outcome, caught: Outcome, mutated: Files): State {
    At(FILES, [0], Resolved(Ok(green)), Resolved(Ok(caught)), Shown(mutated), [0, 1], [green, caught])
  }

  lemma MutationIsCollected(green: Outcome, mutated: Files, caught: Outcome)
    ensures Step(BATCH, After(FILES, [0], green, Resolved(Ok(caught)), mutated), Over(green, caught, mutated))
  {
    Moved(After(FILES, [0], green, Resolved(Ok(caught)), mutated), 1, Collect(false), Over(green, caught, mutated));
  }

  lemma MutationRuns(before: seq<State>, green: Outcome, caught: Outcome, mutated: Files, landed: seq<Applied>,
                     digests: Trails)
    returns (run: seq<State>)
    requires before != [] && Behaviour(BATCH, before) && before[|before| - 1] == Then(FILES, [0], green, Queued)
    requires ApplyAll(FILES, EDITS, NO_FAULTS, NO_FAULTS) == (mutated, Ok(landed))
    requires RestoreAll(mutated, landed, NO_FAULTS) == (FILES, Ok(digests))
    requires MutationOutcome(CONTROL, FAILED, digests) == Ok(caught)
    ensures run != [] && Behaviour(BATCH, run) && run[|run| - 1] == Over(green, caught, mutated)
  {
    hide *;
    MutationTaken(green);
    run := Extended(before, Then(FILES, [0], green, Taken));
    MutationBorrows(green);
    run := Extended(run, Then(FILES, [], green, Holding(0)));
    MutationLands(green, mutated, landed);
    run := Extended(run, Then(mutated, [], green, Landed(0, landed)));
    MutationIsRun(green, mutated, landed);
    run := Extended(run, After(mutated, [], green, Tested(0, landed, FAILED), mutated));
    MutationIsJudged(green, mutated, landed, digests, caught);
    run := Extended(run, After(FILES, [], green, Finished(0, Ok(caught)), mutated));
    MutationReturns(green, mutated, caught);
    run := Extended(run, After(FILES, [0], green, Resolved(Ok(caught)), mutated));
    MutationIsCollected(green, mutated, caught);
    run := Extended(run, Over(green, caught, mutated));
  }

  lemma NightIsOver(green: Outcome, caught: Outcome, mutated: Files)
    requires green.verdict == CONTROL_GREEN && caught.verdict == KILLED
    ensures Terminal(Over(green, caught, mutated)) && ExitCode(Over(green, caught, mutated), false) == 0
    ensures SweepBatch(BATCH) && BATCH.jobs[1].name == CONTROL
  {
    var s := Over(green, caught, mutated);
    assert s.collected[0] == 0 && s.collected[1] == 1;
    assert forall i :: 0 <= i < |s.outcomes| ==> s.outcomes[i].verdict in {CONTROL_GREEN, KILLED};
  }

  lemma GreenIsQueuedNext(green: Outcome)
    ensures At(FILES, [0], Resolved(Ok(green)), Queued, GREEN_SEEN, [0], [green]) == Then(FILES, [0], green, Queued)
  {
  }

  lemma ReadAsUntrusted(s: State)
    requires Classify(0, RecordsOf(s.outcomes), 1).reason != Concluded(0)
    ensures Classify(0, RecordsOf(s.outcomes), 1).reason == Some(Untrusted)
  {
    hide Controls, Mutations, UnheldNames, RecordsOf;
  }

  /**
   The whole night: the control is green, the one mutation is caught, the harness exits 0, and the sweep
   reads its record as untrusted, because both outcomes carry the control's label.
   */
  lemma MislabelledMutationMisread() returns (run: seq<State>)
    ensures SweepBatch(BATCH) && Behaviour(BATCH, run) && Terminal(run[|run| - 1])
    ensures ExitCode(run[|run| - 1], false) == 0
    ensures Classify(0, RecordsOf(run[|run| - 1].outcomes), 1).reason == Some(Untrusted)
  {
    hide *;
    var green := ControlPasses();
    var mutated, landed, digests := EditRoundTrip();
    var caught := MutationDies(digests);
    run := ControlRuns(green);
    GreenIsQueuedNext(green);
    run := MutationRuns(run, green, caught, mutated, landed, digests);
    NightIsOver(green, caught, mutated);
    TwoJobs();
    ReadingAgreesWithExit(BATCH, run, false);
    ReadAsUntrusted(run[|run| - 1]);
  }

  lemma TwoJobs()
    ensures |BATCH.jobs| == 2
  {
  }
}
