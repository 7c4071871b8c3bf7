/** What a sweep concludes from the harness's record (tools/sweep_verdict.py). */
module SweepVerdict {
  import opened PyText
  import opened MutateEdits
  import opened MutateRun
  import MutateRunLaws
  import opened MutatePool
  import opened MutatePoolLaws
  import opened Verdicts

  /** One line of the harness's JSON record. */
  datatype Record = Record(name: string, verdict: string) {
    predicate IsControl() {
      name == CONTROL
    }

    predicate Survives() {
      Unheld(verdict)
    }
  }

  datatype Heading = Survivors | Untrusted

  datatype Reading = Reading(reason: Option<Heading>, unheld: seq<string>)

  function Controls(records: seq<Record>): seq<Record> {
    if records == [] then []
    else (if records[0].IsControl() then [records[0]] else []) + Controls(records[1..])
  }

  function Mutations(records: seq<Record>): seq<Record> {
    if records == [] then []
    else (if records[0].IsControl() then [] else [records[0]]) + Mutations(records[1..])
  }

  function UnheldNames(records: seq<Record>): seq<string> {
    if records == [] then []
    else (if records[0].Survives() then [records[0].name] else []) + UnheldNames(records[1..])
  }

  /** `classify`: clean only on positive evidence, untrusted unless something else is established. */
  function Classify(mutateExit: int, records: seq<Record>, submitted: int): Reading {
    var mutations, controls := Mutations(records), Controls(records);
    var unheld := UnheldNames(mutations);
    var greenControl := |controls| == 1 && controls[0].verdict == "control-green";
    var complete := |mutations| == submitted && submitted > 0;
    var allKilled := forall r :: r in mutations ==> r.verdict == "KILLED";
    if mutateExit == 0 && greenControl && complete && allKilled then Reading(None, [])
    else if unheld != [] && mutateExit == 1 && greenControl && complete then Reading(Some(Survivors), unheld)
    else Reading(Some(Untrusted), unheld)
  }

  function VerdictName(v: Verdict): string {
    match v
    case KILLED => "KILLED"
    case SURVIVED => "SURVIVED"
    case HUNG => "HUNG"
    case ERROR => "ERROR"
    case CONTROL_GREEN => "control-green"
    case CONTROL_RED => "control-red"
  }

  /** The record `_persist` writes, as `read_results` reads it back. */
  function RecordsOf(outcomes: seq<Outcome>): (r: seq<Record>)
    ensures |r| == |outcomes|
    ensures forall i :: 0 <= i < |outcomes| ==> r[i] == Record(outcomes[i].name, VerdictName(outcomes[i].verdict))
  {
    seq(|outcomes|, i requires 0 <= i < |outcomes| => Record(outcomes[i].name, VerdictName(outcomes[i].verdict)))
  }

  /** What a caller reading only the exit code would conclude. */
  function Concluded(exit: int): Option<Heading> {
    if exit == 0 then None else if exit == 1 then Some(Survivors) else Some(Untrusted)
  }

  // -- Splitting a record ------------------------------------------------------------------------

  lemma {:induction false} SplitRecords(records: seq<Record>)
    ensures |Controls(records)| + |Mutations(records)| == |records|
    ensures forall r :: r in Mutations(records) <==> r in records && !r.IsControl()
    ensures forall r :: r in Controls(records) <==> r in records && r.IsControl()
  {
    if records != [] {
      SplitRecords(records[1..]);
      assert records == [records[0]] + records[1..];
    }
  }

  lemma {:induction false} NoControls(records: seq<Record>)
    requires forall i :: 0 <= i < |records| ==> !records[i].IsControl()
    ensures Controls(records) == []
  {
    if records != [] {
      NoControls(records[1..]);
    }
  }

  lemma {:induction false} SoleControl(records: seq<Record>, c: nat)
    requires c < |records|
    requires forall i :: 0 <= i < |records| ==> (records[i].IsControl() <==> i == c)
    ensures Controls(records) == [records[c]]
  {
    if c == 0 {
      assert forall i :: 0 <= i < |records[1..]| ==> records[1..][i] == records[i + 1];
      NoControls(records[1..]);
    } else {
      SoleControl(records[1..], c - 1);
    }
  }

  lemma {:induction false} TwoControls(records: seq<Record>, c: nat, d: nat)
    requires c < d < |records| && records[c].IsControl() && records[d].IsControl()
    ensures |Controls(records)| >= 2
  {
    if c == 0 {
      SplitRecords(records[1..]);
      assert records[1..][d - 1].IsControl();
      assert records[1..][d - 1] in Controls(records[1..]);
    } else {
      TwoControls(records[1..], c - 1, d - 1);
    }
  }

  lemma {:induction false} SomeUnheld(records: seq<Record>)
    ensures UnheldNames(records) != [] <==> exists r :: r in records && r.Survives()
  {
    if records != [] {
      SomeUnheld(records[1..]);
      assert records == [records[0]] + records[1..];
    }
  }

  // -- The batch a sweep submits -----------------------------------------------------------------

  /** The unmutated control first, then at least one mutation. */
  predicate SweepBatch(b: Batch) {
    && |b.jobs| >= 2 && b.jobs[0] == Control(CONTROL)
    && forall j :: 1 <= j < |b.jobs| ==> b.jobs[j].Mutation?
  }

  lemma OutcomeKeepsName(b: Batch, s: State, j: nat)
    requires j < |b.jobs| && |s.phase| == |b.jobs| && s.phase[j].Resolved? && s.phase[j].result.Ok?
    requires Earned(b, s, j, s.phase[j].result.value)
    ensures s.phase[j].result.value.name == b.jobs[j].name
  {
    hide Summarise, RecognisedSummary, HungSummary, OwnEditsOnly;
  }

  /** In a batch that exits 0 or 1, record `i` is the outcome of job `collected[i]`, and all jobs are there. */
  ghost predicate Complete(b: Batch, s: State) {
    && Recorded(b, s) && Terminal(s) && !s.aborted
    && forall j :: 0 <= j < |b.jobs| ==>
         && s.phase[j].Resolved? && s.phase[j].result.Ok?
         && s.phase[j].result.value.name == b.jobs[j].name
         && (if b.jobs[j].Control? then s.phase[j].result.value.verdict in {CONTROL_GREEN, CONTROL_RED, ERROR}
             else s.phase[j].result.value.verdict in {KILLED, SURVIVED, HUNG, ERROR})
  }

  lemma TrustedIsComplete(b: Batch, run: seq<State>, moved: bool)
    requires Behaviour(b, run) && Terminal(run[|run| - 1]) && ExitCode(run[|run| - 1], moved) != 2
    ensures Complete(b, run[|run| - 1])
  {
    hide Earned, Sound, Owned, Init, Step;
    var s := run[|run| - 1];
    TrustworthyExit(b, run, moved);
    Invariants(b, run, |run| - 1);
    forall j | 0 <= j < |b.jobs|
      ensures s.phase[j].result.value.name == b.jobs[j].name
      ensures if b.jobs[j].Control? then s.phase[j].result.value.verdict in {CONTROL_GREEN, CONTROL_RED, ERROR}
              else s.phase[j].result.value.verdict in {KILLED, SURVIVED, HUNG, ERROR}
    {
      OutcomeKeepsName(b, s, j);
      VerdictKinds(b, s, j);
    }
  }

  lemma {:induction false} PermutationLength(xs: seq<nat>, n: nat)
    requires forall i, k :: 0 <= i < k < |xs| ==> xs[i] != xs[k]
    requires forall x: nat :: x in xs <==> x < n
    ensures |xs| == n
  {
    if n == 0 {
      assert forall i :: 0 <= i < |xs| ==> xs[i] in xs;
    } else {
      assert n - 1 in xs;
      var i :| 0 <= i < |xs| && xs[i] == n - 1;
      var rest := xs[..i] + xs[i + 1..];
      assert forall x :: x in xs <==> x in rest || x == n - 1 by {
        assert xs == xs[..i] + [xs[i]] + xs[i + 1..];
      }
      assert forall x :: x in rest ==> x != n - 1;
      PermutationLength(rest, n - 1);
    }
  }

  /** Where each job's record is. */
  lemma RecordOfJob(b: Batch, s: State, j: nat) returns (i: nat)
    requires Complete(b, s) && j < |b.jobs|
    ensures i < |s.outcomes| && s.collected[i] == j && s.outcomes[i] == s.phase[j].result.value
  {
    EveryJobReportedOnce(b, s, j);
    i :| 0 <= i < |s.outcomes| && s.collected[i] == j;
  }

  lemma RecordIsJobs(b: Batch, s: State, i: nat)
    requires Complete(b, s) && i < |s.outcomes|
    ensures s.collected[i] < |b.jobs| && s.outcomes[i] == s.phase[s.collected[i]].result.value
    ensures RecordsOf(s.outcomes)[i].name == b.jobs[s.collected[i]].name
  {
  }

  lemma RecordCount(b: Batch, s: State)
    requires Complete(b, s)
    ensures |s.outcomes| == |b.jobs|
  {
    forall x: nat
      ensures x in s.collected <==> x < |b.jobs|
    {
      if x in s.collected {
        var i :| 0 <= i < |s.collected| && s.collected[i] == x;
      }
    }
    PermutationLength(s.collected, |b.jobs|);
  }

  /** With every mutation labelled apart from the control, the record splits as the batch did. */
  lemma RecordSplits(b: Batch, s: State)
    requires SweepBatch(b) && Complete(b, s)
    requires forall j :: 1 <= j < |b.jobs| ==> b.jobs[j].name != CONTROL
    ensures var records := RecordsOf(s.outcomes);
            && Controls(records)
               == [Record(CONTROL, VerdictName(s.phase[0].result.value.verdict))]
            && |Mutations(records)| == |b.jobs| - 1
  {
    var records := RecordsOf(s.outcomes);
    var c := RecordOfJob(b, s, 0);
    forall i | 0 <= i < |records|
      ensures records[i].IsControl() <==> i == c
    {
      RecordIsJobs(b, s, i);
    }
    SoleControl(records, c);
    SplitRecords(records);
    RecordCount(b, s);
  }

  /** A mutation labelled like the control makes a second control of itself. */
  lemma MislabelledSplits(b: Batch, s: State, j: nat)
    requires SweepBatch(b) && Complete(b, s) && 1 <= j < |b.jobs| && b.jobs[j].name == CONTROL
    ensures |Controls(RecordsOf(s.outcomes))| >= 2
  {
    var c := RecordOfJob(b, s, 0);
    var d := RecordOfJob(b, s, j);
    RecordIsJobs(b, s, c);
    RecordIsJobs(b, s, d);
    TwoControls(RecordsOf(s.outcomes), if c < d then c else d, if c < d then d else c);
  }

  /** A verdict only a mutation can earn shows up among the mutations' records. */
  lemma ReportedAmongMutations(b: Batch, s: State, i: nat)
    requires SweepBatch(b) && Complete(b, s) && i < |s.outcomes|
    requires s.outcomes[i].verdict in {KILLED, SURVIVED, HUNG}
    requires forall j :: 1 <= j < |b.jobs| ==> b.jobs[j].name != CONTROL
    ensures RecordsOf(s.outcomes)[i] in Mutations(RecordsOf(s.outcomes))
  {
    hide Mutations, Controls;
    var records := RecordsOf(s.outcomes);
    SplitRecords(records);
    RecordIsJobs(b, s, i);
    assert s.collected[i] != 0;
    assert !records[i].IsControl();
  }

  lemma UnheldMeansReported(b: Batch, s: State)
    requires SweepBatch(b) && Complete(b, s)
    requires forall j :: 1 <= j < |b.jobs| ==> b.jobs[j].name != CONTROL
    ensures UnheldNames(Mutations(RecordsOf(s.outcomes))) != []
            <==> Reported(s.outcomes, SURVIVED) || Reported(s.outcomes, HUNG)
  {
    var records := RecordsOf(s.outcomes);
    SomeUnheld(Mutations(records));
    if i :| 0 <= i < |s.outcomes| && s.outcomes[i].verdict in {SURVIVED, HUNG} {
      ReportedAmongMutations(b, s, i);
      assert records[i].Survives();
    } else {
      NoneUnheld(s.outcomes);
    }
  }

  lemma NoneUnheld(outcomes: seq<Outcome>)
    requires forall i :: 0 <= i < |outcomes| ==> outcomes[i].verdict !in {SURVIVED, HUNG}
    ensures forall r :: r in Mutations(RecordsOf(outcomes)) ==> !r.Survives()
  {
    hide Mutations, Controls;
    var records := RecordsOf(outcomes);
    SplitRecords(records);
    forall r | r in Mutations(records)
      ensures !r.Survives()
    {
      var i :| 0 <= i < |records| && records[i] == r;
    }
  }

  lemma ControlGreen(b: Batch, s: State)
    requires SweepBatch(b) && Complete(b, s) && ExitCode(s, false) != 2
    ensures s.phase[0].result.value.verdict == CONTROL_GREEN
  {
    var c := RecordOfJob(b, s, 0);
  }

  lemma AllMutationsKilled(b: Batch, s: State)
    requires SweepBatch(b) && Complete(b, s) && ExitCode(s, false) == 0
    ensures forall r :: r in Mutations(RecordsOf(s.outcomes)) ==> r.verdict == "KILLED"
  {
    var records := RecordsOf(s.outcomes);
    SplitRecords(records);
    hide Mutations, Controls;
    forall r | r in Mutations(records)
      ensures r.verdict == "KILLED"
    {
      var i :| 0 <= i < |records| && records[i] == r;
      RecordIsJobs(b, s, i);
    }
  }

  lemma AgreeOnTrusted(b: Batch, s: State)
    requires SweepBatch(b) && Complete(b, s) && ExitCode(s, false) != 2
    requires forall j :: 1 <= j < |b.jobs| ==> b.jobs[j].name != CONTROL
    ensures Classify(ExitCode(s, false), RecordsOf(s.outcomes), |b.jobs| - 1).reason
            == Concluded(ExitCode(s, false))
  {
    var records := RecordsOf(s.outcomes);
    RecordSplits(b, s);
    ControlGreen(b, s);
    UnheldMeansReported(b, s);
    if ExitCode(s, false) == 0 {
      AllMutationsKilled(b, s);
    }
  }

  /**
   End to end: the sweep's reading agrees with the harness's exit code, for every run of every batch,
   exactly when the run cannot be trusted anyway or no mutation carries the control's label.
   */
  lemma ReadingAgreesWithExit(b: Batch, run: seq<State>, moved: bool)
    requires SweepBatch(b) && Behaviour(b, run) && Terminal(run[|run| - 1])
    ensures var s := run[|run| - 1];
            var exit := ExitCode(s, moved);
            Classify(exit, RecordsOf(s.outcomes), |b.jobs| - 1).reason == Concluded(exit)
            <==> exit == 2 || forall j :: 1 <= j < |b.jobs| ==> b.jobs[j].name != CONTROL
  {
    hide Complete, Init, Step;
    var s := run[|run| - 1];
    if ExitCode(s, moved) != 2 {
      TrustedIsComplete(b, run, moved);
      if j :| 1 <= j < |b.jobs| && b.jobs[j].name == CONTROL {
        MislabelledSplits(b, s, j);
      } else {
        AgreeOnTrusted(b, s);
      }
    }
  }

  /** A clean night: the suite went red for every mutation on exactly its own tree, over a green control. */
  lemma CleanNight(b: Batch, run: seq<State>, moved: bool, j: nat)
    requires SweepBatch(b) && Behaviour(b, run) && Terminal(run[|run| - 1]) && j < |b.jobs|
    requires var s := run[|run| - 1];
             Classify(ExitCode(s, moved), RecordsOf(s.outcomes), |b.jobs| - 1).reason == None
    ensures var s := run[|run| - 1];
            && j in s.sightings && OwnEditsOnly(b, j, s.sightings[j].files) && MutateRunLaws.Conclusive(s.sightings[j].run)
            && (s.sightings[j].run.returncode == 0 <==> j == 0)
  {
    hide Init, Step, MutateRunLaws.Conclusive, OwnEditsOnly;
    ZeroMeansAllKilled(b, run, moved, j);
  }
}
