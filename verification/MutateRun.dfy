/** One mutation's suite run and the verdict read from it (tools/mutate_run.py). */
module MutateRun {
  import opened PyText
  import opened MutateEdits
  import MutateEditsLaws

  /** How one suite run ended. `message` is what the timeout exception says of itself. */
  datatype SuiteRun =
    | Completed(returncode: int, stdout: string)
    | Hung(message: string, seconds: nat, output: string)
    | Broken(failure: Failure)

  /** What running the suite does to a tree: how it ended, and the files it left. */
  type Suite = Files -> (SuiteRun, Files)

  datatype Verdict = KILLED | SURVIVED | HUNG | ERROR | CONTROL_GREEN | CONTROL_RED

  datatype Outcome = Outcome(
    name: string, verdict: Verdict, summary: string, failures: seq<string>, digests: Trails, timedOut: bool)

  /** The faults that strike one job's writes. */
  datatype Weather = Weather(landing: Faults, unwinding: Faults, restoring: Faults)

  // -- Reading the output ------------------------------------------------------------------------

  function Filter(lines: seq<string>, keep: string -> bool): seq<string> {
    if lines == [] then []
    else (if keep(lines[0]) then [lines[0]] else []) + Filter(lines[1..], keep)
  }

  /** The lines that are not blank. */
  function Written(stdout: string): seq<string> {
    Filter(SplitLines(stdout), line => Strip(line) != "")
  }

  function Failing(lines: seq<string>): seq<string> {
    Filter(lines, line => "FAILED" <= line || "ERROR" <= line)
  }

  /** `_summarise`. */
  function Summarise(stdout: string): (string, seq<string>) {
    var lines := Written(stdout);
    var failing := Failing(lines);
    (if lines == [] then "(no output)" else lines[|lines| - 1],
     if |failing| <= 20 then failing else failing[..20])
  }

  function LowerAscii(s: string): string {
    seq(|s|, i requires 0 <= i < |s| => if 'A' <= s[i] <= 'Z' then (s[i] as int + 32) as char else s[i])
  }

  /** pytest's own last line names what it counted; a truncated run's does not. */
  predicate RecognisedSummary(summary: string) {
    var lowered := LowerAscii(summary);
    Contains(lowered, "passed") || Contains(lowered, "failed") || Contains(lowered, "error")
  }

  function HungSummary(run: SuiteRun): (string, seq<string>)
    requires run.Hung?
  {
    if run.output == "" then (run.message, [])
    else
      var (summary, failures) := Summarise(run.output);
      if failures == [] then
        ("timed out after " + Decimal(run.seconds) + "s (no failing test); last line: " + summary, [])
      else (summary, failures)
  }

  // -- The verdict -------------------------------------------------------------------------------

  /** `_run_control`, given how the suite ended; an exception that is not a hang propagates. */
  function ControlOutcome(name: string, run: SuiteRun): Result<Outcome, Failure> {
    match run
    case Broken(f) => Err(f)
    case Hung(_, _, _) =>
      var (summary, failures) := HungSummary(run);
      Ok(Outcome(name, ERROR, summary, failures, map[], true))
    case Completed(returncode, stdout) =>
      var (summary, failures) := Summarise(stdout);
      var verdict := if !RecognisedSummary(summary) then ERROR
                     else if returncode == 0 then CONTROL_GREEN else CONTROL_RED;
      Ok(Outcome(name, verdict, summary, failures, map[], false))
  }

  /** The tail of `_run_mutation`, once the tree has been restored. */
  function MutationOutcome(name: string, run: SuiteRun, digests: Trails): Result<Outcome, Failure> {
    match run
    case Broken(f) => Err(f)
    case Hung(_, _, _) =>
      var (summary, failures) := HungSummary(run);
      Ok(Outcome(name, HUNG, summary, failures, digests, true))
    case Completed(returncode, stdout) =>
      var (summary, failures) := Summarise(stdout);
      var verdict := if !RecognisedSummary(summary) then ERROR
                     else if returncode == 0 then SURVIVED else KILLED;
      Ok(Outcome(name, verdict, summary, failures, digests, false))
  }

  /** A job's tree afterwards and its result, as a function of everything the environment chooses. */
  function JobResult(files: Files, mutation: Mutation, weather: Weather, suite: Suite)
    : (Files, Result<Outcome, Failure>)
  {
    match mutation
    case Control(name) => (suite(files).1, ControlOutcome(name, suite(files).0))
    case Mutation(name, edits) =>
      var (mutated, landed) := ApplyAll(files, edits, weather.landing, weather.unwinding);
      match landed
      case Err(f) => (mutated, Err(f))
      case Ok(applied) =>
        var (run, left) := suite(mutated);
        var (after, restored) := RestoreAll(left, applied, weather.restoring);
        match restored
        case Err(f) => (after, Err(f))
        case Ok(digests) => (after, MutationOutcome(name, run, digests))
  }

  /** `_run_control`. */
  method RunControl(tree: Tree, name: string, suite: Suite) returns (r: Result<Outcome, Failure>)
    modifies tree
    ensures (tree.files, r) == JobResult(old(tree.files), Control(name), Weather(NO_FAULTS, NO_FAULTS, NO_FAULTS), suite)
  {
    var (run, left) := suite(tree.files);
    tree.files := left;
    return ControlOutcome(name, run);
  }

  /**
   `_run_mutation`: apply, run, restore exactly once however the suite ended, and only then judge. A
   job that yields an outcome leaves the tree as it found it, if the suite kept to the mutated files.
   */
  method RunMutation(tree: Tree, name: string, edits: seq<Edit>, weather: Weather, suite: Suite)
    returns (r: Result<Outcome, Failure>)
    modifies tree
    ensures (tree.files, r) == JobResult(old(tree.files), Mutation(name, edits), weather, suite)
    ensures var (mutated, _) := ApplyAll(old(tree.files), edits, weather.landing, weather.unwinding);
            r.Ok? ==>
              && MutateEditsLaws.Carries(old(tree.files), edits, mutated)
              && (AgreeOutside(Paths(edits), mutated, suite(mutated).1) ==> tree.files == old(tree.files))
  {
    hide ApplyAll, RestoreAll, AgreeOutside, Paths, MutationOutcome, MutateEditsLaws.Carries, PlainText;
    ghost var start := tree.files;
    var landed := tree.Apply(edits, weather.landing, weather.unwinding);
    if landed.Err? {
      return Err(landed.error);
    }
    OutcomeLeavesTree(start, edits, weather, suite(tree.files).1);
    var (run, left) := suite(tree.files);
    tree.files := left;
    var restored := tree.RestoreEvery(landed.value, weather.restoring);
    if restored.Err? {
      return Err(restored.error);
    }
    return MutationOutcome(name, run, restored.value);
  }

  /**
   Whatever writes failed, a restore that completes has undone the edits, and the tree the suite saw was
   the starting one with those edits and nothing else.
   */
  lemma OutcomeLeavesTree(files: Files, edits: seq<Edit>, weather: Weather, left: Files)
    requires ApplyAll(files, edits, weather.landing, weather.unwinding).1.Ok?
    ensures var (mutated, landed) := ApplyAll(files, edits, weather.landing, weather.unwinding);
            var (after, restored) := RestoreAll(left, landed.value, weather.restoring);
            restored.Ok? ==>
              && MutateEditsLaws.Carries(files, edits, mutated) && (forall p :: p in Paths(edits) ==> PlainText(files, p))
              && (AgreeOutside(Paths(edits), mutated, left) ==> after == files)
  {
    hide LandFirst, RestoreAll, MutateEditsLaws.Carries, MutateEditsLaws.CarriesRead, Paths, PlainText;
    assert edits[..|edits|] == edits;
    MutateEditsLaws.LandFirstStaysInside(files, edits, weather.landing, |edits|);
    var (mutated, landed) := ApplyAll(files, edits, weather.landing, weather.unwinding);
    if RestoreAll(left, landed.value, weather.restoring).1.Ok? {
      MutateEditsLaws.RestoredWasPlain(files, edits, weather.landing, |edits|, left, weather.restoring);
      MutateEditsLaws.LandFirstCarries(files, edits, weather.landing, |edits|);
      if AgreeOutside(Paths(edits), mutated, left) {
        MutateEditsLaws.RestoreReturnsTree(files, edits, weather.landing, |edits|, left, weather.restoring);
      }
    }
  }
}
