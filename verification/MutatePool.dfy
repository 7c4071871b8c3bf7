/**
 The batch as a concurrent machine (tools/mutate.py, `_execute` and `_verdict_mode`).

 `workers` isolated trees wait on a FIFO queue. A pool of `workers` threads takes the submitted jobs in
 order; each job borrows a tree, lands its edits, runs the suite, restores and returns the tree. The
 main thread collects finished jobs in any order. A move of one job is one step; the environment
 chooses which job moves, what faults strike its writes, how the suite ends and what it leaves in the
 files the job mutated.
 */
module MutatePool {
  import opened PyText
  import opened MutateEdits
  import opened MutateRun

  datatype Batch = Batch(jobs: seq<Mutation>, workers: nat, pristine: Files)

  /** `max(1, min(options.workers, len(mutations)))`. */
  function WorkersFor(requested: int, mutations: nat): (workers: nat)
    ensures workers >= 1
    ensures mutations >= 1 ==> workers <= mutations
    ensures requested >= 1 ==> workers <= requested
    ensures requested < 1 || mutations < 1 ==> workers == 1
    ensures requested >= 1 && mutations >= 1 ==> workers == mutations || workers == requested
  {
    var fewer := if requested < mutations then requested else mutations;
    if fewer < 1 then 1 else fewer
  }

  datatype Phase =
    | Queued
    | Taken
    | Holding(tree: nat)
    | Landed(tree: nat, landed: seq<Applied>)
    | Tested(tree: nat, landed: seq<Applied>, run: SuiteRun)
    | Finished(tree: nat, result: Result<Outcome, Failure>)
    | Resolved(result: Result<Outcome, Failure>)
  {
    /** A worker thread is inside `task`. */
    predicate Active() {
      !Queued? && !Resolved?
    }

    /** The job has a tree that is not on the queue. */
    predicate Holds() {
      Holding? || Landed? || Tested? || Finished?
    }

    /** The job's future holds, or is about to hold, an exception. */
    predicate Failed() {
      (Finished? || Resolved?) && result.Err?
    }
  }

  /** What one suite run was shown, and how it ended. */
  datatype Sighting = Sighting(files: Files, run: SuiteRun)

  datatype State = State(
    files: seq<Files>,
    queue: seq<nat>,
    phase: seq<Phase>,
    sightings: map<nat, Sighting>,
    collected: seq<nat>,
    outcomes: seq<Outcome>,
    aborted: bool)

  datatype Move =
    | Take
    | Borrow
    | Land(weather: Weather)
    | RunSuite(run: SuiteRun, left: Files)
    | Restore(restoring: Faults)
    | Return
    | Collect(persistFails: bool)

  function CountActive(phase: seq<Phase>): nat {
    if phase == [] then 0 else (if phase[0].Active() then 1 else 0) + CountActive(phase[1..])
  }

  function CountHolding(phase: seq<Phase>): nat {
    if phase == [] then 0 else (if phase[0].Holds() then 1 else 0) + CountHolding(phase[1..])
  }

  function EditsOf(job: Mutation): seq<Edit> {
    match job
    case Control(_) => []
    case Mutation(_, edits) => edits
  }

  // -- The step relation -------------------------------------------------------------------------

  ghost predicate Init(b: Batch, s: State) {
    && b.workers >= 1
    && |s.files| == b.workers && (forall t :: 0 <= t < b.workers ==> s.files[t] == b.pristine)
    && s.queue == seq(b.workers, t => t)
    && |s.phase| == |b.jobs| && (forall j :: 0 <= j < |b.jobs| ==> s.phase[j] == Queued)
    && s.sightings == map[] && s.collected == [] && s.outcomes == [] && !s.aborted
  }

  /** Job `j` may make this move now. */
  ghost predicate Enabled(b: Batch, s: State, j: nat, m: Move) {
    && j < |b.jobs| && j < |s.phase|
    && match m {
         case Take =>
           && s.phase[j].Queued? && (forall i :: 0 <= i < j ==> !s.phase[i].Queued?)
           && CountActive(s.phase) < b.workers
         case Borrow => s.phase[j].Taken? && s.queue != []
         case Land(_) => s.phase[j].Holding? && s.phase[j].tree < |s.files| && b.jobs[j].Mutation?
         case RunSuite(_, left) =>
           && (s.phase[j].Landed? || (s.phase[j].Holding? && b.jobs[j].Control?))
           && s.phase[j].tree < |s.files|
           && AgreeOutside(Paths(EditsOf(b.jobs[j])), s.files[s.phase[j].tree], left)
         case Restore(_) => s.phase[j].Tested? && s.phase[j].tree < |s.files|
         case Return => s.phase[j].Finished?
         case Collect(_) => s.phase[j].Resolved? && j !in s.collected && !s.aborted
       }
  }

  /** What `future.result()` contributes; `None` for an exception the main thread does not catch. */
  function Collected(job: Mutation, result: Result<Outcome, Failure>): Option<Outcome> {
    match result
    case Ok(outcome) => Some(outcome)
    case Err(Unexpected) => None
    case Err(Harness(_)) => Some(Outcome(job.name, ERROR, "harness error", [], map[], false))
  }

  ghost function Next(b: Batch, s: State, j: nat, m: Move): State
    requires Enabled(b, s, j, m)
  {
    match m
    case Take => s.(phase := s.phase[j := Taken])
    case Borrow => s.(queue := s.queue[1..], phase := s.phase[j := Holding(s.queue[0])])
    case Land(weather) =>
      var t := s.phase[j].tree;
      var (mutated, landed) := ApplyAll(s.files[t], b.jobs[j].edits, weather.landing, weather.unwinding);
      s.(files := s.files[t := mutated],
         phase := s.phase[j := match landed
                               case Ok(applied) => Landed(t, applied)
                               case Err(f) => Finished(t, Err(f))])
    case RunSuite(run, left) =>
      var t := s.phase[j].tree;
      s.(files := s.files[t := left],
         sightings := s.sightings[j := Sighting(s.files[t], run)],
         phase := s.phase[j := Tested(t, if s.phase[j].Landed? then s.phase[j].landed else [], run)])
    case Restore(restoring) =>
      var Tested(t, landed, run) := s.phase[j];
      if b.jobs[j].Control? then s.(phase := s.phase[j := Finished(t, ControlOutcome(b.jobs[j].name, run))])
      else
        var (after, restored) := RestoreAll(s.files[t], landed, restoring);
        s.(files := s.files[t := after],
           phase := s.phase[j := Finished(t, match restored
                                             case Err(f) => Err(f)
                                             case Ok(digests) => MutationOutcome(b.jobs[j].name, run, digests))])
    case Return =>
      s.(queue := s.queue + [s.phase[j].tree], phase := s.phase[j := Resolved(s.phase[j].result)])
    case Collect(persistFails) =>
      var outcome := Collected(b.jobs[j], s.phase[j].result);
      s.(collected := s.collected + [j],
         outcomes := if outcome.Some? then s.outcomes + [outcome.value] else s.outcomes,
         aborted := outcome.None? || persistFails)
  }

  ghost predicate Step(b: Batch, s: State, s': State) {
    exists j, m :: Enabled(b, s, j, m) && s' == Next(b, s, j, m)
  }

  /** A run of the batch from its start. */
  ghost predicate Behaviour(b: Batch, run: seq<State>) {
    && run != [] && Init(b, run[0])
    && forall i :: 0 <= i < |run| - 1 ==> Step(b, run[i], run[i + 1])
  }

  /** Every future is done and the main thread has left its loop. */
  ghost predicate Terminal(s: State) {
    && (forall j :: 0 <= j < |s.phase| ==> s.phase[j].Resolved?)
    && (s.aborted || forall j :: 0 <= j < |s.phase| ==> j in s.collected)
  }

  predicate Reported(outcomes: seq<Outcome>, verdict: Verdict) {
    exists i :: 0 <= i < |outcomes| && outcomes[i].verdict == verdict
  }

  /** The process exit code of `_verdict_mode` under `main`. */
  function ExitCode(s: State, checkoutMoved: bool): int {
    if s.aborted || checkoutMoved then 2
    else if Reported(s.outcomes, CONTROL_RED) || Reported(s.outcomes, ERROR) then 2
    else if Reported(s.outcomes, SURVIVED) || Reported(s.outcomes, HUNG) then 1
    else 0
  }
}
