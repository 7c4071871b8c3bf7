/** Safety, ownership and termination of the batch, over every interleaving and every fault. */
module MutatePoolLaws {
  import opened PyText
  import opened MutateEdits
  import MutateEditsLaws
  import opened MutateRun
  import opened MutateRunLaws
  import opened MutatePool

  // -- Counting ----------------------------------------------------------------------------------

  lemma {:induction false} CountAfterMove(phase: seq<Phase>, j: nat, now: Phase)
    requires j < |phase|
    ensures CountActive(phase[j := now]) + (if phase[j].Active() then 1 else 0)
            == CountActive(phase) + (if now.Active() then 1 else 0)
    ensures CountHolding(phase[j := now]) + (if phase[j].Holds() then 1 else 0)
            == CountHolding(phase) + (if now.Holds() then 1 else 0)
  {
    if j == 0 {
      assert phase[0 := now][1..] == phase[1..];
    } else {
      CountAfterMove(phase[1..], j - 1, now);
      assert phase[j := now][1..] == phase[1..][j - 1 := now];
    }
  }

  lemma {:induction false} HoldingIsActive(phase: seq<Phase>)
    ensures CountHolding(phase) <= CountActive(phase)
    ensures (exists j :: 0 <= j < |phase| && phase[j].Taken?) ==> CountHolding(phase) < CountActive(phase)
  {
    if phase != [] {
      HoldingIsActive(phase[1..]);
      if j :| 0 <= j < |phase| && phase[j].Taken? {
        assert j > 0 ==> phase[1..][j - 1].Taken?;
      }
    }
  }

  lemma {:induction false} AllQueued(phase: seq<Phase>)
    requires forall j :: 0 <= j < |phase| ==> phase[j].Queued?
    ensures CountActive(phase) == 0 && CountHolding(phase) == 0
  {
    if phase != [] {
      AllQueued(phase[1..]);
    }
  }

  // -- Ownership ---------------------------------------------------------------------------------

  /** Each tree is on the queue or held by exactly one job, and no thread is without room. */
  ghost predicate Owned(b: Batch, s: State) {
    && b.workers >= 1 && |s.files| == b.workers && |s.phase| == |b.jobs|
    && (forall i :: 0 <= i < |s.queue| ==> s.queue[i] < b.workers)
    && (forall i, k :: 0 <= i < k < |s.queue| ==> s.queue[i] != s.queue[k])
    && (forall j :: 0 <= j < |s.phase| && s.phase[j].Holds() ==>
          s.phase[j].tree < b.workers && s.phase[j].tree !in s.queue)
    && (forall i, j :: 0 <= i < j < |s.phase| && s.phase[i].Holds() && s.phase[j].Holds() ==>
          s.phase[i].tree != s.phase[j].tree)
    && (forall t :: 0 <= t < b.workers ==>
          t in s.queue || exists j :: 0 <= j < |s.phase| && s.phase[j].Holds() && s.phase[j].tree == t)
    && |s.queue| + CountHolding(s.phase) == b.workers
    && CountActive(s.phase) <= b.workers
  }

  lemma OwnedInitially(b: Batch, s: State)
    requires Init(b, s)
    ensures Owned(b, s)
  {
    AllQueued(s.phase);
    forall t | 0 <= t < b.workers
      ensures t in s.queue
    {
      assert s.queue[t] == t;
    }
  }

  lemma OwnedPreserved(b: Batch, s: State, j: nat, m: Move)
    requires Owned(b, s) && Enabled(b, s, j, m)
    ensures Owned(b, Next(b, s, j, m))
  {
    hide *;
    match m {
      case Borrow => BorrowKeepsTrees(b, s, j);
      case Return => ReturnKeepsTrees(b, s, j);
      case _ => SamePlacesKeepTrees(b, s, j, m);
    }
  }

  lemma BorrowKeepsTrees(b: Batch, s: State, j: nat)
    requires Owned(b, s) && Enabled(b, s, j, Borrow)
    ensures Owned(b, Next(b, s, j, Borrow))
  {
    hide CountActive, CountHolding;
    var s' := Next(b, s, j, Borrow);
    CountAfterMove(s.phase, j, s'.phase[j]);
    assert forall t :: t in s.queue <==> t == s.queue[0] || t in s'.queue;
    assert s.queue[0] !in s'.queue;
    forall t | 0 <= t < b.workers
      ensures t in s'.queue || exists i :: 0 <= i < |s'.phase| && s'.phase[i].Holds() && s'.phase[i].tree == t
    {
      if t == s.queue[0] {
        assert s'.phase[j].Holds() && s'.phase[j].tree == t;
      } else if t !in s.queue {
        var i :| 0 <= i < |s.phase| && s.phase[i].Holds() && s.phase[i].tree == t;
        assert s'.phase[i] == s.phase[i];
      }
    }
  }

  lemma ReturnKeepsTrees(b: Batch, s: State, j: nat)
    requires Owned(b, s) && Enabled(b, s, j, Return)
    ensures Owned(b, Next(b, s, j, Return))
  {
    hide CountActive, CountHolding;
    var s' := Next(b, s, j, Return);
    CountAfterMove(s.phase, j, s'.phase[j]);
    var back := s.phase[j].tree;
    assert s'.queue[|s.queue|] == back && back !in s.queue;
    assert forall t :: t in s'.queue <==> t == back || t in s.queue;
    forall t | 0 <= t < b.workers
      ensures t in s'.queue || exists i :: 0 <= i < |s'.phase| && s'.phase[i].Holds() && s'.phase[i].tree == t
    {
      if t !in s.queue && t != back {
        var i :| 0 <= i < |s.phase| && s.phase[i].Holds() && s.phase[i].tree == t;
        assert s'.phase[i] == s.phase[i];
      }
    }
  }

  /** Every other move leaves the queue alone and keeps the tree a job holds. */
  lemma SamePlacesKeepTrees(b: Batch, s: State, j: nat, m: Move)
    requires Owned(b, s) && Enabled(b, s, j, m) && !m.Borrow? && !m.Return?
    ensures Owned(b, Next(b, s, j, m))
  {
    hide ApplyAll, RestoreAll, AgreeOutside, Paths, MutationOutcome, ControlOutcome, CountActive, CountHolding;
    var s' := Next(b, s, j, m);
    if m.Collect? {
      return;
    }
    CountAfterMove(s.phase, j, s'.phase[j]);
    SamePlaces(b, s, j, s'.phase[j], s');
  }

  lemma SamePlaces(b: Batch, s: State, j: nat, now: Phase, s': State)
    requires Owned(b, s) && j < |s.phase|
    requires s'.queue == s.queue && |s'.files| == |s.files| && s'.phase == s.phase[j := now]
    requires now.Holds() == s.phase[j].Holds() && (now.Holds() ==> now.tree == s.phase[j].tree)
    requires CountHolding(s'.phase) == CountHolding(s.phase) && CountActive(s'.phase) <= b.workers
    ensures Owned(b, s')
  {
    hide CountActive, CountHolding;
    forall t | 0 <= t < b.workers && t !in s.queue
      ensures exists i :: 0 <= i < |s'.phase| && s'.phase[i].Holds() && s'.phase[i].tree == t
    {
      var i :| 0 <= i < |s.phase| && s.phase[i].Holds() && s.phase[i].tree == t;
      assert s'.phase[i].Holds() && s'.phase[i].tree == t;
    }
  }

  // -- What the suites saw -----------------------------------------------------------------------

  /** Some job's future holds an exception: its tree may be left in any state. */
  ghost predicate Spoiled(s: State) {
    exists j :: 0 <= j < |s.phase| && s.phase[j].Failed()
  }

  /** `files` is the pristine tree with exactly job `j`'s edits made, nothing else, in files of plain text. */
  ghost predicate OwnEditsOnly(b: Batch, j: nat, files: Files)
    requires j < |b.jobs|
  {
    match b.jobs[j]
    case Control(_) => files == b.pristine
    case Mutation(_, edits) =>
      MutateEditsLaws.Carries(b.pristine, edits, files) && forall p :: p in Paths(edits) ==> PlainText(b.pristine, p)
  }

  /** The verdict was read from a suite that ran on exactly job `j`'s own tree. */
  ghost predicate Earned(b: Batch, s: State, j: nat, outcome: Outcome)
    requires j < |b.jobs|
  {
    && j in s.sightings && OwnEditsOnly(b, j, s.sightings[j].files)
    && match b.jobs[j]
       case Control(name) => ControlOutcome(name, s.sightings[j].run) == Ok(outcome)
       case Mutation(name, _) =>
         exists digests :: MutationOutcome(name, s.sightings[j].run, digests) == Ok(outcome)
  }

  ghost predicate AppliedTo(pristine: Files, edits: seq<Edit>, landed: seq<Applied>, now: Files) {
    exists w: Weather :: ApplyAll(pristine, edits, w.landing, w.unwinding) == (now, Ok(landed))
  }

  /** Where job `j` is, its tree is what its own edits make of the pristine one. */
  ghost predicate Clean(b: Batch, s: State, j: nat)
    requires j < |b.jobs|
  {
    j < |s.phase| &&
    match s.phase[j]
    case Queued => true
    case Taken => true
    case Holding(t) => t < |s.files| && s.files[t] == b.pristine
    case Landed(t, landed) =>
      t < |s.files| && b.jobs[j].Mutation? && AppliedTo(b.pristine, b.jobs[j].edits, landed, s.files[t])
    case Tested(t, landed, run) =>
      && t < |s.files| && j in s.sightings && s.sightings[j].run == run
      && (if b.jobs[j].Control? then s.sightings[j].files == b.pristine && s.files[t] == b.pristine
          else && AppliedTo(b.pristine, b.jobs[j].edits, landed, s.sightings[j].files)
               && AgreeOutside(Paths(b.jobs[j].edits), s.sightings[j].files, s.files[t]))
    case Finished(t, Ok(outcome)) => t < |s.files| && s.files[t] == b.pristine && Earned(b, s, j, outcome)
    case Resolved(Ok(outcome)) => Earned(b, s, j, outcome)
    case _ => true
  }

  /** Unless some job failed, every tree on the queue is pristine and every job's own tree is its own. */
  ghost predicate Sound(b: Batch, s: State) {
    Spoiled(s) || (
      && (forall t :: t in s.queue ==> t < |s.files| && s.files[t] == b.pristine)
      && forall j :: 0 <= j < |b.jobs| ==> Clean(b, s, j))
  }

  lemma StaysSpoiled(b: Batch, s: State, j: nat, m: Move)
    requires Enabled(b, s, j, m) && Spoiled(s)
    ensures Spoiled(Next(b, s, j, m))
  {
    hide ApplyAll, RestoreAll, AgreeOutside, Paths, MutationOutcome, ControlOutcome, CountActive;
    var i :| 0 <= i < |s.phase| && s.phase[i].Failed();
    assert Next(b, s, j, m).phase[i].Failed();
  }

  /** A move of one job leaves every other job's tree, sighting and phase alone. */
  lemma OthersStayClean(b: Batch, s: State, j: nat, m: Move, i: nat)
    requires Owned(b, s) && Enabled(b, s, j, m) && i < |b.jobs| && i != j && Clean(b, s, i)
    ensures Clean(b, Next(b, s, j, m), i)
  {
    hide ApplyAll, RestoreAll, AgreeOutside, Paths, MutationOutcome, ControlOutcome, CountActive, CountHolding,
         AppliedTo, MutateEditsLaws.Carries, OwnEditsOnly;
    var s' := Next(b, s, j, m);
    assert s'.phase[i] == s.phase[i];
    assert i in s'.sightings <==> i in s.sightings;
    assert i in s.sightings ==> s'.sightings[i] == s.sightings[i];
    if s.phase[i].Holds() && s.phase[j].Holds() {
      assert s.phase[i].tree != s.phase[j].tree;
    }
  }

  lemma QueueStaysClean(b: Batch, s: State, j: nat, m: Move)
    requires Owned(b, s) && Enabled(b, s, j, m) && !s.phase[j].Failed()
    requires forall t :: t in s.queue ==> t < |s.files| && s.files[t] == b.pristine
    requires Clean(b, s, j)
    ensures var s' := Next(b, s, j, m);
            forall t :: t in s'.queue ==> t < |s'.files| && s'.files[t] == b.pristine
  {
    hide ApplyAll, RestoreAll, AgreeOutside, Paths, MutationOutcome, ControlOutcome, CountActive, CountHolding,
         AppliedTo, Earned;
  }

  /** The moving job's own tree stays what it should be, or the job has failed. */
  lemma MoverStaysClean(b: Batch, s: State, j: nat, m: Move)
    requires Owned(b, s) && Enabled(b, s, j, m) && Clean(b, s, j)
    requires m.Borrow? ==> s.queue[0] < |s.files| && s.files[s.queue[0]] == b.pristine
    ensures Next(b, s, j, m).phase[j].Failed() || Clean(b, Next(b, s, j, m), j)
  {
    match m
    case Land(weather) => LandStaysClean(b, s, j, weather);
    case RunSuite(run, left) => SuiteStaysClean(b, s, j, run, left);
    case Restore(restoring) => RestoreStaysClean(b, s, j, restoring);
    case _ =>
      hide ApplyAll, RestoreAll, AgreeOutside, Paths, MutationOutcome, ControlOutcome, CountActive, CountHolding,
           AppliedTo, OwnEditsOnly;
  }

  lemma LandStaysClean(b: Batch, s: State, j: nat, weather: Weather)
    requires Owned(b, s) && Enabled(b, s, j, Land(weather)) && Clean(b, s, j)
    ensures Next(b, s, j, Land(weather)).phase[j].Failed() || Clean(b, Next(b, s, j, Land(weather)), j)
  {
    hide ApplyAll, CountActive, CountHolding;
    var (mutated, landed) := ApplyAll(b.pristine, b.jobs[j].edits, weather.landing, weather.unwinding);
    if landed.Ok? {
      assert AppliedTo(b.pristine, b.jobs[j].edits, landed.value, mutated);
    }
  }

  lemma SuiteStaysClean(b: Batch, s: State, j: nat, run: SuiteRun, left: Files)
    requires Owned(b, s) && Enabled(b, s, j, RunSuite(run, left)) && Clean(b, s, j)
    ensures Clean(b, Next(b, s, j, RunSuite(run, left)), j)
  {
    hide AppliedTo, CountActive, CountHolding;
    if b.jobs[j].Control? {
      assert Paths([]) == {};
      assert left == s.files[s.phase[j].tree];
    }
  }

  lemma RestoreStaysClean(b: Batch, s: State, j: nat, restoring: Faults)
    requires Owned(b, s) && Enabled(b, s, j, Restore(restoring)) && Clean(b, s, j)
    ensures Next(b, s, j, Restore(restoring)).phase[j].Failed() || Clean(b, Next(b, s, j, Restore(restoring)), j)
  {
    hide ApplyAll, RestoreAll, AgreeOutside, Paths, MutationOutcome, ControlOutcome, CountActive, CountHolding,
         MutateEditsLaws.Carries, PlainText;
    var Tested(t, landed, run) := s.phase[j];
    if b.jobs[j].Mutation? {
      var edits := b.jobs[j].edits;
      var w: Weather :| ApplyAll(b.pristine, edits, w.landing, w.unwinding) == (s.sightings[j].files, Ok(landed));
      OutcomeLeavesTree(b.pristine, edits, w.(restoring := restoring), s.files[t]);
      assert RestoreAll(s.files[t], landed, restoring).1.Ok? ==> OwnEditsOnly(b, j, s.sightings[j].files);
    }
  }

  lemma SoundPreserved(b: Batch, s: State, j: nat, m: Move)
    requires Owned(b, s) && Sound(b, s) && Enabled(b, s, j, m)
    ensures Sound(b, Next(b, s, j, m))
  {
    hide Enabled, Next, Clean, Owned;
    if Spoiled(s) {
      StaysSpoiled(b, s, j, m);
    } else {
      StillSound(b, s, j, m);
    }
  }

  lemma StillSound(b: Batch, s: State, j: nat, m: Move)
    requires Owned(b, s) && Sound(b, s) && !Spoiled(s) && Enabled(b, s, j, m)
    ensures Sound(b, Next(b, s, j, m))
  {
    hide Next, Clean, AgreeOutside, Paths, CountActive, CountHolding;
    var s' := Next(b, s, j, m);
    assert Clean(b, s, j);
    MoverStaysClean(b, s, j, m);
    QueueStaysClean(b, s, j, m);
    forall i | 0 <= i < |b.jobs| && i != j
      ensures Clean(b, s', i)
    {
      assert Clean(b, s, i);
      OthersStayClean(b, s, j, m, i);
    }
    SameJobs(b, s, j, m);
    if s'.phase[j].Failed() {
      assert Spoiled(s');
    }
  }

  lemma SameJobs(b: Batch, s: State, j: nat, m: Move)
    requires Enabled(b, s, j, m)
    ensures |Next(b, s, j, m).phase| == |s.phase| && |Next(b, s, j, m).files| == |s.files|
  {
    hide ApplyAll, RestoreAll, AgreeOutside, Paths, MutationOutcome, ControlOutcome, CountActive;
  }

  // -- What the main thread has collected --------------------------------------------------------

  /** The outcomes are those of the collected jobs, one each, in the order they were collected. */
  ghost predicate Recorded(b: Batch, s: State) {
    && |s.phase| == |b.jobs|
    && (forall i :: 0 <= i < |s.collected| ==> s.collected[i] < |s.phase| && s.phase[s.collected[i]].Resolved?)
    && (forall i, k :: 0 <= i < k < |s.collected| ==> s.collected[i] != s.collected[k])
    && (!s.aborted ==>
          && |s.outcomes| == |s.collected|
          && forall i :: 0 <= i < |s.collected| ==>
               Collected(b.jobs[s.collected[i]], s.phase[s.collected[i]].result) == Some(s.outcomes[i]))
  }

  lemma RecordedPreserved(b: Batch, s: State, j: nat, m: Move)
    requires Recorded(b, s) && Enabled(b, s, j, m)
    ensures Recorded(b, Next(b, s, j, m))
  {
    hide ApplyAll, RestoreAll, AgreeOutside, Paths, MutationOutcome, ControlOutcome, CountActive;
    var s' := Next(b, s, j, m);
    if m.Collect? {
      assert s'.phase == s.phase;
    } else {
      assert s'.collected == s.collected && s'.outcomes == s.outcomes && s'.aborted == s.aborted;
      assert forall i :: 0 <= i < |s.phase| && s.phase[i].Resolved? ==> s'.phase[i] == s.phase[i];
    }
  }

  // -- Whole runs --------------------------------------------------------------------------------

  /** The three invariants hold in every state of every run, under every interleaving and every fault. */
  lemma {:induction false} Invariants(b: Batch, run: seq<State>, n: nat)
    requires Behaviour(b, run) && n < |run|
    ensures Owned(b, run[n]) && Sound(b, run[n]) && Recorded(b, run[n])
  {
    hide Owned, Sound, Recorded, Enabled, Next;
    if n == 0 {
      StartsInvariant(b, run[0]);
    } else {
      Invariants(b, run, n - 1);
      assert Step(b, run[n - 1], run[n - 1 + 1]);
      var j, m :| Enabled(b, run[n - 1], j, m) && run[n] == Next(b, run[n - 1], j, m);
      OwnedPreserved(b, run[n - 1], j, m);
      SoundPreserved(b, run[n - 1], j, m);
      RecordedPreserved(b, run[n - 1], j, m);
    }
  }

  lemma StartsInvariant(b: Batch, s: State)
    requires Init(b, s)
    ensures Owned(b, s) && Sound(b, s) && Recorded(b, s)
  {
    OwnedInitially(b, s);
  }

  /** Jobs are started in the order they were submitted. */
  predicate StartedInOrder(s: State) {
    forall i, j :: 0 <= i < j < |s.phase| && s.phase[i].Queued? ==> s.phase[j].Queued?
  }

  lemma OrderPreserved(b: Batch, s: State, j: nat, m: Move)
    requires Enabled(b, s, j, m) && StartedInOrder(s)
    ensures StartedInOrder(Next(b, s, j, m))
  {
    var s' := Next(b, s, j, m);
    assert |s'.phase| == |s.phase| && forall i :: 0 <= i < |s.phase| && i != j ==> s'.phase[i] == s.phase[i];
    assert !s'.phase[j].Queued? && (m.Take? || !s.phase[j].Queued?);
    assert m.Take? ==> forall i :: 0 <= i < j ==> !s.phase[i].Queued?;
    hide Enabled, Next;
  }

  /** In every state of every run the jobs that have started are the first ones submitted. */
  lemma {:induction false} JobsStartInOrder(b: Batch, run: seq<State>, n: nat)
    requires Behaviour(b, run) && n < |run|
    ensures StartedInOrder(run[n])
  {
    hide Enabled, Next, StartedInOrder;
    if n == 0 {
      NoneStarted(b, run[0]);
    } else {
      JobsStartInOrder(b, run, n - 1);
      assert Step(b, run[n - 1], run[n - 1 + 1]);
      var j, m :| Enabled(b, run[n - 1], j, m) && run[n] == Next(b, run[n - 1], j, m);
      OrderPreserved(b, run[n - 1], j, m);
    }
  }

  lemma NoneStarted(b: Batch, s: State)
    requires Init(b, s)
    ensures StartedInOrder(s)
  {
  }

  /**
   Tree pool: in every reachable state each tree is on the queue or with exactly one job, their numbers
   add up, and a job waiting in `trees.get()` always finds the queue non-empty.
   */
  lemma TreesAreNeverShort(b: Batch, run: seq<State>, n: nat)
    requires Behaviour(b, run) && n < |run|
    ensures var s := run[n];
            && |s.queue| + CountHolding(s.phase) == b.workers
            && (forall t :: 0 <= t < b.workers ==>
                  (t !in s.queue <==>
                   exists j :: 0 <= j < |s.phase| && s.phase[j].Holds() && s.phase[j].tree == t))
            && (forall i, j :: 0 <= i < j < |s.phase| && s.phase[i].Holds() && s.phase[j].Holds() ==>
                  s.phase[i].tree != s.phase[j].tree)
            && (forall j :: 0 <= j < |s.phase| && s.phase[j].Taken? ==> Enabled(b, s, j, Borrow))
  {
    hide Sound, Recorded, CountActive, CountHolding;
    Invariants(b, run, n);
    HoldingIsActive(run[n].phase);
  }

  /** A tree on the queue that is not pristine means some job's future holds an exception. */
  lemma DirtyTreeMeansFailure(b: Batch, run: seq<State>, n: nat, t: nat)
    requires Behaviour(b, run) && n < |run|
    requires t in run[n].queue && t < |run[n].files| && run[n].files[t] != b.pristine
    ensures Spoiled(run[n])
  {
    hide Owned, Recorded, Clean;
    Invariants(b, run, n);
  }

  /** An exception in any future forces exit 2. */
  lemma FailureForcesTwo(b: Batch, s: State, checkoutMoved: bool)
    requires Recorded(b, s) && Terminal(s) && Spoiled(s)
    ensures ExitCode(s, checkoutMoved) == 2
  {
    var j :| 0 <= j < |s.phase| && s.phase[j].Failed();
    if !s.aborted {
      assert j in s.collected;
      var i :| 0 <= i < |s.collected| && s.collected[i] == j;
      assert s.outcomes[i].verdict == ERROR;
    }
  }

  /** Every job's outcome is in the report of a batch that did not abort, exactly once. */
  lemma EveryJobReportedOnce(b: Batch, s: State, j: nat)
    requires Recorded(b, s) && Terminal(s) && !s.aborted && j < |b.jobs|
    ensures exists i ::
              && 0 <= i < |s.outcomes| && s.collected[i] == j
              && Collected(b.jobs[j], s.phase[j].result) == Some(s.outcomes[i])
              && forall k :: 0 <= k < |s.collected| && s.collected[k] == j ==> k == i
  {
    assert j in s.collected;
    var i :| 0 <= i < |s.collected| && s.collected[i] == j;
    assert Collected(b.jobs[j], s.phase[j].result) == Some(s.outcomes[i]);
  }

  /**
   Whole-run safety. If the batch exits 0 or 1, then whatever the interleaving and wherever faults
   struck, every suite ran on the pristine tree with exactly its own job's edits made, no newline of the
   files changed besides (the control on the pristine tree itself), every verdict was read from that run, and every tree is pristine again.
   */
  lemma TrustworthyExit(b: Batch, run: seq<State>, checkoutMoved: bool)
    requires Behaviour(b, run) && Terminal(run[|run| - 1])
    requires ExitCode(run[|run| - 1], checkoutMoved) != 2
    ensures var s := run[|run| - 1];
            && |s.phase| == |b.jobs| && |s.files| == b.workers
            && (forall j :: 0 <= j < |b.jobs| ==>
                  && s.phase[j].Resolved? && s.phase[j].result.Ok?
                  && Earned(b, s, j, s.phase[j].result.value))
            && (forall t :: 0 <= t < b.workers ==> s.files[t] == b.pristine)
  {
    hide Earned;
    var n := |run| - 1;
    Invariants(b, run, n);
    if Spoiled(run[n]) {
      FailureForcesTwo(b, run[n], checkoutMoved);
    } else {
      forall j | 0 <= j < |b.jobs|
        ensures Earned(b, run[n], j, run[n].phase[j].result.value)
      {
        assert Clean(b, run[n], j);
      }
    }
  }

  /** The three moves a mutation's job makes on its tree are, end to end, the sequential `RunMutation`. */
  lemma MovesAreTheJob(b: Batch, s: State, j: nat, weather: Weather, suite: Suite)
    requires Enabled(b, s, j, Land(weather))
    requires var (run, left) := suite(Next(b, s, j, Land(weather)).files[s.phase[j].tree]);
             AgreeOutside(Paths(b.jobs[j].edits), Next(b, s, j, Land(weather)).files[s.phase[j].tree], left)
    ensures var t := s.phase[j].tree;
            var (after, result) := JobResult(s.files[t], b.jobs[j], weather, suite);
            var s1 := Next(b, s, j, Land(weather));
            if s1.phase[j].Failed() then s1.phase[j] == Finished(t, result) && s1.files[t] == after
            else
              var (run, left) := suite(s1.files[t]);
              && Enabled(b, s1, j, RunSuite(run, left))
              && var s2 := Next(b, s1, j, RunSuite(run, left));
                 && Enabled(b, s2, j, Restore(weather.restoring))
                 && var s3 := Next(b, s2, j, Restore(weather.restoring));
                    s3.phase[j] == Finished(t, result) && s3.files[t] == after
  {
    hide ApplyAll, RestoreAll, AgreeOutside, Paths, MutationOutcome, CountActive;
  }

  /** And the two moves a control's job makes are the sequential `RunControl`. */
  lemma MovesAreTheControl(b: Batch, s: State, j: nat, weather: Weather, suite: Suite)
    requires j < |b.jobs| && j < |s.phase| && b.jobs[j].Control? && s.phase[j].Holding? && s.phase[j].tree < |s.files|
    requires var before := s.files[s.phase[j].tree]; AgreeOutside({}, before, suite(before).1)
    ensures var t := s.phase[j].tree;
            var (after, result) := JobResult(s.files[t], b.jobs[j], weather, suite);
            var (run, left) := suite(s.files[t]);
            && after == s.files[t]
            && Enabled(b, s, j, RunSuite(run, left))
            && var s1 := Next(b, s, j, RunSuite(run, left));
               && Enabled(b, s1, j, Restore(weather.restoring))
               && var s2 := Next(b, s1, j, Restore(weather.restoring));
                  s2.phase[j] == Finished(t, result) && s2.files[t] == after
  {
    hide RestoreAll, ControlOutcome, CountActive;
    assert Paths([]) == {};
  }

  // -- What the exit code says -------------------------------------------------------------------

  /** The outcome of job `j` in a batch that did not abort. */
  function ReportOf(b: Batch, s: State, j: nat): Option<Outcome>
    requires j < |b.jobs| && |s.phase| == |b.jobs| && s.phase[j].Resolved?
  {
    Collected(b.jobs[j], s.phase[j].result)
  }

  lemma VerdictsByJob(b: Batch, s: State, verdict: Verdict)
    requires Recorded(b, s) && Terminal(s) && !s.aborted
    ensures Reported(s.outcomes, verdict) <==>
            exists j :: 0 <= j < |b.jobs| && ReportOf(b, s, j).Some? && ReportOf(b, s, j).value.verdict == verdict
  {
    if i :| 0 <= i < |s.outcomes| && s.outcomes[i].verdict == verdict {
      assert ReportOf(b, s, s.collected[i]) == Some(s.outcomes[i]);
    }
    if j :| 0 <= j < |b.jobs| && ReportOf(b, s, j).Some? && ReportOf(b, s, j).value.verdict == verdict {
      EveryJobReportedOnce(b, s, j);
    }
  }

  /** A control yields a control verdict or ERROR; a mutation never yields a control verdict. */
  lemma VerdictKinds(b: Batch, s: State, j: nat)
    requires j < |b.jobs| && |s.phase| == |b.jobs| && s.phase[j].Resolved? && s.phase[j].result.Ok?
    requires Earned(b, s, j, s.phase[j].result.value)
    ensures var v := s.phase[j].result.value.verdict;
            if b.jobs[j].Control? then v in {CONTROL_GREEN, CONTROL_RED, ERROR}
            else v in {KILLED, SURVIVED, HUNG, ERROR}
  {
    hide Summarise, RecognisedSummary, HungSummary;
  }

  /** The suite of job `j` ran to a verdict: a control's is green, a mutation's is any but an error. */
  predicate RanWell(b: Batch, s: State, j: nat)
    requires j < |b.jobs|
  {
    && j in s.sightings
    && var run := s.sightings[j].run;
       if b.jobs[j].Control? then Conclusive(run) && run.returncode == 0 else run.Hung? || Conclusive(run)
  }

  /** No test held the mutation of job `j`: the suite hung, or it came out green. */
  predicate WasNotHeld(b: Batch, s: State, j: nat)
    requires j < |b.jobs|
  {
    && b.jobs[j].Mutation? && j in s.sightings
    && (s.sightings[j].run.Hung? || (s.sightings[j].run.Completed? && s.sightings[j].run.returncode == 0))
  }

  /** Every job came back with an outcome, and every suite ran to a verdict that can be trusted. */
  predicate Trusted(b: Batch, s: State) {
    && |s.phase| == |b.jobs|
    && forall j :: 0 <= j < |b.jobs| ==> s.phase[j].Resolved? && s.phase[j].result.Ok? && RanWell(b, s, j)
  }

  predicate SomeNotHeld(b: Batch, s: State) {
    exists j :: 0 <= j < |b.jobs| && WasNotHeld(b, s, j)
  }

  /** The verdict of an earned outcome, read off the run the suite made. */
  lemma EarnedVerdict(b: Batch, s: State, j: nat)
    requires j < |b.jobs| && |s.phase| == |b.jobs| && s.phase[j].Resolved? && s.phase[j].result.Ok?
    requires Earned(b, s, j, s.phase[j].result.value)
    ensures var v := s.phase[j].result.value.verdict;
            && (RanWell(b, s, j) <==> v != CONTROL_RED && v != ERROR)
            && (RanWell(b, s, j) ==> (WasNotHeld(b, s, j) <==> v == SURVIVED || v == HUNG))
  {
    var o, run := s.phase[j].result.value, s.sightings[j].run;
    hide ControlOutcome, MutationOutcome, OwnEditsOnly, Concludes;
    match b.jobs[j]
    case Control(name) => ControlVerdicts(name, run);
    case Mutation(name, _) =>
      var digests :| MutationOutcome(name, run, digests) == Ok(o);
      MutationVerdict(name, run, digests);
  }

  lemma AllEarned(b: Batch, run: seq<State>, j: nat)
    requires Behaviour(b, run) && Terminal(run[|run| - 1]) && !Spoiled(run[|run| - 1]) && j < |b.jobs|
    ensures var s := run[|run| - 1];
            && |s.phase| == |b.jobs| && s.phase[j].Resolved? && s.phase[j].result.Ok?
            && Earned(b, s, j, s.phase[j].result.value) && Recorded(b, s)
  {
    hide Earned, Init, Step;
    Invariants(b, run, |run| - 1);
    var s := run[|run| - 1];
    hide Owned;
    assert !s.phase[j].Failed();
    assert Clean(b, s, j);
  }

  /**
   When each exit happens, from what the suites did. A run that was not aborted, over a checkout that did
   not move, exits 0 exactly when every suite can be trusted and every mutation's completed red, and 1
   exactly when every suite can be trusted and some mutation's hung or came out green. Every other
   terminal run exits 2.
   */
  lemma ExitMeans(b: Batch, run: seq<State>, checkoutMoved: bool)
    requires Behaviour(b, run) && Terminal(run[|run| - 1])
    ensures var s := run[|run| - 1];
            var trusted := !s.aborted && !checkoutMoved && Trusted(b, s);
            var exit := ExitCode(s, checkoutMoved);
            && (exit == 0 <==> trusted && !SomeNotHeld(b, s))
            && (exit == 1 <==> trusted && SomeNotHeld(b, s))
            && (exit == 2 <==> !trusted)
  {
    var s := run[|run| - 1];
    hide Behaviour, Earned, RanWell, WasNotHeld;
    if !s.aborted && !checkoutMoved {
      if Spoiled(s) {
        SpoiledIsNotTrusted(b, run);
        FailureForcesTwo(b, s, checkoutMoved);
      } else {
        JudgedByJob(b, run);
      }
    }
  }

  lemma SpoiledIsNotTrusted(b: Batch, run: seq<State>)
    requires Behaviour(b, run) && Terminal(run[|run| - 1]) && Spoiled(run[|run| - 1])
    ensures Recorded(b, run[|run| - 1]) && !Trusted(b, run[|run| - 1])
  {
    hide RanWell, Init, Step;
    Invariants(b, run, |run| - 1);
  }

  /** What is reported, and what the suites did, job by job. */
  lemma JudgedByJob(b: Batch, run: seq<State>)
    requires Behaviour(b, run) && Terminal(run[|run| - 1]) && !Spoiled(run[|run| - 1]) && !run[|run| - 1].aborted
    ensures var s := run[|run| - 1];
            && (Trusted(b, s) <==> !Reported(s.outcomes, CONTROL_RED) && !Reported(s.outcomes, ERROR))
            && (Trusted(b, s) ==>
                  (SomeNotHeld(b, s) <==> Reported(s.outcomes, SURVIVED) || Reported(s.outcomes, HUNG)))
  {
    var s := run[|run| - 1];
    var last: nat := |run| - 1;
    hide *;
    Invariants(b, run, last);
    forall j: nat | j < |b.jobs|
      ensures |s.phase| == |b.jobs| && s.phase[j].Resolved? && s.phase[j].result.Ok?
      ensures var v := s.phase[j].result.value.verdict;
              && (RanWell(b, s, j) <==> v != CONTROL_RED && v != ERROR)
              && (RanWell(b, s, j) ==> (WasNotHeld(b, s, j) <==> v == SURVIVED || v == HUNG))
    {
      AllEarned(b, run, j);
      EarnedVerdict(b, s, j);
    }
    SamePopulation(b, s);
    ReportsFollow(b, s);
  }

  lemma SamePopulation(b: Batch, s: State)
    requires Recorded(b, s)
    ensures |s.phase| == |b.jobs|
  {
  }

  lemma ReportsFollow(b: Batch, s: State)
    requires Recorded(b, s) && Terminal(s) && !s.aborted && |s.phase| == |b.jobs|
    requires forall j: nat :: j < |b.jobs| ==>
               && s.phase[j].Resolved? && s.phase[j].result.Ok?
               && var v := s.phase[j].result.value.verdict;
                  && (RanWell(b, s, j) <==> v != CONTROL_RED && v != ERROR)
                  && (RanWell(b, s, j) ==> (WasNotHeld(b, s, j) <==> v == SURVIVED || v == HUNG))
    ensures Trusted(b, s) <==> !Reported(s.outcomes, CONTROL_RED) && !Reported(s.outcomes, ERROR)
    ensures Trusted(b, s) ==>
              (SomeNotHeld(b, s) <==> Reported(s.outcomes, SURVIVED) || Reported(s.outcomes, HUNG))
  {
    hide RanWell, WasNotHeld, Recorded, Terminal, Reported;
    ReportedIff(b, s, CONTROL_RED);
    ReportedIff(b, s, ERROR);
    ReportedIff(b, s, SURVIVED);
    ReportedIff(b, s, HUNG);
  }

  lemma ReportedIff(b: Batch, s: State, verdict: Verdict)
    requires Recorded(b, s) && Terminal(s) && !s.aborted && |s.phase| == |b.jobs|
    requires forall j: nat :: j < |b.jobs| ==> s.phase[j].Resolved? && s.phase[j].result.Ok?
    ensures Reported(s.outcomes, verdict)
            <==> exists j: nat :: j < |b.jobs| && s.phase[j].result.value.verdict == verdict
  {
    VerdictsByJob(b, s, verdict);
    forall j: nat | j < |b.jobs|
      ensures ReportOf(b, s, j) == Some(s.phase[j].result.value)
    {
    }
    hide ReportOf, Recorded, Terminal, Reported;
  }

  /**
   Exit 0 means the suite went red for every mutation, on exactly its own tree, and green for every
   control, on the pristine tree, each with a summary line pytest itself printed.
   */
  lemma ZeroMeansAllKilled(b: Batch, run: seq<State>, checkoutMoved: bool, j: nat)
    requires Behaviour(b, run) && Terminal(run[|run| - 1])
    requires ExitCode(run[|run| - 1], checkoutMoved) == 0 && j < |b.jobs|
    ensures var s := run[|run| - 1];
            && j in s.sightings && OwnEditsOnly(b, j, s.sightings[j].files)
            && Conclusive(s.sightings[j].run)
            && (b.jobs[j].Control? <==> s.sightings[j].run.returncode == 0)
  {
    hide Earned, RanWell, Init, Step;
    TrustworthyExit(b, run, checkoutMoved);
    ExitMeans(b, run, checkoutMoved);
    EarnedSight(b, run[|run| - 1], j);
    hide Trusted, SomeNotHeld, WasNotHeld, Conclusive, OwnEditsOnly;
    AllHeld(b, run[|run| - 1], j);
  }

  lemma EarnedSight(b: Batch, s: State, j: nat)
    requires j < |b.jobs| && |s.phase| == |b.jobs| && s.phase[j].Resolved? && s.phase[j].result.Ok?
    requires Earned(b, s, j, s.phase[j].result.value)
    ensures j in s.sightings && OwnEditsOnly(b, j, s.sightings[j].files)
  {
    hide OwnEditsOnly, MutationOutcome, ControlOutcome;
  }

  lemma AllHeld(b: Batch, s: State, j: nat)
    requires Trusted(b, s) && !SomeNotHeld(b, s) && j < |b.jobs|
    ensures j in s.sightings && Conclusive(s.sightings[j].run)
    ensures b.jobs[j].Control? <==> s.sightings[j].run.returncode == 0
  {
    hide Conclusive, Concludes;
    assert RanWell(b, s, j) && !WasNotHeld(b, s, j);
    assert Conclusive(s.sightings[j].run) ==> s.sightings[j].run.Completed? by {
      RanToItsEnd(s.sightings[j].run);
    }
  }

  lemma RanToItsEnd(run: SuiteRun)
    ensures Conclusive(run) ==> run.Completed?
  {
  }

  // -- Termination -------------------------------------------------------------------------------

  function Remaining(p: Phase): nat {
    match p
    case Queued => 7
    case Taken => 6
    case Holding(_) => 5
    case Landed(_, _) => 4
    case Tested(_, _, _) => 3
    case Finished(_, _) => 2
    case Resolved(_) => 0
  }

  function TotalRemaining(phase: seq<Phase>): nat {
    if phase == [] then 0 else Remaining(phase[0]) + TotalRemaining(phase[1..])
  }

  function Uncollected(s: State): set<nat> {
    set j | 0 <= j < |s.phase| && j !in s.collected
  }

  /** Moves left in the batch: every step uses up at least one. */
  function MovesLeft(s: State): nat {
    TotalRemaining(s.phase) + (if s.aborted then 0 else |Uncollected(s)| + 1)
  }

  lemma {:induction false} TotalAfterMove(phase: seq<Phase>, j: nat, now: Phase)
    requires j < |phase|
    ensures TotalRemaining(phase[j := now]) + Remaining(phase[j]) == TotalRemaining(phase) + Remaining(now)
  {
    if j == 0 {
      assert phase[0 := now][1..] == phase[1..];
    } else {
      TotalAfterMove(phase[1..], j - 1, now);
      assert phase[j := now][1..] == phase[1..][j - 1 := now];
    }
  }

  /** Every step of every schedule uses up part of a finite budget. */
  lemma EveryStepUsesAMove(b: Batch, s: State, j: nat, m: Move)
    requires Enabled(b, s, j, m)
    ensures MovesLeft(Next(b, s, j, m)) < MovesLeft(s)
  {
    var s' := Next(b, s, j, m);
    OneStepFurther(b, s, j, m);
    hide Enabled, Next, Remaining, TotalRemaining;
    TotalAfterMove(s.phase, j, s'.phase[j]);
    if m.Collect? {
      assert Uncollected(s') == Uncollected(s) - {j};
      assert j in Uncollected(s);
    } else {
      assert Uncollected(s') == Uncollected(s);
    }
  }

  /** A job's move brings it nearer its end; collecting it is the main thread's own step. */
  lemma OneStepFurther(b: Batch, s: State, j: nat, m: Move)
    requires Enabled(b, s, j, m)
    ensures var s' := Next(b, s, j, m);
            && j < |s.phase| == |s'.phase| && s'.phase == s.phase[j := s'.phase[j]]
            && (if m.Collect? then s'.phase == s.phase && s'.collected == s.collected + [j] && j !in s.collected
                                   && !s.aborted
                else Remaining(s'.phase[j]) < Remaining(s.phase[j]) && s'.collected == s.collected
                     && s'.aborted == s.aborted)
  {
    hide ApplyAll, RestoreAll, AgreeOutside, Paths, MutationOutcome, ControlOutcome, CountActive;
  }

  /** So no run is longer than the budget its first state has: every schedule terminates. */
  lemma {:induction false} RunsAreBounded(b: Batch, run: seq<State>, n: nat)
    requires Behaviour(b, run) && n < |run|
    ensures n + MovesLeft(run[n]) <= MovesLeft(run[0])
  {
    if n > 0 {
      hide Owned, Sound, Recorded, Enabled, Next, MovesLeft;
      RunsAreBounded(b, run, n - 1);
      assert Step(b, run[n - 1], run[n - 1 + 1]);
      var j, m :| Enabled(b, run[n - 1], j, m) && run[n] == Next(b, run[n - 1], j, m);
      EveryStepUsesAMove(b, run[n - 1], j, m);
    }
  }

  /** And no run is stuck before it is over. */
  lemma NeverStuck(b: Batch, run: seq<State>, n: nat)
    requires Behaviour(b, run) && n < |run| && !Terminal(run[n])
    ensures exists j, m :: Enabled(b, run[n], j, m)
  {
    hide Sound, CountHolding;
    var s := run[n];
    Invariants(b, run, n);
    TreesAreNeverShort(b, run, n);
    if j :| 0 <= j < |s.phase| && s.phase[j].Active() {
      MoveOf(b, s, j);
    } else if j :| 0 <= j < |s.phase| && s.phase[j].Queued? {
      NoneActive(s.phase);
      var first := FirstQueued(s.phase, j);
      assert Enabled(b, s, first, Take);
    } else {
      var j :| 0 <= j < |s.phase| && j !in s.collected;
      assert Enabled(b, s, j, Collect(false));
    }
  }

  lemma MoveOf(b: Batch, s: State, j: nat)
    requires Owned(b, s) && j < |s.phase| && s.phase[j].Active()
    requires s.phase[j].Taken? ==> Enabled(b, s, j, Borrow)
    ensures exists m :: Enabled(b, s, j, m)
  {
    hide CountActive, CountHolding, ApplyAll, RestoreAll, Paths;
    match s.phase[j] {
      case Taken => assert Enabled(b, s, j, Borrow);
      case Holding(t) =>
        if b.jobs[j].Control? {
          assert Enabled(b, s, j, RunSuite(Hung("", 0, ""), s.files[t]));
        } else {
          assert Enabled(b, s, j, Land(Weather(NO_FAULTS, NO_FAULTS, NO_FAULTS)));
        }
      case Landed(t, _) =>
        assert Enabled(b, s, j, RunSuite(Hung("", 0, ""), s.files[t]));
      case Tested(_, _, _) => assert Enabled(b, s, j, Restore(NO_FAULTS));
      case Finished(_, _) => assert Enabled(b, s, j, Return);
    }
  }

  lemma {:induction false} NoneActive(phase: seq<Phase>)
    requires forall j :: 0 <= j < |phase| ==> !phase[j].Active()
    ensures CountActive(phase) == 0
  {
    if phase != [] {
      NoneActive(phase[1..]);
    }
  }

  lemma {:induction false} FirstQueued(phase: seq<Phase>, j: nat) returns (first: nat)
    requires j < |phase| && phase[j].Queued?
    ensures first <= j && phase[first].Queued? && forall i :: 0 <= i < first ==> !phase[i].Queued?
  {
    if i :| 0 <= i < j && phase[i].Queued? {
      first := FirstQueued(phase, i);
    } else {
      first := j;
    }
  }
}
