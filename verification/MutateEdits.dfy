/**
 How a mutation lands in a source tree and how it is undone (tools/mutate_edits.py).

 A tree is a map from path to file content that the methods of `Tree` overwrite. Every write may be
 hit by a fault before or after it takes effect (`Fault`), chosen by the environment; writes
 themselves are atomic. `read_text` translates newlines and `write_text` does not, so carriage
 returns are modelled rather than assumed away: they are exactly what breaks a restore.
 */
module MutateEdits {
  import opened PyText

  type Path = string

  /** What a file holds. `NotUtf8` stands for bytes `read_text` cannot decode. */
  datatype Content = Utf8(text: string) | NotUtf8(bytes: seq<nat>)

  type Files = map<Path, Content>

  /** The SHA-256 of a file's bytes, taken to be injective. */
  datatype Digest = Digest(of: Content)

  datatype Edit = Edit(path: Path, old_: string, new_: string)

  datatype Mutation = Control(name: string) | Mutation(name: string, edits: seq<Edit>)

  datatype Applied = Applied(target: Path, original: string, before: Digest, mutated: Digest)

  datatype Reason =
    | NoSuchFile
    | NotText
    | AnchorMatched(times: nat)
    | Unchanged
    | ReplacementAbsent
    | RestoreFailed
    | ControlCarriesNoFile
    | SuiteNotStarted

  /** A `HarnessError`, or any other exception. */
  datatype Failure = Harness(why: Reason) | Unexpected

  /** Where an exception the harness does not anticipate strikes one write, if at all. */
  datatype Fault = Calm | BeforeWrite | AfterWrite

  type Faults = nat -> Fault

  const NO_FAULTS: Faults := (i: nat) => Calm

  function Paths(edits: seq<Edit>): set<Path> {
    set e | e in edits :: e.path
  }

  ghost predicate AgreeOutside(paths: set<Path>, a: Files, b: Files) {
    forall p :: p !in paths ==> (p in a <==> p in b) && (p in a ==> a[p] == b[p])
  }

  /** The file a path names holds text without a carriage return, so reading it changes nothing. */
  predicate PlainText(files: Files, path: Path) {
    path in files && files[path].Utf8? && !HasCR(files[path].text)
  }

  // -- The specification of each operation -------------------------------------------------------

  /** `_apply_edit`: the tree afterwards, and the record of what landed or the exception. */
  function Landing(files: Files, edit: Edit, fault: Fault): (Files, Result<Applied, Failure>) {
    if fault == BeforeWrite then (files, Err(Unexpected))
    else if edit.path !in files then (files, Err(Harness(NoSuchFile)))
    else if files[edit.path].NotUtf8? then (files, Err(Harness(NotText)))
    else
      var original := Translate(files[edit.path].text);
      if Count(original, edit.old_) != 1 then
        (files, Err(Harness(AnchorMatched(Count(original, edit.old_)))))
      else
        var after := files[edit.path := Utf8(ReplaceFirst(original, edit.old_, edit.new_))];
        var before, mutated := Digest(files[edit.path]), Digest(after[edit.path]);
        if fault == AfterWrite then (after, Err(Unexpected))
        else if mutated == before then (after, Err(Harness(Unchanged)))
        else if !Contains(Translate(after[edit.path].text), edit.new_) then
          (after, Err(Harness(ReplacementAbsent)))
        else (after, Ok(Applied(edit.path, original, before, mutated)))
  }

  /** `_restore`. */
  function PutBack(files: Files, applied: Applied, fault: Fault): (Files, Result<Digest, Failure>) {
    var after := files[applied.target := Utf8(applied.original)];
    if fault == BeforeWrite then (files, Err(Unexpected))
    else if fault == AfterWrite then (after, Err(Unexpected))
    else if Digest(after[applied.target]) != applied.before then (after, Err(Harness(RestoreFailed)))
    else (after, Ok(Digest(after[applied.target])))
  }

  /** The tree after the first `n` edits, what landed, and the failure that stopped the walk. */
  datatype Progress = Progress(files: Files, landed: seq<Applied>, failure: Option<Failure>)

  function LandFirst(files: Files, edits: seq<Edit>, faults: Faults, n: nat): (r: Progress)
    requires n <= |edits|
    ensures |r.landed| <= n
    ensures r.failure.None? ==> |r.landed| == n
  {
    if n == 0 then Progress(files, [], None)
    else
      var sofar := LandFirst(files, edits, faults, n - 1);
      if sofar.failure.Some? then sofar
      else
        var (after, r) := Landing(sofar.files, edits[n - 1], faults(n - 1));
        match r
        case Ok(applied) => Progress(after, sofar.landed + [applied], None)
        case Err(f) => Progress(after, sofar.landed, Some(f))
  }

  /** The rollback inside `_apply`: every landed edit is put back, last first, errors suppressed. */
  function Unwind(files: Files, landed: seq<Applied>, faults: Faults): Files
    decreases |landed|
  {
    if landed == [] then files
    else
      var last := |landed| - 1;
      Unwind(PutBack(files, landed[last], faults(last)).0, landed[..last], faults)
  }

  /** `_apply` on a mutation's edits. */
  function ApplyAll(files: Files, edits: seq<Edit>, landing: Faults, unwinding: Faults)
    : (Files, Result<seq<Applied>, Failure>)
  {
    var p := LandFirst(files, edits, landing, |edits|);
    match p.failure
    case None => (p.files, Ok(p.landed))
    case Some(f) => (Unwind(p.files, p.landed, unwinding), Err(f))
  }

  datatype Trail = Before | Mutated | Restored

  function TrailName(t: Trail): (r: string)
    ensures '#' !in r
  {
    match t
    case Before => "before"
    case Mutated => "mutated"
    case Restored => "restored"
  }

  /** The digest report's key: path, apply-order index and which of the three digests it is. */
  function TrailKey(path: Path, index: nat, t: Trail): string {
    path + "#" + (Decimal(index) + ":" + TrailName(t))
  }

  type Trails = map<string, Digest>

  function TrailOf(applied: Applied, index: nat, restored: Digest): Trails {
    map[TrailKey(applied.target, index, Before) := applied.before,
        TrailKey(applied.target, index, Mutated) := applied.mutated,
        TrailKey(applied.target, index, Restored) := restored]
  }

  /** `_restore_all`: last edit first, stopping at the first restore that raises. */
  function RestoreAll(files: Files, landed: seq<Applied>, faults: Faults): (Files, Result<Trails, Failure>)
    decreases |landed|
  {
    if landed == [] then (files, Ok(map[]))
    else
      var last := |landed| - 1;
      var (after, r) := PutBack(files, landed[last], faults(last));
      match r
      case Err(f) => (after, Err(f))
      case Ok(digest) =>
        var (restored, rest) := RestoreAll(after, landed[..last], faults);
        match rest
        case Err(f) => (restored, Err(f))
        case Ok(trails) => (restored, Ok(TrailOf(landed[last], last, digest) + trails))
  }

  // -- The checkout itself -----------------------------------------------------------------------

  function TargetsOf(m: Mutation): set<Path> {
    if m.Control? then {} else Paths(m.edits)
  }

  /** Some edit of the mutation names the path. */
  predicate Targeted(m: Mutation, path: Path) {
    m.Mutation? && exists k :: 0 <= k < |m.edits| && m.edits[k].path == path
  }

  /** The digest of a path in the checkout; `None` stands for a path that is no file. */
  function DigestAt(files: Files, path: Path): Option<Digest> {
    if path in files then Some(Digest(files[path])) else None
  }

  /** `_digest_targets`: every path the run intends to mutate, as it is in the checkout. */
  method DigestTargets(files: Files, mutations: seq<Mutation>) returns (digests: map<Path, Option<Digest>>)
    ensures forall p :: p in digests <==> exists i :: 0 <= i < |mutations| && Targeted(mutations[i], p)
    ensures forall p :: p in digests ==> digests[p] == DigestAt(files, p)
  {
    digests := map[];
    for n := 0 to |mutations|
      invariant forall p :: p in digests <==> exists i :: 0 <= i < n && Targeted(mutations[i], p)
      invariant forall p :: p in digests ==> digests[p] == DigestAt(files, p)
    {
      assert forall p :: p in TargetsOf(mutations[n]) <==> Targeted(mutations[n], p);
      digests := digests + map p | p in TargetsOf(mutations[n]) :: DigestAt(files, p);
    }
  }

  /** `_changed_targets`: the paths it reports. */
  function ChangedTargets(before: map<Path, Option<Digest>>, after: map<Path, Option<Digest>>): set<Path> {
    set p | p in before && before[p] != (if p in after then after[p] else None)
  }

  // -- The operations ----------------------------------------------------------------------------

  /** One isolated copy of the checkout. */
  class Tree {
    var files: Files

    constructor (files: Files)
      ensures this.files == files
    {
      this.files := files;
    }

    method ApplyEdit(edit: Edit, fault: Fault) returns (r: Result<Applied, Failure>)
      modifies this
      ensures (files, r) == Landing(old(files), edit, fault)
    {
      if fault == BeforeWrite {
        return Err(Unexpected);
      }
      if edit.path !in files {
        return Err(Harness(NoSuchFile));
      }
      if files[edit.path].NotUtf8? {
        return Err(Harness(NotText));
      }
      var original := Translate(files[edit.path].text);
      var occurrences := Count(original, edit.old_);
      if occurrences != 1 {
        return Err(Harness(AnchorMatched(occurrences)));
      }
      var before := Digest(files[edit.path]);
      files := files[edit.path := Utf8(ReplaceFirst(original, edit.old_, edit.new_))];
      if fault == AfterWrite {
        return Err(Unexpected);
      }
      var mutated := Digest(files[edit.path]);
      if mutated == before {
        return Err(Harness(Unchanged));
      }
      if !Contains(Translate(files[edit.path].text), edit.new_) {
        return Err(Harness(ReplacementAbsent));
      }
      return Ok(Applied(edit.path, original, before, mutated));
    }

    method Restore(applied: Applied, fault: Fault) returns (r: Result<Digest, Failure>)
      modifies this
      ensures (files, r) == PutBack(old(files), applied, fault)
    {
      if fault == BeforeWrite {
        return Err(Unexpected);
      }
      files := files[applied.target := Utf8(applied.original)];
      if fault == AfterWrite {
        return Err(Unexpected);
      }
      var after := Digest(files[applied.target]);
      if after != applied.before {
        return Err(Harness(RestoreFailed));
      }
      return Ok(after);
    }

    method Apply(edits: seq<Edit>, landing: Faults, unwinding: Faults)
      returns (r: Result<seq<Applied>, Failure>)
      modifies this
      ensures (files, r) == ApplyAll(old(files), edits, landing, unwinding)
    {
      hide Landing, Unwind;
      ghost var start := files;
      var landed: seq<Applied> := [];
      var i := 0;
      while i < |edits|
        invariant 0 <= i <= |edits|
        invariant LandFirst(start, edits, landing, i) == Progress(files, landed, None)
      {
        var step := ApplyEdit(edits[i], landing(i));
        i := i + 1;
        if step.Err? {
          StoppedEarly(start, edits, landing, i);
          RollBack(landed, unwinding);
          return Err(step.error);
        }
        landed := landed + [step.value];
      }
      return Ok(landed);
    }

    method RollBack(landed: seq<Applied>, unwinding: Faults)
      modifies this
      ensures files == Unwind(old(files), landed, unwinding)
    {
      ghost var start := files;
      assert landed[..|landed|] == landed;
      var i := |landed|;
      while i > 0
        invariant 0 <= i <= |landed|
        invariant Unwind(start, landed, unwinding) == Unwind(files, landed[..i], unwinding)
      {
        i := i - 1;
        assert landed[..i + 1][..i] == landed[..i];
        var suppressed := Restore(landed[i], unwinding(i));
      }
    }

    method RestoreEvery(landed: seq<Applied>, faults: Faults) returns (r: Result<Trails, Failure>)
      modifies this
      ensures (files, r) == RestoreAll(old(files), landed, faults)
    {
      hide PutBack, TrailOf;
      ghost var start := files;
      var digests: Trails := map[];
      assert landed[..|landed|] == landed;
      ghost var whole := RestoreAll(start, landed, faults).1;
      assert whole.Ok? ==> digests + whole.value == whole.value;
      var i := |landed|;
      while i > 0
        invariant 0 <= i <= |landed|
        invariant var rest := RestoreAll(files, landed[..i], faults);
                  RestoreAll(start, landed, faults)
                  == (rest.0, if rest.1.Err? then rest.1 else Ok(digests + rest.1.value))
      {
        i := i - 1;
        assert landed[..i + 1][..i] == landed[..i];
        var restored := Restore(landed[i], faults(i));
        if restored.Err? {
          return Err(restored.error);
        }
        ghost var rest := RestoreAll(files, landed[..i], faults).1;
        assert rest.Ok? ==> digests + (TrailOf(landed[i], i, restored.value) + rest.value)
                            == digests + TrailOf(landed[i], i, restored.value) + rest.value;
        digests := digests + TrailOf(landed[i], i, restored.value);
      }
      assert digests + map[] == digests;
      return Ok(digests);
    }
  }

  lemma {:induction false} StoppedEarly(files: Files, edits: seq<Edit>, faults: Faults, n: nat)
    requires n <= |edits| && LandFirst(files, edits, faults, n).failure.Some?
    ensures LandFirst(files, edits, faults, |edits|) == LandFirst(files, edits, faults, n)
    decreases |edits| - n
  {
    if n < |edits| {
      StoppedEarly(files, edits, faults, n + 1);
    }
  }
}
