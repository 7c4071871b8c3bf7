/** The issue a sweep files, and the two patterns that read its lines back (tools/sweep_filing.py). */
module SweepFiling {
  import opened PyText
  import opened Delimiters
  import opened SweepMutations
  import opened Verdicts

  const MODULES_HEADING := "## Modules"
  const UNATTRIBUTED_HEADING := "## Unattributed verdicts"
  const AUTOMATION_HEADING := "## Proposed automation"

  /** One outcome of the harness, its seconds already formatted. */
  datatype Filed = Filed(name: string, verdict: string, seconds: string, summary: string) {
    predicate IsControl() {
      name == CONTROL
    }
  }

  /** The fixed sentences of the issue. */
  datatype Prose = Prose(opening: string, noControl: string, barren: string, batch: string, rerun: string,
                         instruction: string)

  datatype Night = Night(
    on: string, run: nat, marker: string, attempts: seq<Attempt>, harness: string, command: string,
    mutateExit: int, outcomes: seq<Filed>, detail: string, commit: Option<string>, prose: Prose)

  // -- Writing -----------------------------------------------------------------------------------

  function Signed(n: int): string {
    if n < 0 then "-" + Decimal(-n) else Decimal(n)
  }

  function ModuleHeading(path: string): string {
    "### " + Inline(path)
  }

  function Rendered(verdict: string): string {
    if Known(verdict) then verdict else Inline(verdict)
  }

  function VerdictTail(seconds: string, summary: string): string {
    " (" + seconds + "s)" + if summary == "" then "" else " -- " + Inline(summary)
  }

  function VerdictLine(o: Filed): string {
    "- **" + Rendered(o.verdict) + "** " + Inline(o.name) + VerdictTail(o.seconds, o.summary)
  }

  /** One side of a diff: every line of `text` behind its marker. */
  function Marked(marker: char, lines: seq<string>): seq<string> {
    seq(|lines|, i requires 0 <= i < |lines| => [marker] + lines[i])
  }

  function Diff(c: Candidate): string {
    FencedBlock(JoinLines(Marked('-', SplitLines(c.old_))) + "\n" + JoinLines(Marked('+', SplitLines(c.new_))), "diff")
  }

  /** `by_label`: a later outcome displaces an earlier one of the same label; control outcomes stay out. */
  function ByLabel(outcomes: seq<Filed>): map<string, Filed> {
    if outcomes == [] then map[]
    else
      var last := outcomes[|outcomes| - 1];
      var before := ByLabel(outcomes[..|outcomes| - 1]);
      if last.IsControl() then before else before[last.name := last]
  }

  function CensusLine(a: Attempt): string {
    "Census index " + (Decimal(a.slot.index) + ", visit " + Decimal(a.slot.lap) + ", "
                       + Decimal(|a.generated.candidates|) + " candidate(s), " + Decimal(|a.generated.skipped|)
                       + " dropped for a non-unique anchor.")
  }

  function OutcomeLine(name: string, byLabel: map<string, Filed>): string {
    if name in byLabel then VerdictLine(byLabel[name])
    else "No verdict came back for " + (Inline(name) + ", which is why this run cannot be" + " read as a result.")
  }

  function AnchorName(rung: Rung): string {
    match rung
    case Expression => "expression"
    case Line => "line"
  }

  function ChangeLine(c: Candidate): string {
    "Line " + (Decimal(c.line) + ", " + Inline(c.swappedFrom) + " to " + Inline(c.swappedTo) + ", anchored on the "
               + AnchorName(c.anchor) + ".")
  }

  /** What one block member adds to the issue. */
  function AttemptItems(a: Attempt, byLabel: map<string, Filed>, prose: Prose): seq<string> {
    ["", ModuleHeading(a.slot.path), "", CensusLine(a)]
    + match a.candidate
      case None => ["", prose.barren]
      case Some(c) => ["", OutcomeLine(c.name, byLabel), "", ChangeLine(c), "", Diff(c)]
  }

  function AttemptsItems(attempts: seq<Attempt>, byLabel: map<string, Filed>, prose: Prose): seq<string> {
    if attempts == [] then []
    else AttemptsItems(attempts[..|attempts| - 1], byLabel, prose)
         + AttemptItems(attempts[|attempts| - 1], byLabel, prose)
  }

  function ModuleItems(night: Night): seq<string> {
    [MODULES_HEADING] + AttemptsItems(night.attempts, ByLabel(night.outcomes), night.prose)
  }

  /** `_module_section`. */
  method ModuleSection(night: Night) returns (lines: seq<string>)
    ensures lines == ModuleItems(night)
  {
    hide ModuleHeading, CensusLine, OutcomeLine, ChangeLine, Diff, ByLabel;
    var byLabel := ByLabel(night.outcomes);
    lines := [MODULES_HEADING];
    for i := 0 to |night.attempts|
      invariant lines == [MODULES_HEADING] + AttemptsItems(night.attempts[..i], byLabel, night.prose)
    {
      var attempt := night.attempts[i];
      assert night.attempts[..i + 1][..i] == night.attempts[..i];
      var section := ["", ModuleHeading(attempt.slot.path), ""];
      section := section + [CensusLine(attempt)];
      if attempt.candidate.None? {
        section := section + ["", night.prose.barren];
      } else {
        var c := attempt.candidate.value;
        section := section + [""] + [OutcomeLine(c.name, byLabel)];
        section := section + ["", ChangeLine(c), "", Diff(c)];
      }
      assert section == AttemptItems(attempt, byLabel, night.prose);
      lines := lines + section;
    }
    assert night.attempts[..|night.attempts|] == night.attempts;
  }

  function Handed(attempts: seq<Attempt>): set<string> {
    if attempts == [] then {}
    else
      (if attempts[0].candidate.Some? then {attempts[0].candidate.value.name} else {}) + Handed(attempts[1..])
  }

  function Kept(outcomes: seq<Filed>, keep: Filed -> bool): (r: seq<Filed>)
    ensures forall o :: o in r ==> o in outcomes && keep(o)
  {
    if outcomes == [] then []
    else (if keep(outcomes[0]) then [outcomes[0]] else []) + Kept(outcomes[1..], keep)
  }

  /** Labels never fall along the list. */
  predicate InLabelOrder(outcomes: seq<Filed>) {
    forall i, j :: 0 <= i < j < |outcomes| ==> !Before(outcomes[j].name, outcomes[i].name)
  }

  /** The outcomes of one label, in their order. */
  function Labelled(outcomes: seq<Filed>, name: string): seq<Filed> {
    if outcomes == [] then []
    else (if outcomes[0].name == name then [outcomes[0]] else []) + Labelled(outcomes[1..], name)
  }

  function InsertByLabel(o: Filed, sorted: seq<Filed>): (r: seq<Filed>)
    requires InLabelOrder(sorted)
    ensures multiset(r) == multiset{o} + multiset(sorted) && InLabelOrder(r)
    ensures forall name :: Labelled(r, name) == Labelled([o] + sorted, name)
  {
    if sorted != [] && Before(sorted[0].name, o.name) then
      assert sorted == [sorted[0]] + sorted[1..];
      var rest := InsertByLabel(o, sorted[1..]);
      InsertedLater(o, sorted, rest);
      [sorted[0]] + rest
    else
      InsertedFirst(o, sorted);
      [o] + sorted
  }

  lemma InsertedFirst(o: Filed, sorted: seq<Filed>)
    requires InLabelOrder(sorted) && (sorted != [] ==> !Before(sorted[0].name, o.name))
    ensures InLabelOrder([o] + sorted)
  {
    forall j | 0 <= j < |sorted|
      ensures !Before(sorted[j].name, o.name)
    {
      if Before(sorted[j].name, o.name) {
        BeforeTotal(sorted[0].name, sorted[j].name);
        if Before(sorted[0].name, sorted[j].name) {
          BeforeTransitive(sorted[0].name, sorted[j].name, o.name);
        }
      }
    }
  }

  lemma InsertedLater(o: Filed, sorted: seq<Filed>, rest: seq<Filed>)
    requires sorted != [] && Before(sorted[0].name, o.name) && InLabelOrder(sorted) && InLabelOrder(rest)
    requires multiset(rest) == multiset{o} + multiset(sorted[1..])
    requires forall name :: Labelled(rest, name) == Labelled([o] + sorted[1..], name)
    ensures InLabelOrder([sorted[0]] + rest)
    ensures forall name :: Labelled([sorted[0]] + rest, name) == Labelled([o] + sorted, name)
  {
    hide Labelled, InLabelOrder, Before;
    InsertedInOrder(o, sorted, rest);
    BeforeTotal(sorted[0].name, o.name);
    forall name
      ensures Labelled([sorted[0]] + rest, name) == Labelled([o] + sorted, name)
    {
      InsertedStably(o, sorted, rest, name);
    }
  }

  lemma InsertedInOrder(o: Filed, sorted: seq<Filed>, rest: seq<Filed>)
    requires sorted != [] && Before(sorted[0].name, o.name) && InLabelOrder(sorted) && InLabelOrder(rest)
    requires multiset(rest) == multiset{o} + multiset(sorted[1..])
    ensures InLabelOrder([sorted[0]] + rest)
  {
    hide Before;
    BeforeTotal(sorted[0].name, o.name);
    forall j | 0 <= j < |rest|
      ensures !Before(rest[j].name, sorted[0].name)
    {
      assert rest[j] in multiset(rest);
      if rest[j] != o {
        var k :| 0 <= k < |sorted[1..]| && sorted[1..][k] == rest[j];
        assert sorted[k + 1] == rest[j];
      }
    }
  }

  lemma InsertedStably(o: Filed, sorted: seq<Filed>, rest: seq<Filed>, name: string)
    requires sorted != [] && sorted[0].name != o.name && Labelled(rest, name) == Labelled([o] + sorted[1..], name)
    ensures Labelled([sorted[0]] + rest, name) == Labelled([o] + sorted, name)
  {
    hide *;
    assert [sorted[0]] + sorted[1..] == sorted;
    LabelledCons(sorted[0], rest, name);
    LabelledCons(o, sorted, name);
    LabelledCons(o, sorted[1..], name);
    LabelledCons(sorted[0], sorted[1..], name);
  }

  lemma LabelledCons(o: Filed, rest: seq<Filed>, name: string)
    ensures Labelled([o] + rest, name) == (if o.name == name then [o] else []) + Labelled(rest, name)
  {
    assert ([o] + rest)[1..] == rest;
  }

  /** `sorted(outcomes, key=label)`, which is stable. */
  function SortByLabel(outcomes: seq<Filed>): (r: seq<Filed>)
    ensures multiset(r) == multiset(outcomes) && InLabelOrder(r)
    ensures forall name :: Labelled(r, name) == Labelled(outcomes, name)
  {
    if outcomes == [] then []
    else
      assert outcomes == [outcomes[0]] + outcomes[1..];
      var rest := SortByLabel(outcomes[1..]);
      assert forall name :: Labelled([outcomes[0]] + rest, name) == Labelled(outcomes, name) by {
        SameLabelled(outcomes[0], rest, outcomes[1..]);
      }
      InsertByLabel(outcomes[0], rest)
  }

  lemma SameLabelled(o: Filed, a: seq<Filed>, b: seq<Filed>)
    requires forall name :: Labelled(a, name) == Labelled(b, name)
    ensures forall name :: Labelled([o] + a, name) == Labelled([o] + b, name)
  {
    forall name
      ensures Labelled([o] + a, name) == Labelled([o] + b, name)
    {
      LabelledCons(o, a, name);
      LabelledCons(o, b, name);
    }
  }

  function VerdictLines(outcomes: seq<Filed>): seq<string> {
    if outcomes == [] then []
    else VerdictLines(outcomes[..|outcomes| - 1]) + [VerdictLine(outcomes[|outcomes| - 1])]
  }

  function ControlsOf(night: Night): seq<Filed> {
    SortByLabel(Kept(night.outcomes, (o: Filed) => o.IsControl()))
  }

  function OrphansOf(night: Night): seq<Filed> {
    SortByLabel(Kept(night.outcomes, (o: Filed) => !o.IsControl() && o.name !in Handed(night.attempts)))
  }

  function ControlItems(night: Night): seq<string> {
    var controls, orphans := ControlsOf(night), OrphansOf(night);
    ["## Control", ""] + (if controls == [] then [night.prose.noControl] else []) + VerdictLines(controls)
    + if orphans == [] then [] else ["", UNATTRIBUTED_HEADING, ""] + VerdictLines(orphans)
  }

  /** One verdict line an outcome, in the order given. */
  method Listed(outcomes: seq<Filed>) returns (lines: seq<string>)
    ensures lines == VerdictLines(outcomes)
  {
    hide VerdictLine;
    lines := [];
    for i := 0 to |outcomes|
      invariant lines == VerdictLines(outcomes[..i])
    {
      lines := lines + [VerdictLine(outcomes[i])];
      assert outcomes[..i + 1][..i] == outcomes[..i];
    }
    assert outcomes[..|outcomes|] == outcomes;
  }

  /** `_control_section`. */
  method ControlSection(night: Night) returns (lines: seq<string>)
    ensures lines == ControlItems(night)
  {
    hide VerdictLines, ControlsOf, OrphansOf;
    var controls, orphans := ControlsOf(night), OrphansOf(night);
    lines := ["## Control", ""];
    if controls == [] {
      lines := lines + [night.prose.noControl];
    }
    var listed := Listed(controls);
    lines := lines + listed;
    if orphans != [] {
      listed := Listed(orphans);
      lines := lines + ["", UNATTRIBUTED_HEADING, ""] + listed;
    }
  }

  function ReproduceItems(night: Night): seq<string> {
    var script := match night.commit
      case None => night.command
      case Some(commit) => "git checkout " + commit + "\n" + night.command;
    ["## Reproduce", "", night.prose.batch, night.prose.rerun, "", FencedBlock(script, "sh"), ""]
  }

  function Barren(attempts: seq<Attempt>): nat {
    if attempts == [] then 0
    else (if attempts[0].candidate.None? then 1 else 0) + Barren(attempts[1..])
  }

  function Dropped(attempts: seq<Attempt>): nat {
    if attempts == [] then 0 else |attempts[0].generated.skipped| + Dropped(attempts[1..])
  }

  /** `- **name:** value`. */
  function HeaderLine(name: string, value: string): string {
    "- **" + name + ":** " + value
  }

  function RunValue(night: Night): string {
    night.on + " (run " + Decimal(night.run) + ")"
  }

  function BlockValue(attempts: seq<Attempt>): string {
    var barren := Barren(attempts);
    Decimal(|attempts|) + " module(s), " + Signed(|attempts| - barren) + " mutated, " + Decimal(barren) + " barren"
  }

  function CommitItems(night: Night): seq<string> {
    if night.commit.Some? then [HeaderLine("Commit", Inline(night.commit.value))] else []
  }

  function HeaderItems(night: Night): seq<string> {
    [night.marker, "", night.prose.opening, ""]
    + [HeaderLine("Run", RunValue(night)),
       HeaderLine("Block", BlockValue(night.attempts)),
       HeaderLine("Reading", night.detail),
       HeaderLine("Harness exit", Signed(night.mutateExit)),
       HeaderLine("Harness", Inline(night.harness)),
       HeaderLine("Candidates dropped for a non-unique anchor", Decimal(Dropped(night.attempts)))]
    + CommitItems(night) + [""]
  }

  function BodyItems(night: Night): seq<string> {
    HeaderItems(night) + ControlItems(night) + [""] + ModuleItems(night) + [""] + ReproduceItems(night)
    + [AUTOMATION_HEADING, "", night.prose.instruction]
  }

  /** `build_payload`: the body it files. */
  method BuildBody(night: Night) returns (body: string)
    ensures body == JoinLines(BodyItems(night))
  {
    var control := ControlSection(night);
    var modules := ModuleSection(night);
    body := JoinLines(HeaderItems(night) + control + [""] + modules + [""] + ReproduceItems(night)
                      + [AUTOMATION_HEADING, "", night.prose.instruction]);
  }

  // -- Reading one line --------------------------------------------------------------------------

  /** What must follow a span: `$`, `(?: \(|$)`, or the end of a full match. */
  datatype Follow = Dollar | ParenOrDollar | Full

  predicate AtDollar(s: string, p: nat) {
    p == |s| || (p + 1 == |s| && s[p] == '\n')
  }

  predicate Follows(s: string, p: nat, follow: Follow) {
    match follow
    case Dollar => AtDollar(s, p)
    case ParenOrDollar => AtDollar(s, p) || (p + 2 <= |s| && s[p] == ' ' && s[p + 1] == '(')
    case Full => p == |s|
  }

  /** ` ?(?P=fence)` and what must follow it, at `e`. */
  predicate ClosesAt(s: string, e: nat, n: nat, follow: Follow) {
    || (e < |s| && s[e] == ' ' && TicksAt(s, e + 1, n) && Follows(s, e + 1 + n, follow))
    || (TicksAt(s, e, n) && Follows(s, e + n, follow))
  }

  /** `.+?`: the first end at or after `from` where the rest of the pattern matches. */
  function ValueEnd(s: string, from: nat, n: nat, follow: Follow): (r: Option<nat>)
    requires from > 0
    ensures r.Some? ==> from <= r.value <= |s| && ClosesAt(s, r.value, n, follow)
    ensures r.Some? ==> forall k :: from - 1 <= k < r.value ==> s[k] != '\n'
    ensures forall e: nat :: from <= e <= |s| && ClosesAt(s, e, n, follow) && (forall k :: from - 1 <= k < e ==> s[k] != '\n')
              ==> r.Some? && r.value <= e
    decreases |s| + 1 - from
  {
    if from > |s| || s[from - 1] == '\n' then None
    else if ClosesAt(s, from, n, follow) then Some(from)
    else ValueEnd(s, from + 1, n, follow)
  }

  function ValueFrom(s: string, start: nat, n: nat, follow: Follow): (r: Option<string>)
    ensures r.Some? ==> r.value != "" && '\n' !in r.value
  {
    match ValueEnd(s, start + 1, n, follow)
    case None => None
    case Some(e) => Some(s[start..e])
  }

  /** A fence of `n` ticks ends at `p`; the optional space is taken first. */
  function SpanAfter(s: string, p: nat, n: nat, follow: Follow): (r: Option<string>)
    ensures r.Some? ==> r.value != "" && '\n' !in r.value
  {
    var spaced := if p < |s| && s[p] == ' ' then ValueFrom(s, p + 1, n, follow) else None;
    if spaced.Some? then spaced else ValueFrom(s, p, n, follow)
  }

  /** ``(`+) ?(.+?) ?\1`` at `i`, the fence tried at `n` ticks and then at ever fewer. */
  function SpanFenced(s: string, i: nat, n: nat, follow: Follow): (r: Option<string>)
    ensures r.Some? ==> r.value != "" && '\n' !in r.value
  {
    if n == 0 then None
    else
      var here := SpanAfter(s, i + n, n, follow);
      if here.Some? then here else SpanFenced(s, i, n - 1, follow)
  }

  function MatchSpan(s: string, i: nat, follow: Follow): (r: Option<string>)
    requires i <= |s|
    ensures r.Some? ==> r.value != "" && '\n' !in r.value
  {
    SpanFenced(s, i, RunLength(s, i), follow)
  }

  /** `MODULE_HEADING_PATTERN.match`. */
  function ParseHeading(line: string): Option<string> {
    if "### " <= line then MatchSpan(line, 4, Dollar) else None
  }

  /** A verdict field may end at `v`: its emphasis closes and a label follows. */
  predicate EndsField(line: string, v: nat) {
    v + 3 <= |line| && line[v..v + 3] == "** " && MatchSpan(line, v + 3, ParenOrDollar).Some?
  }

  /** `_VERDICT_LINE_PATTERN`: the first end of the verdict field from `v` on, and the label after it. */
  function FieldAndLabel(line: string, v: nat): (r: Option<(nat, string)>)
    requires 4 < v
    ensures r.Some? ==> v <= r.value.0 <= |line|
    decreases |line| - v
  {
    if v + 3 > |line| || line[v - 1] == '\n' then None
    else if EndsField(line, v) then Some((v, MatchSpan(line, v + 3, ParenOrDollar).value))
    else FieldAndLabel(line, v + 1)
  }

  /** `parse_verdict_line`: the verdict and the label. */
  function ParseVerdictLine(line: string): Option<(string, string)> {
    if !("- **" <= line) then None
    else
      match FieldAndLabel(line, 5)
      case None => None
      case Some((v, name)) =>
        var field := line[4..v];
        if Known(field) then Some((field, name))
        else
          match MatchSpan(field, 0, Full)
          case None => None
          case Some(value) => Some((value, name))
  }
}
