/** Filing and reading back undo each other, for a whole night. */
module SweepRoundTrip {
  import opened PyText
  import TextLines
  import opened Delimiters
  import opened SweepMutations
  import opened SweepFiling
  import opened SweepFilingLaws
  import opened KillRates
  import opened KillRatesLaws
  import opened Verdicts

  // -- What a night may hold ---------------------------------------------------------------------

  predicate TidyAttempt(a: Attempt) {
    && SingleLine(a.slot.path)
    && match a.candidate
       case None => true
       case Some(c) => SingleLine(c.name) && SingleLine(c.swappedFrom) && SingleLine(c.swappedTo)
  }

  predicate TidyOutcome(o: Filed) {
    SingleLine(o.name) && SingleLine(o.verdict) && SingleLine(o.seconds) && SingleLine(o.summary)
  }

  predicate TidyProse(p: Prose) {
    && Plain(p.opening) && Plain(p.noControl) && Plain(p.barren) && Plain(p.batch) && Plain(p.rerun)
    && Plain(p.instruction) && p.instruction != ""
  }

  /** Single-line values. Any paths, labels and verdicts, and any text in the code that is quoted. */
  predicate Fileable(night: Night) {
    && Plain(night.marker) && TidyProse(night.prose)
    && SingleLine(night.on) && SingleLine(night.detail) && SingleLine(night.harness)
    && (night.commit.Some? ==> SingleLine(night.commit.value))
    && (forall i :: 0 <= i < |night.attempts| ==> TidyAttempt(night.attempts[i]))
    && (forall o :: o in night.outcomes ==> TidyOutcome(o))
  }

  // -- What the reader should find ---------------------------------------------------------------

  function VerdictOf(a: Attempt, byLabel: map<string, Filed>): seq<ModuleVerdict> {
    if a.candidate.None? || a.candidate.value.name !in byLabel
       || ControlVerdict(byLabel[a.candidate.value.name].verdict) then []
    else [ModuleVerdict(a.slot.path, a.candidate.value.name, byLabel[a.candidate.value.name].verdict)]
  }

  /** The verdicts of the block, in block order. */
  function VerdictsOf(attempts: seq<Attempt>, byLabel: map<string, Filed>): seq<ModuleVerdict> {
    if attempts == [] then []
    else VerdictsOf(attempts[..|attempts| - 1], byLabel) + VerdictOf(attempts[|attempts| - 1], byLabel)
  }

  /** `by_label` holds the last outcome of each label that is not the control's. */
  lemma {:induction false} ByLabelIsLast(outcomes: seq<Filed>, name: string)
    ensures name in ByLabel(outcomes) ==>
              exists i :: && 0 <= i < |outcomes| && outcomes[i] == ByLabel(outcomes)[name]
                          && outcomes[i].name == name && !outcomes[i].IsControl()
                          && forall j :: i < j < |outcomes| ==> outcomes[j].name != name || outcomes[j].IsControl()
    ensures name !in ByLabel(outcomes) ==>
              forall i :: 0 <= i < |outcomes| ==> outcomes[i].name != name || outcomes[i].IsControl()
  {
    if outcomes != [] {
      var n := |outcomes| - 1;
      ByLabelIsLast(outcomes[..n], name);
      if outcomes[n].name == name && !outcomes[n].IsControl() {
        assert outcomes[n] == ByLabel(outcomes)[name];
      } else if name in ByLabel(outcomes) {
        var i :| 0 <= i < n && outcomes[..n][i] == ByLabel(outcomes)[name] && outcomes[..n][i].name == name
                 && !outcomes[..n][i].IsControl()
                 && forall j :: i < j < n ==> outcomes[..n][j].name != name || outcomes[..n][j].IsControl();
        assert outcomes[i] == ByLabel(outcomes)[name];
        assert forall j :: i < j < n ==> outcomes[..n][j] == outcomes[j];
      } else {
        assert forall j :: 0 <= j < n ==> outcomes[..n][j] == outcomes[j];
      }
    }
  }

  /** A verdict came back for this member, and it is not the control's. */
  predicate Returned(a: Attempt, byLabel: map<string, Filed>) {
    a.candidate.Some? && a.candidate.value.name in byLabel && !ControlVerdict(byLabel[a.candidate.value.name].verdict)
  }

  /** The lines of a member keep its path, its label and its verdict. */
  ghost predicate LinesKept(a: Attempt, byLabel: map<string, Filed>)
    requires Returned(a, byLabel)
  {
    var o := byLabel[a.candidate.value.name];
    && (Readable(a.slot.path) || a.slot.path == " ")
    && LabelKept(o) && VerdictKept(o.verdict) && !Contains(Rendered(o.verdict), "** `")
  }

  // -- What the reader does find -----------------------------------------------------------------

  /** Whose region it is after a module heading: one that cannot be read leaves the region as it was. */
  function OwnerAfter(owner: Option<string>, path: string): Option<string> {
    var read := ParseHeading(ModuleHeading(path));
    if read.Some? then read else owner
  }

  /** What is collected from the line of one member. */
  function Gathered(owner: Option<string>, a: Attempt, byLabel: map<string, Filed>): seq<ModuleVerdict> {
    if a.candidate.None? || a.candidate.value.name !in byLabel then []
    else Credit(Reader(0, true, owner, []), ParseVerdictLine(VerdictLine(byLabel[a.candidate.value.name]))).found
  }

  function OwnerOf(owner: Option<string>, attempts: seq<Attempt>): Option<string> {
    if attempts == [] then owner
    else OwnerAfter(OwnerOf(owner, attempts[..|attempts| - 1]), attempts[|attempts| - 1].slot.path)
  }

  function GatheredAll(owner: Option<string>, attempts: seq<Attempt>, byLabel: map<string, Filed>): seq<ModuleVerdict> {
    if attempts == [] then []
    else
      GatheredAll(owner, attempts[..|attempts| - 1], byLabel)
      + Gathered(OwnerOf(owner, attempts), attempts[|attempts| - 1], byLabel)
  }

  // -- Single lines ------------------------------------------------------------------------------

  lemma Concats()
    ensures forall a: string, b: string {:trigger a + b} :: SingleLine(a) && SingleLine(b) ==> SingleLine(a + b)
  {
  }

  lemma TidyDecimal(n: nat)
    ensures SingleLine(Decimal(n))
  {
    hide Decimal;
  }

  lemma TidyInline(x: string)
    requires SingleLine(x)
    ensures SingleLine(Inline(x))
  {
    hide Longest;
    assert SingleLine(Fence(x, 1)) && SingleLine(Padding(x));
    hide SingleLine, Fence, Padding;
    Concats();
  }

  lemma TidyVerdictLine(o: Filed)
    requires TidyOutcome(o)
    ensures Bullet(VerdictLine(o)) && !IsSpace(VerdictLine(o)[|VerdictLine(o)| - 1])
  {
    assert VerdictLine(o)[0] == '-';
    assert SingleLine("- **") && SingleLine("** ") && SingleLine(" (") && SingleLine("s)") && SingleLine(" -- ");
    assert SingleLine(Rendered(o.verdict)) by {
      TidyInline(o.verdict);
    }
    TidyInline(o.name);
    TidyInline(o.summary);
    TailEnds(o.seconds, o.summary);
    assert SingleLine("");
    hide SingleLine, Inline, Rendered, IsSpace;
    Concats();
  }

  lemma TailEnds(seconds: string, summary: string)
    ensures var tail := VerdictTail(seconds, summary); tail != "" && !IsSpace(tail[|tail| - 1])
  {
    assert Inline(summary) != "" && Inline(summary)[|Inline(summary)| - 1] == '`';
    hide Inline;
  }

  lemma PlainFrom(first: string, rest: string)
    requires SingleLine(first) && SingleLine(rest) && first != "" && !IsSpace(first[0]) && first[0] !in {'#', '-', '`'}
    ensures Plain(first + rest)
  {
    var x := first + rest;
    assert x[0] == first[0];
    hide IsSpace, IsLineBreak;
  }

  lemma CensusWording()
    ensures SingleLine("Census index ") && SingleLine(", visit ") && SingleLine(", ") && SingleLine(" candidate(s), ")
  {
  }

  lemma DroppedWording()
    ensures SingleLine(" dropped for a non-unique anchor.")
  {
  }

  lemma ChangeWording(rung: Rung)
    ensures SingleLine("Line ") && SingleLine(", ") && SingleLine(" to ") && SingleLine(", anchored on the ")
    ensures SingleLine(".") && SingleLine(AnchorName(rung))
  {
  }

  lemma MissingWording()
    ensures SingleLine(", which is why this run cannot be") && SingleLine(" read as a result.")
  {
  }

  lemma VerdictWording()
    ensures SingleLine("No verdict came back for ")
  {
  }

  lemma TidyCensusLine(a: Attempt)
    ensures Plain(CensusLine(a))
  {
    var rest := Decimal(a.slot.index) + ", visit " + Decimal(a.slot.lap) + ", "
                + Decimal(|a.generated.candidates|) + " candidate(s), " + Decimal(|a.generated.skipped|)
                + " dropped for a non-unique anchor.";
    assert CensusLine(a) == "Census index " + rest;
    assert !IsSpace('C');
    hide *;
    CensusWording();
    DroppedWording();
    TidyDecimal(a.slot.index);
    TidyDecimal(a.slot.lap);
    TidyDecimal(|a.generated.candidates|);
    TidyDecimal(|a.generated.skipped|);
    Concats();
    PlainFrom("Census index ", rest);
  }

  lemma TidyChangeLine(c: Candidate)
    requires SingleLine(c.swappedFrom) && SingleLine(c.swappedTo)
    ensures Plain(ChangeLine(c))
  {
    var rest := Decimal(c.line) + ", " + Inline(c.swappedFrom) + " to " + Inline(c.swappedTo) + ", anchored on the "
                + AnchorName(c.anchor) + ".";
    assert ChangeLine(c) == "Line " + rest;
    assert !IsSpace('L');
    hide *;
    ChangeWording(c.anchor);
    TidyDecimal(c.line);
    TidyInline(c.swappedFrom);
    TidyInline(c.swappedTo);
    Concats();
    PlainFrom("Line ", rest);
  }

  lemma TidyMissingLine(name: string, byLabel: map<string, Filed>)
    requires SingleLine(name) && name !in byLabel
    ensures Plain(OutcomeLine(name, byLabel))
  {
    var rest := Inline(name) + ", which is why this run cannot be" + " read as a result.";
    assert OutcomeLine(name, byLabel) == "No verdict came back for " + rest;
    assert !IsSpace('N');
    hide *;
    VerdictWording();
    MissingWording();
    TidyInline(name);
    Concats();
    PlainFrom("No verdict came back for ", rest);
  }

  // -- Sections ----------------------------------------------------------------------------------

  lemma TidyHeading(path: string)
    requires SingleLine(path)
    ensures var x := ModuleHeading(path);
            SingleLine(x) && x != "" && x[0] == '#' && x[|x| - 1] == '`' && !("## " <= x) && x != MODULES_HEADING
  {
    assert SingleLine("### ");
    assert Inline(path) != "" && Inline(path)[|Inline(path)| - 1] == '`';
    TidyInline(path);
    hide SingleLine, Inline;
    Concats();
    assert ModuleHeading(path)[2] == '#';
  }

  lemma HeadingOwns(legacy: Option<string>, r: Reader, x: string)
    requires x != "" && x[0] == '#' && !("## " <= x) && r.inModules
    ensures ReadOpen(legacy, r, x) == r.(owner := if ParseHeading(x).Some? then ParseHeading(x) else r.owner)
  {
    PlainParses(x);
    hide ParseHeading, ParseVerdictLine;
    assert "## " <= MODULES_HEADING && "## " <= LEGACY_VERDICTS;
  }

  lemma HeadingItem(legacy: Option<string>, r: Reader, path: string)
    requires SingleLine(path) && r.fence == 0 && r.inModules
    ensures ReadItem(legacy, r, ModuleHeading(path)) == r.(owner := OwnerAfter(r.owner, path))
  {
    assert !IsSpace('#') && !IsSpace('`');
    assert OwnerAfter(r.owner, path)
           == if ParseHeading(ModuleHeading(path)).Some? then ParseHeading(ModuleHeading(path)) else r.owner;
    hide *;
    TidyHeading(path);
    ReadAsItStands(legacy, r, ModuleHeading(path));
    HeadingOwns(legacy, r, ModuleHeading(path));
  }

  lemma DashIsCredited(legacy: Option<string>, r: Reader, x: string)
    requires x != "" && x[0] == '-'
    ensures ReadOpen(legacy, r, x) == Credit(r, ParseVerdictLine(x))
  {
    hide ParseHeading, ParseVerdictLine, Credit;
    PlainParses(x);
  }

  /** A line opening with a dash and ending in no space is read as a verdict line or not at all. */
  lemma ReadBulletLine(legacy: Option<string>, r: Reader, x: string)
    requires Bullet(x) && !IsSpace(x[|x| - 1]) && r.fence == 0
    ensures ReadItem(legacy, r, x) == Credit(r, ParseVerdictLine(x))
  {
    assert x != "" && x[0] == '-' && SingleLine(x) && !IsSpace('-');
    hide *;
    ReadAsItStands(legacy, r, x);
    DashIsCredited(legacy, r, x);
  }

  lemma VerdictItem(legacy: Option<string>, r: Reader, o: Filed)
    requires TidyOutcome(o) && r.fence == 0
    ensures ReadItem(legacy, r, VerdictLine(o)) == Credit(r, ParseVerdictLine(VerdictLine(o)))
  {
    hide *;
    TidyVerdictLine(o);
    ReadBulletLine(legacy, r, VerdictLine(o));
  }

  lemma ReadOneItem(legacy: Option<string>, r: Reader, x: string)
    ensures ReadItems(legacy, r, [x]) == ReadItem(legacy, r, x)
  {
    hide ReadItem;
    assert [x][1..] == [];
  }

  /** What the loop over the block may rely on for one member. */
  predicate Answerable(a: Attempt, byLabel: map<string, Filed>) {
    TidyAttempt(a) && (a.candidate.Some? && a.candidate.value.name in byLabel ==> TidyOutcome(byLabel[a.candidate.value.name]))
  }

  /** What is credited depends on the region's owner alone. */
  lemma CreditAdds(r: Reader, read: Option<(string, string)>)
    ensures Credit(r, read) == r.(found := r.found + Credit(Reader(0, true, r.owner, []), read).found)
  {
    assert r.found + [] == r.found;
  }

  lemma OutcomeItem(legacy: Option<string>, r: Reader, a: Attempt, byLabel: map<string, Filed>)
    requires Answerable(a, byLabel) && a.candidate.Some? && r.fence == 0
    ensures ReadItem(legacy, r, OutcomeLine(a.candidate.value.name, byLabel))
         == r.(found := r.found + Gathered(r.owner, a, byLabel))
  {
    var name := a.candidate.value.name;
    assert SingleLine(name);
    hide ReadItem, VerdictLine, ParseVerdictLine, SingleLine, TidyOutcome, Credit;
    if name in byLabel {
      VerdictItem(legacy, r, byLabel[name]);
      CreditAdds(r, ParseVerdictLine(VerdictLine(byLabel[name])));
    } else {
      TidyMissingLine(name, byLabel);
      PlainIsInert(legacy, r, OutcomeLine(name, byLabel));
      assert r.found + [] == r.found;
    }
  }

  lemma TidyPieces(a: Attempt, byLabel: map<string, Filed>)
    requires Answerable(a, byLabel)
    ensures SingleLine(a.slot.path)
    ensures a.candidate.Some? ==>
              var c := a.candidate.value;
              SingleLine(c.name) && SingleLine(c.swappedFrom) && SingleLine(c.swappedTo)
  {
    hide SingleLine;
  }

  lemma Blank()
    ensures Plain("")
  {
  }

  lemma PlainBarren(prose: Prose)
    requires TidyProse(prose)
    ensures Plain(prose.barren)
  {
    hide Plain;
  }

  lemma BarrenItems(a: Attempt, byLabel: map<string, Filed>, prose: Prose)
    requires a.candidate.None?
    ensures AttemptItems(a, byLabel, prose)
         == [""] + [ModuleHeading(a.slot.path)] + ["", CensusLine(a), "", prose.barren]
  {
    hide ModuleHeading, CensusLine;
  }

  lemma BarrenRead(legacy: Option<string>, r: Reader, a: Attempt, byLabel: map<string, Filed>, prose: Prose)
    requires Answerable(a, byLabel) && TidyProse(prose) && r.fence == 0 && r.inModules && a.candidate.None?
    ensures ReadItems(legacy, r, AttemptItems(a, byLabel, prose)) == r.(owner := OwnerAfter(r.owner, a.slot.path))
  {
    var rest := ["", CensusLine(a), "", prose.barren];
    hide *;
    BarrenItems(a, byLabel, prose);
    TidyPieces(a, byLabel);
    Blank();
    PlainBarren(prose);
    TidyCensusLine(a);
    Lead(legacy, r, a.slot.path, rest);
    InertItems(legacy, r.(owner := OwnerAfter(r.owner, a.slot.path)), rest);
  }

  lemma AskedItems(a: Attempt, byLabel: map<string, Filed>, prose: Prose, c: Candidate)
    requires a.candidate == Some(c)
    ensures AttemptItems(a, byLabel, prose)
         == [""] + [ModuleHeading(a.slot.path)]
            + (["", CensusLine(a), ""] + [OutcomeLine(c.name, byLabel)] + ["", ChangeLine(c), ""] + [Diff(c)])
  {
    hide ModuleHeading, CensusLine, OutcomeLine, ChangeLine, Diff;
  }

  lemma SpacedProse(legacy: Option<string>, r: Reader, x: string)
    requires Plain(x)
    ensures ReadItems(legacy, r, ["", x, ""]) == r
  {
    hide *;
    Blank();
    InertItems(legacy, r, ["", x, ""]);
  }

  /** A section whose mutation was asked, after its heading. */
  lemma AskedRest(legacy: Option<string>, r: Reader, a: Attempt, byLabel: map<string, Filed>, c: Candidate)
    requires Answerable(a, byLabel) && r.fence == 0 && a.candidate == Some(c)
    ensures ReadItems(legacy, r, ["", CensusLine(a), ""] + [OutcomeLine(c.name, byLabel)] + ["", ChangeLine(c), ""] + [Diff(c)])
         == r.(found := r.found + Gathered(r.owner, a, byLabel))
  {
    hide *;
    TidyPieces(a, byLabel);
    TidyCensusLine(a);
    TidyChangeLine(c);
    var credited := r.(found := r.found + Gathered(r.owner, a, byLabel));
    SpacedProse(legacy, r, CensusLine(a));
    OutcomeItem(legacy, r, a, byLabel);
    SpacedProse(legacy, credited, ChangeLine(c));
    DiffItem(legacy, credited, c);
    Sequence(legacy, r, ["", CensusLine(a), ""], OutcomeLine(c.name, byLabel), ["", ChangeLine(c), ""], Diff(c));
  }

  lemma AskedRead(legacy: Option<string>, r: Reader, a: Attempt, byLabel: map<string, Filed>, prose: Prose)
    requires Answerable(a, byLabel) && r.fence == 0 && r.inModules && a.candidate.Some?
    ensures ReadItems(legacy, r, AttemptItems(a, byLabel, prose))
         == r.(owner := OwnerAfter(r.owner, a.slot.path),
               found := r.found + Gathered(OwnerAfter(r.owner, a.slot.path), a, byLabel))
  {
    hide *;
    var c := a.candidate.value;
    TidyPieces(a, byLabel);
    AskedItems(a, byLabel, prose, c);
    Lead(legacy, r, a.slot.path, ["", CensusLine(a), ""] + [OutcomeLine(c.name, byLabel)] + ["", ChangeLine(c), ""] + [Diff(c)]);
    AskedRest(legacy, r.(owner := OwnerAfter(r.owner, a.slot.path)), a, byLabel, c);
  }

  /** One block member: its heading opens its region, and nothing but its verdict line is collected. */
  lemma AttemptRead(legacy: Option<string>, r: Reader, a: Attempt, byLabel: map<string, Filed>, prose: Prose)
    requires Answerable(a, byLabel) && TidyProse(prose) && r.fence == 0 && r.inModules
    ensures ReadItems(legacy, r, AttemptItems(a, byLabel, prose))
         == r.(owner := OwnerAfter(r.owner, a.slot.path),
               found := r.found + Gathered(OwnerAfter(r.owner, a.slot.path), a, byLabel))
  {
    assert a.candidate.None? ==> r.found + Gathered(OwnerAfter(r.owner, a.slot.path), a, byLabel) == r.found;
    hide *;
    if a.candidate.None? {
      BarrenRead(legacy, r, a, byLabel, prose);
    } else {
      AskedRead(legacy, r, a, byLabel, prose);
    }
  }

  /** The heading of a section, then the rest of it. */
  lemma Lead(legacy: Option<string>, r: Reader, path: string, rest: seq<string>)
    requires SingleLine(path) && r.fence == 0 && r.inModules
    ensures ReadItems(legacy, r, [""] + [ModuleHeading(path)] + rest)
         == ReadItems(legacy, r.(owner := OwnerAfter(r.owner, path)), rest)
  {
    assert Plain("");
    hide *;
    PlainIsInert(legacy, r, "");
    ReadOneItem(legacy, r, "");
    HeadingItem(legacy, r, path);
    ReadOneItem(legacy, r, ModuleHeading(path));
    ReadItemsAppend(legacy, r, [""], [ModuleHeading(path)]);
    ReadItemsAppend(legacy, r, [""] + [ModuleHeading(path)], rest);
  }

  lemma Sequence(legacy: Option<string>, r: Reader, a: seq<string>, x: string, b: seq<string>, y: string)
    ensures ReadItems(legacy, r, a + [x] + b + [y])
         == ReadItem(legacy, ReadItems(legacy, ReadItem(legacy, ReadItems(legacy, r, a), x), b), y)
  {
    hide *;
    ReadItemsAppend(legacy, r, a, [x]);
    ReadOneItem(legacy, ReadItems(legacy, r, a), x);
    ReadItemsAppend(legacy, r, a + [x], b);
    ReadItemsAppend(legacy, r, a + [x] + b, [y]);
    ReadOneItem(legacy, ReadItems(legacy, r, a + [x] + b), y);
  }

  lemma DiffItem(legacy: Option<string>, r: Reader, c: Candidate)
    requires r.fence == 0
    ensures ReadItem(legacy, r, Diff(c)) == r
  {
    var text := JoinLines(Marked('-', SplitLines(c.old_))) + "\n" + JoinLines(Marked('+', SplitLines(c.new_)));
    assert Diff(c) == FencedBlock(text, "diff");
    assert Language("diff");
    hide *;
    BlockIsInert(legacy, r, text, "diff");
  }

  // -- The whole body ----------------------------------------------------------------------------

  /** A fileable night answers for every member of its block. */
  lemma BlockIsAnswerable(night: Night, i: nat)
    requires Fileable(night) && i < |night.attempts|
    ensures Answerable(night.attempts[i], ByLabel(night.outcomes))
  {
    var a := night.attempts[i];
    assert TidyAttempt(a);
    if a.candidate.Some? {
      ByLabelIsLast(night.outcomes, a.candidate.value.name);
      hide Plain, TidyProse, SingleLine, ByLabel, TidyOutcome, TidyAttempt;
      assert Answerable(a, ByLabel(night.outcomes));
    }
  }

  lemma {:induction false} AttemptsRead(legacy: Option<string>, r: Reader, attempts: seq<Attempt>,
                                        byLabel: map<string, Filed>, prose: Prose)
    requires TidyProse(prose) && r.fence == 0 && r.inModules
    requires forall i :: 0 <= i < |attempts| ==> Answerable(attempts[i], byLabel)
    ensures var after := ReadItems(legacy, r, AttemptsItems(attempts, byLabel, prose));
            && after.fence == 0 && after.inModules && after.owner == OwnerOf(r.owner, attempts)
            && after.found == r.found + GatheredAll(r.owner, attempts, byLabel)
  {
    hide ReadItems, AttemptItems, Answerable, TidyProse, Gathered, OwnerAfter;
    if attempts == [] {
      hide AttemptItems;
      assert ReadItems(legacy, r, []) == r by {
        InertItems(legacy, r, []);
      }
    } else {
      var n := |attempts| - 1;
      AttemptsRead(legacy, r, attempts[..n], byLabel, prose);
      var before := ReadItems(legacy, r, AttemptsItems(attempts[..n], byLabel, prose));
      AttemptRead(legacy, before, attempts[n], byLabel, prose);
      ReadItemsAppend(legacy, r, AttemptsItems(attempts[..n], byLabel, prose), AttemptItems(attempts[n], byLabel, prose));
      var earlier, last := GatheredAll(r.owner, attempts[..n], byLabel), Gathered(OwnerOf(r.owner, attempts), attempts[n], byLabel);
      assert r.found + earlier + last == r.found + (earlier + last);
    }
  }

  /** The whole per-module region. */
  lemma ModulesRead(legacy: Option<string>, r: Reader, night: Night)
    requires Fileable(night) && r.fence == 0
    ensures var after := ReadItems(legacy, r, ModuleItems(night));
            after.fence == 0 && after.found == r.found + GatheredAll(None, night.attempts, ByLabel(night.outcomes))
  {
    var inside := r.(inModules := true, owner := None);
    var items := AttemptsItems(night.attempts, ByLabel(night.outcomes), night.prose);
    assert ModuleItems(night) == [MODULES_HEADING] + items && TidyProse(night.prose);
    hide *;
    forall i | 0 <= i < |night.attempts|
      ensures Answerable(night.attempts[i], ByLabel(night.outcomes))
    {
      BlockIsAnswerable(night, i);
    }
    ModulesOpen(legacy, r);
    ReadOneItem(legacy, r, MODULES_HEADING);
    AttemptsRead(legacy, inside, night.attempts, ByLabel(night.outcomes), night.prose);
    ReadItemsAppend(legacy, r, [MODULES_HEADING], items);
  }

  lemma {:induction false} VerdictBullets(outcomes: seq<Filed>)
    requires forall o :: o in outcomes ==> TidyOutcome(o)
    ensures forall i :: 0 <= i < |VerdictLines(outcomes)| ==> Bullet(VerdictLines(outcomes)[i])
  {
    hide TidyOutcome, Bullet, VerdictLine;
    if outcomes != [] {
      VerdictBullets(outcomes[..|outcomes| - 1]);
      TidyVerdictLine(outcomes[|outcomes| - 1]);
    }
  }

  /** Verdict lines outside every region credit nobody. */
  lemma UnownedVerdicts(legacy: Option<string>, r: Reader, outcomes: seq<Filed>)
    requires r.owner.None? && forall o :: o in outcomes ==> TidyOutcome(o)
    ensures ReadItems(legacy, r, VerdictLines(outcomes)) == r
  {
    VerdictBullets(outcomes);
    hide *;
    InertItems(legacy, r, VerdictLines(outcomes));
  }

  /** A heading that opens no region, and the blank line under it. */
  lemma ClosedSection(legacy: Option<string>, r: Reader, x: string)
    requires SingleLine(x) && "## " <= x && !IsSpace(x[|x| - 1]) && x != MODULES_HEADING && x != LEGACY_VERDICTS
    requires r.fence == 0
    ensures ReadItems(legacy, r, [x, ""]) == r.(inModules := false, owner := None)
  {
    hide *;
    SectionCloses(legacy, r, x);
    Blank();
    PlainIsInert(legacy, r.(inModules := false, owner := None), "");
    ReadOneItem(legacy, r, x);
    ReadOneItem(legacy, r.(inModules := false, owner := None), "");
    ReadItemsAppend(legacy, r, [x], [""]);
    assert [x] + [""] == [x, ""];
  }

  lemma FileableParts(night: Night)
    requires Fileable(night)
    ensures var p := night.prose;
            && Plain(night.marker) && Plain(p.opening) && Plain(p.noControl) && Plain(p.batch) && Plain(p.rerun)
            && Plain(p.instruction) && SingleLine(p.instruction) && p.instruction != ""
    ensures SingleLine(night.on) && SingleLine(night.detail) && SingleLine(night.harness)
    ensures night.commit.Some? ==> SingleLine(night.commit.value)
  {
    assert SingleLine(night.prose.instruction);
    hide Plain, SingleLine, TidyAttempt, TidyOutcome;
  }

  /** Four runs of items, one after another. */
  lemma Chain(legacy: Option<string>, r: Reader, a: seq<string>, b: seq<string>, c: seq<string>, d: seq<string>)
    ensures ReadItems(legacy, r, a + b + c + d)
         == ReadItems(legacy, ReadItems(legacy, ReadItems(legacy, ReadItems(legacy, r, a), b), c), d)
  {
    hide *;
    ReadItemsAppend(legacy, r, a, b);
    ReadItemsAppend(legacy, r, a + b, c);
    ReadItemsAppend(legacy, r, a + b + c, d);
  }

  lemma ControlsAreTidy(night: Night)
    requires Fileable(night)
    ensures forall o :: o in ControlsOf(night) ==> TidyOutcome(o)
    ensures forall o :: o in OrphansOf(night) ==> TidyOutcome(o)
  {
    hide TidyOutcome, TidyProse, TidyAttempt, SingleLine, Plain, Kept, SortByLabel;
    forall o | o in ControlsOf(night)
      ensures o in night.outcomes
    {
      assert o in multiset(ControlsOf(night));
    }
    forall o | o in OrphansOf(night)
      ensures o in night.outcomes
    {
      assert o in multiset(OrphansOf(night));
    }
  }

  lemma ControlHeadings()
    ensures SingleLine("## Control") && SingleLine(UNATTRIBUTED_HEADING) && !IsSpace('l') && !IsSpace('s')
  {
  }

  lemma OrphansRead(legacy: Option<string>, r: Reader, orphans: seq<Filed>)
    requires r.fence == 0 && r.owner.None? && !r.inModules
    requires forall o :: o in orphans ==> TidyOutcome(o)
    ensures ReadItems(legacy, r, ["", UNATTRIBUTED_HEADING, ""] + VerdictLines(orphans)) == r
  {
    assert "## " <= UNATTRIBUTED_HEADING && UNATTRIBUTED_HEADING != MODULES_HEADING && UNATTRIBUTED_HEADING != LEGACY_VERDICTS;
    assert UNATTRIBUTED_HEADING[|UNATTRIBUTED_HEADING| - 1] == 's';
    assert ["", UNATTRIBUTED_HEADING, ""] == [""] + [UNATTRIBUTED_HEADING, ""];
    hide *;
    ControlHeadings();
    Blank();
    PlainIsInert(legacy, r, "");
    ReadOneItem(legacy, r, "");
    ClosedSection(legacy, r, UNATTRIBUTED_HEADING);
    ReadItemsAppend(legacy, r, [""], [UNATTRIBUTED_HEADING, ""]);
    UnownedVerdicts(legacy, r, orphans);
    ReadItemsAppend(legacy, r, ["", UNATTRIBUTED_HEADING, ""], VerdictLines(orphans));
  }

  function NoControl(night: Night): seq<string> {
    if ControlsOf(night) == [] then [night.prose.noControl] else []
  }

  function OrphanItems(night: Night): seq<string> {
    if OrphansOf(night) == [] then [] else ["", UNATTRIBUTED_HEADING, ""] + VerdictLines(OrphansOf(night))
  }

  lemma ControlShape(night: Night)
    ensures ControlItems(night)
         == ["## Control", ""] + NoControl(night) + VerdictLines(ControlsOf(night)) + OrphanItems(night)
  {
    hide ControlsOf, OrphansOf, VerdictLines;
  }

  lemma NoControlRead(legacy: Option<string>, night: Night)
    requires Fileable(night)
    ensures ReadItems(legacy, START, NoControl(night)) == START
  {
    FileableParts(night);
    hide ReadItems, Fileable, Plain, ControlsOf, Bullet;
    InertItems(legacy, START, NoControl(night));
  }

  lemma OrphanItemsRead(legacy: Option<string>, night: Night)
    requires Fileable(night)
    ensures ReadItems(legacy, START, OrphanItems(night)) == START
  {
    ControlsAreTidy(night);
    hide ReadItems, Fileable, Plain, OrphansOf, VerdictLines, TidyOutcome, Bullet;
    if OrphansOf(night) == [] {
      InertItems(legacy, START, []);
    } else {
      OrphansRead(legacy, START, OrphansOf(night));
    }
  }

  lemma ControlOpens(legacy: Option<string>)
    ensures ReadItems(legacy, START, ["## Control", ""]) == START
  {
    hide ReadItems, SingleLine, IsSpace;
    ControlHeadings();
    ClosedSection(legacy, START, "## Control");
  }

  /** The control walk and the orphans credit nobody. */
  lemma ControlRead(legacy: Option<string>, night: Night)
    requires Fileable(night)
    ensures ReadItems(legacy, START, ControlItems(night)) == START
  {
    assert START.owner.None?;
    hide *;
    ControlShape(night);
    ControlOpens(legacy);
    NoControlRead(legacy, night);
    ControlsAreTidy(night);
    UnownedVerdicts(legacy, START, ControlsOf(night));
    OrphanItemsRead(legacy, night);
    Chain(legacy, START, ["## Control", ""], NoControl(night), VerdictLines(ControlsOf(night)), OrphanItems(night));
  }

  lemma HeaderBullet(name: string, value: string)
    requires SingleLine(name) && SingleLine(value)
    ensures Bullet(HeaderLine(name, value))
  {
    assert SingleLine("- **") && SingleLine(":** ");
    assert HeaderLine(name, value) == "- **" + (name + ":** " + value);
    hide SingleLine;
    Concats();
  }

  lemma HeaderNames()
    ensures SingleLine("Run") && SingleLine("Block") && SingleLine("Reading") && SingleLine("Harness exit")
    ensures SingleLine("Harness") && SingleLine("Commit")
  {
  }

  lemma DroppedName()
    ensures SingleLine("Candidates dropped for a non-unique anchor")
  {
  }

  lemma TidySigned(n: int)
    ensures SingleLine(Signed(n))
  {
    assert SingleLine("-");
    TidyDecimal(if n < 0 then -n else n);
    hide SingleLine, Decimal;
    Concats();
  }

  lemma TidyRun(night: Night)
    requires SingleLine(night.on)
    ensures SingleLine(RunValue(night))
  {
    assert SingleLine(" (run ") && SingleLine(")");
    TidyDecimal(night.run);
    hide SingleLine, Decimal;
    Concats();
  }

  lemma TidyBlock(attempts: seq<Attempt>)
    ensures SingleLine(BlockValue(attempts))
  {
    assert SingleLine(" module(s), ") && SingleLine(" mutated, ") && SingleLine(" barren");
    TidyDecimal(|attempts|);
    TidyDecimal(Barren(attempts));
    TidySigned(|attempts| - Barren(attempts));
    hide SingleLine, Decimal, Signed, Barren;
    Concats();
  }

  lemma HeaderShape(night: Night)
    ensures HeaderItems(night) == [night.marker, "", night.prose.opening, ""] + HeaderBullets(night) + CommitItems(night) + [""]
  {
    hide HeaderLine, RunValue, BlockValue, Signed, Inline, Decimal, CommitItems;
  }

  function HeaderBullets(night: Night): seq<string> {
    [HeaderLine("Run", RunValue(night)),
     HeaderLine("Block", BlockValue(night.attempts)),
     HeaderLine("Reading", night.detail),
     HeaderLine("Harness exit", Signed(night.mutateExit)),
     HeaderLine("Harness", Inline(night.harness)),
     HeaderLine("Candidates dropped for a non-unique anchor", Decimal(Dropped(night.attempts)))]
  }

  lemma BulletsRead(legacy: Option<string>, night: Night)
    requires Fileable(night)
    ensures ReadItems(legacy, START, HeaderBullets(night)) == START
  {
    var bullets := HeaderBullets(night);
    assert |bullets| == 6;
    assert forall i :: 0 <= i < 6 ==> Bullet(bullets[i]) by {
      hide *;
      FileableParts(night);
      HeaderNames();
      DroppedName();
      TidyRun(night);
      TidyBlock(night.attempts);
      TidySigned(night.mutateExit);
      TidyInline(night.harness);
      TidyDecimal(Dropped(night.attempts));
      HeaderBullet("Run", RunValue(night));
      HeaderBullet("Block", BlockValue(night.attempts));
      HeaderBullet("Reading", night.detail);
      HeaderBullet("Harness exit", Signed(night.mutateExit));
      HeaderBullet("Harness", Inline(night.harness));
      HeaderBullet("Candidates dropped for a non-unique anchor", Decimal(Dropped(night.attempts)));
    }
    hide *;
    InertItems(legacy, START, bullets);
  }

  lemma OpeningRead(legacy: Option<string>, night: Night)
    requires Fileable(night)
    ensures ReadItems(legacy, START, [night.marker, "", night.prose.opening, ""]) == START
  {
    hide *;
    FileableParts(night);
    Blank();
    InertItems(legacy, START, [night.marker, "", night.prose.opening, ""]);
  }

  /** The header: prose and bullets, read before any region opens. */
  lemma HeaderRead(legacy: Option<string>, night: Night)
    requires Fileable(night)
    ensures ReadItems(legacy, START, HeaderItems(night)) == START
  {
    hide *;
    HeaderShape(night);
    OpeningRead(legacy, night);
    BulletsRead(legacy, night);
    CommitRead(legacy, night);
    BlankRead(legacy, START);
    Chain(legacy, START, [night.marker, "", night.prose.opening, ""], HeaderBullets(night), CommitItems(night), [""]);
  }

  lemma BlankRead(legacy: Option<string>, r: Reader)
    ensures ReadItems(legacy, r, [""]) == r
  {
    hide *;
    Blank();
    InertItems(legacy, r, [""]);
  }

  lemma CommitRead(legacy: Option<string>, night: Night)
    requires Fileable(night)
    ensures ReadItems(legacy, START, CommitItems(night)) == START
  {
    FileableParts(night);
    hide ReadItems, HeaderLine, Bullet, Plain, Fileable, SingleLine, Inline;
    if night.commit.Some? {
      HeaderNames();
      TidyInline(night.commit.value);
      HeaderBullet("Commit", Inline(night.commit.value));
    }
    InertItems(legacy, START, CommitItems(night));
  }

  lemma ReproduceOpens(legacy: Option<string>, r: Reader)
    requires r.fence == 0
    ensures ReadItems(legacy, r, ["## Reproduce", ""]) == r.(inModules := false, owner := None)
  {
    assert SingleLine("## Reproduce") && !IsSpace('e');
    hide ReadItems, SingleLine, IsSpace;
    ClosedSection(legacy, r, "## Reproduce");
  }

  lemma ReproduceShape(night: Night) returns (script: string)
    ensures ReproduceItems(night)
         == ["## Reproduce", ""] + [night.prose.batch, night.prose.rerun, ""] + [FencedBlock(script, "sh")] + [""]
  {
    script := match night.commit
      case None => night.command
      case Some(commit) => "git checkout " + commit + "\n" + night.command;
    hide FencedBlock;
  }

  lemma ScriptRead(legacy: Option<string>, r: Reader, script: string)
    requires r.fence == 0
    ensures ReadItems(legacy, r, [FencedBlock(script, "sh")]) == r
  {
    assert Language("sh");
    hide *;
    BlockIsInert(legacy, r, script, "sh");
    ReadOneItem(legacy, r, FencedBlock(script, "sh"));
  }

  /** The reproduction script is fenced; the section closes the last module's region. */
  lemma ReproduceRead(legacy: Option<string>, r: Reader, night: Night)
    requires Fileable(night) && r.fence == 0
    ensures ReadItems(legacy, r, ReproduceItems(night)) == r.(inModules := false, owner := None)
  {
    hide *;
    var closed := r.(inModules := false, owner := None);
    var script := ReproduceShape(night);
    var prose := [night.prose.batch, night.prose.rerun, ""];
    FileableParts(night);
    Blank();
    ReproduceOpens(legacy, r);
    InertItems(legacy, closed, prose);
    ScriptRead(legacy, closed, script);
    BlankRead(legacy, closed);
    Chain(legacy, r, ["## Reproduce", ""], prose, [FencedBlock(script, "sh")], [""]);
  }

  lemma AutomationOpens(legacy: Option<string>, r: Reader)
    requires r.fence == 0
    ensures ReadItems(legacy, r, [AUTOMATION_HEADING, ""]) == r.(inModules := false, owner := None)
  {
    assert SingleLine(AUTOMATION_HEADING) && !IsSpace('n');
    hide ReadItems, SingleLine, IsSpace;
    ClosedSection(legacy, r, AUTOMATION_HEADING);
  }

  lemma AutomationRead(legacy: Option<string>, r: Reader, instruction: string)
    requires Plain(instruction) && r.fence == 0
    ensures ReadItems(legacy, r, [AUTOMATION_HEADING, "", instruction]).found == r.found
  {
    hide *;
    var closed := r.(inModules := false, owner := None);
    AutomationOpens(legacy, r);
    InertItems(legacy, closed, [instruction]);
    ReadItemsAppend(legacy, r, [AUTOMATION_HEADING, ""], [instruction]);
    assert [AUTOMATION_HEADING, "", instruction] == [AUTOMATION_HEADING, ""] + [instruction];
  }

  function Front(night: Night): seq<string> {
    HeaderItems(night) + ControlItems(night) + [""]
  }

  lemma FrontRead(legacy: Option<string>, night: Night)
    requires Fileable(night)
    ensures ReadItems(legacy, START, Front(night)) == START
  {
    assert Front(night) == HeaderItems(night) + ControlItems(night) + [""] + [];
    hide *;
    HeaderRead(legacy, night);
    ControlRead(legacy, night);
    BlankRead(legacy, START);
    InertItems(legacy, START, []);
    Chain(legacy, START, HeaderItems(night), ControlItems(night), [""], []);
  }

  lemma BodyShape(night: Night)
    ensures BodyItems(night)
         == (Front(night) + ModuleItems(night) + [""] + ReproduceItems(night))
            + [AUTOMATION_HEADING, "", night.prose.instruction]
  {
    hide HeaderItems, ControlItems, ModuleItems, ReproduceItems;
  }

  /** The items of the body, read one after another. */
  lemma ItemsRead(legacy: Option<string>, night: Night)
    requires Fileable(night)
    ensures ReadItems(legacy, START, BodyItems(night)).found == GatheredAll(None, night.attempts, ByLabel(night.outcomes))
  {
    assert START.fence == 0 && START.found == [];
    hide *;
    var inside := ReadItems(legacy, START, ModuleItems(night));
    var closed := inside.(inModules := false, owner := None);
    BodyShape(night);
    FileableParts(night);
    FrontRead(legacy, night);
    ModulesRead(legacy, START, night);
    assert [] + GatheredAll(None, night.attempts, ByLabel(night.outcomes)) == GatheredAll(None, night.attempts, ByLabel(night.outcomes));
    BlankRead(legacy, inside);
    ReproduceRead(legacy, inside, night);
    Chain(legacy, START, Front(night), ModuleItems(night), [""], ReproduceItems(night));
    AutomationRead(legacy, closed, night.prose.instruction);
    ReadItemsAppend(legacy, START, Front(night) + ModuleItems(night) + [""] + ReproduceItems(night),
                    [AUTOMATION_HEADING, "", night.prose.instruction]);
  }

  lemma InstructionLast(night: Night) returns (init: seq<string>)
    ensures BodyItems(night) == init + [night.prose.instruction]
  {
    BodyShape(night);
    hide *;
    init := Front(night) + ModuleItems(night) + [""] + ReproduceItems(night) + [AUTOMATION_HEADING, ""];
    assert [AUTOMATION_HEADING, "", night.prose.instruction] == [AUTOMATION_HEADING, ""] + [night.prose.instruction];
  }

  /** The body is read as what its members' lines yield, one after another. */
  lemma BodyGathers(night: Night)
    requires Fileable(night)
    ensures Parsed(JoinLines(BodyItems(night))) == GatheredAll(None, night.attempts, ByLabel(night.outcomes))
  {
    var items, lines := BodyItems(night), SplitLines(JoinLines(BodyItems(night)));
    assert Parsed(JoinLines(items)) == ReadLines(FirstTarget(lines), START, lines).found;
    hide *;
    FileableParts(night);
    var init := InstructionLast(night);
    TextLines.LinesOfBody(init, night.prose.instruction);
    ItemsAreLines(FirstTarget(lines), START, items);
    ItemsRead(FirstTarget(lines), night);
  }

  // -- What is kept ------------------------------------------------------------------------------

  /** Only a heading that reads back makes its own path the owner. */
  lemma OwnedByPath(owner: Option<string>, path: string)
    requires SingleLine(path) && owner != Some("")
    ensures OwnerAfter(owner, path) == Some(path) <==> Readable(path) || path == " "
    ensures OwnerAfter(owner, path) != Some("")
  {
    HeadingReadsBack(path);
    if path != "" {
      assert '\n' !in path;
      HeadingReads(path);
    }
    hide ModuleHeading, MatchSpan;
  }

  lemma {:induction false} OwnerNotEmpty(attempts: seq<Attempt>)
    requires forall i :: 0 <= i < |attempts| ==> TidyAttempt(attempts[i])
    ensures OwnerOf(None, attempts) != Some("")
  {
    hide OwnerAfter, SingleLine;
    if attempts != [] {
      OwnerNotEmpty(attempts[..|attempts| - 1]);
      OwnedByPath(OwnerOf(None, attempts[..|attempts| - 1]), attempts[|attempts| - 1].slot.path);
    }
  }

  /** One member yields its verdict exactly when its lines keep it, and never more than was expected of it. */
  lemma MemberKept(owner: Option<string>, a: Attempt, byLabel: map<string, Filed>)
    requires TidyAttempt(a) && owner != Some("")
    requires a.candidate.Some? && a.candidate.value.name in byLabel ==>
               byLabel[a.candidate.value.name].name == a.candidate.value.name
    ensures var got := Gathered(OwnerAfter(owner, a.slot.path), a, byLabel);
            && |got| <= |VerdictOf(a, byLabel)|
            && (got == VerdictOf(a, byLabel) <==> (Returned(a, byLabel) ==> LinesKept(a, byLabel)))
  {
    hide ParseVerdictLine, VerdictLine, OwnerAfter, Readable, LabelKept, VerdictKept, Contains, Rendered, SingleLine, Credit,
         ControlVerdict;
    OwnedByPath(owner, a.slot.path);
    if a.candidate.Some? && a.candidate.value.name in byLabel {
      var o := byLabel[a.candidate.value.name];
      VerdictReadsBack(o);
      var read := ParseVerdictLine(VerdictLine(o));
      if ControlVerdict(o.verdict) {
        ControlIsKnown(o.verdict);
        KnownVerdictReads(o);
        ControlUncredited(OwnerAfter(owner, a.slot.path), read, o.verdict);
      } else {
        CreditedAs(OwnerAfter(owner, a.slot.path), read, a.slot.path, o.name, o.verdict);
      }
    }
  }

  lemma ControlUncredited(owner: Option<string>, read: Option<(string, string)>, verdict: string)
    requires ControlVerdict(verdict) && (read.Some? ==> read.value.0 == verdict)
    ensures Credit(Reader(0, true, owner, []), read).found == []
  {
  }

  lemma CreditedAs(owner: Option<string>, read: Option<(string, string)>, path: string, name: string, verdict: string)
    requires !ControlVerdict(verdict)
    ensures |Credit(Reader(0, true, owner, []), read).found| <= 1
    ensures Credit(Reader(0, true, owner, []), read).found == [ModuleVerdict(path, name, verdict)]
            <==> owner == Some(path) && read == Some((verdict, name))
  {
    var found := Credit(Reader(0, true, owner, []), read).found;
    if found == [ModuleVerdict(path, name, verdict)] {
      assert found[0] == ModuleVerdict(path, name, verdict);
    }
    hide ControlVerdict;
  }

  lemma ControlIsKnown(verdict: string)
    requires ControlVerdict(verdict)
    ensures Known(verdict)
  {
  }

  lemma AppendEqual<T>(a: seq<T>, b: seq<T>, c: seq<T>, d: seq<T>)
    requires |a| <= |c| && |b| <= |d|
    ensures a + b == c + d <==> a == c && b == d
  {
    if a + b == c + d {
      assert |a| == |c|;
      assert a == (a + b)[..|a|] && c == (c + d)[..|a|];
      assert b == (a + b)[|a|..] && d == (c + d)[|a|..];
    }
  }

  lemma {:induction false} BlockKept(attempts: seq<Attempt>, byLabel: map<string, Filed>)
    requires forall i :: 0 <= i < |attempts| ==> TidyAttempt(attempts[i])
    requires forall name :: name in byLabel ==> byLabel[name].name == name
    ensures |GatheredAll(None, attempts, byLabel)| <= |VerdictsOf(attempts, byLabel)|
    ensures GatheredAll(None, attempts, byLabel) == VerdictsOf(attempts, byLabel) <==>
              forall i :: 0 <= i < |attempts| && Returned(attempts[i], byLabel) ==> LinesKept(attempts[i], byLabel)
  {
    hide TidyAttempt, OwnerAfter, Gathered, VerdictOf, Returned, LinesKept;
    if attempts != [] {
      var n := |attempts| - 1;
      var front := attempts[..n];
      BlockKept(front, byLabel);
      OwnerNotEmpty(front);
      MemberKept(OwnerOf(None, front), attempts[n], byLabel);
      AppendEqual(GatheredAll(None, front, byLabel), Gathered(OwnerOf(None, attempts), attempts[n], byLabel),
                  VerdictsOf(front, byLabel), VerdictOf(attempts[n], byLabel));
      assert forall i :: 0 <= i < n ==> front[i] == attempts[i];
    }
  }

  lemma LabelsAreNames(outcomes: seq<Filed>, name: string)
    requires name in ByLabel(outcomes)
    ensures ByLabel(outcomes)[name].name == name
  {
    ByLabelIsLast(outcomes, name);
  }

  /**
   Filing and reading back undo each other: the body of a night is read as exactly the verdicts of its
   block, in block order, if and only if every member that has a verdict has its path, its label and its
   verdict kept by the lines that carry them. The control, orphans, barren members and quoted source
   contribute nothing, whatever they hold.
   */
  lemma BodyReadsBack(night: Night)
    requires Fileable(night)
    ensures var byLabel := ByLabel(night.outcomes);
            Parsed(JoinLines(BodyItems(night))) == VerdictsOf(night.attempts, byLabel) <==>
              forall i :: 0 <= i < |night.attempts| && Returned(night.attempts[i], byLabel) ==>
                LinesKept(night.attempts[i], byLabel)
  {
    BodyGathers(night);
    assert forall i :: 0 <= i < |night.attempts| ==> TidyAttempt(night.attempts[i]);
    hide *;
    forall name | name in ByLabel(night.outcomes)
      ensures ByLabel(night.outcomes)[name].name == name
    {
      LabelsAreNames(night.outcomes, name);
    }
    BlockKept(night.attempts, ByLabel(night.outcomes));
  }

  /** Paths and labels without an edge space, and a verdict of the harness for every mutation handed over. */
  predicate Ordinary(night: Night) {
    forall i :: 0 <= i < |night.attempts| ==>
      && Readable(night.attempts[i].slot.path)
      && (Returned(night.attempts[i], ByLabel(night.outcomes)) ==>
            && Readable(night.attempts[i].candidate.value.name)
            && Known(ByLabel(night.outcomes)[night.attempts[i].candidate.value.name].verdict))
  }

  /** Every night the sweep itself can produce is read back. */
  lemma OrdinaryReadsBack(night: Night)
    requires Fileable(night) && Ordinary(night)
    ensures Parsed(JoinLines(BodyItems(night))) == VerdictsOf(night.attempts, ByLabel(night.outcomes))
  {
    BodyReadsBack(night);
    var byLabel := ByLabel(night.outcomes);
    forall i | 0 <= i < |night.attempts| && Returned(night.attempts[i], byLabel)
      ensures LinesKept(night.attempts[i], byLabel)
    {
      OrdinaryKept(night.attempts[i], byLabel, night.outcomes);
    }
  }

  lemma OrdinaryKept(a: Attempt, byLabel: map<string, Filed>, outcomes: seq<Filed>)
    requires byLabel == ByLabel(outcomes) && Returned(a, byLabel)
    requires Readable(a.slot.path) && Readable(a.candidate.value.name) && Known(byLabel[a.candidate.value.name].verdict)
    ensures LinesKept(a, byLabel)
  {
    var o := byLabel[a.candidate.value.name];
    LabelsAreNames(outcomes, a.candidate.value.name);
    hide ByLabel, Readable, Contains, TickFollows;
    KnownVerdictsArePlain(o.verdict);
  }

  /** `build_payload` and `parse_body` together. */
  method FileAndRead(night: Night) returns (found: seq<ModuleVerdict>)
    requires Fileable(night)
    ensures var byLabel := ByLabel(night.outcomes);
            found == VerdictsOf(night.attempts, byLabel) <==>
              forall i :: 0 <= i < |night.attempts| && Returned(night.attempts[i], byLabel) ==>
                LinesKept(night.attempts[i], byLabel)
    ensures Ordinary(night) ==> found == VerdictsOf(night.attempts, ByLabel(night.outcomes))
  {
    hide *;
    var body := BuildBody(night);
    BodyReadsBack(night);
    if Ordinary(night) {
      OrdinaryReadsBack(night);
    }
    found := ParseBody(body);
  }
}
