# Verified models of the development tools

Dafny models of the tools that decide what this repository may believe about itself, with proofs of
what those tools are for. `dafny verify dfyconfig.toml` checks the whole project.

- **Mutation harness** (`MutateEdits`, `MutateRun`, `MutatePool`). A source tree is a
  mutable map from path to contents; landing an edit, restoring it and rolling a composite back are
  methods on it, each proved equal to a specification function. The batch is a step relation in which
  the environment picks the job that moves, the write that fails, how the suite ends and what it leaves
  in the mutated files. The safety theorem quantifies over every run of that relation.
- **Red-team sweep** (`SweepCensus`, `SweepMutations`, `SweepVerdict`, `MislabelledNight`, `Delimiters`,
  `SweepFiling`, `KillRates`, `SweepRoundTrip`, `KillReaderLaws`). Modular coverage with laps, anchors that
  must mean the same to their generator and to the applier, a Markdown writer and a backtracking reader that
  undo each other, and whom that reader credits in any body.
- **Wrap-aware text reader** (`ClaimSurfaces`). Collapsing and splitting text beside an origin map. The
  specification is independent of the algorithm: the *ink* of a text is its characters that are not
  whitespace, each with its line, and every stage is proved to keep it; what each reader makes of a line, and
  where blocks and sentences end, is stated by position.
- **Migration replay** (`EvalCorpus`, `MigrationOrder`, `CorpusDrift`). Last-writer-wins replay, the
  withheld plane, the engine's layered walk over `dependsOn`, and conservation of anchors and revisions.
- **Exact agreement** (`Metrics`, `ConfigClaims`). A structural diff and its dotted paths, and a regular
  expression filter that never changes the result of the search behind it, whose patterns are also read word
  by word.
- `PyText` and `TextLines` hold the Python string operations the others share, and `Verdicts` the names.

A module named `...Laws` proves properties of the modules it imports.

## Where the code and its documentation disagree

The models follow the code. Each disagreement is a lemma with the exact condition or a concrete input.

- `_restore` promises the identity, but `read_text` translates newlines: a file holding a carriage return
  is not put back, and the digest check says so. `ApplyThenRestore` is an equivalence in that condition,
  `LandFirstCarries` says that such an edit rewrites every newline of its file with the anchor, and
  `RefusedEditChangesTree` is the one refusal after a write that leaves a change unrecorded; `ReturnsAreLost`
  and `RefusedYetChanged` show them on one file each.
- An expression anchor counted once by `str.count` can still occur twice, overlapping itself: where the
  text of a comparison over several lines also ends the comment before it, the edit lands in the comment
  and the operator the candidate names is left as it was (`AnchorPlacedIff`, `OverlappingAnchorMisses`).
- A mutation labelled `__control__` is read as a second control by `classify`, which then calls a
  trusted run untrusted (`ReadingAgreesWithExit`, `MislabelledMutationMisread`). The sweep, its only
  caller, submits labels that all open with `sweep-`, so its own nights are not affected.
- `_topological_order` takes a whole batch of ready migrations at a time, so a list whose ids ascend and
  whose dependencies all point earlier can still be reordered. The loader's rule
  `migration-order-not-topological` therefore does not make its manifest-order replay the engine's
  (`UnchangedIff`, `ManifestReplayIsApplyIff`, `ManifestReplayDiverges`).
- The loader accepts a corpus in which a withheld migration retires an item the visible plane serves;
  its two builds then answer differently for a reason no equality query exempts (`BuildsAgreeIff`,
  `WithheldDeprecationDiverges`).
- A key spelled `<root>` is reported by `differing_paths` as the root itself is (`RootKeyCollides`,
  `LabelsTellApartIff`).

## Assumptions

- Writes are atomic: a write that fails has either not happened or happened whole.
- A digest is an injective function of the contents of a file.
- The suite may change any file the running mutation names, and nothing else in the tree.
- Strings are sequences of Unicode scalar values, with the character classes of Unicode 15.1; file text is
  UTF-8 or is refused as not text.
- Migration ids and file names order alike, as names that open with a ULID do.

## Model

| member | source | states |
|---|---|---|
| MutateEdits.Tree.ApplyEdit | tools/mutate_edits.py:122-152 | One anchored edit on one tree: accepted only when the file is text and the anchor is counted once, with the tree left exactly as each refusal leaves it, wherever a write fails |
| MutateEdits.Tree.Restore | tools/mutate_edits.py:188-200 | Writes the recorded text back and raises unless the digest is the one taken before the edit |
| MutateEdits.Tree.Apply | tools/mutate_edits.py:155-185 | A composite lands edit by edit; on any exception what landed is unwound in reverse and the exception goes on |
| MutateEdits.Tree.RestoreEvery | tools/mutate_edits.py:203-224 | Undoes every edit in reverse and reports before, mutated and restored digests |
| MutateEditsLaws.LandsIff | tools/mutate_edits.py:134-152 | An edit lands if and only if its anchor matches once, it changes the file and its replacement holds no carriage return |
| MutateEditsLaws.RefusedEditChangesTree | tools/mutate_edits.py:143-152 | The checks made after the write leave an unrecorded change exactly when the replacement holds a carriage return; in every other refusal the tree is untouched |
| MutateEditsLaws.RefusedYetChanged | tools/mutate_edits.py:143-152 | A concrete edit that is refused with the file already changed |
| MutateEditsLaws.LandFirstCarries | tools/mutate_edits.py:164-177 | A composite that succeeds leaves each edit's one occurrence replaced in turn in the text as it was read; nothing else has changed, newlines included, exactly when no named file held a carriage return |
| MutateEditsLaws.RestoreReturnsTree | tools/mutate_edits.py:203-224 | A restore that reports success has put the tree back, whatever the suite wrote to the mutated files, whatever write failed and however many edits share a file |
| MutateEditsLaws.RestoredWasPlain | tools/mutate_edits.py:188-224 | Whatever write failed, a restore that reports success has met no file with a carriage return |
| MutateEditsLaws.ApplyThenRestore | tools/mutate_edits.py:155-224 | Apply then restore is the identity on the tree for any list of edits, exactly when no named file holds a carriage return, which is exactly when the mutated tree carried the edits and nothing else; with exactly three report entries an edit |
| MutateEditsLaws.ReturnsAreLost | tools/mutate_edits.py:134-200 | A concrete file that ends its lines with CR LF: landing one edit rewrites its newline, and undoing the edit raises with the newline still rewritten |
| MutateEditsLaws.TrailKeyInjective | tools/mutate_edits.py:209-223 | No two digests of a report share a key, whatever characters a path holds |
| MutateEditsLaws.ReportsEveryEdit | tools/mutate_edits.py:217-224 | The report holds each edit's own three digests, the restored one being the one taken before it |
| MutateEditsLaws.FailedApplyUnwinds | tools/mutate_edits.py:155-185 | A composite that fails at edit k unwinds to the initial tree, with the exact condition in carriage returns under which it does |
| MutateEditsLaws.PlainBatchUnwinds | tools/mutate_edits.py:155-185 | Without carriage returns a failed composite always unwinds to the initial tree |
| MutateEdits.DigestTargets | tools/mutate_edits.py:227-239 | Every path the run intends to mutate, digested as it is in the checkout, absent ones included |
| MutateEditsLaws.CheckoutMoved | tools/mutate_edits.py:227-247 | The integrity check reports exactly the targets whose file changed, appeared or went during the run |
| MutateRun.RunControl | tools/mutate_run.py:306-343 | The control runs the suite on the tree as it is; what it is judged by is `MutateRunLaws.ControlVerdicts` |
| MutateRun.RunMutation | tools/mutate_run.py:346-404 | Apply, run, restore exactly once however the suite ended, then judge, by what `MutateRunLaws.MutationVerdict` says; a job that yields an outcome ran on its tree with exactly its edits and leaves it as it found it |
| MutateRun.OutcomeLeavesTree | tools/mutate_run.py:358-383 | Whatever writes failed, a restore that completes has undone the edits, and the tree the suite saw was the starting one with those edits and nothing else |
| MutateRunLaws.SummariseMeans | tools/mutate_run.py:242-246 | The summary is the last line of the output that is not blank, or `(no output)` when all are; the failures are the first twenty lines that open with FAILED or ERROR, in order |
| MutateRunLaws.ConcludesMeans | tools/mutate_run.py:249-269 | A run is taken as concluded exactly when its last line that is not blank says passed, failed or error, in any case of letters |
| MutateRunLaws.ProgressIsInconclusive | tools/mutate_run.py:256-268 | Output whose last written line is the progress marker of a truncated run concludes nothing, whatever came before it |
| MutateRunLaws.MutationVerdict | tools/mutate_run.py:384-404 | A mutation is HUNG when the clock ran out, ERROR when its run concluded nothing, and otherwise SURVIVED or KILLED by the return code alone |
| MutateRunLaws.ControlVerdicts | tools/mutate_run.py:306-343 | A control that hung or concluded nothing is an error, and otherwise green or red by the return code alone |
| MutateRunLaws.HangMeans | tools/mutate_run.py:279-303 | What is kept of a hang: the message when nothing was printed, the first twenty failures where there are any, and otherwise the line it had got to |
| MutatePool.WorkersFor | tools/mutate.py:811-813 | At least one tree, never more trees than jobs, and never more than were asked for |
| MutatePoolLaws.Invariants | tools/mutate.py:808-850 | Tree ownership, cleanliness of queued and held trees, and the outcome list are invariant over every interleaving and every placement of failures |
| MutatePoolLaws.TreesAreNeverShort | tools/mutate.py:815-833 | Each tree is on the queue or held by exactly one job, queue length plus held trees is the number of workers, and taking a tree never blocks |
| MutatePoolLaws.DirtyTreeMeansFailure | tools/mutate.py:815-845 | A tree on the queue that is not pristine exists only when some job's future holds an exception |
| MutatePoolLaws.FailureForcesTwo | tools/mutate.py:1141-1176 | An exception in any job forces exit code 2 |
| MutatePoolLaws.EveryJobReportedOnce | tools/mutate.py:834-850 | A batch that does not abort reports exactly one outcome for every submitted mutation |
| MutatePoolLaws.JobsStartInOrder | tools/mutate.py:829-833 | In every state of every run the jobs that have started are the first ones submitted |
| MutatePoolLaws.ExitMeans | tools/mutate.py:1126-1176 | For every run that ends: the exit is 2 unless nothing aborted it, the checkout stood still, every job came back, every control concluded green and every mutation hung or concluded; it is then 1 exactly when some mutation hung or came out green, and 0 otherwise |
| MutatePoolLaws.TrustworthyExit | tools/mutate.py:808-1207 | Whole-run safety: if the batch exits 0 or 1, every suite ran on the pristine tree with exactly its own mutation's edits and not a newline changed besides, the control on the pristine tree, and every tree is pristine again |
| MutatePoolLaws.ZeroMeansAllKilled | tools/mutate.py:1126-1176 | Exit 0 means a red suite for every mutation and a green one for every control, each with a last written line that says passed, failed or error |
| MutatePoolLaws.MovesAreTheJob | tools/mutate.py:815-833 | The moves a mutation's job makes on its tree in the concurrent machine are, end to end, the sequential job |
| MutatePoolLaws.MovesAreTheControl | tools/mutate.py:815-833 | So are the moves of a control's job, which leaves its tree alone |
| MutatePoolLaws.RunsAreBounded | tools/mutate.py:834-850 | Every schedule ends: a run has no more steps than a budget every step draws on |
| MutatePoolLaws.NeverStuck | tools/mutate.py:815-850 | No reachable state is stuck before the batch is over |
| SweepVerdict.ReadingAgreesWithExit | tools/sweep_verdict.py:122-156 | Over every run of every batch with a control and a mutation, the reading is clean, survivors or untrusted exactly as the harness exits 0, 1 or 2, except exactly when the exit is trusted and a mutation carries the control's label |
| SweepVerdictLaws.ClassifyMeans | tools/sweep_verdict.py:122-156 | For any record and any exit code: clean exactly on exit 0 with one green control beside exactly the submitted mutations, all killed; survivors exactly on exit 1 with the same record whole and some mutation SURVIVED or HUNG; untrusted otherwise |
| SweepVerdictLaws.UnheldMeans | tools/sweep_verdict.py:130-156 | The names a reading reports are those of the mutations SURVIVED or HUNG, each of them, in the order of the record |
| SweepVerdictLaws.NamesAreKnown | tools/sweep_filing.py:71-73 | Each verdict the harness writes has a name of its own, one the filer knows, and the reader tells controls and unheld mutations apart by it |
| MislabelledNight.MislabelledMutationMisread | tools/sweep_verdict.py:122-156 | A whole run of a batch whose one mutation carries the control's label: the control is green, the mutation is killed, the harness exits 0 and the reading is untrusted |
| SweepVerdict.CleanNight | tools/sweep_verdict.py:122-156 | A clean reading means a green control and a red suite for every submitted mutation, each on its own tree |
| SweepCensus.Block | tools/sweep_census.py:211-233 | The block is the next positions of the rotation, wrapping, each with its census index and lap; an empty census or block is refused |
| SweepCensus.Cover | tools/sweep_census.py:129-157 | Any ceil(len / size) consecutive runs hit every index, two indices differ by at most one visit, and the surplus over one visit each is less than a block |
| SweepCensus.EveryFileAttacked | tools/sweep_census.py:18-31 | Every file of a fixed census is a slot of some run of any such window |
| SweepCensus.BlockFollowsRotation | tools/sweep_census.py:192-233 | The paths of a block are the head of the rotation, started again when the block is longer than the census |
| SweepCensus.OneRunAWeek | tools/sweep_census.py:129-140 | Two dates are one run exactly within one seven-day bucket, and a week later is the next run |
| SweepCensus.ConsecutiveVisits | tools/sweep_census.py:160-176 | Two consecutive visits to one census index have laps differing by exactly one, whatever the block size |
| SweepMutations.Candidates | tools/sweep_mutations.py:368-421 | Every hit is emitted under its own index or reported as skipped |
| SweepMutations.ForBlock | tools/sweep_mutations.py:424-456 | One attempt a slot, barren slots included, with the pick of the slot's own lap; a block that asks nothing is refused |
| SweepMutationsLaws.EachCandidateOnce | tools/sweep_mutations.py:150-174 | Of any n consecutive visits to a file with n different candidates, exactly one picks each candidate |
| SweepMutationsLaws.AttemptRun | tools/sweep_mutations.py:424-456 | A run of a date attempts the slots of its block with their picks, or is refused exactly when no file of the block offers a candidate |
| SweepMutationsLaws.EachAttemptedOnce | tools/sweep_mutations.py:150-174 | The same over the runs that make the visits, whatever the block size: exactly one of the n attempts is of each candidate, and none of those runs is refused |
| SweepMutationsLaws.NextVisitAsksAnother | tools/sweep_mutations.py:150-174 | A file with more than one candidate is asked another one on its next visit |
| SweepMutationsLaws.EmittedApart | tools/sweep_mutations.py:368-421 | Candidates made under different labels are all different |
| SweepMutationsLaws.FlipsUndo | tools/sweep_mutations.py:60-66 | Every operator flips to another one, which flips back |
| SweepMutationsLaws.CandidateTells | tools/sweep_mutations.py:368-421 | A candidate names the operator that stands at its hit, what it becomes, its line and its anchor |
| SweepMutationsLaws.LineNumberMeans | tools/sweep_mutations.py:368-421 | The line a candidate is reported on is the one its token lies in |
| SweepMutationsLaws.AnchorAccepted | tools/sweep_mutations.py:314-330 | An anchor the generator emits is always accepted by the applier on the source it was read from |
| SweepMutationsLaws.AnchorPlacedIff | tools/sweep_mutations.py:314-330 | The applier writes the one-token change the candidate names exactly when the anchor does not also occur further left, overlapping itself |
| SweepMutationsLaws.LineAnchorLands | tools/sweep_mutations.py:307-330 | A single-line anchor from the line rung cannot overlap another occurrence of itself, so it always changes exactly its own token |
| SweepMutationsLaws.OverlappingAnchorMisses | tools/sweep_mutations.py:314-330 | A concrete comparison whose anchor is counted once and yet lands in the comment before it, leaving the operator the candidate names as it was |
| SweepMutationsLaws.EveryCandidateLands | tools/sweep_mutations.py:368-421 | Every candidate of a file is a mutation the harness will land on that file |
| SweepMutations.LineIndex | tools/sweep_mutations.py:192-223 | The lines and the offset each starts at |
| SweepMutationsLaws.LinesRejoin | tools/sweep_mutations.py:192-223 | The lines rejoin to the source |
| SweepMutationsLaws.LineAtStart | tools/sweep_mutations.py:192-223 | Each start is the true offset of its whole line |
| SweepMutationsLaws.DecodeIff | tools/sweep_mutations.py:226-237 | UTF-8 by section 3 of RFC 3629: bytes decode to a text exactly when they are its encoding; truncated, overlong and surrogate sequences are refused |
| SweepMutationsLaws.OffsetExact | tools/sweep_mutations.py:226-237 | A byte column is accepted exactly when it is some character's, and then maps to that character's own position in the source |
| SweepMutationsLaws.ColumnsIncrease | tools/sweep_mutations.py:226-237 | Offsets strictly increase along a line |
| SweepMutationsLaws.StartsIncrease | tools/sweep_mutations.py:192-237 | A later line starts past the end of an earlier one |
| Delimiters.InlineReadsBack | tools/sweep_filing.py:301-327 | Read as a code span by section 6.1 of CommonMark 0.31, an inlined text gives itself back exactly when it is non-empty, one line, and not both starting and ending in a space (all spaces excepted) |
| KillRatesLaws.BlockIsInert | tools/audit/sweep_kill_rates.py:185-211 | The lines of a fenced block attribute nothing and leave the fence closed, for every text and every language without a tick |
| SweepFilingLaws.SpanReadsBack | tools/sweep_filing.py:89-95 | The backtracking span pattern finds an inlined value exactly when the value is non-empty, one line, and has no edge space the pattern would take for padding; a lone space is found exactly when no later tick of its line has the end of the line or a bracket behind it |
| SweepFilingLaws.FollowsMeans | tools/sweep_filing.py:89-110 | What may stand behind a span: the end of the line for a heading, that or the opening bracket of the seconds for a label, nothing for a verdict |
| SweepFilingLaws.HeadingReadsBack | tools/sweep_filing.py:284-286 | A module heading reads back exactly when its path is such a value or a lone space |
| SweepFilingLaws.KnownVerdictReads | tools/sweep_filing.py:98-128 | A line of a known verdict is read as that verdict if at all, and reads back exactly when the line keeps its label |
| SweepFilingLaws.VerdictReadsBack | tools/sweep_filing.py:289-298 | A verdict line, known verdict or not, reads back exactly when its label is kept, its verdict is known or a span that reads back, and no emphasis mark stands before a tick inside that span |
| SweepFilingLaws.TailShows | tools/sweep_filing.py:289-298 | Behind its label a verdict line holds the seconds in brackets and, if there is one, the summary as a span |
| SweepFiling.ModuleSection | tools/sweep_filing.py:342-385 | One section per block member, barren ones included, with the last outcome that carries its label |
| SweepFiling.ControlSection | tools/sweep_filing.py:388-409 | The control walk and the orphans, in label order |
| SweepFilingLaws.SectionsMean | tools/sweep_filing.py:388-409 | Every copy of every outcome has one place: the control's under the control, those of a label the block submitted under their modules, all others as unattributed |
| SweepFilingLaws.HeaderShows | tools/sweep_filing.py:495-518 | The body opens with lines that give the run, how many slots were asked and how many were barren, the reading, the exit and the commit |
| SweepFilingLaws.DiffShows | tools/sweep_filing.py:330-339 | The block shown for a candidate holds, line by line, what it takes out behind a dash and what it puts in behind a plus |
| SweepFiling.SortByLabel | tools/sweep_filing.py:388-409 | The label order of that section: labels never fall, nothing is lost, and outcomes of one label keep their order |
| SweepFiling.BuildBody | tools/sweep_filing.py:495-532 | The body is the header, control, modules, reproduction and automation items joined by newlines |
| SweepRoundTrip.ByLabelIsLast | tools/sweep_filing.py:342-352 | The outcome shown for a label is the last one that carries it and is not the control's |
| KillRates.ParseBody | tools/audit/sweep_kill_rates.py:214-265 | The reading loop over the lines: fences, regions, owner and collected verdicts |
| KillReaderLaws.ParsedMeans | tools/audit/sweep_kill_rates.py:214-265 | For any body, filed or edited by hand: the verdicts collected are those of mutations on lines outside every fence that belong to a module, in order; a line belongs to the last heading under `## Modules`, to the legacy target under `## Verdicts` until a heading comes, and to nobody under any other section |
| KillReaderLaws.FirstTargetMeans | tools/audit/sweep_kill_rates.py:233-238 | The legacy target is that of the first line that states one, fenced or not |
| KillReaderLaws.TargetReadsBack | tools/audit/sweep_kill_rates.py:94-96 | A target line gives its path back exactly when a module heading would |
| KillReaderLaws.FenceMeans | tools/audit/sweep_kill_rates.py:132-132 | A fence is three or more ticks and no other tick to the end of the line |
| SweepRoundTrip.BodyReadsBack | tools/audit/sweep_kill_rates.py:214-265 | Filing and reading back undo each other: the body of any night of single-line values is read as exactly the verdicts of its block in block order, if and only if every member that has a verdict has its path, label and verdict kept by their lines; control, orphans, barren slots and quoted source contribute nothing |
| SweepRoundTrip.OrdinaryReadsBack | tools/sweep_filing.py:495-532 | Which holds whenever paths and labels have no edge space and the verdicts are the harness's own |
| SweepRoundTrip.FileAndRead | tools/sweep_filing.py:495-532 | Building the body and parsing it, as two loops one after the other, give the same list under the same condition |
| KillRates.TallyIssues | tools/audit/sweep_kill_rates.py:292-311 | One row for exactly the modules that have a verdict; its counters are the number of KILLED verdicts, of SURVIVED or HUNG ones and of all others of the module in all the issues, and its issues exactly those with a verdict of it |
| KillRates.RowGrows | tools/audit/sweep_kill_rates.py:303-310 | The step of the tally adds one verdict to exactly the counter it belongs to |
| KillRatesLaws.TallyConserves | tools/audit/sweep_kill_rates.py:292-311 | Killed, unheld and other, over all the rows, add up to every verdict seen in the issues |
| TextLines.LinesOfBody | tools/audit/sweep_kill_rates.py:214-240 | A text joined from items splits into the lines of the items in order |
| PyTextLaws.SplitLinesMeans | tools/mutate_run.py:242-246 | A text is its lines and what ends them, one after another: no line holds a break, only the last may lack one, and CR LF is one break |
| PyTextLaws.TranslateMeans | tools/mutate_edits.py:134-152 | A file is read with every CR LF, CR and LF as one LF and all else as it stands |
| PyTextLaws.BeforeMeans | tools/sweep_filing.py:388-409 | Labels are ordered by the first character they do not share, a text before its extensions |
| ClaimSurfaces.RebuildOrigin | tools/audit/claim_surfaces.py:443-473 | The nested walk keeps one entry a whitespace run and one a character |
| ClaimSurfaces.Collapse | tools/audit/claim_surfaces.py:420-440 | Joined text and origin map, built in parallel and collapsed |
| ClaimSurfacesLaws.CollapseKeepsInk | tools/audit/claim_surfaces.py:420-473 | The origin map is as long as the text and every character that is not whitespace stands beside the line it was typed on: nothing lost, added, reordered or moved |
| ClaimSurfacesLaws.CollapsedIsNormal | tools/audit/claim_surfaces.py:420-440 | Collapsed text has no edge whitespace and only single spaces inside |
| ClaimSurfacesLaws.SplitIsCut | tools/audit/claim_surfaces.py:95-110 | Split sentences lie in the block one after another, one space apart, each already trimmed |
| ClaimSurfacesLaws.SplitIsSentences | tools/audit/claim_surfaces.py:95-110 | A block is cut behind every full stop, exclamation or question mark that whitespace follows, and nowhere else: every piece but the last ends in one, and none holds one directly before whitespace |
| ClaimSurfacesLaws.OneReading | tools/audit/claim_surfaces.py:95-110 | A text has only one list of pieces so cut |
| ClaimSurfacesLaws.FindLands | tools/audit/claim_surfaces.py:573-578 | Searching for a piece from the end of the one before always lands where it was cut |
| ClaimSurfaces.MarkdownBlocks | tools/audit/claim_surfaces.py:476-490 | Paragraph blocks with blockquote markers stripped, cut at blank lines and block starts |
| ClaimSurfaces.PythonBlocks | tools/audit/claim_surfaces.py:493-511 | Blocks cut at blank lines, comment markers stripped |
| ClaimSurfaces.YamlBlocks | tools/audit/claim_surfaces.py:514-536 | Runs of comment text, whole-line and inline |
| ClaimSurfaces.JsonBlocks | tools/audit/claim_surfaces.py:539-552 | One block a line that is not blank, escapes undone |
| ClaimSurfacesLaws.GroupsKeepLines | tools/audit/claim_surfaces.py:476-552 | Grouping lines into blocks neither loses nor repeats one |
| ClaimLinesLaws.BlocksAreParted | tools/audit/claim_surfaces.py:476-552 | The blocks are the longest runs of neighbouring lines that go on with one another: no line of a block could open one, and no block could be joined to the one before |
| ClaimLinesLaws.UnquotedMeans | tools/audit/claim_surfaces.py:75-75 | A line loses everything up to its last blockquote marker and one blank behind it |
| ClaimLinesLaws.UnmarkedStays | tools/audit/claim_surfaces.py:75-75 | A line without a blockquote marker is left alone |
| ClaimLinesLaws.StartsBlockMeans | tools/audit/claim_surfaces.py:81-81 | Behind its indent a line opens a block exactly when it is a heading, a list item, a table row, a fence or a rule, by position |
| ClaimLinesLaws.UncommentedMeans | tools/audit/claim_surfaces.py:84-84 | A comment marker at the head of a line is dropped with its colon and one blank |
| ClaimLinesLaws.YamlMeans | tools/audit/claim_surfaces.py:89-90 | The comment of a line is the whole-line one, or else begins at the first whitespace with a `#` behind it; a line without one separates blocks |
| ClaimLinesLaws.UnescapeReplaces | tools/audit/claim_surfaces.py:549-549 | Every escape is replaced where it is found from the left, none overlapping another, and nothing else is |
| ClaimSurfacesLaws.Sentences | tools/audit/claim_surfaces.py:565-588 | For any document: block by block the sentences are the block cut behind every stop that whitespace follows and nowhere else; they spell out what was typed, in order, each reported at the line that supplied its first character, and lines never go back |
| EvalCorpus.FinalStatusAndSensitivity | tools/eval/corpus.py:542-580 | The two dictionaries hold, for exactly the wanted items, where a last-writer-wins replay leaves them |
| EvalCorpus.WithheldItemIds | tools/eval/corpus.py:514-523 | Every item an operation of a withheld migration names, and no other |
| EvalCorpus.CheckStandsAlone | tools/eval/corpus.py:374-390 | No visible migration depends on one whose last entry is withheld |
| EvalCorpus.CheckTopological | tools/eval/corpus.py:393-417 | Every dependency is the id of an earlier entry |
| EvalCorpus.CheckNothingDisclosable | tools/eval/corpus.py:583-615 | No item of the withheld plane ends approved and within the ceiling |
| EvalCorpus.CheckRelevant | tools/eval/corpus.py:618-707 | Judged items exist, and those of enabled queries are served at default flags and not withheld; the first broken clause is reported |
| EvalCorpus.CheckJudgements | tools/eval/corpus.py:420-511 | The first broken rule on queries and judgements, each found by its own loop over sets: repeats, unknown and unjudged queries, overlap, emptiness and subsumed evidence |
| EvalCorpus.WithheldItemCoverage | tools/eval/corpus.py:710-737 | Each withheld item, in name order, with its final state and whether it is gate-tested |
| EvalCorpus.Load | tools/eval/corpus.py:205-249 | The loader reports the first broken of its rules in their order, and accepts exactly when none is; on success the coverage is of every withheld item and of no other |
| EvalCorpusLaws.NonInterference | tools/eval/corpus.py:542-580 | An item no withheld migration names ends in the same status and sensitivity in a full and in a visible-only replay |
| EvalCorpusLaws.LastWriterDecides | tools/eval/corpus.py:542-580 | An item's status and its sensitivity each end as the last migration that writes it says, whatever the others do |
| EvalCorpusLaws.RelevantInBothBuilds | tools/eval/corpus.py:618-707 | In an accepted corpus every relevant item of an enabled query is approved and within the ceiling in both builds |
| EvalCorpusLaws.VisibleIsClosed | tools/eval/corpus_build.py:153-156 | The visible migrations of an accepted corpus are closed under dependency and already in dependency order |
| EvalCorpusLaws.VisibleInFilenameOrder | tools/eval/corpus_build.py:153-156 | The selection keeps filename order |
| EvalCorpusLaws.CoveragePartitions | tools/eval/corpus.py:710-737 | A withheld item of an accepted corpus is covered by exactly one of the two clauses and is never served |
| EvalCorpusLaws.ServedMeans | packages/theurian-core/src/theurian/domain/enums.py:222-296 | Served at default flags is exactly approved and public or internal, a missing class being internal |
| EvalCorpusLaws.GateTestedMeans | tools/eval/corpus.py:62-91 | The statuses only a flag admits are drafts and proposals |
| EvalCorpusLaws.WithheldIsShut | tools/eval/corpus.py:583-615 | In an accepted corpus an approved item of the withheld plane is confidential or restricted |
| EvalCorpusLaws.AcceptedHasShape | tools/eval/corpus.py:205-249 | An accepted corpus has queries, judgements and migrations that do something, and a judgement that expects abstention has nothing relevant |
| EvalCorpusLaws.FullServesNoMore | tools/eval/corpus.py:583-615 | What the full build serves, the visible build serves in the same state |
| EvalCorpusLaws.BuildsAgreeIff | tools/eval/corpus.py:205-249 | The two builds of an accepted corpus serve the same items exactly when no item a withheld migration names is served by the visible migrations alone |
| EvalCorpusLaws.WithheldDeprecationDiverges | tools/eval/corpus.py:205-249 | A concrete corpus the loader accepts, with a judged query, whose two builds serve different items |
| MigrationOrder.TopologicalOrder | packages/theurian-core/src/theurian/domain/migration.py:426-451 | The walk fails exactly when some migrations wait for each other, and otherwise lists every migration once, layer by layer and by id within a layer |
| MigrationOrder.Ordered | packages/theurian-core/src/theurian/domain/migration.py:379-405 | Duplicate ids and missing dependencies are refused exactly where they occur, a cycle where the dependencies tangle; a success is a permutation in layer order |
| MigrationOrderLaws.LayersUnique | packages/theurian-core/src/theurian/domain/migration.py:426-451 | The dependencies alone fix the layer of every migration |
| MigrationOrderLaws.SortedUnique | packages/theurian-core/src/theurian/domain/migration.py:426-451 | Only one order of the same migrations is in layer order |
| MigrationOrder.OrderedIsUntangled | packages/theurian-core/src/theurian/domain/migration.py:437-445 | No list is in the engine's order where migrations wait for each other |
| MigrationOrderLaws.OneOrder | packages/theurian-core/src/theurian/domain/migration.py:426-451 | Two lists in the engine's order are one list, so the walk is deterministic whatever order migrations were handed in |
| MigrationOrderLaws.DependenciesFirst | packages/theurian-core/src/theurian/domain/migration.py:426-451 | Every dependency comes before what depends on it |
| MigrationOrderLaws.UnchangedIff | tools/eval/corpus.py:393-417 | A list whose ids ascend is left unchanged by the walk exactly when layers never fall along it |
| MigrationOrderLaws.NoEdgesMeansIdSort | tools/corpus_drift.py:564-599 | With no edge the walk is the plain ascending sort on id |
| MigrationOrderLaws.EarlierIsNotEnough | packages/theurian-core/src/theurian/domain/migration.py:426-451 | Ascending ids with every dependency pointing earlier and still reordered: a concrete graph |
| MigrationOrderLaws.ManifestReplayIsApply | tools/eval/corpus.py:393-417 | The manifest-order replay leaves an item where the engine's does whenever layers never fall along the migrations that name the item, however the others stand |
| MigrationOrderLaws.ManifestReplayIsApplyIff | tools/eval/corpus.py:393-417 | It does so exactly when, for status and for sensitivity, the writer listed last and the last writer of the highest layer write the same value |
| MigrationOrderLaws.ManifestIsWalkIff | tools/eval/corpus.py:393-417 | The manifest is the engine's order exactly when layers never fall along it |
| MigrationOrderLaws.ManifestReplayDiverges | tools/eval/corpus.py:393-417 | A corpus the loader accepts whose replay leaves an item public where the engine's order leaves it restricted |
| CorpusDrift.ReadMigration | tools/corpus_drift.py:868-921 | Every revision of a migration is placed under its path and id or reported, exactly once and in the order declared; a file with none is itself reported |
| CorpusDrift.ApplicationOrder | tools/corpus_drift.py:829-832 | A stable ascending sort on the inner id |
| CorpusDrift.CurrentOperations | tools/corpus_drift.py:924-955 | Exactly the revised items, each with the position applied last |
| CorpusDrift.Scan | tools/corpus_drift.py:781-847 | The whole scan: a refusal stops it, otherwise every file's own findings and every terminal revision's comparisons |
| CorpusDriftLaws.ScanStopsIff | tools/corpus_drift.py:781-847 | One migration that declares edges, or no migration at all, stops the scan with nothing compared; otherwise every finding is reported |
| CorpusDriftLaws.CompareConserves | tools/corpus_drift.py:657-727 | No anchor of a revision is dropped or doubled: one comparison each naming the same documents, one in all where there is none |
| CorpusDriftLaws.OneDigestOneDocument | tools/corpus_drift.py:700-727 | At most one real comparison a revision, exactly when one anchor is comparable, a digest is recorded and the document can be read or is gone, with its verdict |
| CorpusDriftLaws.CompareRecords | tools/corpus_drift.py:657-780 | Every comparison names its migration, item and revision; a real one holds the recorded digest to the digest of an anchor's own document, and they are equal exactly when it matched |
| CorpusDriftLaws.OneTerminalEach | tools/corpus_drift.py:924-955 | Exactly one terminal position for every revised item |
| CorpusDriftLaws.RevisionsConserved | tools/corpus_drift.py:834-835 | Revisions are terminal or superseded, and the superseded count is exact |
| CorpusDriftLaws.ReseedIsLocal | tools/corpus_drift.py:829-847 | Adding a file of any name that re-seeds one item under the greatest id: the scan keeps the files' own findings, replaces that item's comparisons by the new revision's, and leaves all others as they were, in order |
| CorpusDriftLaws.ExitMeans | tools/corpus_drift.py:1016-1171 | Exit 2 exactly on too few real comparisons, exit 1 exactly on a difference in a run that is not advisory; the floor outranks drift and keeps the comparisons |
| Metrics.DifferingPaths | tools/eval/metrics.py:111-137 | The recursive walk collects exactly the dotted paths of disagreement |
| MetricsLaws.EmptyMeansEqual | tools/eval/metrics.py:111-137 | Nothing is reported exactly when the two trees are equal, a truth value being equal to the number it stands for |
| MetricsLaws.TruthEquals | tools/eval/metrics.py:111-137 | A truth value equals itself and the number 1 or 0 it stands for, and nothing else |
| MetricsLaws.Symmetric | tools/eval/metrics.py:111-137 | The order of the two trees does not matter |
| MetricsLaws.ErasedAgree | tools/eval/metrics.py:111-137 | Erasing the places of disagreement, or any more, from both trees leaves equal trees |
| MetricsLaws.LabelInjective | tools/eval/metrics.py:120-135 | On keys that are not empty, hold no dot or bracket and are not the root's label, a dotted path names one place |
| MetricsLaws.SameLabelIff | tools/eval/metrics.py:120-135 | On keys that are not empty and hold no dot or bracket, two places share a dotted path exactly when they are one place, or the root and a top-level key spelled as the root's label |
| MetricsLaws.LabelsTellApartIff | tools/eval/metrics.py:120-135 | Over a set of such keys dotted paths tell all places apart exactly when the root's label is not one of the keys |
| MetricsLaws.PathsAreLabels | tools/eval/metrics.py:120-137 | On such keys what is reported is exactly the labels of the places of disagreement |
| MetricsLaws.ExemptMeansAgreement | tools/eval/report.py:588-591 | A report inside an exempt set means the trees agree everywhere else |
| MetricsLaws.SameAnswer | tools/eval/report.py:72-77 | With only the two build-identity fields reported, two responses are equal once those are erased |
| MetricsLaws.RootKeyCollides | tools/eval/metrics.py:120-137 | A key spelled as the root's label is reported as the root is |
| ConfigClaimsLaws.PrefilterIsWider | tools/audit/config_object_claims.py:546-559 | A sentence any named, pronoun or unscoped pattern of any object matches is one the pre-filter admits, whatever the object's own pattern |
| ConfigClaimsLaws.Sweep | tools/audit/config_object_claims.py:618-665 | With its pre-filter the sweep gives the rows it would give running every pattern on every sentence |
| ConfigClaims.FirstFound | tools/audit/config_object_claims.py:490-509 | The first shape of a member's keys that matches |
| ConfigRowsLaws.FirstShapeMeans | tools/audit/config_object_claims.py:490-509 | Named wherever the named shape is found; the pronoun and the unscoped shape only where no earlier one is, and never for a key that has a reader |
| ConfigRowsLaws.RowsMean | tools/audit/config_object_claims.py:562-665 | The rows are those of exactly the sentences that claim something of a member they refer to, in order; each lists all such members and their kinds, and its shape is that of the first, named ones before those at home |
| ConfigWordsLaws.DenialMeans | tools/audit/config_object_claims.py:174-187 | A negation and a verb, each a word of its own, with at most sixty characters of one clause between them |
| ConfigWordsLaws.NamedMeans | tools/audit/config_object_claims.py:179-184 | The named shape is exactly one of four claims about the object, word by word |
| ConfigWordsLaws.FoundMeans | tools/audit/config_object_claims.py:174-195 | Each of the three shapes is found in a text exactly when some words of it make that claim |
| ConfigClaimsLaws.UngroupedEscapes | tools/audit/config_object_claims.py:368-376 | Put into the template as a bare alternation, an object's second spelling alone would be a claim, and the pre-filter rejects it, which is why the objects are grouped |

## Left out

- SweepRoundTrip.BodyReadsBack: values that span lines are not covered; the filer's own comment says none does.
- ClaimSurfacesLaws.Sentences: bytes that are not UTF-8 are not modelled.
- EvalCorpus.Load: of the schemas, the spelling and length of ids, names and texts and the query classes are not modelled.
- SweepFiling.ModuleSection: of the wording of its census and change lines nothing is proved but that the reader passes over them.
- CorpusDrift.Scan: reading YAML, resolving paths, judging one anchor and hashing documents are inputs.
- MetricsLaws.EmptyMeansEqual: numbers are reals, so the rounding of floats and NaN are outside the model.
- MutatePoolLaws.TrustworthyExit: the file system, processes, timeouts and the building of trees are choices of the environment; `--fail-fast` acts inside the suite run.
- The prose of a filed issue is a parameter, and seconds and dates are already formatted; only its structure and its variable lines are modelled.
- Labels of candidates and the slugs they are made of: an input function from the hit and its index.
- Python's tokenizer and parser: tokens and the spans that bracket them are inputs.
- Restoring items, relations, aliases, owners and evidence in the corpus replay: operations of other kinds name an item and change neither status nor sensitivity, as in the code.
- `git`, `gh`, `uv` and `pytest` as processes, the launcher script, argument parsing and printing.
- `recall_at_k`, `mrr` and the other scores, release-note detection, emphasis stripping and the ledgers: they would add only easy members.
- The concrete inventory of watched objects: an object is any pattern at all.
- The storage engine, the search index and the wire protocol of the core package.
