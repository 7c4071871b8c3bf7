/**
 The evaluation corpus: migrations on two planes, replayed, cross-checked and built twice, once whole
 and once from the visible plane alone (tools/eval/corpus.py, tools/eval/corpus_build.py).
 */
module EvalCorpus {
  import opened PyText

  datatype Status = Draft | Proposed | Approved | Deprecated | Superseded | Rejected

  datatype Sensitivity = Public | Internal | Confidential | Restricted

  const DEFAULT_SENSITIVITY := Internal

  /** `may_surface`. */
  predicate MaySurface(status: Status, includeUnapproved: bool) {
    match status
    case Approved => true
    case Draft => includeUnapproved
    case Proposed => includeUnapproved
    case _ => false
  }

  /** `BUILD_CEILING_SENSITIVITIES`: what an `internal` ceiling lets through. */
  predicate WithinCeiling(s: Sensitivity) {
    s == Public || s == Internal
  }

  /** One operation of a migration; other kinds may name an item but set neither status nor sensitivity. */
  datatype Op =
    | CreateItem(item: string, sensitivity: Option<Sensitivity>)
    | UpsertRevision(item: string, status: Status, sensitivity: Option<Sensitivity>)
    | DeprecateItem(item: string)
    | ChangeSensitivity(item: string, level: Sensitivity)
    | OtherOp(named: Option<string>)
  {
    function Named(): Option<string> {
      if OtherOp? then named else Some(item)
    }
  }

  datatype Plane = Visible | Withheld

  /** A manifest entry with the migration its file holds. */
  datatype Entry = Entry(file: string, plane: Plane, id: string, dependsOn: seq<string>, operations: seq<Op>)

  datatype Query = Query(id: string, enabled: bool)

  /** A source anchor a correct answer cites, narrowed to one file or not. */
  datatype Evidence = Evidence(sourceUri: string, filePath: Option<string>)

  datatype Judgement = Judgement(
    queryId: string, relevant: seq<string>, forbidden: seq<string>, evidence: seq<Evidence>, expectAbstention: bool)

  // -- Replay ------------------------------------------------------------------------------------

  /** What the replay knows of one item. */
  datatype Final = Final(status: Option<Status>, sensitivity: Option<Sensitivity>)

  const UNSEEN := Final(None, None)

  function OrDefault(s: Option<Sensitivity>): Sensitivity {
    match s
    case None => DEFAULT_SENSITIVITY
    case Some(level) => level
  }

  /** One operation on the item it names. */
  function After(f: Final, op: Op): Final {
    match op
    case CreateItem(_, sensitivity) => f.(sensitivity := Some(OrDefault(sensitivity)))
    case UpsertRevision(_, status, sensitivity) => Final(Some(status), Some(OrDefault(sensitivity)))
    case DeprecateItem(_) => f.(status := Some(Deprecated))
    case ChangeSensitivity(_, level) => f.(sensitivity := Some(level))
    case OtherOp(_) => f
  }

  /** Where the operations leave one item: the last writer wins. */
  function Replayed(ops: seq<Op>, item: string): Final {
    if ops == [] then UNSEEN
    else
      var before, op := Replayed(ops[..|ops| - 1], item), ops[|ops| - 1];
      if op.Named() == Some(item) then After(before, op) else before
  }

  function OpsOf(entries: seq<Entry>): seq<Op> {
    if entries == [] then [] else OpsOf(entries[..|entries| - 1]) + entries[|entries| - 1].operations
  }

  function FinalOf(entries: seq<Entry>, item: string): Final {
    Replayed(OpsOf(entries), item)
  }

  /** The two dictionaries hold the replay of exactly the wanted items. */
  ghost predicate Tracks(status: map<string, Status>, sensitivity: map<string, Sensitivity>, wanted: set<string>, ops: seq<Op>) {
    && (forall id :: id in status <==> id in wanted && Replayed(ops, id).status.Some?)
    && (forall id :: id in status ==> Replayed(ops, id).status == Some(status[id]))
    && (forall id :: id in sensitivity <==> id in wanted && Replayed(ops, id).sensitivity.Some?)
    && (forall id :: id in sensitivity ==> Replayed(ops, id).sensitivity == Some(sensitivity[id]))
  }

  /** `_final_status_and_sensitivity`. */
  method FinalStatusAndSensitivity(entries: seq<Entry>, wanted: set<string>)
    returns (status: map<string, Status>, sensitivity: map<string, Sensitivity>)
    ensures Tracks(status, sensitivity, wanted, OpsOf(entries))
  {
    status, sensitivity := map[], map[];
    for n := 0 to |entries|
      invariant Tracks(status, sensitivity, wanted, OpsOf(entries[..n]))
    {
      assert entries[..n + 1][..n] == entries[..n];
      status, sensitivity := ReplayOne(entries[n].operations, wanted, status, sensitivity, OpsOf(entries[..n]));
    }
    assert entries[..|entries|] == entries;
  }

  /** The inner loop, over one migration. */
  method ReplayOne(operations: seq<Op>, wanted: set<string>, status0: map<string, Status>,
                   sensitivity0: map<string, Sensitivity>, ghost before: seq<Op>)
    returns (status: map<string, Status>, sensitivity: map<string, Sensitivity>)
    requires Tracks(status0, sensitivity0, wanted, before)
    ensures Tracks(status, sensitivity, wanted, before + operations)
  {
    status, sensitivity := status0, sensitivity0;
    assert before + operations[..0] == before;
    for k := 0 to |operations|
      invariant Tracks(status, sensitivity, wanted, before + operations[..k])
    {
      var op := operations[k];
      ghost var ops := before + operations[..k + 1];
      assert ops[..|ops| - 1] == before + operations[..k] && ops[|ops| - 1] == op;
      if op.Named().None? || op.Named().value !in wanted {
        continue;
      }
      match op
      case CreateItem(item, level) => sensitivity := sensitivity[item := OrDefault(level)];
      case UpsertRevision(item, s, level) =>
        status := status[item := s];
        sensitivity := sensitivity[item := OrDefault(level)];
      case DeprecateItem(item) => status := status[item := Deprecated];
      case ChangeSensitivity(item, level) => sensitivity := sensitivity[item := level];
      case OtherOp(_) =>
    }
    assert operations[..|operations|] == operations;
  }

  // -- Planes ------------------------------------------------------------------------------------

  predicate Names(e: Entry, item: string) {
    exists k :: 0 <= k < |e.operations| && e.operations[k].Named() == Some(item)
  }

  predicate TouchedByWithheld(entries: seq<Entry>, item: string) {
    exists i :: 0 <= i < |entries| && entries[i].plane == Withheld && Names(entries[i], item)
  }

  predicate NamedAnywhere(entries: seq<Entry>, item: string) {
    exists i :: 0 <= i < |entries| && Names(entries[i], item)
  }

  method ItemsOf(e: Entry) returns (ids: set<string>)
    ensures forall item :: item in ids <==> Names(e, item)
  {
    ids := {};
    for k := 0 to |e.operations|
      invariant forall item :: item in ids <==> exists j :: 0 <= j < k && e.operations[j].Named() == Some(item)
    {
      var named := e.operations[k].Named();
      if named.Some? {
        ids := ids + {named.value};
      }
    }
  }

  /** `_withheld_item_ids`. */
  method WithheldItemIds(entries: seq<Entry>) returns (ids: set<string>)
    ensures forall item :: item in ids <==> TouchedByWithheld(entries, item)
  {
    hide Names;
    ids := {};
    for n := 0 to |entries|
      invariant forall item :: item in ids <==>
                  exists i :: 0 <= i < n && entries[i].plane == Withheld && Names(entries[i], item)
    {
      if entries[n].plane == Withheld {
        var more := ItemsOf(entries[n]);
        ids := ids + more;
      }
    }
  }

  /** `_all_item_ids`. */
  method AllItemIds(entries: seq<Entry>) returns (ids: set<string>)
    ensures forall item :: item in ids <==> NamedAnywhere(entries, item)
  {
    hide Names;
    ids := {};
    for n := 0 to |entries|
      invariant forall item :: item in ids <==> exists i :: 0 <= i < n && Names(entries[i], item)
    {
      var more := ItemsOf(entries[n]);
      ids := ids + more;
    }
  }

  /** What `_populate_migrations` copies for the `clean` build. */
  function VisibleOnly(entries: seq<Entry>): (r: seq<Entry>)
    ensures forall e :: e in r ==> e in entries && e.plane == Visible
  {
    if entries == [] then []
    else
      VisibleOnly(entries[..|entries| - 1])
      + if entries[|entries| - 1].plane == Visible then [entries[|entries| - 1]] else []
  }

  // -- The loader's rules ------------------------------------------------------------------------

  datatype Rule =
    | Schema | MigrationOrder | VisibleDependsOnWithheld | NotTopological | DuplicateQuery | DuplicateJudgement
    | UnknownQuery | MissingJudgement | RelevantForbidden | EmptyJudgement | EvidenceSubsumption
    | WithheldDisclosable | RelevantUnknown | RelevantUnretrievable

  predicate NoRepeat<T(==)>(xs: seq<T>) {
    forall i, j :: 0 <= i < j < |xs| ==> xs[i] != xs[j]
  }

  /** What the schemas ask of these documents beyond the spelling of ids, names and texts. */
  predicate ShapesHold(entries: seq<Entry>, queries: seq<Query>, judgements: seq<Judgement>) {
    && entries != [] && queries != [] && judgements != []
    && (forall e :: e in entries ==> e.operations != [] && NoRepeat(e.dependsOn))
    && forall j :: j in judgements ==>
         && NoRepeat(j.relevant) && NoRepeat(j.forbidden) && NoRepeat(j.evidence)
         && (j.expectAbstention ==> j.relevant == [])
  }

  predicate InFilenameOrder(entries: seq<Entry>) {
    forall i, j :: 0 <= i < j < |entries| ==> !Before(entries[j].file, entries[i].file)
  }

  /** The last entry that carries an id, as a dictionary built in order keeps it. */
  function LastWithId(entries: seq<Entry>, id: string): (r: Option<nat>)
    ensures r.Some? ==> r.value < |entries| && entries[r.value].id == id
    ensures forall k :: 0 <= k < |entries| && entries[k].id == id ==> r.Some? && k <= r.value
  {
    if entries == [] then None
    else if entries[|entries| - 1].id == id then Some(|entries| - 1)
    else LastWithId(entries[..|entries| - 1], id)
  }

  /** No dependency is, by the last entry of its id, on the withheld plane. */
  predicate OnVisible(entries: seq<Entry>, dependsOn: seq<string>) {
    forall d :: d in dependsOn ==>
      LastWithId(entries, d).Some? ==> entries[LastWithId(entries, d).value].plane == Visible
  }

  /** Every dependency is the id of an entry before `i`. */
  predicate DeclaredBefore(entries: seq<Entry>, dependsOn: seq<string>, i: nat) {
    forall d :: d in dependsOn ==> LastWithId(entries, d).Some? && LastWithId(entries, d).value < i
  }

  /** `_check_no_visible_depends_on_withheld`. */
  predicate VisibleStandsAlone(entries: seq<Entry>) {
    forall i :: 0 <= i < |entries| && entries[i].plane == Visible ==> OnVisible(entries, entries[i].dependsOn)
  }

  /** `_check_migration_order_is_topological`. */
  predicate OrderIsTopological(entries: seq<Entry>) {
    forall i :: 0 <= i < |entries| ==> DeclaredBefore(entries, entries[i].dependsOn, i)
  }

  function IdsOf(queries: seq<Query>): (r: seq<string>)
    ensures |r| == |queries| && forall i :: 0 <= i < |r| ==> r[i] == queries[i].id
  {
    seq(|queries|, i requires 0 <= i < |queries| => queries[i].id)
  }

  function JudgedIds(judgements: seq<Judgement>): (r: seq<string>)
    ensures |r| == |judgements| && forall i :: 0 <= i < |r| ==> r[i] == judgements[i].queryId
  {
    seq(|judgements|, i requires 0 <= i < |judgements| => judgements[i].queryId)
  }

  /** `_check_unique_query_ids`. */
  predicate UniqueQueries(queries: seq<Query>) {
    NoRepeat(IdsOf(queries))
  }

  /** `_check_unique_judgement_query_ids`. */
  predicate UniqueJudgements(judgements: seq<Judgement>) {
    NoRepeat(JudgedIds(judgements))
  }

  /** `_check_every_enabled_query_is_judged`. */
  predicate EnabledJudged(queries: seq<Query>, judgements: seq<Judgement>) {
    forall q :: q in queries && q.enabled ==> exists j :: j in judgements && j.queryId == q.id
  }

  /** `_check_relevant_forbidden_disjoint`. */
  predicate RelevantNotForbidden(judgements: seq<Judgement>) {
    forall j :: j in judgements ==> forall item :: item in j.relevant ==> item !in j.forbidden
  }

  /** `_check_judgement_not_empty`. */
  predicate JudgementsJudge(judgements: seq<Judgement>) {
    forall j :: j in judgements ==> j.relevant != [] || j.forbidden != [] || j.evidence != [] || j.expectAbstention
  }

  /** No anchor of the list is cited both whole and narrowed to a file. */
  predicate Unsubsumed(evidence: seq<Evidence>) {
    forall a, b :: a in evidence && b in evidence && a.filePath.None? && b.filePath.Some? ==>
      a.sourceUri != b.sourceUri
  }

  /** `_check_no_evidence_subsumption`: no anchor is cited both whole and narrowed to a file. */
  predicate NothingSubsumed(judgements: seq<Judgement>) {
    forall j :: j in judgements ==> Unsubsumed(j.evidence)
  }

  predicate JudgementsNameQueries(queries: seq<Query>, judgements: seq<Judgement>) {
    forall j :: j in judgements ==> exists q :: q in queries && q.id == j.queryId
  }

  /** An item a build indexes and serves to a query at default flags. */
  predicate Served(f: Final) {
    f.status.Some? && MaySurface(f.status.value, false) && WithinCeiling(OrDefault(f.sensitivity))
  }

  function StatusOr(f: Final, default: Status): Status {
    if f.status.Some? then f.status.value else default
  }

  /** `_check_no_disclosable_withheld_item`: a missing status reads as `draft`. */
  ghost predicate NothingDisclosable(entries: seq<Entry>) {
    forall item :: TouchedByWithheld(entries, item) ==>
      var f := FinalOf(entries, item);
      !(MaySurface(StatusOr(f, Draft), false) && WithinCeiling(OrDefault(f.sensitivity)))
  }

  predicate Enabled(queries: seq<Query>, id: string) {
    exists q :: q in queries && q.id == id && q.enabled
  }

  predicate RelevantExists(entries: seq<Entry>, judgements: seq<Judgement>) {
    forall j :: j in judgements ==> forall item :: item in j.relevant ==> NamedAnywhere(entries, item)
  }

  predicate RelevantRetrievable(entries: seq<Entry>, queries: seq<Query>, judgements: seq<Judgement>) {
    forall j :: j in judgements && Enabled(queries, j.queryId) ==>
      forall item :: item in j.relevant ==> !TouchedByWithheld(entries, item) && Served(FinalOf(entries, item))
  }

  /** The rules in the order `load_corpus` applies them: the first one broken, if any. */
  ghost function FirstBroken(entries: seq<Entry>, queries: seq<Query>, judgements: seq<Judgement>): Option<Rule> {
    if !ShapesHold(entries, queries, judgements) then Some(Schema)
    else if !InFilenameOrder(entries) then Some(MigrationOrder)
    else if !VisibleStandsAlone(entries) then Some(VisibleDependsOnWithheld)
    else if !OrderIsTopological(entries) then Some(NotTopological)
    else if !UniqueQueries(queries) then Some(DuplicateQuery)
    else if !UniqueJudgements(judgements) then Some(DuplicateJudgement)
    else if !JudgementsNameQueries(queries, judgements) then Some(UnknownQuery)
    else if !EnabledJudged(queries, judgements) then Some(MissingJudgement)
    else if !RelevantNotForbidden(judgements) then Some(RelevantForbidden)
    else if !JudgementsJudge(judgements) then Some(EmptyJudgement)
    else if !NothingSubsumed(judgements) then Some(EvidenceSubsumption)
    else if !NothingDisclosable(entries) then Some(WithheldDisclosable)
    else if !RelevantExists(entries, judgements) then Some(RelevantUnknown)
    else if !RelevantRetrievable(entries, queries, judgements) then Some(RelevantUnretrievable)
    else None
  }

  ghost predicate Accepted(entries: seq<Entry>, queries: seq<Query>, judgements: seq<Judgement>) {
    FirstBroken(entries, queries, judgements) == None
  }

  /** How a withheld item is covered. */
  datatype Coverage = Coverage(item: string, status: Status, sensitivity: Sensitivity, gateTested: bool)

  /** Admitted to the index by `--include-unapproved`, and held back by a default query. */
  predicate GateTested(status: Status) {
    !MaySurface(status, false) && MaySurface(status, true)
  }

  function CoverageOf(item: string, f: Final): Coverage {
    var status, sensitivity := StatusOr(f, Draft), OrDefault(f.sensitivity);
    Coverage(item, status, sensitivity, GateTested(status) && WithinCeiling(sensitivity))
  }

  /** `plane_by_id` and `position_by_id`: a later entry of the same id displaces an earlier one. */
  method ById(entries: seq<Entry>) returns (planes: map<string, Plane>, positions: map<string, nat>)
    ensures forall id :: id in planes <==> LastWithId(entries, id).Some?
    ensures forall id :: id in planes ==> planes[id] == entries[LastWithId(entries, id).value].plane
    ensures forall id :: id in positions <==> LastWithId(entries, id).Some?
    ensures forall id :: id in positions ==> positions[id] == LastWithId(entries, id).value
  {
    planes, positions := map[], map[];
    for n := 0 to |entries|
      invariant forall id :: id in planes <==> LastWithId(entries[..n], id).Some?
      invariant forall id :: id in planes ==> planes[id] == entries[LastWithId(entries[..n], id).value].plane
      invariant forall id :: id in positions <==> LastWithId(entries[..n], id).Some?
      invariant forall id :: id in positions ==> positions[id] == LastWithId(entries[..n], id).value
    {
      assert entries[..n + 1][..n] == entries[..n];
      planes := planes[entries[n].id := entries[n].plane];
      positions := positions[entries[n].id := n];
    }
    assert entries[..|entries|] == entries;
  }

  /** `_check_no_visible_depends_on_withheld`. */
  method CheckStandsAlone(entries: seq<Entry>) returns (ok: bool)
    ensures ok <==> VisibleStandsAlone(entries)
  {
    hide LastWithId;
    var planes, _ := ById(entries);
    for i := 0 to |entries|
      invariant forall k :: 0 <= k < i && entries[k].plane == Visible ==> OnVisible(entries, entries[k].dependsOn)
    {
      if entries[i].plane == Visible {
        var deps := entries[i].dependsOn;
        for k := 0 to |deps|
          invariant OnVisible(entries, deps[..k])
        {
          if deps[k] in planes && planes[deps[k]] == Withheld {
            assert !OnVisible(entries, deps);
            return false;
          }
        }
        assert deps[..|deps|] == deps;
      }
    }
    return true;
  }

  /** `_check_migration_order_is_topological`. */
  method CheckTopological(entries: seq<Entry>) returns (ok: bool)
    ensures ok <==> OrderIsTopological(entries)
  {
    hide LastWithId;
    var _, positions := ById(entries);
    for i := 0 to |entries|
      invariant forall k :: 0 <= k < i ==> DeclaredBefore(entries, entries[k].dependsOn, k)
    {
      var deps := entries[i].dependsOn;
      for k := 0 to |deps|
        invariant DeclaredBefore(entries, deps[..k], i)
      {
        if deps[k] !in positions || positions[deps[k]] >= i {
          assert !DeclaredBefore(entries, deps, i);
          return false;
        }
      }
      assert deps[..|deps|] == deps;
    }
    return true;
  }

  /** What a caller reads of the replay of one item it asked for. */
  lemma TrackedItem(status: map<string, Status>, sensitivity: map<string, Sensitivity>, wanted: set<string>,
                    ops: seq<Op>, item: string)
    requires Tracks(status, sensitivity, wanted, ops) && item in wanted
    ensures var f := Replayed(ops, item);
            && (item in status <==> f.status.Some?) && (item in status ==> f.status.value == status[item])
            && (item in sensitivity ==> OrDefault(f.sensitivity) == sensitivity[item])
            && (item !in sensitivity ==> OrDefault(f.sensitivity) == DEFAULT_SENSITIVITY)
  {
    hide Replayed;
  }

  /** `_check_no_disclosable_withheld_item`. */
  method CheckNothingDisclosable(entries: seq<Entry>) returns (ok: bool)
    ensures ok <==> NothingDisclosable(entries)
  {
    hide Tracks, Replayed, OpsOf, TouchedByWithheld;
    var ids := WithheldItemIds(entries);
    var status, sensitivity := FinalStatusAndSensitivity(entries, ids);
    var todo := ids;
    while todo != {}
      invariant todo <= ids
      invariant forall item :: item in ids - todo ==>
                  var f := FinalOf(entries, item);
                  !(MaySurface(StatusOr(f, Draft), false) && WithinCeiling(OrDefault(f.sensitivity)))
      decreases |todo|
    {
      var item :| item in todo;
      TrackedItem(status, sensitivity, ids, OpsOf(entries), item);
      var s := if item in status then status[item] else Draft;
      var level := if item in sensitivity then sensitivity[item] else DEFAULT_SENSITIVITY;
      if MaySurface(s, false) && WithinCeiling(level) {
        return false;
      }
      todo := todo - {item};
    }
    return true;
  }

  /** The withheld items in name order, each with how it is covered. */
  ghost predicate Covers(entries: seq<Entry>, coverage: seq<Coverage>) {
    && (forall i, j :: 0 <= i < j < |coverage| ==> Before(coverage[i].item, coverage[j].item))
    && (forall item :: TouchedByWithheld(entries, item) <==> exists i :: 0 <= i < |coverage| && coverage[i].item == item)
    && forall i :: 0 <= i < |coverage| ==> coverage[i] == CoverageOf(coverage[i].item, FinalOf(entries, coverage[i].item))
  }

  /** `_withheld_item_coverage`. */
  method WithheldItemCoverage(entries: seq<Entry>) returns (coverage: seq<Coverage>)
    ensures Covers(entries, coverage)
  {
    hide Tracks, Replayed, OpsOf, TouchedByWithheld, Before;
    var ids := WithheldItemIds(entries);
    var status, sensitivity := FinalStatusAndSensitivity(entries, ids);
    var ordered := SortedNames(ids);
    coverage := [];
    for n := 0 to |ordered|
      invariant |coverage| == n
      invariant forall i :: 0 <= i < n ==> coverage[i] == CoverageOf(ordered[i], FinalOf(entries, ordered[i]))
    {
      var item := ordered[n];
      TrackedItem(status, sensitivity, ids, OpsOf(entries), item);
      var s := if item in status then status[item] else Draft;
      var level := if item in sensitivity then sensitivity[item] else DEFAULT_SENSITIVITY;
      coverage := coverage + [Coverage(item, s, level, GateTested(s) && WithinCeiling(level))];
    }
    forall item
      ensures TouchedByWithheld(entries, item) <==> exists i :: 0 <= i < |coverage| && coverage[i].item == item
    {
      if item in ordered {
        var i :| 0 <= i < |ordered| && ordered[i] == item;
        assert coverage[i].item == item;
      }
    }
  }

  predicate Wanted(queries: seq<Query>, judgements: seq<Judgement>, item: string) {
    exists k :: 0 <= k < |judgements| && Enabled(queries, judgements[k].queryId) && item in judgements[k].relevant
  }

  /** The relevant items of enabled queries. */
  method EnabledRelevant(queries: seq<Query>, judgements: seq<Judgement>) returns (ids: set<string>)
    requires UniqueQueries(queries) && JudgementsNameQueries(queries, judgements)
    ensures forall item :: item in ids <==> Wanted(queries, judgements, item)
  {
    var enabledById := EnabledById(queries);
    hide UniqueQueries;
    ids := {};
    for n := 0 to |judgements|
      invariant forall item :: item in ids <==>
                  exists k :: 0 <= k < n && Enabled(queries, judgements[k].queryId) && item in judgements[k].relevant
    {
      assert judgements[n] in judgements;
      if enabledById[judgements[n].queryId] {
        ids := ids + set item | item in judgements[n].relevant;
      }
    }
  }

  /** `{query.id: query.enabled for query in queries}`. */
  method EnabledById(queries: seq<Query>) returns (enabled: map<string, bool>)
    requires UniqueQueries(queries)
    ensures forall q :: q in queries ==> q.id in enabled
    ensures forall id :: id in enabled ==> (enabled[id] <==> Enabled(queries, id))
  {
    enabled := map[];
    assert forall i, j :: 0 <= i < j < |queries| ==> IdsOf(queries)[i] != IdsOf(queries)[j];
    for n := 0 to |queries|
      invariant forall id :: id in enabled <==> exists k :: 0 <= k < n && queries[k].id == id
      invariant forall k :: 0 <= k < n ==> enabled[queries[k].id] == queries[k].enabled
    {
      enabled := enabled[queries[n].id := queries[n].enabled];
    }
    forall id | id in enabled
      ensures enabled[id] <==> Enabled(queries, id)
    {
      var k :| 0 <= k < |queries| && queries[k].id == id;
      assert queries[k] in queries;
    }
  }

  /** `_check_relevant_items_retrievable`. */
  method CheckRelevant(entries: seq<Entry>, queries: seq<Query>, judgements: seq<Judgement>) returns (broken: Option<Rule>)
    requires UniqueQueries(queries) && JudgementsNameQueries(queries, judgements)
    ensures broken == if !RelevantExists(entries, judgements) then Some(RelevantUnknown)
                      else if !RelevantRetrievable(entries, queries, judgements) then Some(RelevantUnretrievable)
                      else None
  {
    hide UniqueQueries, JudgementsNameQueries, TouchedByWithheld, NamedAnywhere, Enabled, OpsOf, Replayed, Tracks;
    var all := AllItemIds(entries);
    for n := 0 to |judgements|
      invariant forall k :: 0 <= k < n ==> forall item :: item in judgements[k].relevant ==> NamedAnywhere(entries, item)
    {
      if exists item :: item in judgements[n].relevant && item !in all {
        assert judgements[n] in judgements;
        return Some(RelevantUnknown);
      }
    }
    var ids := EnabledRelevant(queries, judgements);
    var withheld := WithheldItemIds(entries);
    var status, sensitivity := FinalStatusAndSensitivity(entries, ids);
    WantedIsRelevant(entries, queries, judgements);
    var todo := ids;
    while todo != {}
      invariant todo <= ids
      invariant forall item :: item in ids - todo ==> !TouchedByWithheld(entries, item) && Served(FinalOf(entries, item))
      decreases |todo|
    {
      var item :| item in todo;
      TrackedItem(status, sensitivity, ids, OpsOf(entries), item);
      if item in withheld {
        return Some(RelevantUnretrievable);
      }
      if item !in status || !MaySurface(status[item], false) {
        return Some(RelevantUnretrievable);
      }
      var level := if item in sensitivity then sensitivity[item] else DEFAULT_SENSITIVITY;
      if !WithinCeiling(level) {
        return Some(RelevantUnretrievable);
      }
      todo := todo - {item};
    }
    return None;
  }

  lemma WantedIsRelevant(entries: seq<Entry>, queries: seq<Query>, judgements: seq<Judgement>)
    ensures RelevantRetrievable(entries, queries, judgements) <==>
              forall item :: Wanted(queries, judgements, item) ==>
                !TouchedByWithheld(entries, item) && Served(FinalOf(entries, item))
  {
    hide TouchedByWithheld, Served, FinalOf, Enabled;
    if RelevantRetrievable(entries, queries, judgements) {
      forall item | Wanted(queries, judgements, item)
        ensures !TouchedByWithheld(entries, item) && Served(FinalOf(entries, item))
      {
        var k :| 0 <= k < |judgements| && Enabled(queries, judgements[k].queryId) && item in judgements[k].relevant;
        assert judgements[k] in judgements;
      }
    } else {
      var j :| j in judgements && Enabled(queries, j.queryId)
               && exists item :: item in j.relevant && !(!TouchedByWithheld(entries, item) && Served(FinalOf(entries, item)));
      var k :| 0 <= k < |judgements| && judgements[k] == j;
      var item :| item in j.relevant && !(!TouchedByWithheld(entries, item) && Served(FinalOf(entries, item)));
      assert Wanted(queries, judgements, item);
    }
  }

  /** The uniqueness loops: a value met before is refused. */
  method SeenOnce(ids: seq<string>) returns (ok: bool)
    ensures ok <==> NoRepeat(ids)
  {
    var seen: set<string> := {};
    for n := 0 to |ids|
      invariant forall x :: x in seen <==> exists i :: 0 <= i < n && ids[i] == x
      invariant forall i, j :: 0 <= i < j < n ==> ids[i] != ids[j]
    {
      if ids[n] in seen {
        return false;
      }
      seen := seen + {ids[n]};
    }
    return true;
  }

  /** The rules between the order of the migrations and the items they end in. */
  method CheckJudgements(queries: seq<Query>, judgements: seq<Judgement>) returns (broken: Option<Rule>)
    ensures broken == if !UniqueQueries(queries) then Some(DuplicateQuery)
                      else if !UniqueJudgements(judgements) then Some(DuplicateJudgement)
                      else if !JudgementsNameQueries(queries, judgements) then Some(UnknownQuery)
                      else if !EnabledJudged(queries, judgements) then Some(MissingJudgement)
                      else if !RelevantNotForbidden(judgements) then Some(RelevantForbidden)
                      else if !JudgementsJudge(judgements) then Some(EmptyJudgement)
                      else if !NothingSubsumed(judgements) then Some(EvidenceSubsumption)
                      else None
  {
    hide JudgementsNameQueries, EnabledJudged, RelevantNotForbidden, JudgementsJudge, NothingSubsumed;
    var once := SeenOnce(IdsOf(queries));
    if !once {
      return Some(DuplicateQuery);
    }
    once := SeenOnce(JudgedIds(judgements));
    if !once {
      return Some(DuplicateJudgement);
    }
    var named := CheckNamed(queries, judgements);
    if !named {
      return Some(UnknownQuery);
    }
    var judged := CheckJudged(queries, judgements);
    if !judged {
      return Some(MissingJudgement);
    }
    var apart := CheckDisjoint(judgements);
    if !apart {
      return Some(RelevantForbidden);
    }
    var judging := CheckNotEmpty(judgements);
    if !judging {
      return Some(EmptyJudgement);
    }
    var plain := CheckSubsumption(judgements);
    return if plain then None else Some(EvidenceSubsumption);
  }

  /** `_check_judgements_name_declared_queries`. */
  method CheckNamed(queries: seq<Query>, judgements: seq<Judgement>) returns (ok: bool)
    ensures ok <==> JudgementsNameQueries(queries, judgements)
  {
    var declared := set q | q in queries :: q.id;
    for n := 0 to |judgements|
      invariant forall k :: 0 <= k < n ==> judgements[k].queryId in declared
    {
      if judgements[n].queryId !in declared {
        assert judgements[n] in judgements;
        return false;
      }
    }
    return true;
  }

  /** `_check_every_enabled_query_is_judged`. */
  method CheckJudged(queries: seq<Query>, judgements: seq<Judgement>) returns (ok: bool)
    ensures ok <==> EnabledJudged(queries, judgements)
  {
    var judged := set j | j in judgements :: j.queryId;
    for n := 0 to |queries|
      invariant forall k :: 0 <= k < n && queries[k].enabled ==> queries[k].id in judged
    {
      if queries[n].enabled && queries[n].id !in judged {
        assert queries[n] in queries;
        return false;
      }
    }
    return true;
  }

  /** `_check_relevant_forbidden_disjoint`. */
  method CheckDisjoint(judgements: seq<Judgement>) returns (ok: bool)
    ensures ok <==> RelevantNotForbidden(judgements)
  {
    for n := 0 to |judgements|
      invariant forall k :: 0 <= k < n ==> forall item :: item in judgements[k].relevant ==> item !in judgements[k].forbidden
    {
      var relevant := set item | item in judgements[n].relevant;
      var forbidden := set item | item in judgements[n].forbidden;
      var overlap := relevant * forbidden;
      if overlap != {} {
        var item :| item in overlap;
        assert judgements[n] in judgements && item in judgements[n].relevant && item in judgements[n].forbidden;
        return false;
      }
      forall item | item in judgements[n].relevant
        ensures item !in judgements[n].forbidden
      {
        assert item !in overlap && item in relevant;
      }
    }
    return true;
  }

  /** `_check_judgement_not_empty`. */
  method CheckNotEmpty(judgements: seq<Judgement>) returns (ok: bool)
    ensures ok <==> JudgementsJudge(judgements)
  {
    for n := 0 to |judgements|
      invariant forall k :: 0 <= k < n ==>
                  var j := judgements[k];
                  j.relevant != [] || j.forbidden != [] || j.evidence != [] || j.expectAbstention
    {
      var j := judgements[n];
      if !(j.relevant != [] || j.forbidden != [] || j.evidence != [] || j.expectAbstention) {
        assert j in judgements;
        return false;
      }
    }
    return true;
  }

  /** `_check_no_evidence_subsumption`. */
  method CheckSubsumption(judgements: seq<Judgement>) returns (ok: bool)
    ensures ok <==> NothingSubsumed(judgements)
  {
    hide Unsubsumed;
    for n := 0 to |judgements|
      invariant forall k :: 0 <= k < n ==> Unsubsumed(judgements[k].evidence)
    {
      var one := CheckEvidence(judgements[n].evidence);
      if !one {
        assert judgements[n] in judgements;
        return false;
      }
    }
    return true;
  }

  /** Its body, for one judgement. */
  method CheckEvidence(evidence: seq<Evidence>) returns (ok: bool)
    ensures ok <==> Unsubsumed(evidence)
  {
    var plain := set e | e in evidence && e.filePath.None? :: e.sourceUri;
    var narrowed := set e | e in evidence && e.filePath.Some? :: e.sourceUri;
    var overlap := plain * narrowed;
    ok := overlap == {};
    if ok {
      forall a, b | a in evidence && b in evidence && a.filePath.None? && b.filePath.Some?
        ensures a.sourceUri != b.sourceUri
      {
        assert a.sourceUri in plain && b.sourceUri in narrowed && a.sourceUri !in overlap;
      }
    } else {
      var uri :| uri in overlap;
      var a :| a in evidence && a.filePath.None? && a.sourceUri == uri;
      var b :| b in evidence && b.filePath.Some? && b.sourceUri == uri;
    }
  }

  /** `load_corpus`. */
  method Load(entries: seq<Entry>, queries: seq<Query>, judgements: seq<Judgement>)
    returns (r: Result<seq<Coverage>, Rule>)
    ensures r.Err? ==> FirstBroken(entries, queries, judgements) == Some(r.error)
    ensures r.Ok? ==> Accepted(entries, queries, judgements) && Covers(entries, r.value)
  {
    hide ShapesHold, InFilenameOrder, VisibleStandsAlone, OrderIsTopological, UniqueQueries, UniqueJudgements,
         JudgementsNameQueries, EnabledJudged, RelevantNotForbidden, JudgementsJudge, NothingSubsumed,
         NothingDisclosable, RelevantExists, RelevantRetrievable, TouchedByWithheld, FinalOf, CoverageOf, Covers;
    if !ShapesHold(entries, queries, judgements) {
      return Err(Schema);
    }
    if !InFilenameOrder(entries) {
      return Err(MigrationOrder);
    }
    var alone := CheckStandsAlone(entries);
    if !alone {
      return Err(VisibleDependsOnWithheld);
    }
    var topological := CheckTopological(entries);
    if !topological {
      return Err(NotTopological);
    }
    var broken := CheckJudgements(queries, judgements);
    if broken.Some? {
      return Err(broken.value);
    }
    var safe := CheckNothingDisclosable(entries);
    if !safe {
      return Err(WithheldDisclosable);
    }
    broken := CheckRelevant(entries, queries, judgements);
    if broken.Some? {
      return Err(broken.value);
    }
    var coverage := WithheldItemCoverage(entries);
    return Ok(coverage);
  }
}
