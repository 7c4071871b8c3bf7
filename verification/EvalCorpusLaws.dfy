/** What an accepted corpus promises about its two builds. */
module EvalCorpusLaws {
  import opened PyText
  import opened EvalCorpus

  // -- Replays -----------------------------------------------------------------------------------

  lemma {:induction false} ReplayAppend(a: seq<Op>, b: seq<Op>, c: seq<Op>, item: string)
    requires Replayed(a, item) == Replayed(c, item)
    ensures Replayed(a + b, item) == Replayed(c + b, item)
  {
    if b == [] {
      assert a + b == a && c + b == c;
    } else {
      var n := |b| - 1;
      assert (a + b)[..|a| + n] == a + b[..n] && (c + b)[..|c| + n] == c + b[..n];
      ReplayAppend(a, b[..n], c, item);
    }
  }

  lemma {:induction false} ReplayIgnores(a: seq<Op>, b: seq<Op>, item: string)
    requires forall k :: 0 <= k < |b| ==> b[k].Named() != Some(item)
    ensures Replayed(a + b, item) == Replayed(a, item)
  {
    if b == [] {
      assert a + b == a;
    } else {
      var n := |b| - 1;
      assert (a + b)[..|a| + n] == a + b[..n] && (a + b)[|a| + n] == b[n];
      ReplayIgnores(a, b[..n], item);
    }
  }

  // -- The last writer wins ----------------------------------------------------------------------

  datatype Field = StatusField | SensitivityField

  datatype Value = IsStatus(status: Status) | IsLevel(level: Sensitivity)

  function Read(f: Final, field: Field): Option<Value> {
    match field
    case StatusField => if f.status.Some? then Some(IsStatus(f.status.value)) else None
    case SensitivityField => if f.sensitivity.Some? then Some(IsLevel(f.sensitivity.value)) else None
  }

  /** What one migration, alone, writes into a field of an item. */
  function Written(e: Entry, item: string, field: Field): Option<Value> {
    Read(Replayed(e.operations, item), field)
  }

  /** A later replay keeps of the earlier one what it does not write itself. */
  lemma {:induction false} ReplayOver(a: seq<Op>, b: seq<Op>, item: string, field: Field)
    ensures var later := Read(Replayed(b, item), field);
            Read(Replayed(a + b, item), field) == if later.Some? then later else Read(Replayed(a, item), field)
  {
    if b == [] {
      assert a + b == a;
    } else {
      var n := |b| - 1;
      assert (a + b)[..|a| + n] == a + b[..n] && (a + b)[|a| + n] == b[n];
      ReplayOver(a, b[..n], item, field);
    }
  }

  lemma LastEntry(entries: seq<Entry>, item: string, field: Field)
    requires entries != []
    ensures var n := |entries| - 1;
            var last := Written(entries[n], item, field);
            Read(FinalOf(entries, item), field)
            == if last.Some? then last else Read(FinalOf(entries[..n], item), field)
  {
    var n := |entries| - 1;
    ReplayOver(OpsOf(entries[..n]), entries[n].operations, item, field);
  }

  /** A field ends as the last migration that writes it says, whatever the others do. */
  lemma {:induction false} LastWriterDecides(entries: seq<Entry>, item: string, field: Field, k: nat)
    requires k < |entries| && Written(entries[k], item, field).Some?
    requires forall j :: k < j < |entries| ==> Written(entries[j], item, field).None?
    ensures Read(FinalOf(entries, item), field) == Written(entries[k], item, field)
  {
    hide Written, Read, FinalOf;
    LastEntry(entries, item, field);
    if k < |entries| - 1 {
      LastWriterDecides(entries[..|entries| - 1], item, field, k);
    }
  }

  lemma {:induction false} NoWriter(entries: seq<Entry>, item: string, field: Field)
    requires forall j :: 0 <= j < |entries| ==> Written(entries[j], item, field).None?
    ensures Read(FinalOf(entries, item), field) == None
  {
    if entries != [] {
      LastEntry(entries, item, field);
      hide Written, Read, FinalOf;
      NoWriter(entries[..|entries| - 1], item, field);
    }
  }

  lemma OnlyNamesWrite(e: Entry, item: string, field: Field)
    requires !Names(e, item)
    ensures Written(e, item, field) == None
  {
    ReplayIgnores([], e.operations, item);
    assert [] + e.operations == e.operations;
  }

  // -- Non-interference of the withheld plane ----------------------------------------------------

  /**
   An item no withheld migration names ends in the same status and sensitivity whether all migrations
   are replayed or only the visible ones.
   */
  lemma {:induction false} NonInterference(entries: seq<Entry>, item: string)
    requires !TouchedByWithheld(entries, item)
    ensures FinalOf(VisibleOnly(entries), item) == FinalOf(entries, item)
  {
    if entries != [] {
      var n := |entries| - 1;
      var last := entries[n];
      assert !TouchedByWithheld(entries[..n], item) by {
        assert forall i :: 0 <= i < n ==> entries[..n][i] == entries[i];
      }
      NonInterference(entries[..n], item);
      var visible := VisibleOnly(entries[..n]);
      if last.plane == Visible {
        assert (visible + [last])[..|visible|] == visible;
        assert OpsOf(visible + [last]) == OpsOf(visible) + last.operations;
        ReplayAppend(OpsOf(visible), last.operations, OpsOf(entries[..n]), item);
      } else {
        assert !Names(last, item);
        assert VisibleOnly(entries) == visible;
        ReplayIgnores(OpsOf(entries[..n]), last.operations, item);
      }
    }
  }

  /**
   In an accepted corpus every item an enabled query judges relevant is approved and within the
   ceiling in both builds, in the same final state.
   */
  lemma RelevantInBothBuilds(entries: seq<Entry>, queries: seq<Query>, judgements: seq<Judgement>, j: Judgement, item: string)
    requires Accepted(entries, queries, judgements)
    requires j in judgements && Enabled(queries, j.queryId) && item in j.relevant
    ensures FinalOf(VisibleOnly(entries), item) == FinalOf(entries, item)
    ensures Served(FinalOf(entries, item)) && Served(FinalOf(VisibleOnly(entries), item))
    ensures FinalOf(entries, item).status == Some(Approved)
  {
    hide ShapesHold, InFilenameOrder, VisibleStandsAlone, OrderIsTopological, UniqueQueries, UniqueJudgements,
         JudgementsNameQueries, EnabledJudged, RelevantNotForbidden, JudgementsJudge, NothingSubsumed,
         NothingDisclosable, RelevantExists, TouchedByWithheld, FinalOf, VisibleOnly, Enabled;
    NonInterference(entries, item);
  }

  // -- The visible plane stands alone ------------------------------------------------------------

  /** How many of the first `n` entries are visible. */
  function VisibleBefore(entries: seq<Entry>, n: nat): (r: nat)
    requires n <= |entries|
    ensures r <= n
  {
    if n == 0 then 0 else VisibleBefore(entries, n - 1) + if entries[n - 1].plane == Visible then 1 else 0
  }

  /** A visible entry keeps its place among the visible ones. */
  lemma {:induction false} VisiblePlace(entries: seq<Entry>, i: nat)
    requires i < |entries| && entries[i].plane == Visible
    ensures VisibleBefore(entries, i) < |VisibleOnly(entries)|
    ensures VisibleOnly(entries)[VisibleBefore(entries, i)] == entries[i]
  {
    assert VisibleOnly(entries[..i + 1]) == VisibleOnly(entries[..i]) + [entries[i]] by {
      assert entries[..i + 1][..i] == entries[..i];
    }
    VisibleCount(entries, i);
    VisiblePrefix(entries, i + 1);
    hide VisibleOnly, VisibleBefore;
  }

  lemma {:induction false} VisibleCount(entries: seq<Entry>, n: nat)
    requires n <= |entries|
    ensures |VisibleOnly(entries[..n])| == VisibleBefore(entries, n)
  {
    if n > 0 {
      assert entries[..n][..n - 1] == entries[..n - 1];
      VisibleCount(entries, n - 1);
    }
  }

  lemma {:induction false} VisiblePrefix(entries: seq<Entry>, n: nat)
    requires n <= |entries|
    ensures VisibleOnly(entries[..n]) <= VisibleOnly(entries)
    decreases |entries| - n
  {
    if n == |entries| {
      assert entries[..n] == entries;
    } else {
      VisiblePrefix(entries, n + 1);
      assert entries[..n + 1][..n] == entries[..n];
    }
  }

  lemma {:induction false} VisibleMonotone(entries: seq<Entry>, i: nat, j: nat)
    requires i < j <= |entries| && entries[i].plane == Visible
    ensures VisibleBefore(entries, i) < VisibleBefore(entries, j)
  {
    if i + 1 < j {
      VisibleMonotone(entries, i, j - 1);
    }
  }

  /** Where the `k`-th visible entry stands. */
  lemma {:induction false} VisibleSource(entries: seq<Entry>, k: nat) returns (i: nat)
    requires k < |VisibleOnly(entries)|
    ensures i < |entries| && entries[i].plane == Visible && entries[i] == VisibleOnly(entries)[k]
    ensures VisibleBefore(entries, i) == k
  {
    var n := |entries| - 1;
    var before := VisibleOnly(entries[..n]);
    if k < |before| {
      i := VisibleSource(entries[..n], k);
      SameCount(entries, n, i);
    } else {
      i := n;
      VisibleCount(entries, n);
    }
  }

  lemma {:induction false} SameCount(entries: seq<Entry>, n: nat, i: nat)
    requires i <= n <= |entries|
    ensures VisibleBefore(entries[..n], i) == VisibleBefore(entries, i)
  {
    if i > 0 {
      SameCount(entries, n, i - 1);
    }
  }

  /**
   The visible migrations of an accepted corpus can be applied on their own, in the order they are
   listed: every dependency of the `k`-th is one of those before it.
   */
  lemma VisibleIsClosed(entries: seq<Entry>, queries: seq<Query>, judgements: seq<Judgement>, k: nat, d: string)
    returns (at: nat)
    requires Accepted(entries, queries, judgements)
    requires k < |VisibleOnly(entries)| && d in VisibleOnly(entries)[k].dependsOn
    ensures at < k && VisibleOnly(entries)[at].id == d
  {
    assert VisibleStandsAlone(entries) && OrderIsTopological(entries);
    hide InFilenameOrder, FirstBroken, LastWithId;
    var i := VisibleSource(entries, k);
    assert DeclaredBefore(entries, entries[i].dependsOn, i) && OnVisible(entries, entries[i].dependsOn);
    var p := LastWithId(entries, d).value;
    at := VisibleBefore(entries, p);
    VisiblePlace(entries, p);
    VisibleMonotone(entries, p, i);
  }

  /** Both orders the loader checks survive the selection: the visible files are still in filename order. */
  lemma VisibleInFilenameOrder(entries: seq<Entry>)
    requires InFilenameOrder(entries)
    ensures InFilenameOrder(VisibleOnly(entries))
  {
    var v := VisibleOnly(entries);
    hide Before, VisibleOnly;
    forall i, j | 0 <= i < j < |v|
      ensures !Before(v[j].file, v[i].file)
    {
      var p := VisibleSource(entries, i);
      var q := VisibleSource(entries, j);
      if q <= p {
        CountMonotone(entries, q, p);
      }
    }
  }

  lemma {:induction false} CountMonotone(entries: seq<Entry>, i: nat, j: nat)
    requires i <= j <= |entries|
    ensures VisibleBefore(entries, i) <= VisibleBefore(entries, j)
  {
    if i < j {
      CountMonotone(entries, i, j - 1);
    }
  }

  // -- Coverage ----------------------------------------------------------------------------------

  predicate Retired(status: Status) {
    status == Deprecated || status == Superseded || status == Rejected
  }

  /** No withheld item of an accepted corpus is served, and it is covered by exactly one of the two clauses. */
  lemma CoveragePartitions(entries: seq<Entry>, queries: seq<Query>, judgements: seq<Judgement>, item: string)
    requires Accepted(entries, queries, judgements) && TouchedByWithheld(entries, item)
    ensures var c := CoverageOf(item, FinalOf(entries, item));
            && (c.gateTested <==> (c.status == Draft || c.status == Proposed) && WithinCeiling(c.sensitivity))
            && (!c.gateTested <==> Retired(c.status) || !WithinCeiling(c.sensitivity))
    ensures !Served(FinalOf(entries, item))
  {
    hide InFilenameOrder, VisibleStandsAlone, OrderIsTopological, TouchedByWithheld, FinalOf;
    assert NothingDisclosable(entries);
  }

  // -- The two builds ----------------------------------------------------------------------------

  /** The two builds serve the same items at default flags. */
  ghost predicate BuildsAgree(entries: seq<Entry>) {
    forall item :: Served(FinalOf(entries, item)) <==> Served(FinalOf(VisibleOnly(entries), item))
  }

  /** Everything the full build of an accepted corpus serves, the visible build serves, in the same state. */
  lemma FullServesNoMore(entries: seq<Entry>, queries: seq<Query>, judgements: seq<Judgement>, item: string)
    requires Accepted(entries, queries, judgements) && Served(FinalOf(entries, item))
    ensures !TouchedByWithheld(entries, item)
    ensures FinalOf(VisibleOnly(entries), item) == FinalOf(entries, item)
  {
    if TouchedByWithheld(entries, item) {
      CoveragePartitions(entries, queries, judgements, item);
    } else {
      NonInterference(entries, item);
    }
  }

  /**
   The builds of an accepted corpus serve the same items exactly when no item a withheld migration
   names is served by the visible migrations alone. The loader does not check this.
   */
  lemma BuildsAgreeIff(entries: seq<Entry>, queries: seq<Query>, judgements: seq<Judgement>)
    requires Accepted(entries, queries, judgements)
    ensures BuildsAgree(entries) <==>
              forall item :: TouchedByWithheld(entries, item) ==> !Served(FinalOf(VisibleOnly(entries), item))
  {
    hide FirstBroken, Served, FinalOf, TouchedByWithheld, VisibleOnly;
    forall item
      ensures TouchedByWithheld(entries, item) ==> !Served(FinalOf(entries, item))
      ensures !TouchedByWithheld(entries, item) ==> FinalOf(VisibleOnly(entries), item) == FinalOf(entries, item)
    {
      if TouchedByWithheld(entries, item) {
        CoveragePartitions(entries, queries, judgements, item);
      } else {
        NonInterference(entries, item);
      }
    }
  }

  const FIRST_ID := "00000000000000000000000000"
  const SECOND_ID := "11111111111111111111111111"

  const SHOWN := Entry(FIRST_ID + "-x.yaml", Visible, FIRST_ID, [], [UpsertRevision("x", Approved, None)])
  const HIDDEN := Entry(SECOND_ID + "-x.yaml", Withheld, SECOND_ID, [FIRST_ID], [DeprecateItem("x")])

  lemma DivergingReplay()
    ensures FinalOf([SHOWN, HIDDEN], "x") == Final(Some(Deprecated), Some(Internal))
    ensures FinalOf(VisibleOnly([SHOWN, HIDDEN]), "x") == Final(Some(Approved), Some(Internal))
  {
    var entries := [SHOWN, HIDDEN];
    assert entries[..1] == [SHOWN] && [SHOWN][..0] == [];
    assert VisibleOnly([SHOWN]) == [SHOWN] && VisibleOnly(entries) == [SHOWN];
    assert OpsOf([SHOWN]) == SHOWN.operations && OpsOf(entries) == SHOWN.operations + HIDDEN.operations;
    var ops := SHOWN.operations + HIDDEN.operations;
    assert ops[..1] == SHOWN.operations && SHOWN.operations[..0] == [];
    assert Replayed(SHOWN.operations, "x") == Final(Some(Approved), Some(Internal));
  }

  lemma DivergingOrder()
    ensures var entries := [SHOWN, HIDDEN];
            InFilenameOrder(entries) && VisibleStandsAlone(entries) && OrderIsTopological(entries)
  {
    var entries := [SHOWN, HIDDEN];
    assert SHOWN.file[0] == '0' && HIDDEN.file[0] == '1';
    assert FIRST_ID[0] != SECOND_ID[0];
    assert LastWithId(entries, FIRST_ID) == Some(0) by {
      assert entries[..1] == [SHOWN];
    }
  }

  lemma OnlyXIsWithheld(item: string)
    ensures TouchedByWithheld([SHOWN, HIDDEN], item) <==> item == "x"
  {
    var entries := [SHOWN, HIDDEN];
    assert entries[1] == HIDDEN && HIDDEN.operations[0].Named() == Some("x");
    assert Names(HIDDEN, "x");
  }

  /** One enabled query, judged to have no answer. */
  const ASKED := [Query("q", true)]
  const ABSTAINS := [Judgement("q", [], [], [], true)]

  lemma AbstentionIsJudged(entries: seq<Entry>)
    requires forall e :: e in entries ==> e.operations != [] && NoRepeat(e.dependsOn)
    requires entries != []
    ensures ShapesHold(entries, ASKED, ABSTAINS) && UniqueQueries(ASKED) && UniqueJudgements(ABSTAINS)
    ensures JudgementsNameQueries(ASKED, ABSTAINS) && EnabledJudged(ASKED, ABSTAINS)
    ensures RelevantNotForbidden(ABSTAINS) && JudgementsJudge(ABSTAINS) && NothingSubsumed(ABSTAINS)
    ensures RelevantExists(entries, ABSTAINS) && RelevantRetrievable(entries, ASKED, ABSTAINS)
  {
    assert ASKED[0] in ASKED && ABSTAINS[0] in ABSTAINS;
  }

  lemma DivergingCovered()
    ensures NothingDisclosable([SHOWN, HIDDEN])
  {
    DivergingReplay();
    hide FinalOf, VisibleOnly, TouchedByWithheld;
    forall item
      ensures TouchedByWithheld([SHOWN, HIDDEN], item) <==> item == "x"
    {
      OnlyXIsWithheld(item);
    }
  }

  lemma DivergingAccepted()
    ensures Accepted([SHOWN, HIDDEN], ASKED, ABSTAINS)
  {
    AbstentionIsJudged([SHOWN, HIDDEN]);
    DivergingOrder();
    DivergingCovered();
    hide ShapesHold, UniqueQueries, UniqueJudgements, JudgementsNameQueries, EnabledJudged, RelevantNotForbidden,
         JudgementsJudge, NothingSubsumed, RelevantExists, RelevantRetrievable, InFilenameOrder, VisibleStandsAlone,
         OrderIsTopological, NothingDisclosable;
  }

  /** A corpus the loader accepts whose builds differ: a withheld migration deprecates an approved visible item. */
  lemma WithheldDeprecationDiverges()
    ensures Accepted([SHOWN, HIDDEN], ASKED, ABSTAINS) && !BuildsAgree([SHOWN, HIDDEN])
  {
    DivergingAccepted();
    DivergingReplay();
    hide Accepted, FinalOf, VisibleOnly;
    assert Served(FinalOf(VisibleOnly([SHOWN, HIDDEN]), "x")) && !Served(FinalOf([SHOWN, HIDDEN], "x"));
  }

  // -- What is served, by name -------------------------------------------------------------------

  /** A build serves at default flags exactly what is approved and no more than internal; a missing class is internal. */
  lemma ServedMeans(f: Final)
    ensures Served(f) <==> f.status == Some(Approved) && f.sensitivity in {None, Some(Public), Some(Internal)}
  {
  }

  /** Only a flag puts drafts and proposals into the index: those a default query must hold back. */
  lemma GateTestedMeans(status: Status)
    ensures GateTested(status) <==> status in {Draft, Proposed}
  {
  }

  /** In an accepted corpus an approved item of the withheld plane is confidential or restricted. */
  lemma WithheldIsShut(entries: seq<Entry>, queries: seq<Query>, judgements: seq<Judgement>, item: string)
    requires Accepted(entries, queries, judgements) && TouchedByWithheld(entries, item)
    requires FinalOf(entries, item).status == Some(Approved)
    ensures FinalOf(entries, item).sensitivity in {Some(Confidential), Some(Restricted)}
  {
    var f := FinalOf(entries, item);
    hide FinalOf, TouchedByWithheld, ShapesHold, InFilenameOrder, VisibleStandsAlone, OrderIsTopological,
      JudgementsNameQueries, EnabledJudged, RelevantNotForbidden, JudgementsJudge, NothingSubsumed, RelevantExists,
      RelevantRetrievable;
    assert !(MaySurface(StatusOr(f, Draft), false) && WithinCeiling(OrDefault(f.sensitivity)));
  }

  /** An accepted corpus has migrations that do something, queries and judgements, and one that abstains has nothing relevant. */
  lemma AcceptedHasShape(entries: seq<Entry>, queries: seq<Query>, judgements: seq<Judgement>)
    requires Accepted(entries, queries, judgements)
    ensures entries != [] && queries != [] && judgements != [] && forall e :: e in entries ==> e.operations != []
    ensures forall j :: j in judgements && j.expectAbstention ==> j.relevant == []
    ensures forall e :: e in entries ==> forall a, b :: 0 <= a < b < |e.dependsOn| ==> e.dependsOn[a] != e.dependsOn[b]
  {
    hide InFilenameOrder, VisibleStandsAlone, OrderIsTopological, JudgementsNameQueries, EnabledJudged,
      RelevantNotForbidden, JudgementsJudge, NothingSubsumed, RelevantExists, RelevantRetrievable;
  }
}
