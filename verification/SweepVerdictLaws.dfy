/** What the reading of a record says, for any record and any exit code. */
module SweepVerdictLaws {
  import opened PyText
  import opened MutateRunLaws
  import opened SweepVerdict
  import MutateRun
  import opened Verdicts

  /** A mutation's line: one that does not carry the control's label. */
  predicate OfMutation(r: Record) {
    r.name != "__control__"
  }

  predicate NotHeld(r: Record) {
    OfMutation(r) && r.verdict in {"SURVIVED", "HUNG"}
  }

  /** One control, green, beside exactly the mutations that were submitted, at least one. */
  ghost predicate Whole(records: seq<Record>, submitted: int) {
    && submitted > 0 && |records| == submitted + 1
    && exists c :: 0 <= c < |records| && records[c] == Record("__control__", "control-green")
                   && forall i :: 0 <= i < |records| && i != c ==> OfMutation(records[i])
  }

  lemma NotControl(r: Record)
    ensures r.IsControl() <==> !OfMutation(r)
    ensures OfMutation(r) && r.Survives() <==> NotHeld(r)
  {
  }

  lemma AControl(records: seq<Record>)
    requires |Controls(records)| > 0
    ensures exists c :: 0 <= c < |records| && records[c].IsControl()
  {
    SplitRecords(records);
    assert Controls(records)[0] in records;
  }

  /** One control in the list is one control in the record. */
  lemma OneControl(records: seq<Record>) returns (c: nat)
    requires |Controls(records)| == 1
    ensures c < |records| && Controls(records) == [records[c]]
    ensures forall i :: 0 <= i < |records| ==> (records[i].IsControl() <==> i == c)
  {
    hide Controls;
    AControl(records);
    c :| 0 <= c < |records| && records[c].IsControl();
    forall i | 0 <= i < |records| && i != c
      ensures !records[i].IsControl()
    {
      if records[i].IsControl() {
        TwoControls(records, if i < c then i else c, if i < c then c else i);
      }
    }
    SoleControl(records, c);
  }

  lemma WholeIff(records: seq<Record>, submitted: int)
    ensures Whole(records, submitted)
            <==> && |Controls(records)| == 1 && Controls(records)[0].verdict == "control-green"
                 && |Mutations(records)| == submitted && submitted > 0
  {
    SplitRecords(records);
    hide Controls, Mutations;
    forall i | 0 <= i < |records|
      ensures records[i].IsControl() <==> !OfMutation(records[i])
    {
      NotControl(records[i]);
    }
    if |Controls(records)| == 1 {
      var c := OneControl(records);
      assert records[c] == Controls(records)[0];
    }
    if Whole(records, submitted) {
      var c :| 0 <= c < |records| && records[c] == Record("__control__", "control-green")
               && forall i :: 0 <= i < |records| && i != c ==> OfMutation(records[i]);
      SoleControl(records, c);
    }
  }

  lemma KilledIff(records: seq<Record>)
    ensures (forall r :: r in Mutations(records) ==> r.verdict == "KILLED")
            <==> forall i :: 0 <= i < |records| && OfMutation(records[i]) ==> records[i].verdict == "KILLED"
  {
    SplitRecords(records);
    hide Controls, Mutations;
    forall r: Record
      ensures r.IsControl() <==> !OfMutation(r)
    {
      NotControl(r);
    }
    if forall r :: r in Mutations(records) ==> r.verdict == "KILLED" {
      forall i | 0 <= i < |records| && OfMutation(records[i])
        ensures records[i].verdict == "KILLED"
      {
        assert records[i] in Mutations(records);
      }
    }
  }

  /** The names reported are those of the mutations that were not held, in the order of the record. */
  lemma {:induction false} UnheldAt(records: seq<Record>) returns (at: seq<nat>)
    ensures |at| == |UnheldNames(Mutations(records))|
    ensures forall i :: 0 <= i < |at| ==> at[i] < |records| && UnheldNames(Mutations(records))[i] == records[at[i]].name
    ensures forall i, j :: 0 <= i < j < |at| ==> at[i] < at[j]
    ensures forall k: nat :: k in at <==> k < |records| && NotHeld(records[k])
  {
    if records == [] {
      at := [];
    } else {
      hide *;
      var rest := UnheldAt(records[1..]);
      at := (if NotHeld(records[0]) then [0] else []) + Shifted(rest);
      UnheldStep(records);
      NamesOnward(records, rest);
      PlacesOnward(records, rest);
    }
  }

  lemma MutationsStep(records: seq<Record>)
    requires records != []
    ensures Mutations(records) == (if records[0].IsControl() then [] else [records[0]]) + Mutations(records[1..])
  {
  }

  lemma UnheldCons(r: Record, rest: seq<Record>)
    ensures UnheldNames([r] + rest) == (if r.Survives() then [r.name] else []) + UnheldNames(rest)
  {
    assert ([r] + rest)[1..] == rest;
  }

  lemma UnheldStep(records: seq<Record>)
    requires records != []
    ensures UnheldNames(Mutations(records))
         == (if NotHeld(records[0]) then [records[0].name] else []) + UnheldNames(Mutations(records[1..]))
  {
    NotControl(records[0]);
    MutationsStep(records);
    UnheldCons(records[0], Mutations(records[1..]));
    hide NotHeld, Mutations, UnheldNames;
    assert [] + Mutations(records[1..]) == Mutations(records[1..]);
    assert !OfMutation(records[0]) ==> !NotHeld(records[0]) by {
      NotControlNotHeld(records[0]);
    }
  }

  lemma NotControlNotHeld(r: Record)
    ensures NotHeld(r) ==> OfMutation(r)
  {
  }

  lemma NamesOnward(records: seq<Record>, rest: seq<nat>)
    requires records != [] && |rest| == |UnheldNames(Mutations(records[1..]))|
    requires forall i :: 0 <= i < |rest| ==>
               rest[i] < |records[1..]| && UnheldNames(Mutations(records[1..]))[i] == records[1..][rest[i]].name
    requires forall i, j :: 0 <= i < j < |rest| ==> rest[i] < rest[j]
    ensures var at := (if NotHeld(records[0]) then [0] else []) + Shifted(rest);
            var names := (if NotHeld(records[0]) then [records[0].name] else []) + UnheldNames(Mutations(records[1..]));
            && |at| == |names| && (forall i :: 0 <= i < |at| ==> at[i] < |records| && names[i] == records[at[i]].name)
            && forall i, j :: 0 <= i < j < |at| ==> at[i] < at[j]
  {
    hide Shifted, NotHeld, UnheldNames, Mutations;
  }

  lemma PlacesOnward(records: seq<Record>, rest: seq<nat>)
    requires records != [] && forall k: nat :: k in rest <==> k < |records[1..]| && NotHeld(records[1..][k])
    ensures var at := (if NotHeld(records[0]) then [0] else []) + Shifted(rest);
            forall k: nat :: k in at <==> k < |records| && NotHeld(records[k])
  {
    hide Shifted, NotHeld;
    ShiftedHolds(rest);
    var first: seq<nat> := if NotHeld(records[0]) then [0] else [];
    forall k: nat
      ensures k in first + Shifted(rest) <==> k < |records| && NotHeld(records[k])
    {
      if 0 < k < |records| {
        assert records[k] == records[1..][k - 1];
      }
    }
  }

  lemma SomeNotHeld(records: seq<Record>)
    ensures UnheldNames(Mutations(records)) != [] <==> exists i :: 0 <= i < |records| && NotHeld(records[i])
  {
    hide *;
    var at := UnheldAt(records);
    if i: nat :| i < |records| && NotHeld(records[i]) {
      assert i in at;
    }
    if at != [] {
      assert at[0] in at;
    }
  }

  /**
   A run is clean exactly on positive evidence: exit 0, one green control beside exactly the submitted
   mutations, and every one of them killed. It is a survivors run exactly when the exit is 1, the same
   record is whole and some mutation was not held. Everything else is untrusted.
   */
  lemma ClassifyMeans(mutateExit: int, records: seq<Record>, submitted: int)
    ensures var reason := Classify(mutateExit, records, submitted).reason;
            && (reason == None <==>
                && mutateExit == 0 && Whole(records, submitted)
                && forall i :: 0 <= i < |records| && OfMutation(records[i]) ==> records[i].verdict == "KILLED")
            && (reason == Some(Survivors) <==>
                && mutateExit == 1 && Whole(records, submitted)
                && exists i :: 0 <= i < |records| && NotHeld(records[i]))
  {
    WholeIff(records, submitted);
    KilledIff(records);
    SomeNotHeld(records);
    hide Whole, Controls, Mutations, UnheldNames, NotHeld, OfMutation;
  }

  /** Clean or not, what is named is what was not held: each such mutation, in the order of the record. */
  lemma UnheldMeans(mutateExit: int, records: seq<Record>, submitted: int) returns (at: seq<nat>)
    ensures var unheld := Classify(mutateExit, records, submitted).unheld;
            && |at| == |unheld|
            && (forall i :: 0 <= i < |at| ==> at[i] < |records| && unheld[i] == records[at[i]].name)
            && (forall i, j :: 0 <= i < j < |at| ==> at[i] < at[j])
            && (forall k: nat :: k in at <==> k < |records| && NotHeld(records[k]))
  {
    at := UnheldAt(records);
    KilledIff(records);
    ClassifyMeans(mutateExit, records, submitted);
    hide Whole, Controls, Mutations, UnheldNames, OfMutation;
    if at != [] {
      assert at[0] in at;
      assert Classify(mutateExit, records, submitted).reason != None;
    }
  }

  /** Every verdict the harness writes is one the filer and the reader know, under a name of its own. */
  lemma NamesAreKnown(v: MutateRun.Verdict, w: MutateRun.Verdict)
    ensures Known(VerdictName(v)) && (VerdictName(v) == VerdictName(w) <==> v == w)
    ensures ControlVerdict(VerdictName(v)) <==> v.CONTROL_GREEN? || v.CONTROL_RED?
    ensures Unheld(VerdictName(v)) <==> v.SURVIVED? || v.HUNG?
    ensures v.HUNG? <==> VerdictName(v) == "HUNG"
  {
    DistinctNames(v, w);
  }

  lemma DistinctNames(v: MutateRun.Verdict, w: MutateRun.Verdict)
    ensures VerdictName(v) == VerdictName(w) ==> v == w
  {
    var x, y := VerdictName(v), VerdictName(w);
    assert |x| == |y| && x[0] == y[0] && x[|x| - 1] == y[|y| - 1] ==> v == w;
  }
}
