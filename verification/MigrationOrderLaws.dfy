/** When the engine's order is the order a list is already in, and what follows when it is not. */
module MigrationOrderLaws {
  import opened PyText
  import opened MigrationOrder
  import EvalCorpus
  import EvalCorpusLaws

  // -- One order ---------------------------------------------------------------------------------

  /** The dependency graph fixes the layers. */
  lemma {:induction false} LayersUnique(g: Graph, a: map<Id, nat>, b: map<Id, nat>, id: Id)
    requires Layers(g, a) && Layers(g, b) && id in g
    ensures a[id] == b[id]
    decreases a[id]
  {
    assert AboveAll(g, a, id) && AboveAll(g, b, id);
    if a[id] > 0 {
      assert RightAbove(g, a, id, a[id]);
      var d :| d in g[id] && d in a && a[d] + 1 == a[id];
      LayersUnique(g, a, b, d);
    }
    if b[id] > 0 {
      assert RightAbove(g, b, id, b[id]);
      var d :| d in g[id] && d in b && b[d] + 1 == b[id];
      LayersUnique(g, a, b, d);
    }
  }

  /** Two lists of the same ids in the same order are one list. */
  lemma {:induction false} SortedUnique(layer: map<Id, nat>, a: seq<Id>, b: seq<Id>)
    requires LayerSorted(layer, a) && LayerSorted(layer, b)
    requires forall id :: id in a <==> id in b
    ensures a == b
  {
    if a != [] {
      FirstIsFirst(layer, a, b);
      assert a == [a[0]] + a[1..] && b == [b[0]] + b[1..];
      TailWithout(layer, a);
      TailWithout(layer, b);
      SortedUnique(layer, a[1..], b[1..]);
    } else if b != [] {
      FirstIsFirst(layer, b, a);
    }
  }

  lemma FirstIsFirst(layer: map<Id, nat>, a: seq<Id>, b: seq<Id>)
    requires LayerSorted(layer, a) && LayerSorted(layer, b) && a != []
    requires forall id :: id in a <==> id in b
    ensures b != [] && a[0] == b[0]
  {
    hide LayerSorted;
    assert a[0] in a;
    var j: nat :| j < |b| && b[j] == a[0];
    assert b[0] in b;
    var k: nat :| k < |a| && a[k] == b[0];
    FirstPrecedes(layer, a, k);
    FirstPrecedes(layer, b, j);
  }

  lemma FirstPrecedes(layer: map<Id, nat>, ids: seq<Id>, i: nat)
    requires LayerSorted(layer, ids) && i < |ids|
    ensures ids[0] in layer && ids[i] in layer && (i > 0 ==> Precedes(layer, ids[0], ids[i]))
  {
  }

  lemma TailWithout(layer: map<Id, nat>, a: seq<Id>)
    requires LayerSorted(layer, a) && a != []
    ensures LayerSorted(layer, a[1..]) && forall id :: id in a[1..] <==> id in a && id != a[0]
  {
    forall i | 0 <= i < |a[1..]|
      ensures a[1..][i] != a[0]
    {
      assert Precedes(layer, a[0], a[i + 1]);
    }
    assert a == [a[0]] + a[1..];
  }

  /** The dependencies alone fix the order: the engine has one answer. */
  lemma OneOrder(g: Graph, a: seq<Id>, b: seq<Id>)
    requires InEngineOrder(g, a) && InEngineOrder(g, b)
    ensures a == b
  {
    var one :| Layers(g, one) && LayerSorted(one, a);
    var other :| Layers(g, other) && LayerSorted(other, b);
    SameLayers(g, one, other);
    SameIds(g, a, b);
    hide Layers, LayerSorted;
    SortedUnique(one, a, b);
  }

  lemma SameLayers(g: Graph, a: map<Id, nat>, b: map<Id, nat>)
    requires Layers(g, a) && Layers(g, b)
    ensures a == b
  {
    assert a.Keys == g.Keys == b.Keys;
    hide AboveAll, RightAbove;
    forall id | id in g
      ensures a[id] == b[id]
    {
      LayersUnique(g, a, b, id);
    }
  }

  lemma SameIds(g: Graph, a: seq<Id>, b: seq<Id>)
    requires SetOf(a) == g.Keys == SetOf(b)
    ensures forall id :: id in a <==> id in b
  {
    forall id
      ensures id in a <==> id in b
    {
      assert id in a <==> id in SetOf(a);
      assert id in b <==> id in SetOf(b);
    }
  }

  // -- Lists already in order --------------------------------------------------------------------

  /** Layers never fall along the list. */
  predicate LayersAscend(layer: map<Id, nat>, ids: seq<Id>) {
    && (forall i :: 0 <= i < |ids| ==> ids[i] in layer)
    && forall i, j :: 0 <= i < j < |ids| ==> layer[ids[i]] <= layer[ids[j]]
  }

  /**
   A list whose ids ascend is left unchanged by the walk exactly when its layers never fall. That every
   dependency points earlier does not suffice.
   */
  lemma UnchangedIff(g: Graph, layer: map<Id, nat>, walk: seq<Id>, ids: seq<Id>)
    requires Layers(g, layer) && LayerSorted(layer, walk) && SetOf(walk) == g.Keys
    requires Ascending(ids) && SetOf(ids) == g.Keys
    ensures walk == ids <==> LayersAscend(layer, ids)
  {
    assert forall i :: 0 <= i < |ids| ==> ids[i] in SetOf(ids);
    hide AboveAll, RightAbove;
    if LayersAscend(layer, ids) {
      forall id
        ensures id in walk <==> id in ids
      {
        assert id in walk <==> id in SetOf(walk);
        assert id in ids <==> id in SetOf(ids);
      }
      SortedUnique(layer, walk, ids);
    }
    if walk == ids {
      assert forall i, j :: 0 <= i < j < |ids| ==> Precedes(layer, ids[i], ids[j]);
    }
  }

  lemma BottomLayer(g: Graph, layer: map<Id, nat>, id: Id)
    requires Layers(g, layer) && id in g && g[id] == {}
    ensures layer[id] == 0
  {
    assert !RightAbove(g, layer, id, layer[id]);
  }

  /** With no edge the walk is the plain id sort. */
  lemma NoEdgesMeansIdSort(g: Graph, walk: seq<Id>, ids: seq<Id>)
    requires InEngineOrder(g, walk)
    requires Ascending(ids) && SetOf(ids) == g.Keys
    requires forall id :: id in g ==> g[id] == {}
    ensures walk == ids
  {
    var layer :| Layers(g, layer) && LayerSorted(layer, walk);
    forall i | 0 <= i < |ids|
      ensures ids[i] in layer && layer[ids[i]] == 0
    {
      assert ids[i] in SetOf(ids);
      BottomLayer(g, layer, ids[i]);
    }
    hide Layers, LayerSorted;
    UnchangedIff(g, layer, walk, ids);
  }

  /** Dependencies always come first in the walk. */
  lemma DependenciesFirst(g: Graph, walk: seq<Id>, i: nat, j: nat)
    requires InEngineOrder(g, walk)
    requires i < |walk| && j < |walk| && walk[i] in g && walk[j] in g[walk[i]]
    ensures j < i
  {
    var layer :| Layers(g, layer) && LayerSorted(layer, walk);
    assert AboveAll(g, layer, walk[i]);
  }

  lemma ThreeLayers(g: Graph, layer: map<Id, nat>)
    requires g == map[0 := {}, 1 := {0}, 2 := {}] && Layers(g, layer)
    ensures LayerSorted(layer, [0, 2, 1])
  {
    assert AboveAll(g, layer, 1);
    BottomLayer(g, layer, 0);
    BottomLayer(g, layer, 2);
  }

  /** Ids ascend along 0, 1, 2 and the one dependency points earlier, yet the walk is 0, 2, 1. */
  lemma EarlierIsNotEnough(g: Graph, walk: seq<Id>)
    requires g == map[0 := {}, 1 := {0}, 2 := {}]
    requires InEngineOrder(g, walk)
    ensures walk == [0, 2, 1]
  {
    var layer :| Layers(g, layer) && LayerSorted(layer, walk);
    ThreeLayers(g, layer);
    hide Layers, LayerSorted;
    assert SetOf([0, 2, 1]) == g.Keys;
    assert InEngineOrder(g, [0, 2, 1]);
    hide InEngineOrder;
    OneOrder(g, walk, [0, 2, 1]);
  }

  // -- The corpus replay -------------------------------------------------------------------------

  /** Which entries an entry depends on, by position; file names, and so positions, ascend with ids. */
  function Positions(entries: seq<EvalCorpus.Entry>, dependsOn: seq<string>): set<Id> {
    set k: Id | k < |entries| && exists d :: d in dependsOn && EvalCorpus.LastWithId(entries, d) == Some(k)
  }

  function ManifestGraph(entries: seq<EvalCorpus.Entry>): Graph {
    map k: Id | k < |entries| :: Positions(entries, entries[k].dependsOn)
  }

  function Reordered(entries: seq<EvalCorpus.Entry>, walk: seq<Id>): seq<EvalCorpus.Entry>
    requires forall i :: 0 <= i < |walk| ==> walk[i] < |entries|
  {
    seq(|walk|, i requires 0 <= i < |walk| => entries[walk[i]])
  }

  function Counting(n: nat): (r: seq<Id>)
    ensures |r| == n && forall i :: 0 <= i < n ==> r[i] == i
  {
    seq(n, i => i)
  }

  /** The manifest is the walk exactly when layers never fall along it. */
  lemma ManifestIsWalkIff(entries: seq<EvalCorpus.Entry>, layer: map<Id, nat>, walk: seq<Id>)
    requires var g := ManifestGraph(entries);
             Layers(g, layer) && LayerSorted(layer, walk) && SetOf(walk) == g.Keys
    ensures walk == Counting(|entries|) <==> LayersAscend(layer, Counting(|entries|))
  {
    var g, ids := ManifestGraph(entries), Counting(|entries|);
    forall id: Id
      ensures id in SetOf(ids) <==> id in g
    {
      if id < |entries| {
        assert ids[id] == id;
      }
    }
    UnchangedIff(g, layer, walk, ids);
  }

  /** Entry `k` writes this field of the item. */
  ghost predicate WritesField(entries: seq<EvalCorpus.Entry>, item: string, field: EvalCorpusLaws.Field, k: nat) {
    k < |entries| && EvalCorpusLaws.Written(entries[k], item, field).Some?
  }

  ghost predicate LastInManifest(entries: seq<EvalCorpus.Entry>, item: string, field: EvalCorpusLaws.Field, k: nat) {
    WritesField(entries, item, field, k) && forall j: nat :: WritesField(entries, item, field, j) ==> j <= k
  }

  /** The writer whose layer is highest, and of those the one listed last. */
  ghost predicate LastInLayers(
      entries: seq<EvalCorpus.Entry>, layer: map<Id, nat>, item: string, field: EvalCorpusLaws.Field, k: nat)
  {
    && WritesField(entries, item, field, k) && k in layer
    && forall j: nat :: WritesField(entries, item, field, j) && j in layer && j != k ==> Precedes(layer, j, k)
  }

  /** Every position of the manifest is in the walk, once, and in no other place than its layer's. */
  ghost predicate Walks(entries: seq<EvalCorpus.Entry>, layer: map<Id, nat>, walk: seq<Id>) {
    && LayerSorted(layer, walk)
    && (forall i :: 0 <= i < |walk| ==> walk[i] < |entries|)
    && (forall k: Id :: k < |entries| ==> k in walk && k in layer)
  }

  lemma EngineWalks(entries: seq<EvalCorpus.Entry>, layer: map<Id, nat>, walk: seq<Id>)
    requires var g := ManifestGraph(entries);
             Layers(g, layer) && LayerSorted(layer, walk) && SetOf(walk) == g.Keys
    ensures Walks(entries, layer, walk)
  {
    var g := ManifestGraph(entries);
    forall i | 0 <= i < |walk|
      ensures walk[i] < |entries|
    {
      assert walk[i] in SetOf(walk);
    }
    forall k: Id | k < |entries|
      ensures k in walk && k in layer
    {
      assert k in g && k in SetOf(walk);
    }
  }

  /** The replay of the reordered entries takes the field from the writer that is last in the walk. */
  lemma ReorderedField(entries: seq<EvalCorpus.Entry>, layer: map<Id, nat>, walk: seq<Id>, item: string,
                       field: EvalCorpusLaws.Field, i: nat)
    requires Walks(entries, layer, walk) && i < |walk| && WritesField(entries, item, field, walk[i])
    requires forall j :: i < j < |walk| ==> !WritesField(entries, item, field, walk[j])
    ensures LastInLayers(entries, layer, item, field, walk[i])
    ensures EvalCorpusLaws.Read(EvalCorpus.FinalOf(Reordered(entries, walk), item), field)
            == EvalCorpusLaws.Written(entries[walk[i]], item, field)
  {
    hide EvalCorpus.FinalOf, EvalCorpusLaws.Written, EvalCorpusLaws.Read;
    var moved := Reordered(entries, walk);
    assert forall j :: i < j < |moved| ==> moved[j] == entries[walk[j]];
    EvalCorpusLaws.LastWriterDecides(moved, item, field, i);
    forall j: nat | WritesField(entries, item, field, j) && j in layer && j != walk[i]
      ensures Precedes(layer, j, walk[i])
    {
      var at :| 0 <= at < |walk| && walk[at] == j;
      assert Precedes(layer, walk[at], walk[i]);
    }
  }

  /** Of the writers of a field, the last listed and the last in the walk; or there is none. */
  lemma Writers(entries: seq<EvalCorpus.Entry>, layer: map<Id, nat>, walk: seq<Id>, item: string,
                field: EvalCorpusLaws.Field) returns (p: Option<nat>, q: Option<nat>)
    requires Walks(entries, layer, walk)
    ensures p.Some? <==> q.Some?
    ensures p.Some? ==> LastInManifest(entries, item, field, p.value) && LastInLayers(entries, layer, item, field, q.value)
    ensures p.None? ==> forall k: nat :: !WritesField(entries, item, field, k)
    ensures EvalCorpusLaws.Read(EvalCorpus.FinalOf(entries, item), field)
            == if p.Some? then EvalCorpusLaws.Written(entries[p.value], item, field) else None
    ensures EvalCorpusLaws.Read(EvalCorpus.FinalOf(Reordered(entries, walk), item), field)
            == if p.Some? then EvalCorpusLaws.Written(entries[q.value], item, field) else None
  {
    hide EvalCorpus.FinalOf, EvalCorpusLaws.Written, EvalCorpusLaws.Read, LayerSorted;
    p := LastOf(entries, item, field, Counting(|entries|));
    q := LastOf(entries, item, field, walk);
    var moved := Reordered(entries, walk);
    if p.None? {
      forall k: nat
        ensures !WritesField(entries, item, field, k)
      {
        if k < |entries| {
          assert Counting(|entries|)[k] == k;
        }
      }
      forall j | 0 <= j < |moved|
        ensures EvalCorpusLaws.Written(moved[j], item, field).None?
      {
        assert !WritesField(entries, item, field, walk[j]);
      }
      forall j: nat | j < |entries|
        ensures EvalCorpusLaws.Written(entries[j], item, field).None?
      {
        assert !WritesField(entries, item, field, j);
      }
      EvalCorpusLaws.NoWriter(entries, item, field);
      EvalCorpusLaws.NoWriter(moved, item, field);
    } else {
      forall k: nat | WritesField(entries, item, field, k)
        ensures k <= p.value
      {
        assert Counting(|entries|)[k] == k;
      }
      forall j: nat | p.value < j < |entries|
        ensures EvalCorpusLaws.Written(entries[j], item, field).None?
      {
        assert !WritesField(entries, item, field, j);
      }
      EvalCorpusLaws.LastWriterDecides(entries, item, field, p.value);
      assert p.value in walk;
      ReorderedField(entries, layer, walk, item, field, q.value);
      q := Some(walk[q.value]);
    }
  }

  /** The last index of `ids` whose entry writes the field. */
  lemma {:induction false} LastOf(entries: seq<EvalCorpus.Entry>, item: string, field: EvalCorpusLaws.Field, ids: seq<Id>)
    returns (i: Option<nat>)
    ensures i.Some? ==> i.value < |ids| && WritesField(entries, item, field, ids[i.value])
    ensures i.Some? ==> forall j :: i.value < j < |ids| ==> !WritesField(entries, item, field, ids[j])
    ensures i.None? ==> forall j :: 0 <= j < |ids| ==> !WritesField(entries, item, field, ids[j])
  {
    hide WritesField;
    if ids == [] {
      i := None;
    } else if WritesField(entries, item, field, ids[|ids| - 1]) {
      i := Some(|ids| - 1);
    } else {
      var front := ids[..|ids| - 1];
      i := LastOf(entries, item, field, front);
      assert forall j :: 0 <= j < |front| ==> front[j] == ids[j];
    }
  }

  /** Whoever writes a field last in one order writes the value the last of the other order writes. */
  ghost predicate LastWritersAgree(
      entries: seq<EvalCorpus.Entry>, layer: map<Id, nat>, item: string, field: EvalCorpusLaws.Field)
  {
    forall p: nat, q: nat :: LastInManifest(entries, item, field, p) && LastInLayers(entries, layer, item, field, q) ==>
      EvalCorpusLaws.Written(entries[p], item, field) == EvalCorpusLaws.Written(entries[q], item, field)
  }

  lemma OneLast(entries: seq<EvalCorpus.Entry>, layer: map<Id, nat>, item: string, field: EvalCorpusLaws.Field,
                p: nat, p': nat, q: nat, q': nat)
    requires LastInManifest(entries, item, field, p) && LastInManifest(entries, item, field, p')
    requires LastInLayers(entries, layer, item, field, q) && LastInLayers(entries, layer, item, field, q')
    ensures p == p' && q == q'
  {
    hide EvalCorpusLaws.Written;
  }

  lemma FieldAgreesIff(entries: seq<EvalCorpus.Entry>, layer: map<Id, nat>, walk: seq<Id>, item: string,
                       field: EvalCorpusLaws.Field)
    requires Walks(entries, layer, walk)
    ensures EvalCorpusLaws.Read(EvalCorpus.FinalOf(Reordered(entries, walk), item), field)
            == EvalCorpusLaws.Read(EvalCorpus.FinalOf(entries, item), field)
            <==> LastWritersAgree(entries, layer, item, field)
  {
    hide EvalCorpus.FinalOf, EvalCorpusLaws.Written, EvalCorpusLaws.Read, Walks;
    var p, q := Writers(entries, layer, walk, item, field);
    if p.Some? {
      forall p': nat, q': nat | LastInManifest(entries, item, field, p') && LastInLayers(entries, layer, item, field, q')
        ensures p' == p.value && q' == q.value
      {
        OneLast(entries, layer, item, field, p', p.value, q', q.value);
      }
    }
  }

  /**
   The replay of a corpus in manifest order leaves an item where the replay in the engine's order does
   exactly when, for its status and for its sensitivity, the writer listed last and the last writer of
   the highest layer write the same value.
   */
  lemma ManifestReplayIsApplyIff(entries: seq<EvalCorpus.Entry>, layer: map<Id, nat>, walk: seq<Id>, item: string)
    requires var g := ManifestGraph(entries);
             Layers(g, layer) && LayerSorted(layer, walk) && SetOf(walk) == g.Keys
    ensures forall i :: 0 <= i < |walk| ==> walk[i] < |entries|
    ensures EvalCorpus.FinalOf(Reordered(entries, walk), item) == EvalCorpus.FinalOf(entries, item)
            <==> forall field :: LastWritersAgree(entries, layer, item, field)
  {
    EngineWalks(entries, layer, walk);
    hide Layers, LayerSorted, LastWritersAgree, EvalCorpus.FinalOf;
    FieldAgreesIff(entries, layer, walk, item, EvalCorpusLaws.StatusField);
    FieldAgreesIff(entries, layer, walk, item, EvalCorpusLaws.SensitivityField);
    if LastWritersAgree(entries, layer, item, EvalCorpusLaws.StatusField)
       && LastWritersAgree(entries, layer, item, EvalCorpusLaws.SensitivityField) {
      forall field
        ensures LastWritersAgree(entries, layer, item, field)
      {
        match field
        case StatusField =>
        case SensitivityField =>
      }
    }
  }

  /** Layers never fall along the entries that name the item. */
  ghost predicate NeverFalls(entries: seq<EvalCorpus.Entry>, layer: map<Id, nat>, item: string) {
    forall i: Id, j: Id | i < j < |entries| && i in layer && j in layer ::
      EvalCorpus.Names(entries[i], item) && EvalCorpus.Names(entries[j], item) ==> layer[i] <= layer[j]
  }

  /** In particular, whenever layers never fall along the entries that name the item, however the others stand. */
  lemma ManifestReplayIsApply(entries: seq<EvalCorpus.Entry>, layer: map<Id, nat>, walk: seq<Id>, item: string)
    requires var g := ManifestGraph(entries);
             Layers(g, layer) && LayerSorted(layer, walk) && SetOf(walk) == g.Keys
    requires NeverFalls(entries, layer, item)
    ensures forall i :: 0 <= i < |walk| ==> walk[i] < |entries|
    ensures EvalCorpus.FinalOf(Reordered(entries, walk), item) == EvalCorpus.FinalOf(entries, item)
  {
    ManifestReplayIsApplyIff(entries, layer, walk, item);
    EngineWalks(entries, layer, walk);
    hide Layers, LayerSorted, EvalCorpus.FinalOf, EvalCorpus.Names, EvalCorpusLaws.Written;
    forall field, p: nat, q: nat | LastInManifest(entries, item, field, p) && LastInLayers(entries, layer, item, field, q)
      ensures p == q
    {
      assert q <= p && p in layer;
      if !EvalCorpus.Names(entries[p], item) {
        EvalCorpusLaws.OnlyNamesWrite(entries[p], item, field);
      }
      if !EvalCorpus.Names(entries[q], item) {
        EvalCorpusLaws.OnlyNamesWrite(entries[q], item, field);
      }
    }
  }

  /**
   Three migrations the schema and the engine take: the first seeds an item, the second depends on it
   and restricts the item, the third depends on nothing and makes the item public.
   */
  const THIRD_ID := "22222222222222222222222222"
  const FIRST := EvalCorpus.Entry(EvalCorpusLaws.FIRST_ID + "-x.yaml", EvalCorpus.Visible, EvalCorpusLaws.FIRST_ID, [],
                                  [EvalCorpus.UpsertRevision("x", EvalCorpus.Approved, None)])
  const SECOND := EvalCorpus.Entry(EvalCorpusLaws.SECOND_ID + "-x.yaml", EvalCorpus.Visible, EvalCorpusLaws.SECOND_ID,
                                   [EvalCorpusLaws.FIRST_ID], [EvalCorpus.ChangeSensitivity("x", EvalCorpus.Restricted)])
  const THIRD := EvalCorpus.Entry(THIRD_ID + "-x.yaml", EvalCorpus.Visible, THIRD_ID, [],
                                  [EvalCorpus.ChangeSensitivity("x", EvalCorpus.Public)])
  const MANIFEST := [FIRST, SECOND, THIRD]

  lemma ManifestIds()
    ensures EvalCorpus.LastWithId(MANIFEST, EvalCorpusLaws.FIRST_ID) == Some(0)
  {
    var two, id := [FIRST, SECOND], EvalCorpusLaws.FIRST_ID;
    assert id[0] == '0' && SECOND.id[0] == '1' && THIRD.id[0] == '2';
    assert MANIFEST[..2] == two && two[..1] == [FIRST];
    assert EvalCorpus.LastWithId([FIRST], id) == Some(0);
    assert EvalCorpus.LastWithId(two, id) == EvalCorpus.LastWithId(two[..1], id);
    assert EvalCorpus.LastWithId(MANIFEST, id) == EvalCorpus.LastWithId(MANIFEST[..2], id);
  }

  lemma ManifestEdges()
    ensures ManifestGraph(MANIFEST) == map[0 := {}, 1 := {0}, 2 := {}]
  {
    ManifestIds();
    assert SECOND.dependsOn == [EvalCorpusLaws.FIRST_ID] && SECOND.dependsOn[0] == EvalCorpusLaws.FIRST_ID;
    hide EvalCorpus.LastWithId;
    assert Positions(MANIFEST, []) == {};
    assert Positions(MANIFEST, [EvalCorpusLaws.FIRST_ID]) == {0};
  }

  lemma LastLevels()
    ensures EvalCorpus.FinalOf(MANIFEST, "x").sensitivity == Some(EvalCorpus.Public)
    ensures EvalCorpus.FinalOf([FIRST, THIRD, SECOND], "x").sensitivity == Some(EvalCorpus.Restricted)
  {
    LastOneWins([FIRST, SECOND], THIRD);
    LastOneWins([FIRST, THIRD], SECOND);
    assert MANIFEST == [FIRST, SECOND] + [THIRD] && [FIRST, THIRD, SECOND] == [FIRST, THIRD] + [SECOND];
  }

  lemma LastOneWins(before: seq<EvalCorpus.Entry>, last: EvalCorpus.Entry)
    requires |last.operations| == 1 && last.operations[0].ChangeSensitivity? && last.operations[0].item == "x"
    ensures EvalCorpus.FinalOf(before + [last], "x").sensitivity == Some(last.operations[0].level)
  {
    var entries := before + [last];
    assert entries[..|before|] == before;
    var ops := EvalCorpus.OpsOf(before) + last.operations;
    assert EvalCorpus.OpsOf(entries) == ops && ops[|ops| - 1] == last.operations[0];
  }

  lemma ManifestIsOrdered()
    ensures EvalCorpus.InFilenameOrder(MANIFEST) && EvalCorpus.OrderIsTopological(MANIFEST)
    ensures EvalCorpus.VisibleStandsAlone(MANIFEST)
  {
    ManifestIds();
    assert FIRST.file[0] == '0' && SECOND.file[0] == '1' && THIRD.file[0] == '2';
    hide EvalCorpus.LastWithId;
  }

  lemma ManifestReordered(walk: seq<Id>)
    requires walk == [0, 2, 1]
    ensures forall i :: 0 <= i < |walk| ==> walk[i] < |MANIFEST|
    ensures Reordered(MANIFEST, walk) == [FIRST, THIRD, SECOND]
  {
  }

  /** The loader accepts the manifest: nothing in it is withheld. */
  lemma ManifestAccepted()
    ensures EvalCorpus.Accepted(MANIFEST, EvalCorpusLaws.ASKED, EvalCorpusLaws.ABSTAINS)
  {
    EvalCorpusLaws.AbstentionIsJudged(MANIFEST);
    ManifestIsOrdered();
    NothingWithheld();
    hide EvalCorpus.ShapesHold, EvalCorpus.UniqueQueries, EvalCorpus.UniqueJudgements, EvalCorpus.JudgementsNameQueries,
         EvalCorpus.EnabledJudged, EvalCorpus.RelevantNotForbidden, EvalCorpus.JudgementsJudge,
         EvalCorpus.NothingSubsumed, EvalCorpus.RelevantExists, EvalCorpus.RelevantRetrievable,
         EvalCorpus.InFilenameOrder, EvalCorpus.VisibleStandsAlone, EvalCorpus.OrderIsTopological,
         EvalCorpus.NothingDisclosable;
  }

  lemma NothingWithheld()
    ensures EvalCorpus.NothingDisclosable(MANIFEST)
  {
    forall item
      ensures !EvalCorpus.TouchedByWithheld(MANIFEST, item)
    {
    }
    hide EvalCorpus.TouchedByWithheld, EvalCorpus.FinalOf;
  }

  /**
   The loader accepts the corpus, yet its replay of the manifest ends in a sensitivity the engine's
   order does not give: public, where the engine leaves the item restricted.
   */
  lemma ManifestReplayDiverges(walk: seq<Id>)
    requires InEngineOrder(ManifestGraph(MANIFEST), walk)
    ensures EvalCorpus.Accepted(MANIFEST, EvalCorpusLaws.ASKED, EvalCorpusLaws.ABSTAINS)
    ensures walk == [0, 2, 1]
    ensures EvalCorpus.FinalOf(MANIFEST, "x").sensitivity == Some(EvalCorpus.Public)
    ensures EvalCorpus.FinalOf(Reordered(MANIFEST, walk), "x").sensitivity == Some(EvalCorpus.Restricted)
  {
    hide *;
    ManifestEdges();
    LastLevels();
    ManifestAccepted();
    EarlierIsNotEnough(ManifestGraph(MANIFEST), walk);
    ManifestReordered(walk);
  }
}
