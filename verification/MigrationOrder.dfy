/**
 The order the migration engine applies migrations in: a walk over `dependsOn` that takes every ready
 migration at once, by id (packages/theurian-core/src/theurian/domain/migration.py). Ids are an
 ordered type; ULIDs sort as their creation times do.
 */
module MigrationOrder {
  import opened PyText

  type Id = nat

  datatype Migration = Migration(id: Id, dependsOn: seq<Id>)

  datatype OrderError = DuplicateId | DependencyMissing | Cycle

  /** Who depends on whom. */
  type Graph = map<Id, set<Id>>

  predicate Closed(g: Graph) {
    forall id :: id in g ==> g[id] <= g.Keys
  }

  /** Migration `id` has a dependency in `s`. */
  predicate HasDependencyIn(g: Graph, id: Id, s: set<Id>)
    requires id in g
  {
    exists d :: d in g[id] && d in s
  }

  /** Migrations that wait for each other: each has a dependency among them. */
  predicate Knot(g: Graph, s: set<Id>) {
    s != {} && s <= g.Keys && forall id :: id in s ==> HasDependencyIn(g, id, s)
  }

  /** Every dependency of `id` lies in a lower layer. */
  predicate AboveAll(g: Graph, layer: map<Id, nat>, id: Id)
    requires id in g && id in layer
  {
    forall d :: d in g[id] ==> d in layer && layer[d] < layer[id]
  }

  /** Some dependency of `id` lies in the layer before `at`. */
  predicate RightAbove(g: Graph, layer: map<Id, nat>, id: Id, at: nat)
    requires id in g
  {
    exists d :: d in g[id] && d in layer && layer[d] + 1 == at
  }

  /** The layer of a migration: 0 with no dependency, else one more than the highest of its dependencies. */
  predicate Layers(g: Graph, layer: map<Id, nat>) {
    && layer.Keys == g.Keys
    && forall id :: id in g ==> AboveAll(g, layer, id) && (layer[id] > 0 ==> RightAbove(g, layer, id, layer[id]))
  }

  predicate Precedes(layer: map<Id, nat>, a: Id, b: Id)
    requires a in layer && b in layer
  {
    layer[a] < layer[b] || (layer[a] == layer[b] && a < b)
  }

  /** Layer by layer, ids ascending within one. */
  predicate LayerSorted(layer: map<Id, nat>, ids: seq<Id>) {
    && (forall i :: 0 <= i < |ids| ==> ids[i] in layer)
    && (forall i, j :: 0 <= i < j < |ids| ==> Precedes(layer, ids[i], ids[j]))
  }

  predicate Ascending(ids: seq<Id>) {
    forall i, j :: 0 <= i < j < |ids| ==> ids[i] < ids[j]
  }

  function SetOf(ids: seq<Id>): set<Id> {
    set id | id in ids
  }

  /** Every migration once, layer by layer and by id within a layer. */
  ghost predicate InEngineOrder(g: Graph, ids: seq<Id>) {
    SetOf(ids) == g.Keys && exists layer :: Layers(g, layer) && LayerSorted(layer, ids)
  }

  /** Some migrations wait for each other. */
  ghost predicate Tangled(g: Graph) {
    exists s :: Knot(g, s)
  }

  /** A graph with layers has no knot. */
  lemma {:induction false} NoKnot(g: Graph, layer: map<Id, nat>, s: set<Id>, id: Id)
    requires Layers(g, layer) && id in s && s <= g.Keys
    ensures !Knot(g, s)
    decreases layer[id]
  {
    if Knot(g, s) {
      assert HasDependencyIn(g, id, s) && AboveAll(g, layer, id);
      var d :| d in g[id] && d in s;
      NoKnot(g, layer, s, d);
    }
  }

  /** No order exists where migrations wait for each other. */
  lemma OrderedIsUntangled(g: Graph, ids: seq<Id>)
    requires InEngineOrder(g, ids)
    ensures !Tangled(g)
  {
    var layer :| Layers(g, layer) && LayerSorted(layer, ids);
    hide Layers;
    if Tangled(g) {
      var s :| Knot(g, s);
      var id :| id in s;
      NoKnot(g, layer, s, id);
    }
  }

  function Insert(x: Id, ids: seq<Id>): (r: seq<Id>)
    requires Ascending(ids) && x !in ids
    ensures Ascending(r) && forall y :: y in r <==> y == x || y in ids
  {
    if ids == [] || x < ids[0] then [x] + ids
    else
      var rest := Insert(x, ids[1..]);
      assert ids == [ids[0]] + ids[1..];
      assert forall y :: y in rest ==> ids[0] < y;
      assert forall i :: 0 <= i < |rest| ==> rest[i] in rest;
      [ids[0]] + rest
  }

  /** `sorted(ids)`. */
  method Sorted(ids: set<Id>) returns (r: seq<Id>)
    ensures Ascending(r) && forall y :: y in r <==> y in ids
  {
    r := [];
    var todo := ids;
    while todo != {}
      invariant todo <= ids && Ascending(r) && forall y :: y in r <==> y in ids - todo
      decreases |todo|
    {
      var x :| x in todo;
      r := Insert(x, r);
      todo := todo - {x};
    }
  }

  /** Every migration is either placed or waiting for the dependencies that are not placed. */
  predicate Accounted(g: Graph, remaining: Graph, layer: map<Id, nat>) {
    && remaining.Keys !! layer.Keys && remaining.Keys + layer.Keys == g.Keys
    && forall id :: id in remaining ==> remaining[id] == g[id] - layer.Keys
  }

  /** The layers placed so far are below `batch` and rise one at a time. */
  predicate Rising(g: Graph, layer: map<Id, nat>, batch: nat) {
    && layer.Keys <= g.Keys
    && forall id :: id in layer ==>
         layer[id] < batch && AboveAll(g, layer, id) && (layer[id] > 0 ==> RightAbove(g, layer, id, layer[id]))
  }

  /** Some dependency of `id` is not placed, or was placed in the last batch. */
  predicate Blocked(g: Graph, layer: map<Id, nat>, id: Id, batch: nat)
    requires id in g
  {
    exists d :: d in g[id] && (d in layer ==> layer[d] + 1 == batch)
  }

  /** Whatever waits was held back in the last batch. */
  predicate HeldBack(g: Graph, remaining: Graph, layer: map<Id, nat>, batch: nat) {
    batch > 0 ==> forall id :: id in remaining && id in g ==> Blocked(g, layer, id, batch)
  }

  /** What the walk keeps from one batch to the next. */
  ghost predicate Walking(g: Graph, remaining: Graph, ordered: seq<Id>, layer: map<Id, nat>, batch: nat) {
    && Closed(g) && layer.Keys == SetOf(ordered) && LayerSorted(layer, ordered)
    && Accounted(g, remaining, layer) && Rising(g, layer, batch) && HeldBack(g, remaining, layer, batch)
  }

  /** The layers once the ready ones have joined. */
  function Joined(layer: map<Id, nat>, ready: seq<Id>, batch: nat): (r: map<Id, nat>)
    ensures r.Keys == layer.Keys + SetOf(ready)
    ensures forall id :: id in r ==> r[id] == if id in layer then layer[id] else batch
  {
    map id | id in layer.Keys + SetOf(ready) :: if id in layer then layer[id] else batch
  }

  /** What still waits, its placed dependencies struck off. */
  function Left(remaining: Graph, ready: seq<Id>): (r: Graph)
    ensures r.Keys == remaining.Keys - SetOf(ready)
    ensures forall id :: id in r ==> r[id] == remaining[id] - SetOf(ready)
  {
    map id | id in remaining && id !in ready :: remaining[id] - SetOf(ready)
  }

  ghost predicate Ready(remaining: Graph, ready: seq<Id>) {
    Ascending(ready) && forall id :: id in ready <==> id in remaining && remaining[id] == {}
  }

  lemma BatchAccounted(g: Graph, remaining: Graph, layer: map<Id, nat>, batch: nat, ready: seq<Id>)
    requires Accounted(g, remaining, layer) && Ready(remaining, ready)
    ensures Accounted(g, Left(remaining, ready), Joined(layer, ready, batch))
  {
  }

  /** A migration placed earlier keeps its standing when others join. */
  lemma StandsOn(g: Graph, layer: map<Id, nat>, ready: seq<Id>, batch: nat, id: Id)
    requires id in g && id in layer && AboveAll(g, layer, id)
    ensures AboveAll(g, Joined(layer, ready, batch), id)
    ensures layer[id] > 0 && RightAbove(g, layer, id, layer[id]) ==> RightAbove(g, Joined(layer, ready, batch), id, layer[id])
  {
    var layer' := Joined(layer, ready, batch);
    if layer[id] > 0 && RightAbove(g, layer, id, layer[id]) {
      var d :| d in g[id] && d in layer && layer[d] + 1 == layer[id];
      assert d in layer' && layer'[d] == layer[d];
    }
  }

  /** A ready migration stands right above the last batch. */
  lemma ReadyStands(g: Graph, layer: map<Id, nat>, ready: seq<Id>, batch: nat, id: Id)
    requires id in g && id !in layer && id in ready && g[id] <= layer.Keys
    requires forall k :: k in layer ==> layer[k] < batch
    requires batch > 0 ==> Blocked(g, layer, id, batch)
    ensures AboveAll(g, Joined(layer, ready, batch), id)
    ensures batch > 0 ==> RightAbove(g, Joined(layer, ready, batch), id, batch)
  {
    var layer' := Joined(layer, ready, batch);
    if batch > 0 {
      var d :| d in g[id] && (d in layer ==> layer[d] + 1 == batch);
      assert d in layer' && layer'[d] + 1 == batch;
    }
  }

  lemma BatchRises(g: Graph, remaining: Graph, layer: map<Id, nat>, batch: nat, ready: seq<Id>)
    requires Accounted(g, remaining, layer) && Rising(g, layer, batch) && HeldBack(g, remaining, layer, batch)
    requires Ready(remaining, ready)
    ensures Rising(g, Joined(layer, ready, batch), batch + 1)
  {
    hide AboveAll, RightAbove, Blocked;
    var layer' := Joined(layer, ready, batch);
    forall id | id in layer'
      ensures layer'[id] < batch + 1 && AboveAll(g, layer', id)
      ensures layer'[id] > 0 ==> RightAbove(g, layer', id, layer'[id])
    {
      if id in layer {
        StandsOn(g, layer, ready, batch, id);
      } else {
        assert id in ready && remaining[id] == {} == g[id] - layer.Keys;
        forall d | d in g[id]
          ensures d in layer.Keys
        {
          assert d !in g[id] - layer.Keys;
        }
        ReadyStands(g, layer, ready, batch, id);
      }
    }
  }

  lemma BatchHoldsBack(g: Graph, remaining: Graph, layer: map<Id, nat>, batch: nat, ready: seq<Id>)
    requires Accounted(g, remaining, layer) && Ready(remaining, ready)
    ensures HeldBack(g, Left(remaining, ready), Joined(layer, ready, batch), batch + 1)
  {
    var layer' := Joined(layer, ready, batch);
    forall id | id in Left(remaining, ready)
      ensures Blocked(g, layer', id, batch + 1)
    {
      var d :| d in remaining[id];
      assert d in g[id] && d !in layer;
    }
  }

  /** One batch: everything ready joins the walk on the next layer. */
  lemma BatchWalks(g: Graph, remaining: Graph, ordered: seq<Id>, layer: map<Id, nat>, batch: nat, ready: seq<Id>)
    requires Walking(g, remaining, ordered, layer, batch) && Ready(remaining, ready)
    ensures Walking(g, Left(remaining, ready), ordered + ready, Joined(layer, ready, batch), batch + 1)
  {
    hide AboveAll, RightAbove, Blocked;
    BatchAccounted(g, remaining, layer, batch, ready);
    BatchRises(g, remaining, layer, batch, ready);
    BatchHoldsBack(g, remaining, layer, batch, ready);
    NewAndBelow(g, remaining, layer, batch, ready);
    assert SetOf(ordered + ready) == SetOf(ordered) + SetOf(ready);
    hide Accounted, Rising, HeldBack, Closed, LayerSorted, Ascending;
    BatchSorted(ordered, layer, batch, ready);
  }

  lemma NewAndBelow(g: Graph, remaining: Graph, layer: map<Id, nat>, batch: nat, ready: seq<Id>)
    requires Accounted(g, remaining, layer) && Rising(g, layer, batch) && Ready(remaining, ready)
    ensures forall id :: id in ready ==> id !in layer
    ensures forall id :: id in layer ==> layer[id] < batch
  {
    hide AboveAll, RightAbove;
  }

  lemma BatchSorted(ordered: seq<Id>, layer: map<Id, nat>, batch: nat, ready: seq<Id>)
    requires LayerSorted(layer, ordered) && (forall id :: id in layer ==> layer[id] < batch)
    requires Ascending(ready) && (forall id :: id in ready ==> id !in layer)
    ensures LayerSorted(Joined(layer, ready, batch), ordered + ready)
  {
    var all, layer' := ordered + ready, Joined(layer, ready, batch);
    forall i | 0 <= i < |all|
      ensures all[i] in layer' && layer'[all[i]] == (if i < |ordered| then layer[all[i]] else batch)
    {
      if i >= |ordered| {
        assert all[i] == ready[i - |ordered|] && all[i] in ready;
      } else {
        assert all[i] == ordered[i];
      }
    }
  }

  /** The ids with nothing left to wait for, sorted. */
  method ReadyIds(remaining: Graph) returns (ready: seq<Id>)
    ensures Ready(remaining, ready)
  {
    var waiting := set id | id in remaining && remaining[id] == {};
    ready := Sorted(waiting);
  }

  lemma ReadyIsWaiting(remaining: Graph, ready: seq<Id>)
    requires Ready(remaining, ready) && ready != []
    ensures ready[0] in remaining && ready[0] in SetOf(ready)
  {
    assert ready[0] in ready;
  }

  /** `_topological_order`: whole batches, each sorted by id; `None` where a batch is empty too early. */
  method TopologicalOrder(g: Graph) returns (r: Option<seq<Id>>)
    requires Closed(g)
    ensures r.Some? ==> InEngineOrder(g, r.value)
    ensures r.None? <==> Tangled(g)
  {
    var remaining, ordered := g, [];
    ghost var layer, batch := map[], 0;
    WalkStarts(g);
    hide Walking, Closed, Layers, LayerSorted, Knot, Ready, SetOf, InEngineOrder, Tangled;
    while remaining != map[]
      invariant Walking(g, remaining, ordered, layer, batch)
      decreases |remaining.Keys|
    {
      var ready := ReadyIds(remaining);
      if ready == [] {
        StuckIsTangled(g, remaining, ordered, layer, batch);
        return None;
      }
      ReadyIsWaiting(remaining, ready);
      BatchWalks(g, remaining, ordered, layer, batch, ready);
      Fewer(remaining, Left(remaining, ready), ready[0]);
      layer := Joined(layer, ready, batch);
      ordered := ordered + ready;
      remaining, batch := Left(remaining, ready), batch + 1;
    }
    Walked(g, remaining, ordered, layer, batch);
    OrderedIsUntangled(g, ordered);
    r := Some(ordered);
  }

  lemma WalkStarts(g: Graph)
    requires Closed(g)
    ensures Walking(g, g, [], map[], 0)
  {
  }

  lemma Walked(g: Graph, remaining: Graph, ordered: seq<Id>, layer: map<Id, nat>, batch: nat)
    requires Walking(g, remaining, ordered, layer, batch) && remaining == map[]
    ensures InEngineOrder(g, ordered)
  {
    hide HeldBack, LayerSorted, Closed, AboveAll, RightAbove;
  }

  lemma Fewer(remaining: Graph, rest: Graph, gone: Id)
    requires rest.Keys <= remaining.Keys && gone in remaining && gone !in rest
    ensures |rest.Keys| < |remaining.Keys|
  {
    var others := remaining.Keys - {gone};
    assert rest.Keys <= others;
    SubsetSize(rest.Keys, others);
  }

  lemma {:induction false} SubsetSize(a: set<Id>, b: set<Id>)
    requires a <= b
    ensures |a| <= |b|
  {
    if a != {} {
      var x :| x in a;
      SubsetSize(a - {x}, b - {x});
    }
  }

  lemma StuckIsTangled(g: Graph, remaining: Graph, ordered: seq<Id>, layer: map<Id, nat>, batch: nat)
    requires Walking(g, remaining, ordered, layer, batch) && remaining != map[] && Ready(remaining, [])
    ensures Tangled(g)
  {
    hide Rising, HeldBack, LayerSorted, HasDependencyIn;
    var some :| some in remaining;
    forall id | id in remaining
      ensures HasDependencyIn(g, id, remaining.Keys)
    {
      assert id !in [];
      WaitsForAnother(g, remaining, layer, id);
    }
    assert Knot(g, remaining.Keys);
  }

  lemma WaitsForAnother(g: Graph, remaining: Graph, layer: map<Id, nat>, id: Id)
    requires Closed(g) && Accounted(g, remaining, layer) && id in remaining && remaining[id] != {}
    ensures HasDependencyIn(g, id, remaining.Keys)
  {
    var d :| d in remaining[id];
    assert d in g[id] && d in g.Keys && d in remaining.Keys;
  }

  // -- `MigrationSet.ordered` --------------------------------------------------------------------

  predicate UniqueIds(ms: seq<Migration>) {
    forall i, j :: 0 <= i < j < |ms| ==> ms[i].id != ms[j].id
  }

  predicate HasId(ms: seq<Migration>, id: Id) {
    exists i :: 0 <= i < |ms| && ms[i].id == id
  }

  predicate DependenciesPresent(ms: seq<Migration>) {
    forall i :: 0 <= i < |ms| ==> forall d :: d in ms[i].dependsOn ==> HasId(ms, d)
  }

  /** The graph of migrations with distinct ids. */
  ghost predicate GraphOf(ms: seq<Migration>, g: Graph) {
    && (forall id :: id in g <==> HasId(ms, id))
    && (forall i :: 0 <= i < |ms| ==> g[ms[i].id] == SetOf(ms[i].dependsOn))
  }

  function IdsOf(ms: seq<Migration>): (r: seq<Id>)
    ensures |r| == |ms| && forall i :: 0 <= i < |r| ==> r[i] == ms[i].id
  {
    seq(|ms|, i requires 0 <= i < |ms| => ms[i].id)
  }

  method Index(ms: seq<Migration>) returns (r: Option<map<Id, Migration>>)
    ensures r.Some? <==> UniqueIds(ms)
    ensures r.Some? ==> Indexes(ms, r.value)
  {
    var byId: map<Id, Migration> := map[];
    for n := 0 to |ms|
      invariant UniqueIds(ms[..n])
      invariant forall id :: id in byId <==> exists i :: 0 <= i < n && ms[i].id == id
      invariant forall i :: 0 <= i < n ==> byId[ms[i].id] == ms[i]
    {
      if ms[n].id in byId {
        return None;
      }
      byId := byId[ms[n].id := ms[n]];
    }
    assert ms[..|ms|] == ms;
    r := Some(byId);
  }

  /** `MigrationSet.ordered`. */
  method Ordered(ms: seq<Migration>) returns (r: Result<seq<Migration>, OrderError>)
    ensures r == Err(DuplicateId) <==> !UniqueIds(ms)
    ensures r == Err(DependencyMissing) <==> UniqueIds(ms) && !DependenciesPresent(ms)
    ensures r == Err(Cycle) ==> exists g :: GraphOf(ms, g) && Tangled(g)
    ensures r.Ok? ==> exists g :: GraphOf(ms, g) && !Tangled(g) && InEngineOrder(g, IdsOf(r.value))
    ensures r.Ok? ==> multiset(r.value) == multiset(ms)
  {
    hide Indexes, InEngineOrder, Tangled, IdsOf;
    var index := Index(ms);
    if index.None? {
      return Err(DuplicateId);
    }
    var byId := index.value;
    var present := Present(ms, byId);
    if !present {
      return Err(DependencyMissing);
    }
    var g := Waits(byId);
    WaitsAreTheGraph(ms, byId);
    hide GraphOf, Closed, DependenciesPresent, UniqueIds;
    var walk := TopologicalOrder(g);
    if walk.None? {
      return Err(Cycle);
    }
    WalkIsPopulation(ms, byId, walk.value);
    r := Ok(Looked(byId, walk.value));
  }

  function Waits(byId: map<Id, Migration>): Graph {
    map id | id in byId :: SetOf(byId[id].dependsOn)
  }

  /** `byId` holds every migration under its own id, and no other. */
  ghost predicate Indexes(ms: seq<Migration>, byId: map<Id, Migration>) {
    && (forall id :: id in byId <==> HasId(ms, id))
    && forall i :: 0 <= i < |ms| ==> ms[i].id in byId && byId[ms[i].id] == ms[i]
  }

  lemma WaitsAreTheGraph(ms: seq<Migration>, byId: map<Id, Migration>)
    requires Indexes(ms, byId) && DependenciesPresent(ms)
    ensures GraphOf(ms, Waits(byId)) && Closed(Waits(byId))
  {
  }

  function Looked(byId: map<Id, Migration>, ids: seq<Id>): (r: seq<Migration>)
    requires forall i :: 0 <= i < |ids| ==> ids[i] in byId
    ensures |r| == |ids| && forall i :: 0 <= i < |ids| ==> r[i] == byId[ids[i]]
  {
    seq(|ids|, i requires 0 <= i < |ids| => byId[ids[i]])
  }

  lemma WalkIsPopulation(ms: seq<Migration>, byId: map<Id, Migration>, walk: seq<Id>)
    requires UniqueIds(ms) && Indexes(ms, byId) && InEngineOrder(Waits(byId), walk)
    ensures forall i :: 0 <= i < |walk| ==> walk[i] in byId
    ensures IdsOf(Looked(byId, walk)) == walk && multiset(Looked(byId, walk)) == multiset(ms)
  {
    WalkIsKnown(byId, walk);
    hide InEngineOrder, Waits;
    var ordered := Looked(byId, walk);
    forall i | 0 <= i < |walk|
      ensures ordered[i] in ms && ordered[i].id == walk[i]
    {
      assert walk[i] in walk && HasId(ms, walk[i]);
      var k :| 0 <= k < |ms| && ms[k].id == walk[i];
    }
    assert IdsOf(ordered) == walk;
    SamePopulation(ms, ordered, walk, Waits(byId));
  }

  lemma WalkIsKnown(byId: map<Id, Migration>, walk: seq<Id>)
    requires InEngineOrder(Waits(byId), walk)
    ensures forall id :: id in walk <==> id in byId
  {
    forall id
      ensures id in walk <==> id in byId
    {
      assert id in walk <==> id in SetOf(walk);
    }
  }

  method Present(ms: seq<Migration>, byId: map<Id, Migration>) returns (ok: bool)
    requires Indexes(ms, byId)
    ensures ok <==> DependenciesPresent(ms)
  {
    for n := 0 to |ms|
      invariant forall i :: 0 <= i < n ==> forall d :: d in ms[i].dependsOn ==> HasId(ms, d)
    {
      if exists d :: d in ms[n].dependsOn && d !in byId {
        return false;
      }
    }
    return true;
  }

  lemma InOrderIsDistinct(g: Graph, ordered: seq<Migration>)
    requires InEngineOrder(g, IdsOf(ordered))
    ensures UniqueIds(ordered)
  {
    hide Layers;
    var ids := IdsOf(ordered);
    var layer :| Layers(g, layer) && LayerSorted(layer, ids);
    forall i, j | 0 <= i < j < |ordered|
      ensures ordered[i].id != ordered[j].id
    {
      assert Precedes(layer, ids[i], ids[j]);
    }
  }

  lemma SamePopulation(ms: seq<Migration>, ordered: seq<Migration>, ids: seq<Id>, g: Graph)
    requires UniqueIds(ms) && IdsOf(ordered) == ids && InEngineOrder(g, ids)
    requires forall i :: 0 <= i < |ordered| ==> ordered[i] in ms
    requires forall i :: 0 <= i < |ms| ==> ms[i].id in ids
    ensures multiset(ordered) == multiset(ms)
  {
    InOrderIsDistinct(g, ordered);
    hide InEngineOrder;
    forall m
      ensures multiset(ordered)[m] == multiset(ms)[m]
    {
      OnceAtMost(ms, m);
      OnceAtMost(ordered, m);
      hide *;
      SameMembers(ms, ordered, ids, m);
    }
  }

  lemma SameMembers(ms: seq<Migration>, ordered: seq<Migration>, ids: seq<Id>, m: Migration)
    requires UniqueIds(ms) && IdsOf(ordered) == ids
    requires forall i :: 0 <= i < |ordered| ==> ordered[i] in ms
    requires forall i :: 0 <= i < |ms| ==> ms[i].id in ids
    ensures m in ordered <==> m in ms
  {
    if m in ms {
      var i :| 0 <= i < |ms| && ms[i] == m;
      var k :| 0 <= k < |ids| && ids[k] == m.id;
      var p :| 0 <= p < |ms| && ms[p] == ordered[k];
      assert ordered[k] == m;
    }
  }

  lemma {:induction false} OnceAtMost(ms: seq<Migration>, m: Migration)
    requires UniqueIds(ms)
    ensures multiset(ms)[m] == if m in ms then 1 else 0
  {
    if ms != [] {
      var n := |ms| - 1;
      assert ms == ms[..n] + [ms[n]];
      OnceAtMost(ms[..n], m);
    }
  }
}
