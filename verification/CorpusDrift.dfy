/**
 Each item's current revision, held to the document it was taken from (tools/corpus_drift.py). What
 reading a file, judging an anchor and hashing a document gives is an input.
 */
module CorpusDrift {
  import opened PyText

  /** A migration's own id; ids are ordered, and 0 stands for a missing one. */
  type Id = nat

  /** The document an anchor names, as it is now. */
  datatype Source = Gone | Unreadable | Hashing(digest: string)

  /** An anchor: the path it names, whether it cannot honestly be compared, and its document. */
  datatype Anchor = Anchor(file: string, refused: bool, source: Source)

  /** An `upsertRevision`: its item unless the id is missing, and the digest recorded for its body, if any. */
  datatype Upsert = Upsert(item: Option<string>, revision: string, anchors: seq<Anchor>, expected: Option<string>)

  datatype Content = NotYaml | Document(edges: bool, id: Id, upserts: seq<Upsert>)

  datatype File = File(path: string, content: Content)

  datatype Verdict = Matched | Drifted | SourceMissing | Uncheckable

  datatype Comparison = Comparison(
    migration: string, item: string, revision: string, file: string, verdict: Verdict, expected: string, actual: string)

  datatype Status = Clean | HasDrift | NothingCompared

  datatype Report = Report(comparisons: seq<Comparison>, status: Status)

  // -- One revision ------------------------------------------------------------------------------

  function ItemOf(u: Upsert): string {
    match u.item
    case None => ""
    case Some(item) => item
  }

  function Unchecked(path: string, u: Upsert, file: string): Comparison {
    Comparison(path, ItemOf(u), u.revision, file, Uncheckable, "", "")
  }

  /** The anchors that are refused, or those that are not. */
  function Judged(anchors: seq<Anchor>, refused: bool): (r: seq<Anchor>)
    ensures forall a :: a in r ==> a in anchors && a.refused == refused
  {
    if anchors == [] then []
    else (if anchors[0].refused == refused then [anchors[0]] else []) + Judged(anchors[1..], refused)
  }

  function UncheckedAll(path: string, u: Upsert, anchors: seq<Anchor>): (r: seq<Comparison>)
    ensures |r| == |anchors| && forall i :: 0 <= i < |r| ==> r[i] == Unchecked(path, u, anchors[i].file)
  {
    seq(|anchors|, i requires 0 <= i < |anchors| => Unchecked(path, u, anchors[i].file))
  }

  /** `_compare_one`: the document, hashed now, against the recorded digest. */
  function CompareOne(path: string, u: Upsert, a: Anchor, expected: string): Comparison {
    match a.source
    case Gone => Comparison(path, ItemOf(u), u.revision, a.file, SourceMissing, expected, "")
    case Unreadable => Comparison(path, ItemOf(u), u.revision, a.file, Uncheckable, expected, "")
    case Hashing(digest) =>
      Comparison(path, ItemOf(u), u.revision, a.file, if digest == expected then Matched else Drifted, expected, digest)
  }

  /** `_compare`. */
  function Compare(path: string, u: Upsert): seq<Comparison> {
    if u.anchors == [] then [Unchecked(path, u, "")]
    else
      var comparable, results := Judged(u.anchors, false), UncheckedAll(path, u, Judged(u.anchors, true));
      if |comparable| > 1 then results + UncheckedAll(path, u, comparable)
      else if comparable == [] then results
      else if u.expected.None? then results + [Unchecked(path, u, comparable[0].file)]
      else results + [CompareOne(path, u, comparable[0], u.expected.value)]
  }

  // -- Reading the migrations --------------------------------------------------------------------

  /** A migration's placeable revisions under its path and id. */
  datatype Placed = Placed(path: string, id: Id, upserts: seq<Upsert>)

  function Placeable(upserts: seq<Upsert>): (r: seq<Upsert>)
    ensures forall u :: u in r ==> u.item.Some?
  {
    if upserts == [] then []
    else Placeable(upserts[..|upserts| - 1])
         + if upserts[|upserts| - 1].item.Some? then [upserts[|upserts| - 1]] else []
  }

  function Unplaceable(path: string, upserts: seq<Upsert>): seq<Comparison> {
    if upserts == [] then []
    else Unplaceable(path, upserts[..|upserts| - 1])
         + if upserts[|upserts| - 1].item.None? then [Unchecked(path, upserts[|upserts| - 1], "")] else []
  }

  /** What reading one migration reports on its own. */
  function OwnComparisons(f: File): seq<Comparison> {
    match f.content
    case NotYaml => [Comparison(f.path, "", "", "", Uncheckable, "", "")]
    case Document(_, _, upserts) =>
      if upserts == [] then [Comparison(f.path, "", "", "", Uncheckable, "", "")]
      else Unplaceable(f.path, upserts)
  }

  function PlacedOf(f: File): seq<Placed> {
    match f.content
    case NotYaml => []
    case Document(_, id, upserts) => if Placeable(upserts) == [] then [] else [Placed(f.path, id, Placeable(upserts))]
  }

  predicate Refused(f: File) {
    f.content.Document? && f.content.edges
  }

  function OwnAll(files: seq<File>): seq<Comparison> {
    if files == [] then [] else OwnAll(files[..|files| - 1]) + OwnComparisons(files[|files| - 1])
  }

  function AllPlaced(files: seq<File>): seq<Placed> {
    if files == [] then [] else AllPlaced(files[..|files| - 1]) + PlacedOf(files[|files| - 1])
  }

  /** `at` lists, in order, the positions of the revisions that can be placed, and `off` those of the others. */
  ghost predicate Parts(upserts: seq<Upsert>, at: seq<nat>, off: seq<nat>) {
    && (forall i, j :: 0 <= i < j < |at| ==> at[i] < at[j])
    && (forall i, j :: 0 <= i < j < |off| ==> off[i] < off[j])
    && (forall k: nat :: k in at <==> k < |upserts| && upserts[k].item.Some?)
    && (forall k: nat :: k in off <==> k < |upserts| && upserts[k].item.None?)
  }

  /** Every revision of a migration is placed or reported, exactly once, in the order it was declared. */
  ghost predicate Accounts(f: File, own: seq<Comparison>, placed: seq<Placed>, at: seq<nat>, off: seq<nat>)
    requires f.content.Document?
  {
    var upserts := f.content.upserts;
    && Parts(upserts, at, off)
    && (if at == [] then placed == [] else |placed| == 1 && placed[0].path == f.path && placed[0].id == f.content.id)
    && (at != [] ==> PlacedAt(upserts, |upserts|, placed[0].upserts, at))
    && (upserts != [] ==> ReportedAt(f.path, upserts, |upserts|, own, off))
  }

  /** Revision `i` of the placed ones is the one declared at `at[i]`, among the first `n`. */
  ghost predicate PlacedAt(upserts: seq<Upsert>, n: nat, placed: seq<Upsert>, at: seq<nat>) {
    && |placed| == |at|
    && forall i :: 0 <= i < |at| ==> at[i] < n && at[i] < |upserts| && placed[i] == upserts[at[i]]
  }

  ghost predicate ReportedAt(path: string, upserts: seq<Upsert>, n: nat, own: seq<Comparison>, off: seq<nat>) {
    && |own| == |off|
    && forall i :: 0 <= i < |off| ==> off[i] < n && off[i] < |upserts| && own[i] == Unchecked(path, upserts[off[i]], "")
  }

  /** A file that holds no revision is itself reported. */
  ghost predicate Pinless(f: File, own: seq<Comparison>, placed: seq<Placed>) {
    own == [Comparison(f.path, "", "", "", Uncheckable, "", "")] && placed == []
  }

  /** What the loop has sorted out of the first `n` revisions. */
  ghost predicate Sorted(path: string, upserts: seq<Upsert>, n: nat, own: seq<Comparison>, placeable: seq<Upsert>,
                         at: seq<nat>, off: seq<nat>)
  {
    && n <= |upserts|
    && own == Unplaceable(path, upserts[..n]) && placeable == Placeable(upserts[..n])
    && Parts(upserts[..n], at, off)
    && PlacedAt(upserts, n, placeable, at) && ReportedAt(path, upserts, n, own, off)
  }

  /** `_read_migration`: what one migration reports on its own, and its placeable revisions. */
  method ReadMigration(f: File) returns (own: seq<Comparison>, placed: seq<Placed>)
    ensures own == OwnComparisons(f) && placed == PlacedOf(f)
    ensures f.content.NotYaml? || f.content.upserts == [] ==> Pinless(f, own, placed)
    ensures f.content.Document? ==> exists at, off :: Accounts(f, own, placed, at, off)
  {
    if f.content.NotYaml? {
      return [Comparison(f.path, "", "", "", Uncheckable, "", "")], [];
    }
    var upserts := f.content.upserts;
    if upserts == [] {
      own, placed := [Comparison(f.path, "", "", "", Uncheckable, "", "")], [];
      assert Accounts(f, own, placed, [], []);
      return;
    }
    hide Sorted;
    own := [];
    var placeable: seq<Upsert> := [];
    ghost var at: seq<nat>, off: seq<nat> := [], [];
    NothingSorted(f.path, upserts);
    for n := 0 to |upserts|
      invariant Sorted(f.path, upserts, n, own, placeable, at, off)
    {
      if upserts[n].item.Some? {
        OneMorePlaced(f.path, upserts, n, own, placeable, at, off);
        placeable, at := placeable + [upserts[n]], at + [n];
      } else {
        OneMoreReported(f.path, upserts, n, own, placeable, at, off);
        own, off := own + [Unchecked(f.path, upserts[n], "")], off + [n];
      }
    }
    placed := if placeable == [] then [] else [Placed(f.path, f.content.id, placeable)];
    AllSorted(f, own, placeable, at, off);
  }

  lemma NothingSorted(path: string, upserts: seq<Upsert>)
    ensures Sorted(path, upserts, 0, [], [], [], [])
  {
    assert upserts[..0] == [];
  }

  lemma OneMoreUpsert(path: string, upserts: seq<Upsert>, n: nat)
    requires n < |upserts|
    ensures Placeable(upserts[..n + 1]) == Placeable(upserts[..n]) + if upserts[n].item.Some? then [upserts[n]] else []
    ensures Unplaceable(path, upserts[..n + 1])
            == Unplaceable(path, upserts[..n]) + if upserts[n].item.None? then [Unchecked(path, upserts[n], "")] else []
  {
    assert upserts[..n + 1][..n] == upserts[..n];
  }

  lemma OneMorePlaced(path: string, upserts: seq<Upsert>, n: nat, own: seq<Comparison>, placeable: seq<Upsert>,
                      at: seq<nat>, off: seq<nat>)
    requires n < |upserts| && upserts[n].item.Some? && Sorted(path, upserts, n, own, placeable, at, off)
    ensures Sorted(path, upserts, n + 1, own, placeable + [upserts[n]], at + [n], off)
  {
    hide Parts, Placeable, Unplaceable;
    OneMoreUpsert(path, upserts, n);
    OneMorePart(upserts, at, off, n);
  }

  lemma OneMoreReported(path: string, upserts: seq<Upsert>, n: nat, own: seq<Comparison>, placeable: seq<Upsert>,
                        at: seq<nat>, off: seq<nat>)
    requires n < |upserts| && upserts[n].item.None? && Sorted(path, upserts, n, own, placeable, at, off)
    ensures Sorted(path, upserts, n + 1, own + [Unchecked(path, upserts[n], "")], placeable, at, off + [n])
  {
    hide Parts, Placeable, Unplaceable;
    OneMoreUpsert(path, upserts, n);
    OneMorePart(upserts, at, off, n);
  }

  lemma AllSorted(f: File, own: seq<Comparison>, placeable: seq<Upsert>, at: seq<nat>, off: seq<nat>)
    requires f.content.Document? && f.content.upserts != []
    requires Sorted(f.path, f.content.upserts, |f.content.upserts|, own, placeable, at, off)
    ensures var placed := if placeable == [] then [] else [Placed(f.path, f.content.id, placeable)];
            own == OwnComparisons(f) && placed == PlacedOf(f) && Accounts(f, own, placed, at, off)
  {
    hide Parts, Placeable, Unplaceable;
    assert f.content.upserts[..|f.content.upserts|] == f.content.upserts;
  }

  lemma OneMorePart(upserts: seq<Upsert>, at: seq<nat>, off: seq<nat>, n: nat)
    requires n < |upserts| && Parts(upserts[..n], at, off)
    ensures upserts[n].item.Some? ==> Parts(upserts[..n + 1], at + [n], off)
    ensures upserts[n].item.None? ==> Parts(upserts[..n + 1], at, off + [n])
  {
    assert forall i :: 0 <= i < |at| ==> at[i] in at;
    assert forall i :: 0 <= i < |off| ==> off[i] in off;
  }

  // -- Application order -------------------------------------------------------------------------

  /** Position `p` applies before position `q`: by id, then in population order. */
  predicate Sooner(placed: seq<Placed>, p: nat, q: nat)
    requires p < |placed| && q < |placed|
  {
    placed[p].id < placed[q].id || (placed[p].id == placed[q].id && p < q)
  }

  predicate InOrder(placed: seq<Placed>, order: seq<nat>) {
    && (forall i :: 0 <= i < |order| ==> order[i] < |placed|)
    && forall i, j :: 0 <= i < j < |order| ==> Sooner(placed, order[i], order[j])
  }

  function InsertSorted(placed: seq<Placed>, p: nat, order: seq<nat>): (r: seq<nat>)
    requires p < |placed| && InOrder(placed, order) && forall i :: 0 <= i < |order| ==> order[i] < p
    ensures InOrder(placed, r) && forall q :: q in r <==> q == p || q in order
  {
    if order == [] || placed[p].id >= placed[order[|order| - 1]].id then
      assert forall i :: 0 <= i < |order| ==> order[i] in order;
      order + [p]
    else
      var last := order[|order| - 1];
      var front := order[..|order| - 1];
      assert order == front + [last];
      var rest := InsertSorted(placed, p, front);
      assert forall i :: 0 <= i < |rest| ==> rest[i] in rest;
      assert forall i :: 0 <= i < |rest| ==> Sooner(placed, rest[i], last);
      rest + [last]
  }

  /** `sorted(revisions_by_path, key=inner id)`, which is stable. */
  method ApplicationOrder(placed: seq<Placed>) returns (order: seq<nat>)
    ensures InOrder(placed, order) && forall q: nat :: q in order <==> q < |placed|
  {
    order := [];
    for p := 0 to |placed|
      invariant InOrder(placed, order) && forall q: nat :: q in order <==> q < p
    {
      assert forall i :: 0 <= i < |order| ==> order[i] in order;
      order := InsertSorted(placed, p, order);
    }
  }

  /** Position `(p, k)` holds a revision of `item`. */
  predicate Holds(placed: seq<Placed>, p: nat, k: nat, item: string) {
    p < |placed| && k < |placed[p].upserts| && ItemOf(placed[p].upserts[k]) == item
  }

  predicate Later(placed: seq<Placed>, p: nat, k: nat, q: nat, j: nat)
    requires p < |placed| && q < |placed|
  {
    Sooner(placed, p, q) || (p == q && k < j)
  }

  /** Position `(p, k)` holds the revision of `item` that is applied last. */
  ghost predicate Terminal(placed: seq<Placed>, p: nat, k: nat, item: string) {
    && Holds(placed, p, k, item)
    && forall q: nat, j: nat :: Holds(placed, q, j, item) && (q, j) != (p, k) ==> Later(placed, q, j, p, k)
  }

  /** `(p, k)` is where `current` stands for `item`, or before it. */
  predicate Outdone(placed: seq<Placed>, current: map<string, (nat, nat)>, p: nat, k: nat, item: string) {
    && item in current
    && ((p, k) == current[item]
        || (p < |placed| && current[item].0 < |placed| && Later(placed, p, k, current[item].0, current[item].1)))
  }

  /** Among the first `n` of the order, and the first `m` revisions of the next one, the last of each item. */
  ghost predicate Winners(placed: seq<Placed>, order: seq<nat>, n: nat, m: nat, current: map<string, (nat, nat)>) {
    && (forall item :: item in current ==> Seen(placed, order, n, m, current[item].0, current[item].1, item))
    && (forall item, p: nat, k: nat :: Seen(placed, order, n, m, p, k, item) ==> Outdone(placed, current, p, k, item))
  }

  /** Position `(p, k)` holds `item` and was reached. */
  ghost predicate Seen(placed: seq<Placed>, order: seq<nat>, n: nat, m: nat, p: nat, k: nat, item: string) {
    && Holds(placed, p, k, item)
    && ((exists i :: 0 <= i < n && i < |order| && order[i] == p) || (n < |order| && order[n] == p && k < m))
  }

  /** `_current_operations`. */
  method CurrentOperations(placed: seq<Placed>, order: seq<nat>) returns (current: map<string, (nat, nat)>)
    requires InOrder(placed, order) && forall q: nat :: q in order <==> q < |placed|
    ensures forall item :: item in current ==> Terminal(placed, current[item].0, current[item].1, item)
    ensures forall item, p: nat, k: nat :: Holds(placed, p, k, item) ==> item in current
  {
    current := map[];
    hide InOrder, Later, Holds;
    NoneSeen(placed, order);
    for n := 0 to |order|
      invariant Winners(placed, order, n, 0, current)
    {
      InRange(placed, order, n);
      var p := order[n];
      for k := 0 to |placed[p].upserts|
        invariant Winners(placed, order, n, k, current)
      {
        OneMoreSeen(placed, order, n, k, current);
        current := current[ItemOf(placed[p].upserts[k]) := (p, k)];
      }
      RowSeen(placed, order, n, current);
    }
    AllSeen(placed, order, current);
  }

  lemma InRange(placed: seq<Placed>, order: seq<nat>, n: nat)
    requires InOrder(placed, order) && n < |order|
    ensures order[n] < |placed|
  {
  }

  lemma NoneSeen(placed: seq<Placed>, order: seq<nat>)
    ensures Winners(placed, order, 0, 0, map[])
  {
  }

  lemma OneMoreSeen(placed: seq<Placed>, order: seq<nat>, n: nat, m: nat, current: map<string, (nat, nat)>)
    requires InOrder(placed, order) && n < |order| && order[n] < |placed| && m < |placed[order[n]].upserts|
    requires Winners(placed, order, n, m, current)
    ensures Winners(placed, order, n, m + 1, current[ItemOf(placed[order[n]].upserts[m]) := (order[n], m)])
  {
    var p := order[n];
    var item := ItemOf(placed[p].upserts[m]);
    var next := current[item := (p, m)];
    forall x | x in next
      ensures Seen(placed, order, n, m + 1, next[x].0, next[x].1, x)
    {
      if x != item {
        assert Seen(placed, order, n, m, next[x].0, next[x].1, x);
      }
    }
    forall x, q: nat, k: nat | Seen(placed, order, n, m + 1, q, k, x)
      ensures Outdone(placed, next, q, k, x)
    {
      if (q, k) == (p, m) {
        assert x == item;
      } else {
        SeenBefore(placed, order, n, m, q, k, x);
        assert Outdone(placed, current, q, k, x);
      }
    }
  }

  lemma SeenBefore(placed: seq<Placed>, order: seq<nat>, n: nat, m: nat, q: nat, k: nat, x: string)
    requires InOrder(placed, order) && n < |order| && Seen(placed, order, n, m + 1, q, k, x) && (q, k) != (order[n], m)
    ensures Seen(placed, order, n, m, q, k, x)
    ensures q < |placed| && order[n] < |placed| && Later(placed, q, k, order[n], m)
  {
    if exists i :: 0 <= i < n && i < |order| && order[i] == q {
      var i :| 0 <= i < n && i < |order| && order[i] == q;
      assert Sooner(placed, order[i], order[n]);
    }
  }

  lemma RowSeen(placed: seq<Placed>, order: seq<nat>, n: nat, current: map<string, (nat, nat)>)
    requires n < |order| && order[n] < |placed| && Winners(placed, order, n, |placed[order[n]].upserts|, current)
    ensures Winners(placed, order, n + 1, 0, current)
  {
    hide Outdone, Later;
    var m := |placed[order[n]].upserts|;
    forall item, p: nat, k: nat
      ensures Seen(placed, order, n + 1, 0, p, k, item) <==> Seen(placed, order, n, m, p, k, item)
    {
      SameRow(placed, order, n, p, k, item);
    }
    hide Seen;
    forall item | item in current
      ensures Seen(placed, order, n + 1, 0, current[item].0, current[item].1, item)
    {
      assert Seen(placed, order, n, m, current[item].0, current[item].1, item);
    }
  }

  lemma SameRow(placed: seq<Placed>, order: seq<nat>, n: nat, p: nat, k: nat, item: string)
    requires n < |order| && order[n] < |placed|
    ensures Seen(placed, order, n + 1, 0, p, k, item) <==> Seen(placed, order, n, |placed[order[n]].upserts|, p, k, item)
  {
    if Seen(placed, order, n + 1, 0, p, k, item) {
      var i :| 0 <= i < n + 1 && i < |order| && order[i] == p;
    }
  }

  lemma AllSeen(placed: seq<Placed>, order: seq<nat>, current: map<string, (nat, nat)>)
    requires forall q: nat :: q in order <==> q < |placed|
    requires Winners(placed, order, |order|, 0, current)
    ensures forall item :: item in current ==> Terminal(placed, current[item].0, current[item].1, item)
    ensures forall item, p: nat, k: nat :: Holds(placed, p, k, item) ==> item in current
  {
    hide Later;
    forall item, p: nat, k: nat
      ensures Seen(placed, order, |order|, 0, p, k, item) <==> Holds(placed, p, k, item)
    {
      if Holds(placed, p, k, item) {
        assert p in order;
      }
    }
    hide Seen, Holds;
    forall item | item in current
      ensures Terminal(placed, current[item].0, current[item].1, item)
    {
      var best := current[item];
      assert Seen(placed, order, |order|, 0, best.0, best.1, item);
      forall q: nat, j: nat | Holds(placed, q, j, item) && (q, j) != best
        ensures Later(placed, q, j, best.0, best.1)
      {
        assert Seen(placed, order, |order|, 0, q, j, item);
        assert Outdone(placed, current, q, j, item);
      }
    }
  }

  // -- The scan ----------------------------------------------------------------------------------

  /** What a revision adds to the report: its comparisons if it is terminal. */
  ghost function Adds(placed: seq<Placed>, p: nat, k: nat): seq<Comparison>
    requires p < |placed| && k < |placed[p].upserts|
  {
    var u := placed[p].upserts[k];
    if Terminal(placed, p, k, ItemOf(u)) then Compare(placed[p].path, u) else []
  }

  /** The comparisons of the first `m` revisions of migration `p`. */
  ghost function EmittedOf(placed: seq<Placed>, p: nat, m: nat): seq<Comparison>
    requires p < |placed| && m <= |placed[p].upserts|
  {
    if m == 0 then [] else EmittedOf(placed, p, m - 1) + Adds(placed, p, m - 1)
  }

  ghost function Emitted(placed: seq<Placed>, n: nat): seq<Comparison>
    requires n <= |placed|
  {
    if n == 0 then [] else Emitted(placed, n - 1) + EmittedOf(placed, n - 1, |placed[n - 1].upserts|)
  }

  function Compared(comparisons: seq<Comparison>): seq<Comparison> {
    if comparisons == [] then []
    else (if comparisons[0].verdict != Uncheckable then [comparisons[0]] else []) + Compared(comparisons[1..])
  }

  /** `_verdict`. */
  function StatusOf(comparisons: seq<Comparison>): Status {
    if Compared(comparisons) == [] then NothingCompared
    else if exists c :: c in Compared(comparisons) && c.verdict != Matched then HasDrift
    else Clean
  }

  predicate AnyRefused(files: seq<File>) {
    exists i :: 0 <= i < |files| && Refused(files[i])
  }

  ghost function Scanned(files: seq<File>): Report {
    if AnyRefused(files) || files == [] then Report([], NothingCompared)
    else
      var placed := AllPlaced(files);
      var comparisons := OwnAll(files) + Emitted(placed, |placed|);
      Report(comparisons, StatusOf(comparisons))
  }

  function Revisions(placed: seq<Placed>): nat {
    if placed == [] then 0 else Revisions(placed[..|placed| - 1]) + |placed[|placed| - 1].upserts|
  }

  /** `scan`, over the tracked migrations in path order; `superseded` counts what was dropped. */
  method Scan(files: seq<File>) returns (report: Report, ghost terminal: map<string, (nat, nat)>, superseded: int)
    ensures report == Scanned(files)
    ensures !AnyRefused(files) && files != [] ==>
              var placed := AllPlaced(files);
              && (forall item :: item in terminal ==> Terminal(placed, terminal[item].0, terminal[item].1, item))
              && (forall item, p: nat, k: nat :: Holds(placed, p, k, item) ==> item in terminal)
              && superseded == Revisions(placed) - |terminal|
  {
    hide Terminal, Holds, OwnComparisons, PlacedOf, Refused, StatusOf, Emitted, InOrder;
    terminal := map[];
    if files == [] {
      return Report([], NothingCompared), terminal, 0;
    }
    var own: seq<Comparison> := [];
    var placed: seq<Placed> := [];
    for n := 0 to |files|
      invariant forall i :: 0 <= i < n ==> !Refused(files[i])
      invariant own == OwnAll(files[..n]) && placed == AllPlaced(files[..n])
    {
      if Refused(files[n]) {
        return Report([], NothingCompared), terminal, 0;
      }
      assert files[..n + 1][..n] == files[..n];
      var more, read := ReadMigration(files[n]);
      own, placed := own + more, placed + read;
    }
    assert files[..|files|] == files;
    var order := ApplicationOrder(placed);
    var current := CurrentOperations(placed, order);
    terminal := current;
    var comparisons := Emit(placed, current);
    comparisons := own + comparisons;
    report := Report(comparisons, StatusOf(comparisons));
    superseded := Revisions(placed) - |current|;
  }

  /** The loop that walks the winners back out in path order. */
  method Emit(placed: seq<Placed>, current: map<string, (nat, nat)>) returns (comparisons: seq<Comparison>)
    requires forall item :: item in current ==> Terminal(placed, current[item].0, current[item].1, item)
    requires forall item, p: nat, k: nat :: Holds(placed, p, k, item) ==> item in current
    ensures comparisons == Emitted(placed, |placed|)
  {
    hide Compare, Terminal;
    comparisons := [];
    for p := 0 to |placed|
      invariant comparisons == Emitted(placed, p)
    {
      ghost var before := comparisons;
      for k := 0 to |placed[p].upserts|
        invariant comparisons == before + EmittedOf(placed, p, k)
      {
        var u := placed[p].upserts[k];
        assert Holds(placed, p, k, ItemOf(u));
        TerminalIsCurrent(placed, current, p, k, ItemOf(u));
        if current[ItemOf(u)] == (p, k) {
          comparisons := comparisons + Compare(placed[p].path, u);
        }
      }
    }
  }

  lemma LaterOneWay(placed: seq<Placed>, p: nat, k: nat, q: nat, j: nat)
    requires p < |placed| && q < |placed|
    ensures !(Later(placed, p, k, q, j) && Later(placed, q, j, p, k))
  {
  }

  /** An item has at most one terminal revision. */
  lemma TerminalUnique(placed: seq<Placed>, p: nat, k: nat, q: nat, j: nat, item: string)
    requires Terminal(placed, p, k, item) && Terminal(placed, q, j, item)
    ensures (p, k) == (q, j)
  {
    LaterOneWay(placed, p, k, q, j);
  }

  lemma TerminalIsCurrent(placed: seq<Placed>, current: map<string, (nat, nat)>, p: nat, k: nat, item: string)
    requires Holds(placed, p, k, item) && item in current
    requires Terminal(placed, current[item].0, current[item].1, item)
    ensures Terminal(placed, p, k, item) <==> current[item] == (p, k)
  {
    if Terminal(placed, p, k, item) {
      TerminalUnique(placed, p, k, current[item].0, current[item].1, item);
    }
  }

  /** `held_to_floor`. */
  function HeldToFloor(report: Report, minimum: int): Report {
    if report.status == NothingCompared || minimum <= 0 || |Compared(report.comparisons)| >= minimum then report
    else report.(status := NothingCompared)
  }

  /** `exit_code`. */
  function ExitCode(report: Report, advisory: bool): int {
    match report.status
    case NothingCompared => 2
    case HasDrift => if advisory then 0 else 1
    case Clean => 0
  }
}
