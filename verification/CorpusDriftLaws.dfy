/** What a drift scan keeps. */
module CorpusDriftLaws {
  import opened PyText
  import opened CorpusDrift

  // -- One revision ------------------------------------------------------------------------------

  lemma {:induction false} JudgedSplits(anchors: seq<Anchor>)
    ensures multiset(Judged(anchors, true)) + multiset(Judged(anchors, false)) == multiset(anchors)
  {
    if anchors != [] {
      JudgedSplits(anchors[1..]);
      assert anchors == [anchors[0]] + anchors[1..];
    }
  }

  function Files(anchors: seq<Anchor>): (r: seq<string>)
    ensures |r| == |anchors|
  {
    if anchors == [] then [] else [anchors[0].file] + Files(anchors[1..])
  }

  function Named(comparisons: seq<Comparison>): (r: seq<string>)
    ensures |r| == |comparisons|
  {
    if comparisons == [] then [] else [comparisons[0].file] + Named(comparisons[1..])
  }

  lemma {:induction false} JudgedFiles(anchors: seq<Anchor>)
    ensures multiset(Files(Judged(anchors, true))) + multiset(Files(Judged(anchors, false))) == multiset(Files(anchors))
  {
    if anchors != [] {
      var a, rest := anchors[0], anchors[1..];
      JudgedFiles(rest);
      var kept := Judged(rest, a.refused);
      assert Judged(anchors, a.refused) == [a] + kept && Judged(anchors, !a.refused) == Judged(rest, !a.refused);
      assert ([a] + kept)[1..] == kept;
      assert Files([a] + kept) == [a.file] + Files(kept);
      hide Judged, Files;
    }
  }

  lemma {:induction false} NamedUnchecked(path: string, u: Upsert, anchors: seq<Anchor>)
    ensures Named(UncheckedAll(path, u, anchors)) == Files(anchors)
  {
    if anchors != [] {
      NamedUnchecked(path, u, anchors[1..]);
      assert UncheckedAll(path, u, anchors)[1..] == UncheckedAll(path, u, anchors[1..]);
    }
  }

  lemma {:induction false} NamedAppend(a: seq<Comparison>, b: seq<Comparison>)
    ensures Named(a + b) == Named(a) + Named(b)
  {
    if a == [] {
      assert a + b == b;
    } else {
      assert (a + b)[1..] == a[1..] + b;
      NamedAppend(a[1..], b);
    }
  }

  /** What `_compare` makes of the anchors it may compare. */
  lemma CompareParts(path: string, u: Upsert) returns (last: seq<Comparison>)
    requires u.anchors != []
    ensures Compare(path, u) == UncheckedAll(path, u, Judged(u.anchors, true)) + last
    ensures Named(last) == Files(Judged(u.anchors, false))
    ensures forall c :: c in last ==> c.migration == path && c.item == ItemOf(u)
  {
    var comparable := Judged(u.anchors, false);
    hide Judged;
    if |comparable| > 1 {
      last := UncheckedAll(path, u, comparable);
      NamedUnchecked(path, u, comparable);
    } else if comparable == [] {
      last := [];
    } else {
      last := [if u.expected.None? then Unchecked(path, u, comparable[0].file)
               else CompareOne(path, u, comparable[0], u.expected.value)];
      assert last[1..] == [] && comparable[1..] == [];
      assert Named(last) == [comparable[0].file] + Named([]) && Files(comparable) == [comparable[0].file] + Files([]);
    }
  }

  /**
   No anchor of a revision is dropped or doubled: one comparison each, naming the same documents, and
   one in all where there is no anchor.
   */
  lemma CompareConserves(path: string, u: Upsert)
    ensures u.anchors != [] ==> multiset(Named(Compare(path, u))) == multiset(Files(u.anchors))
    ensures |Compare(path, u)| == if u.anchors == [] then 1 else |u.anchors|
    ensures forall c :: c in Compare(path, u) ==> c.migration == path && c.item == ItemOf(u)
  {
    if u.anchors != [] {
      var refused := Judged(u.anchors, true);
      var last := CompareParts(path, u);
      hide Compare, Judged;
      JudgedFiles(u.anchors);
      NamedUnchecked(path, u, refused);
      NamedAppend(UncheckedAll(path, u, refused), last);
      var all := Compare(path, u);
      assert |Named(all)| == |multiset(Named(all))| == |multiset(Files(u.anchors))| == |Files(u.anchors)|;
    }
  }

  /** How many comparisons were really made. */
  lemma {:induction false} ComparedAppend(a: seq<Comparison>, b: seq<Comparison>)
    ensures Compared(a + b) == Compared(a) + Compared(b)
  {
    if a == [] {
      assert a + b == b;
    } else {
      assert (a + b)[1..] == a[1..] + b;
      ComparedAppend(a[1..], b);
    }
  }

  lemma {:induction false} NothingMade(cs: seq<Comparison>)
    requires forall c :: c in cs ==> c.verdict == Uncheckable
    ensures Compared(cs) == []
  {
    if cs != [] {
      NothingMade(cs[1..]);
    }
  }

  /** The sole comparable anchor, where something was recorded and its document can be read or is gone. */
  predicate Comparable(u: Upsert) {
    && u.expected.Some? && |Judged(u.anchors, false)| == 1
    && !Judged(u.anchors, false)[0].source.Unreadable?
  }

  /** At most one document is held to the recorded digest, and exactly when it is the only comparable one. */
  lemma OneDigestOneDocument(path: string, u: Upsert)
    ensures |Compared(Compare(path, u))| == if Comparable(u) then 1 else 0
    ensures Comparable(u) ==>
              var a := Judged(u.anchors, false)[0];
              Compared(Compare(path, u))[0].verdict
              == (if a.source.Gone? then SourceMissing else if a.source.digest == u.expected.value then Matched else Drifted)
  {
    var refused, comparable := Judged(u.anchors, true), Judged(u.anchors, false);
    var results := UncheckedAll(path, u, refused);
    if u.anchors != [] {
      NothingMade(results);
      if |comparable| == 1 && u.expected.Some? {
        ComparedAppend(results, [CompareOne(path, u, comparable[0], u.expected.value)]);
      } else {
        NothingMade(Compare(path, u));
      }
    }
  }

  // -- Every revision ----------------------------------------------------------------------------

  /** Every item that is revised has exactly one terminal revision. */
  lemma OneTerminalEach(placed: seq<Placed>, terminal: map<string, (nat, nat)>, item: string, p: nat, k: nat)
    requires forall x :: x in terminal ==> Terminal(placed, terminal[x].0, terminal[x].1, x)
    requires forall x, q: nat, j: nat :: Holds(placed, q, j, x) ==> x in terminal
    ensures item in terminal <==> exists q: nat, j: nat :: Holds(placed, q, j, item)
    ensures Terminal(placed, p, k, item) <==> item in terminal && terminal[item] == (p, k)
  {
    if item in terminal {
      assert Holds(placed, terminal[item].0, terminal[item].1, item);
    }
    if Terminal(placed, p, k, item) {
      TerminalUnique(placed, p, k, terminal[item].0, terminal[item].1, item);
    }
  }

  type Position = (nat, nat)

  /** The positions of the revisions of one migration, and of the first `n`. */
  function Row(p: nat, m: nat): (r: set<Position>)
    ensures forall q: nat, k: nat :: (q, k) in r <==> q == p && k < m
    ensures forall at :: at in r ==> at.0 == p
    ensures |r| == m
  {
    if m == 0 then {} else Row(p, m - 1) + {(p, m - 1)}
  }

  function Positions(placed: seq<Placed>): (r: set<Position>)
    ensures forall p: nat, k: nat :: (p, k) in r <==> p < |placed| && k < |placed[p].upserts|
    ensures forall at :: at in r ==> at.0 < |placed|
    ensures |r| == Revisions(placed)
  {
    if placed == [] then {}
    else
      var n := |placed| - 1;
      var before, row := Positions(placed[..n]), Row(n, |placed[n].upserts|);
      assert before !! row;
      before + row
  }

  lemma {:induction false} ImageSize(m: map<string, Position>, keys: set<string>) returns (image: set<Position>)
    requires keys <= m.Keys
    requires forall x, y :: x in m && y in m && m[x] == m[y] ==> x == y
    ensures |image| == |keys|
    ensures forall at :: at in image <==> exists x :: x in keys && m[x] == at
  {
    image := {};
    if keys != {} {
      var x :| x in keys;
      var rest := ImageSize(m, keys - {x});
      image := rest + {m[x]};
      assert m[x] !in rest;
      forall at | at in image
        ensures exists y :: y in keys && m[y] == at
      {
        if at == m[x] {
          assert x in keys;
        }
      }
    }
  }

  /** Two items never share a position. */
  lemma PositionsDiffer(placed: seq<Placed>, terminal: map<string, (nat, nat)>, x: string, y: string)
    requires forall z :: z in terminal ==> Terminal(placed, terminal[z].0, terminal[z].1, z)
    requires x in terminal && y in terminal && terminal[x] == terminal[y]
    ensures x == y
  {
    assert Holds(placed, terminal[x].0, terminal[x].1, x) && Holds(placed, terminal[y].0, terminal[y].1, y);
  }

  /** The terminal positions, one an item. */
  lemma WinnersSet(placed: seq<Placed>, terminal: map<string, (nat, nat)>) returns (winners: set<Position>)
    requires forall x :: x in terminal ==> Terminal(placed, terminal[x].0, terminal[x].1, x)
    ensures |winners| == |terminal| && winners <= Positions(placed)
    ensures forall at :: at in winners <==> exists x :: x in terminal && terminal[x] == at
  {
    forall x, y | x in terminal && y in terminal && terminal[x] == terminal[y]
      ensures x == y
    {
      PositionsDiffer(placed, terminal, x, y);
    }
    winners := ImageSize(terminal, terminal.Keys);
    hide Positions, Terminal;
    forall at | at in winners
      ensures at in Positions(placed)
    {
      var x :| x in terminal && terminal[x] == at;
      TerminalHolds(placed, at.0, at.1, x);
    }
  }

  lemma TerminalHolds(placed: seq<Placed>, p: nat, k: nat, x: string)
    requires Terminal(placed, p, k, x)
    ensures (p, k) in Positions(placed) && Holds(placed, p, k, x)
  {
  }

  lemma WinnerIsTerminal(placed: seq<Placed>, terminal: map<string, (nat, nat)>, winners: set<Position>, p: nat, k: nat)
    requires forall x :: x in terminal ==> Terminal(placed, terminal[x].0, terminal[x].1, x)
    requires forall x, q: nat, j: nat :: Holds(placed, q, j, x) ==> x in terminal
    requires forall at :: at in winners <==> exists x :: x in terminal && terminal[x] == at
    requires p < |placed| && k < |placed[p].upserts|
    ensures (p, k) in winners <==> Terminal(placed, p, k, ItemOf(placed[p].upserts[k]))
  {
    var item := ItemOf(placed[p].upserts[k]);
    assert Holds(placed, p, k, item);
    OneTerminalEach(placed, terminal, item, p, k);
    if (p, k) in winners {
      var x :| x in terminal && terminal[x] == (p, k);
      TerminalHolds(placed, p, k, x);
    }
  }

  /** Revisions are terminal or superseded: the count of superseded ones is exact, and never negative. */
  lemma RevisionsConserved(placed: seq<Placed>, terminal: map<string, (nat, nat)>) returns (dropped: set<Position>)
    requires forall x :: x in terminal ==> Terminal(placed, terminal[x].0, terminal[x].1, x)
    requires forall x, q: nat, j: nat :: Holds(placed, q, j, x) ==> x in terminal
    ensures Revisions(placed) == |terminal| + |dropped|
    ensures forall p: nat, k: nat :: (p, k) in dropped <==>
              p < |placed| && k < |placed[p].upserts| && !Terminal(placed, p, k, ItemOf(placed[p].upserts[k]))
  {
    hide Terminal, Holds, Revisions;
    var all := Positions(placed);
    var winners := WinnersSet(placed, terminal);
    dropped := all - winners;
    assert |all| == |winners| + |dropped|;
    forall p: nat, k: nat | p < |placed| && k < |placed[p].upserts|
      ensures (p, k) in winners <==> Terminal(placed, p, k, ItemOf(placed[p].upserts[k]))
    {
      WinnerIsTerminal(placed, terminal, winners, p, k);
    }
  }

  // -- A re-seed ---------------------------------------------------------------------------------

  function Others(cs: seq<Comparison>, item: string): seq<Comparison> {
    if cs == [] then []
    else Others(cs[..|cs| - 1], item) + if cs[|cs| - 1].item != item then [cs[|cs| - 1]] else []
  }

  function Only(cs: seq<Comparison>, item: string): seq<Comparison> {
    if cs == [] then []
    else Only(cs[..|cs| - 1], item) + if cs[|cs| - 1].item == item then [cs[|cs| - 1]] else []
  }

  lemma {:induction false} SplitAppend(a: seq<Comparison>, b: seq<Comparison>, item: string)
    ensures Others(a + b, item) == Others(a, item) + Others(b, item)
    ensures Only(a + b, item) == Only(a, item) + Only(b, item)
  {
    hide *;
    if b == [] {
      assert a + b == a;
      NoComparisons(item);
    } else {
      var n := |b| - 1;
      assert (a + b)[..|a| + n] == a + b[..n] && (a + b)[|a| + n] == b[n];
      SplitAppend(a, b[..n], item);
      LastComparison(a + b, item);
      LastComparison(b, item);
    }
  }

  lemma NoComparisons(item: string)
    ensures Others([], item) == [] && Only([], item) == []
  {
  }

  lemma LastComparison(cs: seq<Comparison>, item: string)
    requires cs != []
    ensures var n := |cs| - 1;
            && Others(cs, item) == Others(cs[..n], item) + (if cs[n].item != item then [cs[n]] else [])
            && Only(cs, item) == Only(cs[..n], item) + (if cs[n].item == item then [cs[n]] else [])
  {
  }

  lemma {:induction false} AllOfItem(cs: seq<Comparison>, item: string)
    requires forall i :: 0 <= i < |cs| ==> cs[i].item == item
    ensures Others(cs, item) == [] && Only(cs, item) == cs
  {
    if cs != [] {
      AllOfItem(cs[..|cs| - 1], item);
    }
  }

  lemma {:induction false} NoneOfItem(cs: seq<Comparison>, item: string)
    requires forall i :: 0 <= i < |cs| ==> cs[i].item != item
    ensures Others(cs, item) == cs && Only(cs, item) == []
  {
    if cs != [] {
      var n := |cs| - 1;
      NoneOfItem(cs[..n], item);
      assert cs[n].item != item;
      assert Others(cs, item) == Others(cs[..n], item) + [cs[n]];
    }
  }

  /** A migration inserted anywhere in path order: one revision of one item, under an id above every other. */
  predicate Reseeds(placed: seq<Placed>, a: nat, extra: Placed, item: string) {
    && a <= |placed| && |extra.upserts| == 1 && extra.upserts[0].item == Some(item)
    && forall i :: 0 <= i < |placed| ==> placed[i].id < extra.id
  }

  function With(placed: seq<Placed>, a: nat, extra: Placed): seq<Placed>
    requires a <= |placed|
  {
    placed[..a] + [extra] + placed[a..]
  }

  /** Where a position lies once the migration is inserted. */
  function Moved(p: nat, a: nat): nat {
    if p < a then p else p + 1
  }

  lemma WithAt(placed: seq<Placed>, a: nat, extra: Placed, p: nat)
    requires a <= |placed| && p < |placed|
    ensures Moved(p, a) < |With(placed, a, extra)| && With(placed, a, extra)[Moved(p, a)] == placed[p]
    ensures With(placed, a, extra)[a] == extra
  {
  }

  lemma MovedTerminal(placed: seq<Placed>, a: nat, extra: Placed, item: string, p: nat, k: nat, x: string)
    requires Reseeds(placed, a, extra, item) && p < |placed|
    ensures Terminal(With(placed, a, extra), Moved(p, a), k, x) <==> x != item && Terminal(placed, p, k, x)
  {
    var w := With(placed, a, extra);
    WithAt(placed, a, extra, p);
    assert |w| == |placed| + 1 && w[a] == extra;
    if x == item {
      assert Holds(w, a, 0, item);
      assert !Later(w, a, 0, Moved(p, a), k);
    } else {
      forall q: nat, j: nat | q < |placed|
        ensures Holds(w, Moved(q, a), j, x) <==> Holds(placed, q, j, x)
        ensures Later(w, Moved(q, a), j, Moved(p, a), k) <==> Later(placed, q, j, p, k)
      {
        WithAt(placed, a, extra, q);
      }
      if Terminal(placed, p, k, x) {
        forall q: nat, j: nat | Holds(w, q, j, x) && (q, j) != (Moved(p, a), k)
          ensures Later(w, q, j, Moved(p, a), k)
        {
          if q != a {
            var origin := if q < a then q else q - 1;
            assert Moved(origin, a) == q;
            assert Holds(placed, origin, j, x);
          }
        }
      }
      if Terminal(w, Moved(p, a), k, x) {
        forall q: nat, j: nat | Holds(placed, q, j, x) && (q, j) != (p, k)
          ensures Later(placed, q, j, p, k)
        {
          assert Holds(w, Moved(q, a), j, x);
        }
      }
    }
  }

  lemma NewTerminal(placed: seq<Placed>, a: nat, extra: Placed, item: string)
    requires Reseeds(placed, a, extra, item)
    ensures Terminal(With(placed, a, extra), a, 0, item)
  {
    var w := With(placed, a, extra);
    assert w[a] == extra;
    forall q: nat, j: nat | Holds(w, q, j, item) && (q, j) != (a, 0)
      ensures Later(w, q, j, a, 0)
    {
      if q != a {
        var origin := if q < a then q else q - 1;
        WithAt(placed, a, extra, origin);
      }
    }
  }

  lemma AddsItsItem(placed: seq<Placed>, p: nat, k: nat, i: nat)
    requires p < |placed| && k < |placed[p].upserts| && i < |Adds(placed, p, k)|
    ensures Adds(placed, p, k)[i].item == ItemOf(placed[p].upserts[k])
  {
    CompareConserves(placed[p].path, placed[p].upserts[k]);
    hide Compare, Terminal;
    assert Adds(placed, p, k)[i] in Compare(placed[p].path, placed[p].upserts[k]);
  }

  /** What one revision adds, before and after. */
  lemma AddsReseeded(placed: seq<Placed>, a: nat, extra: Placed, item: string, p: nat, k: nat)
    requires Reseeds(placed, a, extra, item) && p < |placed| && k < |placed[p].upserts|
    ensures Moved(p, a) < |With(placed, a, extra)| && With(placed, a, extra)[Moved(p, a)] == placed[p]
    ensures Adds(With(placed, a, extra), Moved(p, a), k) == Others(Adds(placed, p, k), item)
  {
    var u := placed[p].upserts[k];
    WithAt(placed, a, extra, p);
    MovedTerminal(placed, a, extra, item, p, k, ItemOf(u));
    forall i | 0 <= i < |Adds(placed, p, k)|
      ensures Adds(placed, p, k)[i].item == ItemOf(u)
    {
      AddsItsItem(placed, p, k, i);
    }
    hide Compare, Terminal, With, Reseeds;
    if ItemOf(u) == item {
      AllOfItem(Adds(placed, p, k), item);
    } else {
      NoneOfItem(Adds(placed, p, k), item);
    }
  }

  /** The comparisons of one migration, before and after, apart from the item's own. */
  lemma {:induction false} RowReseeded(placed: seq<Placed>, a: nat, extra: Placed, item: string, p: nat, m: nat)
    requires Reseeds(placed, a, extra, item) && p < |placed| && m <= |placed[p].upserts|
    ensures Moved(p, a) < |With(placed, a, extra)| && With(placed, a, extra)[Moved(p, a)] == placed[p]
    ensures EmittedOf(With(placed, a, extra), Moved(p, a), m) == Others(EmittedOf(placed, p, m), item)
  {
    hide Adds, With, Reseeds;
    if m == 0 {
      assert Reseeds(placed, a, extra, item);
      InsertedAt(placed, a, extra, item, p);
    } else {
      RowReseeded(placed, a, extra, item, p, m - 1);
      AddsReseeded(placed, a, extra, item, p, m - 1);
      SplitAppend(EmittedOf(placed, p, m - 1), Adds(placed, p, m - 1), item);
    }
  }

  lemma InsertedAt(placed: seq<Placed>, a: nat, extra: Placed, item: string, p: nat)
    requires Reseeds(placed, a, extra, item) && p < |placed|
    ensures a <= |placed|
    ensures Moved(p, a) < |With(placed, a, extra)| && With(placed, a, extra)[Moved(p, a)] == placed[p]
  {
  }

  lemma NewRow(placed: seq<Placed>, a: nat, extra: Placed, item: string)
    requires Reseeds(placed, a, extra, item)
    ensures a < |With(placed, a, extra)| && |With(placed, a, extra)[a].upserts| == 1
    ensures EmittedOf(With(placed, a, extra), a, 1) == Compare(extra.path, extra.upserts[0])
  {
    var w := With(placed, a, extra);
    assert w[a] == extra;
    NewTerminal(placed, a, extra, item);
    hide Compare, Terminal;
    assert EmittedOf(w, a, 0) == [] && Adds(w, a, 0) == Compare(extra.path, extra.upserts[0]);
  }

  lemma Nothing(placed: seq<Placed>, a: nat, item: string)
    requires a <= |placed|
    ensures Emitted(placed, 0) == [] && Between(placed, a, a) == [] && Others([], item) == []
  {
  }

  lemma EmittedStep(placed: seq<Placed>, n: nat)
    requires n < |placed|
    ensures Emitted(placed, n + 1) == Emitted(placed, n) + EmittedOf(placed, n, |placed[n].upserts|)
  {
  }

  lemma BetweenStep(placed: seq<Placed>, a: nat, n: nat)
    requires a <= n < |placed|
    ensures Between(placed, a, n + 1) == Between(placed, a, n) + EmittedOf(placed, n, |placed[n].upserts|)
  {
  }

  lemma JoinOthers(before: seq<Comparison>, head: seq<Comparison>, seen: seq<Comparison>, row: seq<Comparison>,
                   row': seq<Comparison>, item: string)
    requires before == head + Others(seen, item) && row' == Others(row, item)
    ensures before + row' == head + Others(seen + row, item)
  {
    SplitAppend(seen, row, item);
    hide *;
    assert head + Others(seen, item) + row' == head + (Others(seen, item) + row');
  }

  /** How the list with the insertion lies over the list without it. */
  lemma Shape(placed: seq<Placed>, a: nat, extra: Placed, item: string, n: nat)
    requires Reseeds(placed, a, extra, item) && n <= |placed|
    ensures a <= |placed| && |With(placed, a, extra)| == |placed| + 1 && |extra.upserts| == 1
    ensures With(placed, a, extra)[a] == extra
    ensures n > 0 ==> Moved(n - 1, a) == if n <= a then n - 1 else n
  {
  }

  /** Before the place of insertion nothing but the item's own comparisons changes. */
  lemma {:induction false} HeadReseeded(placed: seq<Placed>, a: nat, extra: Placed, item: string, n: nat)
    requires Reseeds(placed, a, extra, item) && n <= a <= |placed| && n <= |With(placed, a, extra)|
    ensures Emitted(With(placed, a, extra), n) == Others(Emitted(placed, n), item)
  {
    hide *;
    var w := With(placed, a, extra);
    if n == 0 {
      Nothing(placed, a, item);
      Nothing(w, 0, item);
    } else {
      var p := n - 1;
      Shape(placed, a, extra, item, n);
      HeadReseeded(placed, a, extra, item, p);
      RowReseeded(placed, a, extra, item, p, |placed[p].upserts|);
      EmittedStep(placed, p);
      EmittedStep(w, p);
      JoinOthers(Emitted(w, p), [], Emitted(placed, p), EmittedOf(placed, p, |placed[p].upserts|),
                 EmittedOf(w, p, |w[p].upserts|), item);
    }
  }

  /** After it, every migration has moved by one. */
  lemma {:induction false} EmittedReseeded(placed: seq<Placed>, a: nat, extra: Placed, item: string, n: nat)
    requires Reseeds(placed, a, extra, item) && a <= n <= |placed|
    requires |extra.upserts| == 1 && n + 1 <= |With(placed, a, extra)|
    ensures Emitted(With(placed, a, extra), n + 1)
         == Others(Emitted(placed, a), item) + Compare(extra.path, extra.upserts[0]) + Others(Between(placed, a, n), item)
  {
    hide *;
    var w := With(placed, a, extra);
    var head := Others(Emitted(placed, a), item) + Compare(extra.path, extra.upserts[0]);
    Shape(placed, a, extra, item, n);
    if n == a {
      HeadReseeded(placed, a, extra, item, a);
      NewRow(placed, a, extra, item);
      EmittedStep(w, a);
      Nothing(placed, a, item);
    } else {
      var p := n - 1;
      EmittedReseeded(placed, a, extra, item, p);
      RowReseeded(placed, a, extra, item, p, |placed[p].upserts|);
      EmittedStep(w, n);
      BetweenStep(placed, a, p);
      JoinOthers(Emitted(w, n), head, Between(placed, a, p), EmittedOf(placed, p, |placed[p].upserts|),
                 EmittedOf(w, n, |w[n].upserts|), item);
    }
  }

  /** The comparisons of migrations `a` to `n`. */
  ghost function Between(placed: seq<Placed>, a: nat, n: nat): seq<Comparison>
    requires a <= n <= |placed|
  {
    if n == a then [] else Between(placed, a, n - 1) + EmittedOf(placed, n - 1, |placed[n - 1].upserts|)
  }

  lemma {:induction false} EmittedSplit(placed: seq<Placed>, a: nat, n: nat)
    requires a <= n <= |placed|
    ensures Emitted(placed, n) == Emitted(placed, a) + Between(placed, a, n)
  {
    hide EmittedOf;
    if a < n {
      EmittedSplit(placed, a, n - 1);
    }
  }

  /** What the revisions of the other items add is untouched, and the item's own is the new one's. */
  lemma EmittedReplaced(placed: seq<Placed>, a: nat, extra: Placed, item: string)
    requires Reseeds(placed, a, extra, item)
    ensures var before, after := Emitted(placed, |placed|), Emitted(With(placed, a, extra), |placed| + 1);
            && Others(after, item) == Others(before, item)
            && Only(after, item) == Compare(extra.path, extra.upserts[0])
  {
    var n := |placed|;
    var head, tail, fresh_ := Emitted(placed, a), Between(placed, a, n), Compare(extra.path, extra.upserts[0]);
    Shape(placed, a, extra, item, n);
    EmittedReseeded(placed, a, extra, item, n);
    EmittedSplit(placed, a, n);
    CompareConserves(extra.path, extra.upserts[0]);
    assert forall i :: 0 <= i < |fresh_| ==> fresh_[i] in fresh_;
    hide *;
    ReplacedLocally(head, fresh_, tail, item);
  }

  lemma ReplacedLocally(head: seq<Comparison>, new_: seq<Comparison>, tail: seq<Comparison>, item: string)
    requires forall i :: 0 <= i < |new_| ==> new_[i].item == item
    ensures var after := Others(head, item) + new_ + Others(tail, item);
            Others(after, item) == Others(head + tail, item) && Only(after, item) == new_
  {
    hide *;
    SplitAppend(head, tail, item);
    AllOfItem(new_, item);
    OthersTwice(head, item);
    OthersTwice(tail, item);
    SplitAppend(Others(head, item) + new_, Others(tail, item), item);
    SplitAppend(Others(head, item), new_, item);
    assert Others(head, item) + [] + Others(tail, item) == Others(head, item) + Others(tail, item);
    assert [] + new_ + [] == new_;
  }

  lemma {:induction false} OthersTwice(cs: seq<Comparison>, item: string)
    ensures Others(Others(cs, item), item) == Others(cs, item) && Only(Others(cs, item), item) == []
  {
    if cs != [] {
      var n := |cs| - 1;
      OthersTwice(cs[..n], item);
      var more := if cs[n].item != item then [cs[n]] else [];
      SplitAppend(Others(cs[..n], item), more, item);
      if cs[n].item != item {
        NoneOfItem(more, item);
      }
    }
  }

  lemma {:induction false} PlacedAppend(a: seq<File>, b: seq<File>)
    ensures AllPlaced(a + b) == AllPlaced(a) + AllPlaced(b) && OwnAll(a + b) == OwnAll(a) + OwnAll(b)
  {
    hide *;
    if b == [] {
      assert a + b == a;
      NoFiles();
    } else {
      var n := |b| - 1;
      assert (a + b)[..|a| + n] == a + b[..n] && (a + b)[|a| + n] == b[n];
      PlacedAppend(a, b[..n]);
      LastFile(a + b);
      LastFile(b);
    }
  }

  lemma NoFiles()
    ensures AllPlaced([]) == [] && OwnAll([]) == []
  {
  }

  lemma LastFile(files: seq<File>)
    requires files != []
    ensures var n := |files| - 1;
            && AllPlaced(files) == AllPlaced(files[..n]) + PlacedOf(files[n])
            && OwnAll(files) == OwnAll(files[..n]) + OwnComparisons(files[n])
  {
  }

  /** A migration file that re-seeds one item, under an id above every other's. */
  predicate ReseedFile(files: seq<File>, f: File, u: Upsert, item: string) {
    && f.content.Document? && !f.content.edges && f.content.upserts == [u] && u.item == Some(item)
    && forall i :: 0 <= i < |AllPlaced(files)| ==> AllPlaced(files)[i].id < f.content.id
  }

  lemma OneUpsert(path: string, u: Upsert)
    requires u.item.Some?
    ensures Placeable([u]) == [u] && Unplaceable(path, [u]) == []
  {
    OneMoreUpsert(path, [u], 0);
    assert [u][..1] == [u] && [u][..0] == [];
  }

  lemma OneFile(f: File, u: Upsert)
    requires f.content.Document? && f.content.upserts == [u]
    requires Placeable([u]) == [u] && Unplaceable(f.path, [u]) == []
    ensures PlacedOf(f) == [Placed(f.path, f.content.id, [u])] && OwnComparisons(f) == []
  {
    hide Placeable, Unplaceable;
  }

  lemma ReseedRead(f: File, u: Upsert)
    requires f.content.Document? && f.content.upserts == [u] && u.item.Some?
    ensures OwnAll([f]) == [] && AllPlaced([f]) == [Placed(f.path, f.content.id, [u])]
  {
    OneUpsert(f.path, u);
    OneFile(f, u);
    hide PlacedOf, OwnComparisons, Placeable, Unplaceable;
    assert [f][..0] == [];
    assert OwnAll([f]) == OwnAll([]) + OwnComparisons(f);
    assert AllPlaced([f]) == AllPlaced([]) + PlacedOf(f);
  }

  /** Where the new file's revision lands among the placed ones. */
  lemma ReseededPopulation(files: seq<File>, a: nat, f: File, u: Upsert, item: string) returns (at: nat)
    requires a <= |files| && ReseedFile(files, f, u, item)
    ensures Reseeds(AllPlaced(files), at, Placed(f.path, f.content.id, [u]), item)
    ensures AllPlaced(files[..a] + [f] + files[a..]) == With(AllPlaced(files), at, Placed(f.path, f.content.id, [u]))
    ensures OwnAll(files[..a] + [f] + files[a..]) == OwnAll(files)
  {
    hide AllPlaced, OwnAll;
    at := |AllPlaced(files[..a])|;
    ReseedRead(f, u);
    PlacedAppend(files[..a], files[a..]);
    PlacedAppend(files[..a], [f]);
    PlacedAppend(files[..a] + [f], files[a..]);
    assert files[..a] + files[a..] == files;
  }

  /** What follows the files' own findings in a report that was not refused. */
  lemma ScannedParts(files: seq<File>)
    requires !AnyRefused(files)
    ensures Scanned(files).comparisons == OwnAll(files) + Emitted(AllPlaced(files), |AllPlaced(files)|)
  {
    if files == [] {
      assert Emitted(AllPlaced([]), 0) == [];
    }
  }

  /**
   Adding a migration, in a file of any name, that re-seeds one item under the greatest id: the scan
   reports the files' own findings as before, replaces that item's comparisons by the new revision's,
   and leaves every other item's as they were, in their order.
   */
  lemma ReseedIsLocal(files: seq<File>, a: nat, f: File, u: Upsert, item: string)
    requires a <= |files| && !AnyRefused(files) && ReseedFile(files, f, u, item)
    ensures var own := OwnAll(files);
            var before, after := Scanned(files).comparisons, Scanned(files[..a] + [f] + files[a..]).comparisons;
            && own <= before && own <= after
            && Others(after[|own|..], item) == Others(before[|own|..], item)
            && Only(after[|own|..], item) == Compare(f.path, u)
  {
    hide Scanned, Emitted, AllPlaced, OwnAll, With, Reseeds, Compare, Others, Only;
    var more := files[..a] + [f] + files[a..];
    assert !AnyRefused(more);
    ScannedParts(files);
    ScannedParts(more);
    var extra := Placed(f.path, f.content.id, [u]);
    var at := ReseededPopulation(files, a, f, u, item);
    InsertedOne(AllPlaced(files), at, extra, item);
    EmittedReplaced(AllPlaced(files), at, extra, item);
  }

  lemma InsertedOne(placed: seq<Placed>, a: nat, extra: Placed, item: string)
    requires Reseeds(placed, a, extra, item)
    ensures a <= |placed| && |With(placed, a, extra)| == |placed| + 1
  {
  }

  // -- What the exit code says -------------------------------------------------------------------

  /**
   The run exits 0 or 1 only on at least the floor of real comparisons and one at least; 1 exactly when
   one of them differed and the run is not advisory. Drift never hides a run below its floor.
   */
  lemma ExitMeans(files: seq<File>, minimum: int, advisory: bool)
    ensures var r := Scanned(files);
            var made := Compared(r.comparisons);
            var code := ExitCode(HeldToFloor(r, minimum), advisory);
            && (code == 2 <==> |made| == 0 || |made| < minimum)
            && (code == 1 <==> !advisory && |made| > 0 && |made| >= minimum && exists c :: c in made && c.verdict != Matched)
            && HeldToFloor(r, minimum).comparisons == r.comparisons
  {
    hide OwnAll, Emitted, AllPlaced, AnyRefused;
    assert Compared([]) == [];
  }

  // -- What a comparison records -----------------------------------------------------------------

  /** The comparison is of this revision of this migration. */
  predicate Of(path: string, u: Upsert, c: Comparison) {
    c.migration == path && c.revision == u.revision && c.item == (if u.item.Some? then u.item.value else "")
  }

  /**
   Every comparison of a revision names it. A real one holds the recorded digest to the document's own: they
   are one digest exactly when it matched, and a document that is gone has none.
   */
  lemma CompareRecords(path: string, u: Upsert, c: Comparison)
    requires c in Compare(path, u)
    ensures Of(path, u, c)
    ensures c.verdict in {Matched, Drifted, SourceMissing} ==> u.expected == Some(c.expected)
    ensures c.verdict in {Matched, Drifted} ==>
              && (c.verdict == Matched <==> c.actual == c.expected)
              && exists a :: a in u.anchors && !a.refused && a.file == c.file && a.source == Hashing(c.actual)
    ensures c.verdict in {SourceMissing, Uncheckable} ==> c.actual == ""
    ensures c.expected == "" || u.expected == Some(c.expected)
  {
    var refused, comparable := Judged(u.anchors, true), Judged(u.anchors, false);
    hide Judged;
    if |comparable| == 1 && u.expected.Some? && c == CompareOne(path, u, comparable[0], u.expected.value) {
      assert comparable[0] in u.anchors;
    } else if u.anchors != [] {
      assert c in UncheckedAll(path, u, refused) || c in UncheckedAll(path, u, comparable);
    }
  }

  /**
   One migration with edges among the files stops the scan, and so does their absence; a scan that is not
   stopped reports every file's own findings and every terminal revision's comparisons.
   */
  lemma ScanStopsIff(files: seq<File>)
    ensures files == [] || (exists i :: 0 <= i < |files| && files[i].content.Document? && files[i].content.edges) ==>
              Scanned(files) == Report([], NothingCompared)
    ensures files != [] && (forall i :: 0 <= i < |files| && files[i].content.Document? ==> !files[i].content.edges) ==>
              var placed := AllPlaced(files); Scanned(files).comparisons == OwnAll(files) + Emitted(placed, |placed|)
  {
    hide OwnAll, AllPlaced, Emitted, StatusOf;
    if i :| 0 <= i < |files| && files[i].content.Document? && files[i].content.edges {
      assert Refused(files[i]);
    }
  }
}
