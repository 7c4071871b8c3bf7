/** What a row of the sweep says, member by member (tools/audit/config_object_claims.py). */
module ConfigRowsLaws {
  import opened PyText
  import ClaimSurfaces
  import opened ConfigClaims

  /** The sentence is about the member: its block names it, or its file is the member's home. */
  ghost predicate Refers(m: Member, read: ClaimSurfaces.Sentence) {
    m.named(read) || m.home(read)
  }

  /**
   The sentence makes a claim about the member: by its name, or, for all but a key that has a reader, by a
   pronoun or of the whole surface.
   */
  ghost predicate Claimed(f: Flavour, m: Member, s: string) {
    Found(f, m.obj, NAMED, s)
    || (m.kind in {FileObject, KeyObject} && (Found(f, m.obj, PRONOUN, s) || Found(f, m.obj, UNSCOPED, s)))
  }

  ghost predicate About(f: Flavour, m: Member, read: ClaimSurfaces.Sentence) {
    Refers(m, read) && Claimed(f, m, read.text)
  }

  lemma FirstOfThree(f: Flavour, m: Member, a: Shape, b: Shape, c: Shape, s: string)
    ensures FirstShape(f, m, [a, b, c], s)
         == if Found(f, m.obj, PatternOf(a), s) then Some(a)
            else if Found(f, m.obj, PatternOf(b), s) then Some(b)
            else if Found(f, m.obj, PatternOf(c), s) then Some(c)
            else None
  {
    hide Found, PatternOf;
    assert [a, b, c][1..] == [b, c] && [b, c][1..] == [c] && [c][1..] == [];
    assert FirstShape(f, m, [], s) == None;
    assert FirstShape(f, m, [c], s) == if Found(f, m.obj, PatternOf(c), s) then Some(c) else None;
    assert FirstShape(f, m, [b, c], s)
        == if Found(f, m.obj, PatternOf(b), s) then Some(b) else FirstShape(f, m, [c], s);
  }

  lemma FirstOfOne(f: Flavour, m: Member, a: Shape, s: string)
    ensures FirstShape(f, m, [a], s) == if Found(f, m.obj, PatternOf(a), s) then Some(a) else None
  {
    hide Found, PatternOf;
    assert [a][1..] == [];
  }

  lemma KeysAre(m: Member)
    ensures m.kind == ReadKey ==> KeysFor(m) == [Named]
    ensures m.kind in {FileObject, KeyObject} ==> KeysFor(m) == [Named, Pronoun, Unscoped]
    ensures PatternOf(Named) == NAMED && PatternOf(Pronoun) == PRONOUN && PatternOf(Unscoped) == UNSCOPED
  {
    hide NAMED, PRONOUN, UNSCOPED;
  }

  /** The shape recorded of a member is the first that is found, and a key that has a reader is only ever named. */
  lemma FirstShapeMeans(f: Flavour, m: Member, s: string)
    ensures var shape := FirstShape(f, m, KeysFor(m), s);
            var other := m.kind in {FileObject, KeyObject} && !Found(f, m.obj, NAMED, s);
            && (shape == Some(Named) <==> Found(f, m.obj, NAMED, s))
            && (shape == Some(Pronoun) <==> other && Found(f, m.obj, PRONOUN, s))
            && (shape == Some(Unscoped) <==> other && !Found(f, m.obj, PRONOUN, s) && Found(f, m.obj, UNSCOPED, s))
            && (shape.Some? <==> Claimed(f, m, s))
  {
    hide Found, NAMED, PRONOUN, UNSCOPED, FirstShape, KeysFor, PatternOf;
    KeysAre(m);
    FirstOfThree(f, m, Named, Pronoun, Unscoped, s);
    FirstOfOne(f, m, Named, s);
  }

  // -- Which members a row lists -----------------------------------------------------------------

  ghost predicate Rising(at: seq<nat>) {
    forall i, j :: 0 <= i < j < |at| ==> at[i] < at[j]
  }

  lemma RisingMore(at: seq<nat>, n: nat)
    requires Rising(at) && forall k :: k in at ==> k < n
    ensures Rising(at + [n])
  {
    assert forall i :: 0 <= i < |at| ==> at[i] in at;
  }

  ghost predicate PickedHere(m: Member, read: ClaimSurfaces.Sentence, named: bool) {
    if named then m.named(read) else m.home(read) && !m.named(read)
  }

  /** Where the members picked stand in the inventory. */
  lemma {:induction false} PickedAt(members: seq<Member>, read: ClaimSurfaces.Sentence, named: bool) returns (at: seq<nat>)
    ensures |at| == |Picked(members, read, named)| && Rising(at)
    ensures forall i :: 0 <= i < |at| ==> at[i] < |members| && Picked(members, read, named)[i] == members[at[i]]
    ensures forall k: nat :: k in at <==> k < |members| && PickedHere(members[k], read, named)
  {
    at := [];
    if members != [] {
      var n := |members| - 1;
      at := PickedAt(members[..n], read, named);
      if PickedHere(members[n], read, named) {
        at := at + [n];
      }
    }
  }

  /** `matched[i]` is the member at `at[i]`, with the first shape found of it. */
  ghost predicate MatchedThere(f: Flavour, members: seq<Member>, read: ClaimSurfaces.Sentence, at: seq<nat>,
                               matched: seq<(Member, Shape)>) {
    && |at| == |matched|
    && forall i :: 0 <= i < |at| ==>
         && at[i] < |members| && matched[i].0 == members[at[i]]
         && FirstShape(f, members[at[i]], KeysFor(members[at[i]]), read.text) == Some(matched[i].1)
  }

  lemma OneMoreMember(f: Flavour, members: seq<Member>, read: ClaimSurfaces.Sentence)
    requires members != []
    ensures var n := |members| - 1;
            var shape := FirstShape(f, members[n], KeysFor(members[n]), read.text);
            && MatchedBy(f, members, read)
               == MatchedBy(f, members[..n], read) + (if shape.Some? then [(members[n], shape.value)] else [])
            && (shape.Some? <==> Claimed(f, members[n], read.text))
  {
    FirstShapeMeans(f, members[|members| - 1], read.text);
    hide FirstShape, KeysFor, Claimed;
  }

  lemma ThereOnward(f: Flavour, members: seq<Member>, read: ClaimSurfaces.Sentence, n: nat, at: seq<nat>,
                    matched: seq<(Member, Shape)>)
    requires n <= |members| && MatchedThere(f, members[..n], read, at, matched)
    ensures MatchedThere(f, members, read, at, matched)
  {
    hide FirstShape, KeysFor;
    assert forall k: nat :: k < n ==> members[..n][k] == members[k];
  }

  lemma ThereOneMore(f: Flavour, members: seq<Member>, read: ClaimSurfaces.Sentence, at: seq<nat>,
                     matched: seq<(Member, Shape)>, n: nat, shape: Shape)
    requires n < |members| && MatchedThere(f, members, read, at, matched)
    requires FirstShape(f, members[n], KeysFor(members[n]), read.text) == Some(shape)
    ensures MatchedThere(f, members, read, at + [n], matched + [(members[n], shape)])
  {
    hide FirstShape, KeysFor;
  }

  /** Where the members a claim is about stand in a list. */
  lemma {:induction false} MatchedAt(f: Flavour, members: seq<Member>, read: ClaimSurfaces.Sentence) returns (at: seq<nat>)
    ensures MatchedThere(f, members, read, at, MatchedBy(f, members, read)) && Rising(at)
    ensures forall k: nat :: k in at <==> k < |members| && Claimed(f, members[k], read.text)
  {
    hide FirstShape, KeysFor, Claimed, MatchedThere, MatchedBy;
    at := [];
    if members == [] {
      NobodyThere(f, read);
    } else {
      var n := |members| - 1;
      at := MatchedAt(f, members[..n], read);
      ThereOnward(f, members, read, n, at, MatchedBy(f, members[..n], read));
      OneMoreMember(f, members, read);
      var shape := FirstShape(f, members[n], KeysFor(members[n]), read.text);
      if shape.Some? {
        ThereOneMore(f, members, read, at, MatchedBy(f, members[..n], read), n, shape.value);
        RisingMore(at, n);
        at := at + [n];
      } else {
        assert MatchedBy(f, members, read) == MatchedBy(f, members[..n], read) + [];
        assert MatchedBy(f, members, read) == MatchedBy(f, members[..n], read);
      }
    }
  }

  lemma NobodyThere(f: Flavour, read: ClaimSurfaces.Sentence)
    ensures MatchedThere(f, [], read, [], MatchedBy(f, [], read))
  {
  }

  /** The member a row's shape is taken from: the first named one that is claimed, or else the first at home. */
  ghost predicate Leads(f: Flavour, members: seq<Member>, read: ClaimSurfaces.Sentence, k: nat) {
    && k < |members| && About(f, members[k], read)
    && if members[k].named(read) then
         forall i :: 0 <= i < k && members[i].named(read) ==> !Claimed(f, members[i], read.text)
       else
         && (forall i :: 0 <= i < |members| && members[i].named(read) ==> !Claimed(f, members[i], read.text))
         && forall i :: 0 <= i < k ==> !About(f, members[i], read)
  }

  /** The place in the inventory of each member a claim is about, named ones first. */
  lemma ReferringAt(f: Flavour, members: seq<Member>, read: ClaimSurfaces.Sentence) returns (at: seq<nat>)
    ensures var matched := MatchedBy(f, Referring(members, read), read);
            && MatchedThere(f, members, read, at, matched)
            && (forall k: nat :: k in at <==> k < |members| && About(f, members[k], read))
            && (at != [] ==> Leads(f, members, read, at[0]))
  {
    hide FirstShape, KeysFor, MatchedBy, Picked, Claimed;
    var named := PickedAt(members, read, true);
    var home := PickedAt(members, read, false);
    var all := named + home;
    var refers := Referring(members, read);
    var chosen := MatchedAt(f, refers, read);
    assert forall i :: 0 <= i < |all| ==> all[i] < |members| && refers[i] == members[all[i]];
    at := seq(|chosen|, i requires 0 <= i < |chosen| => all[chosen[i]]);
    ChosenCover(f, members, read, named, home, chosen, at);
    if at != [] {
      ChosenLead(f, members, read, named, home, chosen);
    }
  }

  /** The places of all the members referred to: the named, then those at home. */
  ghost predicate Placed(members: seq<Member>, read: ClaimSurfaces.Sentence, named: seq<nat>, home: seq<nat>) {
    && Rising(named) && Rising(home)
    && (forall k: nat :: k in named <==> k < |members| && PickedHere(members[k], read, true))
    && (forall k: nat :: k in home <==> k < |members| && PickedHere(members[k], read, false))
  }

  /** The places in that list of the members a claim is about. */
  ghost predicate Chosen(f: Flavour, members: seq<Member>, read: ClaimSurfaces.Sentence, all: seq<nat>, chosen: seq<nat>) {
    && Rising(chosen) && (forall i :: 0 <= i < |all| ==> all[i] < |members|)
    && forall k: nat :: k in chosen <==> k < |all| && Claimed(f, members[all[k]], read.text)
  }

  lemma ChosenCover(f: Flavour, members: seq<Member>, read: ClaimSurfaces.Sentence, named: seq<nat>, home: seq<nat>,
                    chosen: seq<nat>, at: seq<nat>)
    requires Placed(members, read, named, home) && Chosen(f, members, read, named + home, chosen)
    requires |at| == |chosen|
    requires forall i :: 0 <= i < |chosen| ==> chosen[i] < |named + home| && at[i] == (named + home)[chosen[i]]
    ensures forall k: nat :: k in at <==> k < |members| && About(f, members[k], read)
  {
    hide Claimed;
    var all := named + home;
    forall k: nat
      ensures k in at <==> k < |members| && About(f, members[k], read)
    {
      if k in at {
        var i :| 0 <= i < |at| && at[i] == k;
        assert chosen[i] in chosen && all[chosen[i]] in named + home;
      }
      if k < |members| && About(f, members[k], read) {
        assert k in named || k in home;
        assert k in all;
        var p: nat :| p < |all| && all[p] == k;
        assert p in chosen;
        var i :| 0 <= i < |chosen| && chosen[i] == p;
        assert at[i] == k;
      }
    }
  }

  lemma ChosenLead(f: Flavour, members: seq<Member>, read: ClaimSurfaces.Sentence, named: seq<nat>, home: seq<nat>,
                   chosen: seq<nat>)
    requires Placed(members, read, named, home) && Chosen(f, members, read, named + home, chosen)
    requires chosen != [] && chosen[0] < |named + home|
    ensures Leads(f, members, read, (named + home)[chosen[0]])
  {
    hide Claimed;
    var all, first := named + home, chosen[0];
    var k := all[first];
    assert first in chosen && (k in named || k in home);
    forall p: nat | p < first
      ensures !Claimed(f, members[all[p]], read.text)
    {
      NotBeforeFirst(chosen, p);
    }
    if first < |named| {
      assert k in named;
      forall i: nat | i < k && members[i].named(read)
        ensures !Claimed(f, members[i], read.text)
      {
        assert i in named;
        var p: nat :| p < |named| && named[p] == i;
        assert all[p] == i;
      }
    } else {
      assert home[first - |named|] == k && k in home;
      forall i: nat | i < |members| && members[i].named(read)
        ensures !Claimed(f, members[i], read.text)
      {
        assert i in named;
        var p: nat :| p < |named| && named[p] == i;
        assert all[p] == i;
      }
      forall i: nat | i < k
        ensures !About(f, members[i], read)
      {
        if Refers(members[i], read) && !members[i].named(read) {
          assert i in home;
          var p: nat :| p < |home| && home[p] == i;
          assert all[|named| + p] == i;
        }
      }
    }
  }

  lemma NotBeforeFirst(chosen: seq<nat>, p: nat)
    requires Rising(chosen) && chosen != [] && p < chosen[0]
    ensures p !in chosen
  {
  }

  /** The names, and the kinds, of the members a claim is about. */
  ghost function Names(f: Flavour, members: seq<Member>, read: ClaimSurfaces.Sentence): set<string> {
    set k | 0 <= k < |members| && About(f, members[k], read) :: members[k].name
  }

  ghost function Kinds(f: Flavour, members: seq<Member>, read: ClaimSurfaces.Sentence): set<Kind> {
    set k | 0 <= k < |members| && About(f, members[k], read) :: members[k].kind
  }

  /** One row for the sentence, saying this of it. */
  ghost predicate RowSays(f: Flavour, members: seq<Member>, read: ClaimSurfaces.Sentence, row: Row) {
    && row.objects == Names(f, members, read) && row.kinds == Kinds(f, members, read)
    && exists k: nat :: Leads(f, members, read, k)
                        && FirstShape(f, members[k], KeysFor(members[k]), read.text) == Some(row.shape)
  }

  lemma ListedNames(matched: seq<(Member, Shape)>, members: seq<Member>, at: seq<nat>, f: Flavour, read: ClaimSurfaces.Sentence)
    requires |at| == |matched| && forall i :: 0 <= i < |at| ==> at[i] < |members| && matched[i].0 == members[at[i]]
    requires forall k: nat :: k in at <==> k < |members| && About(f, members[k], read)
    ensures (set k | 0 <= k < |matched| :: matched[k].0.name) == Names(f, members, read)
    ensures (set k | 0 <= k < |matched| :: matched[k].0.kind) == Kinds(f, members, read)
  {
    hide About;
    forall k: nat | k < |members| && About(f, members[k], read)
      ensures exists i :: 0 <= i < |matched| && matched[i].0 == members[k]
    {
      assert k in at;
      var i :| 0 <= i < |at| && at[i] == k;
      assert matched[i].0 == members[k];
    }
    forall i | 0 <= i < |matched|
      ensures at[i] < |members| && About(f, members[at[i]], read) && matched[i].0 == members[at[i]]
    {
      assert at[i] in at;
    }
    var names := set k | 0 <= k < |matched| :: matched[k].0.name;
    forall x
      ensures x in names <==> x in Names(f, members, read)
    {
    }
    var kinds := set k | 0 <= k < |matched| :: matched[k].0.kind;
    forall x
      ensures x in kinds <==> x in Kinds(f, members, read)
    {
    }
  }

  /** A sentence has a row exactly when it makes a claim about a member it refers to. */
  lemma RowMeans(f: Flavour, members: seq<Member>, read: ClaimSurfaces.Sentence, sentence: ClaimSurfaces.Sentence)
    ensures var rows := RowOf(MatchedBy(f, Referring(members, read), read), sentence);
            if forall k :: 0 <= k < |members| ==> !About(f, members[k], read) then rows == []
            else |rows| == 1 && rows[0].sentence == sentence && RowSays(f, members, read, rows[0])
  {
    hide FirstShape, KeysFor, MatchedBy, Referring, About, Leads, Names, Kinds;
    var matched := MatchedBy(f, Referring(members, read), read);
    var at := ReferringAt(f, members, read);
    if at != [] {
      assert at[0] in at;
      ListedNames(matched, members, at, f, read);
    } else {
      assert forall k: nat :: k < |members| ==> k !in at;
    }
  }

  // -- Which sentences have rows -----------------------------------------------------------------

  ghost predicate Claiming(f: Flavour, members: seq<Member>, read: ClaimSurfaces.Sentence) {
    exists k :: 0 <= k < |members| && About(f, members[k], read)
  }

  /**
   The sweep's rows are those of the sentences that claim something of a member they refer to, each once and
   in order; each lists all such members and is shaped by the first, the ones named coming before those at home.
   */
  lemma {:induction false} RowsMean(f: Flavour, members: seq<Member>, all: seq<ClaimSurfaces.Sentence>,
                                    asRead: ClaimSurfaces.Sentence -> ClaimSurfaces.Sentence)
    returns (at: seq<nat>)
    ensures |at| == |RowsOf(f, members, all, asRead)| && Rising(at)
    ensures forall i :: 0 <= i < |at| ==>
              && at[i] < |all| && RowsOf(f, members, all, asRead)[i].sentence == all[at[i]]
              && RowSays(f, members, asRead(all[at[i]]), RowsOf(f, members, all, asRead)[i])
    ensures forall k: nat :: k in at <==> k < |all| && Claiming(f, members, asRead(all[k]))
  {
    hide RowSays, Claiming, RowOf, MatchedBy, Referring;
    at := [];
    if all != [] {
      var n := |all| - 1;
      at := RowsMean(f, members, all[..n], asRead);
      RowIff(f, members, asRead(all[n]), all[n]);
      if Claiming(f, members, asRead(all[n])) {
        at := at + [n];
      }
    }
  }

  lemma RowIff(f: Flavour, members: seq<Member>, read: ClaimSurfaces.Sentence, sentence: ClaimSurfaces.Sentence)
    ensures var rows := RowOf(MatchedBy(f, Referring(members, read), read), sentence);
            if !Claiming(f, members, read) then rows == []
            else |rows| == 1 && rows[0].sentence == sentence && RowSays(f, members, read, rows[0])
  {
    hide About, RowSays, RowOf, MatchedBy, Referring;
    RowMeans(f, members, read, sentence);
  }
}
