/** The pre-filter never changes the sweep. */
module ConfigClaimsLaws {
  import opened PyText
  import ClaimSurfaces
  import opened ConfigClaims

  // -- What a literal matches --------------------------------------------------------------------

  predicate Lower(w: string) {
    forall k :: 0 <= k < |w| ==> 'a' <= w[k] <= 'z'
  }

  /** A word matches a run of word characters as long as itself. */
  lemma {:induction false} TextIsWords(f: Flavour, obj: Object, w: string, s: string, i: nat, j: nat)
    requires Sane(f) && Lower(w) && Matches(f, obj, Text(w), s, i, j)
    ensures j == i + |w| && forall k :: i <= k < j ==> WordAt(f, s, k)
    decreases |w|
  {
    if w != "" {
      var k: nat :| i <= k <= j && Matches(f, obj, Letter(w[0]), s, i, k) && Matches(f, obj, Text(w[1..]), s, k, j);
      TextIsWords(f, obj, w[1..], s, k, j);
    }
  }

  lemma SpacesMatch(f: Flavour, obj: Object, s: string, i: nat, j: nat)
    requires Sane(f) && Matches(f, obj, SPACES, s, i, j)
    ensures i < j && !WordAt(f, s, i) && !WordAt(f, s, j - 1)
  {
  }

  // -- Taking patterns apart and putting them together -------------------------------------------

  lemma Split(f: Flavour, obj: Object, a: Re, b: Re, s: string, i: nat, j: nat) returns (k: nat)
    requires Matches(f, obj, Cat(a, b), s, i, j)
    ensures i <= k <= j <= |s| && Matches(f, obj, a, s, i, k) && Matches(f, obj, b, s, k, j)
  {
    k :| i <= k <= j && Matches(f, obj, a, s, i, k) && Matches(f, obj, b, s, k, j);
  }

  lemma Join(f: Flavour, obj: Object, a: Re, b: Re, s: string, i: nat, k: nat, j: nat)
    requires i <= k <= j <= |s| && Matches(f, obj, a, s, i, k) && Matches(f, obj, b, s, k, j)
    ensures Matches(f, obj, Cat(a, b), s, i, j)
  {
  }

  lemma Either(f: Flavour, obj: Object, a: Re, b: Re, s: string, i: nat, j: nat)
    ensures Matches(f, obj, Or(a, b), s, i, j) <==> Matches(f, obj, a, s, i, j) || Matches(f, obj, b, s, i, j)
  {
  }

  lemma AtBoundary(f: Flavour, obj: Object, s: string, i: nat)
    requires i <= |s|
    ensures Matches(f, obj, Boundary, s, i, i) <==> WordAt(f, s, i - 1) != WordAt(f, s, i)
  {
  }

  lemma AgentsAreLower()
    ensures Lower("reader") && Lower("loader") && Lower("consumer")
  {
  }

  lemma AgentIsWords(f: Flavour, obj: Object, s: string, i: nat, j: nat)
    requires Sane(f) && Matches(f, obj, AGENT, s, i, j)
    ensures i < j && WordAt(f, s, j - 1)
  {
    var reader, loader, consumer := Text("reader"), Text("loader"), Text("consumer");
    assert AGENT == Or(reader, Or(loader, consumer));
    hide *;
    AgentsAreLower();
    Either(f, obj, reader, Or(loader, consumer), s, i, j);
    Either(f, obj, loader, consumer, s, i, j);
    if Matches(f, obj, reader, s, i, j) {
      TextIsWords(f, obj, "reader", s, i, j);
    } else if Matches(f, obj, loader, s, i, j) {
      TextIsWords(f, obj, "loader", s, i, j);
    } else {
      TextIsWords(f, obj, "consumer", s, i, j);
    }
  }

  lemma NoIsWord(f: Flavour, obj: Object, s: string, i: nat, j: nat)
    requires Sane(f) && Matches(f, obj, Text("no"), s, i, j)
    ensures i < j <= |s| && WordAt(f, s, i)
  {
    TextIsWords(f, obj, "no", s, i, j);
  }

  /** `no <agent>` starts and ends inside words. */
  lemma NoAgentIsWords(f: Flavour, obj: Object, s: string, i: nat, j: nat)
    requires Sane(f) && Matches(f, obj, NO_AGENT, s, i, j)
    ensures i < j <= |s| && WordAt(f, s, i) && WordAt(f, s, j - 1)
  {
    var no := Text("no");
    assert NO_AGENT == Cat(no, Cat(SPACES, AGENT));
    hide *;
    var k := Split(f, obj, no, Cat(SPACES, AGENT), s, i, j);
    var n := Split(f, obj, SPACES, AGENT, s, k, j);
    NoIsWord(f, obj, s, i, k);
    AgentIsWords(f, obj, s, n, j);
  }

  // -- Each pattern contains the pre-filter's ----------------------------------------------------

  /** The pre-filter admits the text. */
  predicate Admitted(f: Flavour, obj: Object, s: string) {
    Found(f, obj, ANY_CLAIM, s)
  }

  const NO_AGENT_CLAIM := Cat(Boundary, Cat(NO_AGENT, Boundary))

  lemma Admits(f: Flavour, obj: Object, s: string, i: nat, j: nat)
    requires i <= j <= |s|
    requires || Matches(f, obj, NEGATED_LIVENESS, s, i, j) || Matches(f, obj, NO_AGENT_CLAIM, s, i, j)
             || Matches(f, obj, IS_UNREAD, s, i, j) || Matches(f, obj, UNSCOPED, s, i, j)
    ensures Admitted(f, obj, s)
  {
    assert ANY_CLAIM == Or(NEGATED_LIVENESS, Or(NO_AGENT_CLAIM, Or(IS_UNREAD, UNSCOPED)));
    hide Matches, NEGATED_LIVENESS, NO_AGENT_CLAIM, IS_UNREAD, UNSCOPED;
    Either(f, obj, NEGATED_LIVENESS, Or(NO_AGENT_CLAIM, Or(IS_UNREAD, UNSCOPED)), s, i, j);
    Either(f, obj, NO_AGENT_CLAIM, Or(IS_UNREAD, UNSCOPED), s, i, j);
    Either(f, obj, IS_UNREAD, UNSCOPED, s, i, j);
  }

  /** `no <agent>` between word boundaries. */
  lemma NoAgentClaim(f: Flavour, obj: Object, s: string, i: nat, j: nat)
    requires Sane(f) && Matches(f, obj, NO_AGENT, s, i, j) && i <= j <= |s|
    requires Matches(f, obj, Boundary, s, i, i) && Matches(f, obj, Boundary, s, j, j)
    ensures Admitted(f, obj, s)
  {
    assert NO_AGENT_CLAIM == Cat(Boundary, Cat(NO_AGENT, Boundary));
    hide Matches, NO_AGENT, NO_AGENT_CLAIM, Sane, Admitted;
    Join(f, obj, NO_AGENT, Boundary, s, i, j, j);
    Join(f, obj, Boundary, Cat(NO_AGENT, Boundary), s, i, i, j);
    Admits(f, obj, s, i, j);
  }

  // -- The four alternatives, the pronoun and the unscoped form ----------------------------------

  lemma FirstAlternative(f: Flavour, obj: Object, rest: Re, s: string, i: nat, j: nat)
    requires Matches(f, obj, Cat(NEGATED_LIVENESS, rest), s, i, j)
    ensures Admitted(f, obj, s)
  {
    hide *;
    var k := Split(f, obj, NEGATED_LIVENESS, rest, s, i, j);
    Admits(f, obj, s, i, k);
  }

  /** `no <agent> of <object>`: the agent ends a word, because a space follows. */
  lemma SecondAlternative(f: Flavour, obj: Object, rest: Re, s: string, i: nat, j: nat)
    requires Sane(f) && Matches(f, obj, Cat(Boundary, Cat(NO_AGENT, Cat(SPACES, rest))), s, i, j)
    ensures Admitted(f, obj, s)
  {
    hide *;
    var k := Split(f, obj, Boundary, Cat(NO_AGENT, Cat(SPACES, rest)), s, i, j);
    BoundaryStays(f, obj, s, i, k);
    var n := Split(f, obj, NO_AGENT, Cat(SPACES, rest), s, i, j);
    var m := Split(f, obj, SPACES, rest, s, n, j);
    NoAgentIsWords(f, obj, s, i, n);
    SpacesMatch(f, obj, s, n, m);
    AtBoundary(f, obj, s, n);
    NoAgentClaim(f, obj, s, i, n);
  }

  lemma BoundaryStays(f: Flavour, obj: Object, s: string, i: nat, k: nat)
    requires Matches(f, obj, Boundary, s, i, k)
    ensures i == k
  {
  }

  /** `<object> ... is unread`. */
  lemma ThirdAlternative(f: Flavour, obj: Object, before: Re, gap: Re, s: string, i: nat, j: nat)
    requires Matches(f, obj, Cat(before, Cat(gap, IS_UNREAD)), s, i, j)
    ensures Admitted(f, obj, s)
  {
    hide *;
    var k := Split(f, obj, before, Cat(gap, IS_UNREAD), s, i, j);
    var n := Split(f, obj, gap, IS_UNREAD, s, k, j);
    Admits(f, obj, s, n, j);
  }

  /** `<object> ... has no <agent>`: the `no` starts a word, because a space comes before it. */
  lemma FourthAlternative(f: Flavour, obj: Object, before: Re, s: string, i: nat, j: nat)
    requires Sane(f) && Matches(f, obj, Cat(before, Cat(SPACES, Cat(NO_AGENT, Boundary))), s, i, j)
    ensures Admitted(f, obj, s)
  {
    hide *;
    var k := Split(f, obj, before, Cat(SPACES, Cat(NO_AGENT, Boundary)), s, i, j);
    var n := Split(f, obj, SPACES, Cat(NO_AGENT, Boundary), s, k, j);
    var m := Split(f, obj, NO_AGENT, Boundary, s, n, j);
    BoundaryStays(f, obj, s, m, j);
    SpacesMatch(f, obj, s, k, n);
    NoAgentIsWords(f, obj, s, n, m);
    AtBoundary(f, obj, s, n);
    NoAgentClaim(f, obj, s, n, m);
  }

  /** Concatenation associates. */
  lemma Regroup(f: Flavour, obj: Object, a: Re, b: Re, c: Re, s: string, i: nat, j: nat)
    requires Matches(f, obj, Cat(a, Cat(b, c)), s, i, j)
    ensures Matches(f, obj, Cat(Cat(a, b), c), s, i, j)
  {
    hide *;
    var k := Split(f, obj, a, Cat(b, c), s, i, j);
    var n := Split(f, obj, b, c, s, k, j);
    Join(f, obj, a, b, s, i, k, n);
    Join(f, obj, Cat(a, b), c, s, i, n, j);
  }

  lemma NamedShape() returns (a: Re, b: Re, has: Re)
    ensures NAMED == Or(Cat(NEGATED_LIVENESS, a),
                        Or(Cat(Boundary, Cat(NO_AGENT, Cat(SPACES, b))),
                           Or(Cat(Hole, Cat(Within(40), IS_UNREAD)),
                              Cat(Hole, Cat(Within(40), Cat(Boundary, Cat(has, Cat(SPACES, Cat(NO_AGENT, Boundary)))))))))
  {
    has := Text("has");
    a := Cat(ANY_SPACES, Cat(Optional(Cat(Text("back"), SPACES)), Hole));
    b := Cat(Or(Text("of"), Text("for")), Cat(SPACES, Hole));
  }

  /** Every match of the named form contains a match of the pre-filter, whatever the object's pattern. */
  lemma NamedAdmits(f: Flavour, obj: Object, s: string, i: nat, j: nat)
    requires Sane(f) && Matches(f, obj, NAMED, s, i, j)
    ensures Admitted(f, obj, s)
  {
    hide *;
    var a, b, has := NamedShape();
    var first, second := Cat(NEGATED_LIVENESS, a), Cat(Boundary, Cat(NO_AGENT, Cat(SPACES, b)));
    var third, tail := Cat(Hole, Cat(Within(40), IS_UNREAD)), Cat(SPACES, Cat(NO_AGENT, Boundary));
    var fourth := Cat(Hole, Cat(Within(40), Cat(Boundary, Cat(has, tail))));
    Either(f, obj, first, Or(second, Or(third, fourth)), s, i, j);
    Either(f, obj, second, Or(third, fourth), s, i, j);
    Either(f, obj, third, fourth, s, i, j);
    if Matches(f, obj, first, s, i, j) {
      FirstAlternative(f, obj, a, s, i, j);
    } else if Matches(f, obj, second, s, i, j) {
      SecondAlternative(f, obj, b, s, i, j);
    } else if Matches(f, obj, third, s, i, j) {
      ThirdAlternative(f, obj, Hole, Within(40), s, i, j);
    } else {
      HasNoAgent(f, obj, has, s, i, j);
    }
  }

  lemma HasNoAgent(f: Flavour, obj: Object, has: Re, s: string, i: nat, j: nat)
    requires Sane(f)
    requires Matches(f, obj, Cat(Hole, Cat(Within(40), Cat(Boundary, Cat(has, Cat(SPACES, Cat(NO_AGENT, Boundary)))))), s, i, j)
    ensures Admitted(f, obj, s)
  {
    hide *;
    var tail := Cat(SPACES, Cat(NO_AGENT, Boundary));
    var k := Split(f, obj, Hole, Cat(Within(40), Cat(Boundary, Cat(has, tail))), s, i, j);
    var n := Split(f, obj, Within(40), Cat(Boundary, Cat(has, tail)), s, k, j);
    Regroup(f, obj, Boundary, has, tail, s, n, j);
    FourthAlternative(f, obj, Cat(Boundary, has), s, n, j);
  }

  /** A sentence any pattern matches is one the pre-filter admits. */
  lemma ShapeAdmits(f: Flavour, obj: Object, shape: Shape, s: string)
    requires Sane(f) && Found(f, obj, PatternOf(shape), s)
    ensures Admitted(f, obj, s)
  {
    var i: nat, j: nat :| i <= j <= |s| && Matches(f, obj, PatternOf(shape), s, i, j);
    assert PRONOUN == Cat(NEGATED_LIVENESS, Cat(SPACES, Cat(Text("it"), Boundary)));
    hide Found, Matches, Sane, Admitted, NAMED, PRONOUN, UNSCOPED, NEGATED_LIVENESS;
    match shape
    case Named => NamedAdmits(f, obj, s, i, j);
    case Pronoun => FirstAlternative(f, obj, Cat(SPACES, Cat(Text("it"), Boundary)), s, i, j);
    case Unscoped => Admits(f, obj, s, i, j);
  }

  // -- The pre-filter names no object ------------------------------------------------------------

  predicate HoleFree(re: Re) {
    match re
    case Cat(a, b) => HoleFree(a) && HoleFree(b)
    case Or(a, b) => HoleFree(a) && HoleFree(b)
    case Hole => false
    case _ => true
  }

  lemma {:induction false} ObjectIsIdle(f: Flavour, obj: Object, other: Object, re: Re, s: string, i: nat, j: nat)
    requires HoleFree(re) && Matches(f, obj, re, s, i, j)
    ensures Matches(f, other, re, s, i, j)
    decreases re
  {
    match re
    case Cat(a, b) =>
      var k := Split(f, obj, a, b, s, i, j);
      ObjectIsIdle(f, obj, other, a, s, i, k);
      ObjectIsIdle(f, obj, other, b, s, k, j);
    case Or(a, b) =>
      if Matches(f, obj, a, s, i, j) {
        ObjectIsIdle(f, obj, other, a, s, i, j);
      } else {
        ObjectIsIdle(f, obj, other, b, s, i, j);
      }
    case _ =>
  }

  lemma {:induction false} TextHasNoHole(w: string)
    ensures HoleFree(Text(w))
  {
    if w != "" {
      TextHasNoHole(w[1..]);
    }
  }

  lemma VerbHasNoHole(stem: string)
    ensures HoleFree(Verb(stem))
  {
    TextHasNoHole(stem);
  }

  lemma NoOneHasNoHole(w: string)
    ensures HoleFree(NoOne(w))
  {
    TextHasNoHole("no");
    TextHasNoHole(w);
  }

  lemma NegationHasNoHole()
    ensures HoleFree(NEGATION)
  {
    TextHasNoHole("nothing");
    TextHasNoHole("nobody");
    TextHasNoHole("none");
    NoOneHasNoHole("one");
    NoOneHasNoHole("code");
    NoOneHasNoHole("module");
    hide Text, NoOne;
  }

  lemma LivenessHasNoHole()
    ensures HoleFree(LIVENESS)
  {
    VerbHasNoHole("read");
    VerbHasNoHole("open");
    VerbHasNoHole("load");
    VerbHasNoHole("consume");
    VerbHasNoHole("honour");
    VerbHasNoHole("honor");
    VerbHasNoHole("consult");
    TextHasNoHole("acts");
    TextHasNoHole("on");
    hide Text, Verb;
  }

  lemma NegatedHasNoHole()
    ensures HoleFree(NEGATED_LIVENESS)
  {
    NegationHasNoHole();
    LivenessHasNoHole();
    var end := Cat(LIVENESS, Boundary);
    var gap := Cat(Within(60), Cat(Boundary, end));
    assert NEGATED_LIVENESS == Cat(Boundary, Cat(NEGATION, Cat(Boundary, gap)));
    hide NEGATION, LIVENESS, NEGATED_LIVENESS;
    assert HoleFree(end) && HoleFree(Cat(Boundary, end)) && HoleFree(gap);
    assert HoleFree(Cat(Boundary, gap)) && HoleFree(Cat(NEGATION, Cat(Boundary, gap)));
  }

  lemma AgentHasNoHole()
    ensures HoleFree(Cat(Boundary, Cat(NO_AGENT, Boundary)))
  {
    TextHasNoHole("no");
    TextHasNoHole("reader");
    TextHasNoHole("loader");
    TextHasNoHole("consumer");
    hide Text;
  }

  lemma UnreadHasNoHole()
    ensures HoleFree(IS_UNREAD)
  {
    TextHasNoHole("is");
    TextHasNoHole("are");
    TextHasNoHole("still");
    TextHasNoHole("unread");
    hide Text;
  }

  lemma UnscopedHasNoHole()
    ensures HoleFree(UNSCOPED)
  {
    TextHasNoHole("no");
    TextHasNoHole("config");
    TextHasNoHole("uration");
    TextHasNoHole("surface");
    hide Text;
  }

  lemma PrefilterHasNoHole()
    ensures HoleFree(ANY_CLAIM)
  {
    NegatedHasNoHole();
    AgentHasNoHole();
    UnreadHasNoHole();
    UnscopedHasNoHole();
    var agent := Cat(Boundary, Cat(NO_AGENT, Boundary));
    assert ANY_CLAIM == Or(NEGATED_LIVENESS, Or(agent, Or(IS_UNREAD, UNSCOPED)));
    hide NEGATED_LIVENESS, NO_AGENT, IS_UNREAD, UNSCOPED, ANY_CLAIM;
    assert HoleFree(Or(IS_UNREAD, UNSCOPED)) && HoleFree(Or(agent, Or(IS_UNREAD, UNSCOPED)));
  }

  /**
   A sentence that any pattern of any object matches is one the pre-filter admits: what the pre-filter
   rejects, no pattern would have matched.
   */
  lemma PrefilterIsWider(f: Flavour, obj: Object, shape: Shape, s: string)
    requires Sane(f) && Found(f, obj, PatternOf(shape), s)
    ensures AnyClaim(f, s)
  {
    ShapeAdmits(f, obj, shape, s);
    PrefilterHasNoHole();
    hide PatternOf, ANY_CLAIM, HoleFree, Sane, Matches;
    var i: nat, j: nat :| i <= j <= |s| && Matches(f, obj, ANY_CLAIM, s, i, j);
    ObjectIsIdle(f, obj, (s, i, j) => false, ANY_CLAIM, s, i, j);
  }

  // -- The two sweeps ----------------------------------------------------------------------------

  lemma {:induction false} NoShape(f: Flavour, m: Member, shapes: seq<Shape>, s: string)
    requires Sane(f) && !AnyClaim(f, s)
    ensures FirstShape(f, m, shapes, s) == None
  {
    hide Found, AnyClaim, PatternOf, Sane;
    if shapes != [] {
      if Found(f, m.obj, PatternOf(shapes[0]), s) {
        PrefilterIsWider(f, m.obj, shapes[0], s);
      }
      NoShape(f, m, shapes[1..], s);
    }
  }

  lemma {:induction false} NobodyMatches(f: Flavour, members: seq<Member>, read: ClaimSurfaces.Sentence)
    requires Sane(f) && !AnyClaim(f, read.text)
    ensures MatchedBy(f, members, read) == []
  {
    hide FirstShape, AnyClaim, Sane;
    if members != [] {
      NobodyMatches(f, members[..|members| - 1], read);
      NoShape(f, members[|members| - 1], KeysFor(members[|members| - 1]), read.text);
    }
  }

  /** `sweep`: with its pre-filter it gives the rows it would give without. */
  method Sweep(f: Flavour, members: seq<Member>, all: seq<ClaimSurfaces.Sentence>, asRead: ClaimSurfaces.Sentence -> ClaimSurfaces.Sentence)
    returns (rows: seq<Row>)
    requires Sane(f)
    ensures rows == RowsOf(f, members, all, asRead)
  {
    hide MatchedBy, Referring, AnyClaim, Sane;
    rows := [];
    for n := 0 to |all|
      invariant rows == RowsOf(f, members, all[..n], asRead)
    {
      assert all[..n + 1][..n] == all[..n];
      var read := asRead(all[n]);
      if !AnyClaim(f, read.text) {
        NobodyMatches(f, Referring(members, read), read);
        continue;
      }
      var matched := Matching(f, Referring(members, read), read);
      if matched == [] {
        continue;
      }
      rows := rows + RowOf(matched, all[n]);
    }
    assert all[..|all|] == all;
  }

  // -- Why the object is grouped -----------------------------------------------------------------

  /** The fewest characters a pattern can match. */
  function Least(re: Re): nat {
    match re
    case Empty => 0
    case Letter(_) => 1
    case Many(_, least, _) => least
    case Boundary => 0
    case Cat(a, b) => Least(a) + Least(b)
    case Or(a, b) => if Least(a) < Least(b) then Least(a) else Least(b)
    case Hole => 0
  }

  lemma {:induction false} MatchesAreLong(f: Flavour, obj: Object, re: Re, s: string, i: nat, j: nat)
    requires Matches(f, obj, re, s, i, j)
    ensures j - i >= Least(re)
    decreases re
  {
    match re
    case Cat(a, b) =>
      var k := Split(f, obj, a, b, s, i, j);
      MatchesAreLong(f, obj, a, s, i, k);
      MatchesAreLong(f, obj, b, s, k, j);
    case Or(a, b) =>
      if Matches(f, obj, a, s, i, j) {
        MatchesAreLong(f, obj, a, s, i, j);
      } else {
        MatchesAreLong(f, obj, b, s, i, j);
      }
    case _ =>
  }

  lemma {:induction false} TextIsLong(w: string)
    ensures Least(Text(w)) == |w|
  {
    if w != "" {
      TextIsLong(w[1..]);
    }
  }

  lemma NegationIsLong()
    ensures Least(NEGATION) >= 4
  {
    TextIsLong("nothing");
    TextIsLong("nobody");
    TextIsLong("none");
    TextIsLong("no");
    TextIsLong("one");
    TextIsLong("code");
    TextIsLong("module");
    hide Text;
  }

  lemma LivenessIsLong()
    ensures Least(LIVENESS) >= 4
  {
    TextIsLong("read");
    TextIsLong("open");
    TextIsLong("load");
    TextIsLong("consume");
    TextIsLong("honour");
    TextIsLong("honor");
    TextIsLong("acts");
    TextIsLong("consult");
    hide Text;
  }

  lemma AgentIsLong()
    ensures Least(NO_AGENT) >= 8
  {
    TextIsLong("no");
    TextIsLong("reader");
    TextIsLong("loader");
    TextIsLong("consumer");
    hide Text;
    assert Least(AGENT) >= 6 && Least(SPACES) == 1;
    assert Least(Cat(SPACES, AGENT)) >= 7;
  }

  lemma LeastOf(a: Re, b: Re)
    ensures Least(Cat(a, b)) == Least(a) + Least(b)
    ensures Least(Or(a, b)) == if Least(a) < Least(b) then Least(a) else Least(b)
  {
  }

  lemma NegatedIsLong()
    ensures Least(NEGATED_LIVENESS) >= 8
  {
    hide *;
    NegationIsLong();
    LivenessIsLong();
    NegatedShape();
    var verb := Cat(Boundary, Cat(LIVENESS, Boundary));
    LeastOf(LIVENESS, Boundary);
    LeastOf(Boundary, Cat(LIVENESS, Boundary));
    LeastOf(Within(60), verb);
    LeastOf(Boundary, Cat(Within(60), verb));
    LeastOf(NEGATION, Cat(Boundary, Cat(Within(60), verb)));
    LeastOf(Boundary, Cat(NEGATION, Cat(Boundary, Cat(Within(60), verb))));
  }

  lemma NegatedShape()
    ensures NEGATED_LIVENESS
            == Cat(Boundary, Cat(NEGATION, Cat(Boundary, Cat(Within(60), Cat(Boundary, Cat(LIVENESS, Boundary))))))
  {
    hide NEGATION, LIVENESS;
  }

  lemma UnreadIsLong()
    ensures Least(IS_UNREAD) >= 8 && Least(UNSCOPED) >= 8
  {
    TextIsLong("no");
    TextIsLong("is");
    TextIsLong("are");
    TextIsLong("unread");
    TextIsLong("config");
    hide Text;
  }

  /** No text of fewer than eight characters is a claim. */
  lemma ClaimsAreLong()
    ensures Least(ANY_CLAIM) >= 8
  {
    hide *;
    NegatedIsLong();
    AgentIsLong();
    UnreadIsLong();
    ClaimShape();
    var agent := Cat(Boundary, Cat(NO_AGENT, Boundary));
    LeastOf(NO_AGENT, Boundary);
    LeastOf(Boundary, Cat(NO_AGENT, Boundary));
    LeastOf(IS_UNREAD, UNSCOPED);
    LeastOf(agent, Or(IS_UNREAD, UNSCOPED));
    LeastOf(NEGATED_LIVENESS, Or(agent, Or(IS_UNREAD, UNSCOPED)));
  }

  lemma ClaimShape()
    ensures ANY_CLAIM == Or(NEGATED_LIVENESS, Or(Cat(Boundary, Cat(NO_AGENT, Boundary)), Or(IS_UNREAD, UNSCOPED)))
  {
    hide Text, NEGATION, LIVENESS, NEGATED_LIVENESS, NO_AGENT, IS_UNREAD, UNSCOPED;
  }

  lemma {:induction false} TextFindsItself(f: Flavour, obj: Object, w: string, s: string, i: nat)
    requires i + |w| <= |s| && s[i..i + |w|] == w && forall k :: 0 <= k < |w| ==> f.same(w[k], w[k])
    ensures Matches(f, obj, Text(w), s, i, i + |w|)
  {
    if w != "" {
      assert s[i] == s[i..i + |w|][0] && s[i + 1..i + 1 + |w[1..]|] == s[i..i + |w|][1..];
      TextFindsItself(f, obj, w[1..], s, i + 1);
      assert Matches(f, obj, Letter(w[0]), s, i, i + 1);
    }
  }

  /**
   `_NEGATED_LIVENESS_TEMPLATE` with `p|q` put in for the object without a group: every place it stands
   splits the alternative it stands in.
   */
  function Ungrouped(p: Re, q: Re): Re {
    Or(Cat(NEGATED_LIVENESS, Cat(ANY_SPACES, Cat(Optional(Cat(Text("back"), SPACES)), p))),
       Or(q,
          Or(Cat(Boundary, Cat(NO_AGENT, Cat(SPACES, Cat(Or(Text("of"), Text("for")), Cat(SPACES, p))))),
             Or(q,
                Or(p,
                   Or(Cat(q, Cat(Within(40), IS_UNREAD)),
                      Or(p, Cat(q, Cat(Within(40), Cat(Boundary, Cat(Text("has"), Cat(SPACES, Cat(NO_AGENT, Boundary)))))))))))))
  }

  lemma SecondOfThree(f: Flavour, obj: Object, a: Re, b: Re, c: Re, s: string, i: nat, j: nat)
    requires Matches(f, obj, b, s, i, j)
    ensures Matches(f, obj, Or(a, Or(b, c)), s, i, j)
  {
    Either(f, obj, b, c, s, i, j);
    Either(f, obj, a, Or(b, c), s, i, j);
  }

  /**
   Without the group an object's second spelling, alone, would be a claim; and a spelling shorter than
   any claim is one the pre-filter rejects. So the filter would change the result.
   */
  lemma UngroupedEscapes(f: Flavour, p: Re, spelling: string)
    requires |spelling| < 8 && forall k :: 0 <= k < |spelling| ==> f.same(spelling[k], spelling[k])
    ensures Found(f, (s, i, j) => false, Ungrouped(p, Text(spelling)), spelling) && !AnyClaim(f, spelling)
  {
    var obj: Object := (s, i, j) => false;
    var s, q := spelling, Text(spelling);
    TextFindsItself(f, obj, spelling, s, 0);
    var Or(first, Or(second, rest)) := Ungrouped(p, q);
    SecondOfThree(f, obj, first, q, rest, s, 0, |s|);
    ClaimsAreLong();
    hide ANY_CLAIM, Matches, Least, Text;
    forall i: nat, j: nat | i <= j <= |s|
      ensures !Matches(f, obj, ANY_CLAIM, s, i, j)
    {
      if Matches(f, obj, ANY_CLAIM, s, i, j) {
        MatchesAreLong(f, obj, ANY_CLAIM, s, i, j);
      }
    }
  }
}
