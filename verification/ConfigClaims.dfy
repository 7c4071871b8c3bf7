/**
 Claims that nothing reads a config object, and the pre-filter in front of the per-object patterns
 (tools/audit/config_object_claims.py).
 */
module ConfigClaims {
  import opened PyText
  import ClaimSurfaces

  // -- Patterns ----------------------------------------------------------------------------------

  /** What `re` decides for us: which characters a letter matches without regard to case, and `\w`. */
  datatype Flavour = Flavour(same: (char, char) -> bool, word: char -> bool)

  datatype Class = Blank | NotStop

  /** The constructs the claim templates use; `Hole` is the grammatical object, any pattern at all. */
  datatype Re =
    | Empty
    | Letter(c: char)
    | Many(of: Class, least: nat, most: Option<nat>)
    | Boundary
    | Cat(first: Re, second: Re)
    | Or(left: Re, right: Re)
    | Hole

  type Object = (string, nat, nat) -> bool

  predicate InClass(of: Class, c: char) {
    match of
    case Blank => IsSpace(c)
    case NotStop => c != '.' && c != ';'
  }

  predicate WordAt(f: Flavour, s: string, i: int) {
    0 <= i < |s| && f.word(s[i])
  }

  /** `re` matches `s` from `i` to `j`. */
  predicate Matches(f: Flavour, obj: Object, re: Re, s: string, i: nat, j: nat)
    decreases re
  {
    && i <= j <= |s|
    && match re
       case Empty => i == j
       case Letter(c) => j == i + 1 && f.same(c, s[i])
       case Many(of, least, most) =>
         && least <= j - i && (most.Some? ==> j - i <= most.value)
         && forall k :: i <= k < j ==> InClass(of, s[k])
       case Boundary => i == j && WordAt(f, s, i - 1) != WordAt(f, s, i)
       case Cat(a, b) => exists k: nat :: i <= k <= j && Matches(f, obj, a, s, i, k) && Matches(f, obj, b, s, k, j)
       case Or(a, b) => Matches(f, obj, a, s, i, j) || Matches(f, obj, b, s, i, j)
       case Hole => obj(s, i, j)
  }

  /** `re.search`. */
  predicate Found(f: Flavour, obj: Object, re: Re, s: string) {
    exists i: nat, j: nat :: i <= j <= |s| && Matches(f, obj, re, s, i, j)
  }

  function Text(w: string): Re {
    if w == "" then Empty else Cat(Letter(w[0]), Text(w[1..]))
  }

  function Optional(re: Re): Re {
    Or(re, Empty)
  }

  const SPACES := Many(Blank, 1, None)
  const ANY_SPACES := Many(Blank, 0, None)

  function Within(most: nat): Re {
    Many(NotStop, 0, Some(most))
  }

  function NoOne(w: string): Re {
    Cat(Text("no"), Cat(SPACES, Text(w)))
  }

  /** `_NEGATION`. */
  const NEGATION := Or(Text("nothing"), Or(Text("nobody"), Or(Text("none"), Or(NoOne("one"), Or(NoOne("code"), NoOne("module"))))))

  function Verb(stem: string): Re {
    Cat(Text(stem), Optional(Letter('s')))
  }

  /** `_LIVENESS`. */
  const LIVENESS :=
    Or(Verb("read"), Or(Verb("open"), Or(Verb("load"), Or(Verb("consume"), Or(Verb("honour"), Or(Verb("honor"),
       Or(Cat(Text("acts"), Cat(SPACES, Text("on"))), Verb("consult"))))))))

  const NEGATED_LIVENESS := Cat(Boundary, Cat(NEGATION, Cat(Boundary, Cat(Within(60), Cat(Boundary, Cat(LIVENESS, Boundary))))))

  const AGENT := Or(Text("reader"), Or(Text("loader"), Text("consumer")))
  const NO_AGENT := Cat(Text("no"), Cat(SPACES, AGENT))

  const IS_UNREAD :=
    Cat(Boundary, Cat(Or(Text("is"), Text("are")),
                      Cat(SPACES, Cat(Optional(Cat(Text("still"), SPACES)), Cat(Text("unread"), Boundary)))))

  /** `_NEGATED_LIVENESS_TEMPLATE`, its four alternatives. */
  const NAMED :=
    Or(Cat(NEGATED_LIVENESS, Cat(ANY_SPACES, Cat(Optional(Cat(Text("back"), SPACES)), Hole))),
       Or(Cat(Boundary, Cat(NO_AGENT, Cat(SPACES, Cat(Or(Text("of"), Text("for")), Cat(SPACES, Hole))))),
          Or(Cat(Hole, Cat(Within(40), IS_UNREAD)),
             Cat(Hole, Cat(Within(40), Cat(Boundary, Cat(Text("has"), Cat(SPACES, Cat(NO_AGENT, Boundary)))))))))

  /** `_PRONOUN_TEMPLATE`. */
  const PRONOUN := Cat(NEGATED_LIVENESS, Cat(SPACES, Cat(Text("it"), Boundary)))

  /** `_UNSCOPED_TEMPLATE`. */
  const UNSCOPED :=
    Cat(Boundary, Cat(Text("no"), Cat(SPACES, Cat(Text("config"), Cat(Optional(Text("uration")),
        Cat(SPACES, Cat(Text("surface"), Boundary)))))))

  /** `_ANY_CLAIM`. */
  const ANY_CLAIM := Or(NEGATED_LIVENESS, Or(Cat(Boundary, Cat(NO_AGENT, Boundary)), Or(IS_UNREAD, UNSCOPED)))

  /** Letters are word characters in either case and whitespace is not, as Unicode has it. */
  ghost predicate Sane(f: Flavour) {
    && (forall c, d :: 'a' <= c <= 'z' && f.same(c, d) ==> f.word(d))
    && (forall c :: IsSpace(c) ==> !f.word(c))
  }

  // -- The sweep ---------------------------------------------------------------------------------

  datatype Kind = FileObject | KeyObject | ReadKey

  datatype Shape = Named | Pronoun | Unscoped

  /** A watched object: whether a block names it, whether a file is its home, and its spellings as an object. */
  datatype Member = Member(name: string, kind: Kind, named: ClaimSurfaces.Sentence -> bool, home: ClaimSurfaces.Sentence -> bool, obj: Object)

  function PatternOf(shape: Shape): Re {
    match shape
    case Named => NAMED
    case Pronoun => PRONOUN
    case Unscoped => UNSCOPED
  }

  /** `_keys_for`. */
  function KeysFor(m: Member): seq<Shape> {
    if m.kind == ReadKey then [Named] else [Named, Pronoun, Unscoped]
  }

  /** The first of the shapes found. */
  function FirstShape(f: Flavour, m: Member, shapes: seq<Shape>, s: string): Option<Shape> {
    if shapes == [] then None
    else if Found(f, m.obj, PatternOf(shapes[0]), s) then Some(shapes[0])
    else FirstShape(f, m, shapes[1..], s)
  }

  function Picked(members: seq<Member>, read: ClaimSurfaces.Sentence, named: bool): seq<Member> {
    if members == [] then []
    else
      Picked(members[..|members| - 1], read, named)
      + if (if named then members[|members| - 1].named(read)
            else !members[|members| - 1].named(read) && members[|members| - 1].home(read))
        then [members[|members| - 1]] else []
  }

  /** `_referring`: the members the block names, then those whose home it is. */
  function Referring(members: seq<Member>, read: ClaimSurfaces.Sentence): seq<Member> {
    Picked(members, read, true) + Picked(members, read, false)
  }

  /** The members a claim in the sentence is about, each with its shape. */
  function MatchedBy(f: Flavour, members: seq<Member>, read: ClaimSurfaces.Sentence): (r: seq<(Member, Shape)>) {
    if members == [] then []
    else
      var last := members[|members| - 1];
      var shape := FirstShape(f, last, KeysFor(last), read.text);
      MatchedBy(f, members[..|members| - 1], read) + if shape.Some? then [(last, shape.value)] else []
  }

  datatype Row = Row(objects: set<string>, shape: Shape, kinds: set<Kind>, sentence: ClaimSurfaces.Sentence)

  function RowOf(matched: seq<(Member, Shape)>, sentence: ClaimSurfaces.Sentence): seq<Row> {
    if matched == [] then []
    else
      [Row(set k | 0 <= k < |matched| :: matched[k].0.name, matched[0].1,
           set k | 0 <= k < |matched| :: matched[k].0.kind, sentence)]
  }

  /** The rows of a sweep that runs every pattern on every sentence. */
  function RowsOf(f: Flavour, members: seq<Member>, all: seq<ClaimSurfaces.Sentence>, asRead: ClaimSurfaces.Sentence -> ClaimSurfaces.Sentence): seq<Row> {
    if all == [] then []
    else
      var last := all[|all| - 1];
      RowsOf(f, members, all[..|all| - 1], asRead) + RowOf(MatchedBy(f, Referring(members, asRead(last)), asRead(last)), last)
  }

  /** The loop over a member's keys. */
  method FirstFound(f: Flavour, m: Member, s: string) returns (r: Option<Shape>)
    ensures r == FirstShape(f, m, KeysFor(m), s)
  {
    hide Found, PatternOf;
    var shapes := KeysFor(m);
    for k := 0 to |shapes|
      invariant FirstShape(f, m, shapes, s) == FirstShape(f, m, shapes[k..], s)
    {
      if Found(f, m.obj, PatternOf(shapes[k]), s) {
        return Some(shapes[k]);
      }
    }
    return None;
  }

  /** The pre-filter, which names no object. */
  predicate AnyClaim(f: Flavour, s: string) {
    Found(f, (s, i, j) => false, ANY_CLAIM, s)
  }

  /** The loop over the members a block refers to. */
  method Matching(f: Flavour, members: seq<Member>, read: ClaimSurfaces.Sentence) returns (matched: seq<(Member, Shape)>)
    ensures matched == MatchedBy(f, members, read)
  {
    hide FirstShape, KeysFor;
    matched := [];
    for k := 0 to |members|
      invariant matched == MatchedBy(f, members[..k], read)
    {
      assert members[..k + 1][..k] == members[..k];
      var shape := FirstFound(f, members[k], read.text);
      if shape.Some? {
        matched := matched + [(members[k], shape.value)];
      }
    }
    assert members[..|members|] == members;
  }
}
