/** What the claim templates match, word by word (tools/audit/config_object_claims.py). */
module ConfigWordsLaws {
  import opened PyText
  import opened ConfigClaims
  import ConfigClaimsLaws

  // -- Words and what stands between them --------------------------------------------------------

  /** From `i` to `j` stands the word, its letters in either case. */
  predicate Spells(f: Flavour, s: string, i: nat, j: nat, w: string) {
    i <= j <= |s| && j - i == |w| && forall k :: 0 <= k < |w| ==> f.same(w[k], s[i + k])
  }

  predicate SpellsOne(f: Flavour, s: string, i: nat, j: nat, words: set<string>) {
    exists w :: w in words && Spells(f, s, i, j, w)
  }

  /** Whitespace, some at least. */
  predicate Gap(s: string, i: nat, j: nat) {
    i < j && Room(s, i, j)
  }

  /** Whitespace, perhaps none. */
  predicate Room(s: string, i: nat, j: nat) {
    i <= j <= |s| && forall k :: i <= k < j ==> IsSpace(s[k])
  }

  /** At most `most` characters and no full stop or semicolon. */
  predicate Clause(s: string, i: nat, j: nat, most: nat) {
    i <= j <= |s| && j - i <= most && forall k :: i <= k < j ==> s[k] !in {'.', ';'}
  }

  /** A word starts or ends at `i`. */
  predicate Edge(f: Flavour, s: string, i: nat) {
    WordAt(f, s, i - 1) != WordAt(f, s, i)
  }

  /** The watched object. */
  predicate Thing(obj: Object, s: string, i: nat, j: nat) {
    i <= j <= |s| && obj(s, i, j)
  }

  // -- Pieces of patterns ------------------------------------------------------------------------

  /** A concatenation matches where its parts do, one behind the other. */
  lemma CatIff(f: Flavour, obj: Object, a: Re, b: Re, s: string, i: nat, j: nat)
    ensures Matches(f, obj, Cat(a, b), s, i, j) ==>
              exists k: nat :: i <= k <= j <= |s| && Matches(f, obj, a, s, i, k) && Matches(f, obj, b, s, k, j)
    ensures forall k: nat :: i <= k <= j <= |s| && Matches(f, obj, a, s, i, k) && Matches(f, obj, b, s, k, j) ==>
              Matches(f, obj, Cat(a, b), s, i, j)
  {
    if Matches(f, obj, Cat(a, b), s, i, j) {
      var k := ConfigClaimsLaws.Split(f, obj, a, b, s, i, j);
    }
    forall k: nat | i <= k <= j <= |s| && Matches(f, obj, a, s, i, k) && Matches(f, obj, b, s, k, j)
      ensures Matches(f, obj, Cat(a, b), s, i, j)
    {
      ConfigClaimsLaws.Join(f, obj, a, b, s, i, k, j);
    }
  }

  lemma Bounds(f: Flavour, obj: Object, re: Re, s: string, i: nat, j: nat)
    requires Matches(f, obj, re, s, i, j)
    ensures i <= j <= |s|
  {
  }

  lemma EdgeFirst(f: Flavour, obj: Object, re: Re, s: string, i: nat, j: nat)
    ensures Matches(f, obj, Cat(Boundary, re), s, i, j) <==> Edge(f, s, i) && Matches(f, obj, re, s, i, j)
  {
    CatIff(f, obj, Boundary, re, s, i, j);
    forall k: nat
      ensures Matches(f, obj, Boundary, s, i, k) <==> k == i <= |s| && Edge(f, s, i)
    {
    }
    if Matches(f, obj, re, s, i, j) {
      Bounds(f, obj, re, s, i, j);
    }
    hide Matches;
  }

  lemma EdgeLast(f: Flavour, obj: Object, re: Re, s: string, i: nat, j: nat)
    ensures Matches(f, obj, Cat(re, Boundary), s, i, j) <==> Edge(f, s, j) && Matches(f, obj, re, s, i, j)
  {
    CatIff(f, obj, re, Boundary, s, i, j);
    forall k: nat
      ensures Matches(f, obj, Boundary, s, k, j) <==> k == j <= |s| && Edge(f, s, j)
    {
    }
    if Matches(f, obj, re, s, i, j) {
      Bounds(f, obj, re, s, i, j);
    }
    hide Matches;
  }

  lemma {:induction false} TextIff(f: Flavour, obj: Object, w: string, s: string, i: nat, j: nat)
    ensures Matches(f, obj, Text(w), s, i, j) <==> Spells(f, s, i, j, w)
    decreases |w|
  {
    if w != "" {
      var rest := w[1..];
      if i + 1 <= j <= |s| {
        TextIff(f, obj, rest, s, i + 1, j);
      }
      LetterThen(f, obj, w[0], Text(rest), s, i, j);
      SpellsOn(f, s, i, j, w);
      hide Matches, Spells;
    }
  }

  lemma LetterThen(f: Flavour, obj: Object, c: char, re: Re, s: string, i: nat, j: nat)
    ensures Matches(f, obj, Cat(Letter(c), re), s, i, j)
            <==> i + 1 <= j <= |s| && f.same(c, s[i]) && Matches(f, obj, re, s, i + 1, j)
  {
    CatIff(f, obj, Letter(c), re, s, i, j);
    forall k: nat
      ensures Matches(f, obj, Letter(c), s, i, k) <==> k == i + 1 <= |s| && f.same(c, s[i])
    {
    }
    hide Matches;
  }

  lemma SpellsOn(f: Flavour, s: string, i: nat, j: nat, w: string)
    requires w != ""
    ensures Spells(f, s, i, j, w) <==> i + 1 <= j <= |s| && f.same(w[0], s[i]) && Spells(f, s, i + 1, j, w[1..])
  {
    if i + 1 <= j <= |s| && f.same(w[0], s[i]) && Spells(f, s, i + 1, j, w[1..]) {
      forall k | 0 <= k < |w|
        ensures f.same(w[k], s[i + k])
      {
        if k > 0 {
          assert w[1..][k - 1] == w[k];
        }
      }
    }
    if Spells(f, s, i, j, w) {
      assert f.same(w[0], s[i + 0]);
      forall k | 0 <= k < |w[1..]|
        ensures f.same(w[1..][k], s[i + 1 + k])
      {
        assert w[1..][k] == w[k + 1] && s[i + (k + 1)] == s[i + 1 + k];
      }
    }
  }

  lemma SpacesIff(f: Flavour, obj: Object, s: string, i: nat, j: nat)
    ensures Matches(f, obj, SPACES, s, i, j) <==> Gap(s, i, j)
    ensures Matches(f, obj, ANY_SPACES, s, i, j) <==> Room(s, i, j)
  {
    hide IsSpace;
  }

  lemma WithinIff(f: Flavour, obj: Object, most: nat, s: string, i: nat, j: nat)
    ensures Matches(f, obj, Within(most), s, i, j) <==> Clause(s, i, j, most)
  {
  }

  lemma OneOf(f: Flavour, s: string, i: nat, j: nat, a: string, b: string)
    ensures SpellsOne(f, s, i, j, {a, b}) <==> Spells(f, s, i, j, a) || Spells(f, s, i, j, b)
  {
    hide Spells;
  }

  lemma OneOfThree(f: Flavour, s: string, i: nat, j: nat, a: string, b: string, c: string)
    ensures SpellsOne(f, s, i, j, {a, b, c})
            <==> Spells(f, s, i, j, a) || Spells(f, s, i, j, b) || Spells(f, s, i, j, c)
  {
    hide Spells;
  }

  lemma TwoWords(f: Flavour, obj: Object, a: string, b: string, s: string, i: nat, j: nat)
    ensures Matches(f, obj, Or(Text(a), Text(b)), s, i, j) <==> SpellsOne(f, s, i, j, {a, b})
  {
    hide *;
    ConfigClaimsLaws.Either(f, obj, Text(a), Text(b), s, i, j);
    TextIff(f, obj, a, s, i, j);
    TextIff(f, obj, b, s, i, j);
    OneOf(f, s, i, j, a, b);
  }

  lemma ThreeWords(f: Flavour, obj: Object, a: string, b: string, c: string, s: string, i: nat, j: nat)
    ensures Matches(f, obj, Or(Text(a), Or(Text(b), Text(c))), s, i, j) <==> SpellsOne(f, s, i, j, {a, b, c})
  {
    hide *;
    ConfigClaimsLaws.Either(f, obj, Text(a), Or(Text(b), Text(c)), s, i, j);
    ConfigClaimsLaws.Either(f, obj, Text(b), Text(c), s, i, j);
    TextIff(f, obj, a, s, i, j);
    TextIff(f, obj, b, s, i, j);
    TextIff(f, obj, c, s, i, j);
    OneOfThree(f, s, i, j, a, b, c);
  }

  // -- Negation, verbs and agents ----------------------------------------------------------------

  /** A word, whitespace, and something behind it. */
  ghost predicate WordThen(f: Flavour, s: string, i: nat, w: string, n: nat) {
    exists m: nat :: Spells(f, s, i, m, w) && Gap(s, m, n)
  }

  /** `no` and one of the words. */
  ghost predicate No(f: Flavour, s: string, i: nat, j: nat, words: set<string>) {
    exists n: nat :: WordThen(f, s, i, "no", n) && SpellsOne(f, s, n, j, words)
  }

  lemma WordThenIff(f: Flavour, obj: Object, w: string, re: Re, s: string, i: nat, j: nat)
    ensures Matches(f, obj, Cat(Text(w), Cat(SPACES, re)), s, i, j)
            <==> exists n: nat :: WordThen(f, s, i, w, n) && Matches(f, obj, re, s, n, j)
  {
    hide *;
    CatIff(f, obj, Text(w), Cat(SPACES, re), s, i, j);
    if Matches(f, obj, Cat(Text(w), Cat(SPACES, re)), s, i, j) {
      var m: nat :| i <= m <= j <= |s| && Matches(f, obj, Text(w), s, i, m) && Matches(f, obj, Cat(SPACES, re), s, m, j);
      TextIff(f, obj, w, s, i, m);
      CatIff(f, obj, SPACES, re, s, m, j);
      var n: nat :| m <= n <= j <= |s| && Matches(f, obj, SPACES, s, m, n) && Matches(f, obj, re, s, n, j);
      SpacesIff(f, obj, s, m, n);
      ThenWord(f, s, i, w, m, n);
    }
    if n: nat :| WordThen(f, s, i, w, n) && Matches(f, obj, re, s, n, j) {
      var m := WordOf(f, s, i, w, n);
      TextIff(f, obj, w, s, i, m);
      SpacesIff(f, obj, s, m, n);
      Bounds(f, obj, re, s, n, j);
      CatIff(f, obj, SPACES, re, s, m, j);
    }
  }

  lemma ThenWord(f: Flavour, s: string, i: nat, w: string, m: nat, n: nat)
    requires Spells(f, s, i, m, w) && Gap(s, m, n)
    ensures WordThen(f, s, i, w, n)
  {
  }

  lemma WordOf(f: Flavour, s: string, i: nat, w: string, n: nat) returns (m: nat)
    requires WordThen(f, s, i, w, n)
    ensures i <= m <= n <= |s| && Spells(f, s, i, m, w) && Gap(s, m, n)
  {
    hide IsSpace;
    m :| Spells(f, s, i, m, w) && Gap(s, m, n);
  }

  lemma NoIff(f: Flavour, obj: Object, words: set<string>, re: Re, s: string, i: nat, j: nat)
    requires forall n: nat :: Matches(f, obj, re, s, n, j) <==> SpellsOne(f, s, n, j, words)
    ensures Matches(f, obj, Cat(Text("no"), Cat(SPACES, re)), s, i, j) <==> No(f, s, i, j, words)
  {
    hide SpellsOne, Matches, WordThen, Text;
    WordThenIff(f, obj, "no", re, s, i, j);
  }

  lemma NoAgentMeans(f: Flavour, obj: Object, s: string, i: nat, j: nat)
    ensures Matches(f, obj, NO_AGENT, s, i, j) <==> No(f, s, i, j, {"reader", "loader", "consumer"})
  {
    var agent := Or(Text("reader"), Or(Text("loader"), Text("consumer")));
    assert NO_AGENT == Cat(Text("no"), Cat(SPACES, agent));
    hide *;
    forall n: nat
      ensures Matches(f, obj, agent, s, n, j) <==> SpellsOne(f, s, n, j, {"reader", "loader", "consumer"})
    {
      ThreeWords(f, obj, "reader", "loader", "consumer", s, n, j);
    }
    NoIff(f, obj, {"reader", "loader", "consumer"}, agent, s, i, j);
  }

  lemma NoOneIff(f: Flavour, obj: Object, w: string, s: string, i: nat, j: nat)
    ensures Matches(f, obj, NoOne(w), s, i, j) <==> No(f, s, i, j, {w})
  {
    assert NoOne(w) == Cat(Text("no"), Cat(SPACES, Text(w)));
    forall n: nat
      ensures Matches(f, obj, Text(w), s, n, j) <==> SpellsOne(f, s, n, j, {w})
    {
      TextIff(f, obj, w, s, n, j);
      hide Spells, Matches;
    }
    hide *;
    NoIff(f, obj, {w}, Text(w), s, i, j);
  }

  lemma NoneOfThree(f: Flavour, s: string, i: nat, j: nat, a: string, b: string, c: string)
    ensures No(f, s, i, j, {a, b, c}) <==> No(f, s, i, j, {a}) || No(f, s, i, j, {b}) || No(f, s, i, j, {c})
  {
    hide WordThen, Spells;
    forall n: nat
      ensures SpellsOne(f, s, n, j, {a, b, c})
              <==> SpellsOne(f, s, n, j, {a}) || SpellsOne(f, s, n, j, {b}) || SpellsOne(f, s, n, j, {c})
    {
      OneOfThree(f, s, n, j, a, b, c);
    }
    hide SpellsOne;
  }

  /** `nothing`, `nobody`, `none`, or `no` and `one`, `code` or `module`. */
  ghost predicate Negation(f: Flavour, s: string, i: nat, j: nat) {
    SpellsOne(f, s, i, j, {"nothing", "nobody", "none"}) || No(f, s, i, j, {"one", "code", "module"})
  }

  lemma SixWays(f: Flavour, obj: Object, a: Re, b: Re, c: Re, d: Re, e: Re, g: Re, s: string, i: nat, j: nat)
    ensures Matches(f, obj, Or(a, Or(b, Or(c, Or(d, Or(e, g))))), s, i, j)
            <==> Matches(f, obj, Or(a, Or(b, c)), s, i, j) || Matches(f, obj, d, s, i, j)
                 || Matches(f, obj, e, s, i, j) || Matches(f, obj, g, s, i, j)
  {
    hide *;
    ConfigClaimsLaws.Either(f, obj, a, Or(b, Or(c, Or(d, Or(e, g)))), s, i, j);
    ConfigClaimsLaws.Either(f, obj, b, Or(c, Or(d, Or(e, g))), s, i, j);
    ConfigClaimsLaws.Either(f, obj, c, Or(d, Or(e, g)), s, i, j);
    ConfigClaimsLaws.Either(f, obj, d, Or(e, g), s, i, j);
    ConfigClaimsLaws.Either(f, obj, e, g, s, i, j);
    ConfigClaimsLaws.Either(f, obj, a, Or(b, c), s, i, j);
    ConfigClaimsLaws.Either(f, obj, b, c, s, i, j);
  }

  lemma NegationMeans(f: Flavour, obj: Object, s: string, i: nat, j: nat)
    ensures Matches(f, obj, NEGATION, s, i, j) <==> Negation(f, s, i, j)
  {
    hide Text, NoOne, Matches, SpellsOne, No;
    SixWays(f, obj, Text("nothing"), Text("nobody"), Text("none"), NoOne("one"), NoOne("code"), NoOne("module"), s, i, j);
    ThreeWords(f, obj, "nothing", "nobody", "none", s, i, j);
    NoOneIff(f, obj, "one", s, i, j);
    NoOneIff(f, obj, "code", s, i, j);
    NoOneIff(f, obj, "module", s, i, j);
    NoneOfThree(f, s, i, j, "one", "code", "module");
  }

  /** A verb with or without its `s`. */
  predicate Inflected(f: Flavour, s: string, i: nat, j: nat, stems: set<string>) {
    exists w :: w in stems && (Spells(f, s, i, j, w) || Spells(f, s, i, j, w + "s"))
  }

  /** One of the verbs, or `acts on`. */
  ghost predicate Reads(f: Flavour, s: string, i: nat, j: nat) {
    || Inflected(f, s, i, j, {"read", "open", "load", "consume", "honour", "honor", "consult"})
    || exists n: nat :: WordThen(f, s, i, "acts", n) && Spells(f, s, n, j, "on")
  }

  lemma {:induction false} SpellsMore(f: Flavour, s: string, i: nat, k: nat, j: nat, w: string)
    requires i <= k <= j
    ensures Spells(f, s, i, k, w) && Spells(f, s, k, j, "s") ==> Spells(f, s, i, j, w + "s")
    ensures Spells(f, s, i, j, w + "s") && j == k + 1 ==> Spells(f, s, i, k, w) && Spells(f, s, k, j, "s")
  {
    var more := w + "s";
    if Spells(f, s, i, k, w) && Spells(f, s, k, j, "s") {
      forall n | 0 <= n < |more|
        ensures f.same(more[n], s[i + n])
      {
        if n == |w| {
          assert i + n == k + 0 && more[n] == "s"[0] && f.same("s"[0], s[k + 0]);
        }
      }
    }
    if Spells(f, s, i, j, more) && j == k + 1 {
      forall n | 0 <= n < |w|
        ensures f.same(w[n], s[i + n])
      {
        assert more[n] == w[n];
      }
      assert more[|w|] == "s"[0] && f.same(more[|w|], s[i + |w|]);
    }
  }

  lemma VerbIff(f: Flavour, obj: Object, stem: string, s: string, i: nat, j: nat)
    ensures Matches(f, obj, Verb(stem), s, i, j) <==> Spells(f, s, i, j, stem) || Spells(f, s, i, j, stem + "s")
  {
    var ending := Or(Letter('s'), Empty);
    assert Verb(stem) == Cat(Text(stem), ending);
    CatIff(f, obj, Text(stem), ending, s, i, j);
    forall k: nat
      ensures Matches(f, obj, ending, s, k, j) <==> k == j <= |s| || (k + 1 == j <= |s| && Spells(f, s, k, j, "s"))
    {
      LetterSpelt(f, obj, s, k, j);
    }
    forall k: nat
      ensures Matches(f, obj, Text(stem), s, i, k) <==> Spells(f, s, i, k, stem)
    {
      TextIff(f, obj, stem, s, i, k);
    }
    hide *;
    if Spells(f, s, i, j, stem + "s") {
      SpeltLength(f, s, i, j, stem + "s");
      SpellsMore(f, s, i, j - 1, j, stem);
      SpeltLength(f, s, i, j - 1, stem);
    }
    if Spells(f, s, i, j, stem) {
      SpeltLength(f, s, i, j, stem);
    }
    if k: nat :| i <= k <= j <= |s| && Matches(f, obj, Text(stem), s, i, k) && Matches(f, obj, ending, s, k, j) {
      SpellsMore(f, s, i, k, j, stem);
    }
  }

  lemma SpeltLength(f: Flavour, s: string, i: nat, j: nat, w: string)
    requires Spells(f, s, i, j, w)
    ensures i <= j <= |s| && j - i == |w|
  {
  }

  lemma LetterSpelt(f: Flavour, obj: Object, s: string, k: nat, j: nat)
    ensures Matches(f, obj, Or(Letter('s'), Empty), s, k, j)
            <==> k == j <= |s| || (k + 1 == j <= |s| && Spells(f, s, k, j, "s"))
  {
    if k + 1 == j <= |s| {
      assert "s"[0] == 's' && f.same("s"[0], s[k + 0]) == f.same('s', s[k]);
      assert f.same('s', s[k]) ==> forall n :: 0 <= n < |"s"| ==> f.same("s"[n], s[k + n]);
    }
  }

  lemma ActsOn(f: Flavour, obj: Object, s: string, i: nat, j: nat)
    ensures Matches(f, obj, Cat(Text("acts"), Cat(SPACES, Text("on"))), s, i, j)
            <==> exists n: nat :: WordThen(f, s, i, "acts", n) && Spells(f, s, n, j, "on")
  {
    hide *;
    WordThenIff(f, obj, "acts", Text("on"), s, i, j);
    forall n: nat
      ensures Matches(f, obj, Text("on"), s, n, j) <==> Spells(f, s, n, j, "on")
    {
      TextIff(f, obj, "on", s, n, j);
    }
  }

  lemma SevenStems(f: Flavour, s: string, i: nat, j: nat)
    ensures Inflected(f, s, i, j, {"read", "open", "load", "consume", "honour", "honor", "consult"})
            <==> || Stem(f, s, i, j, "read") || Stem(f, s, i, j, "open") || Stem(f, s, i, j, "load")
                 || Stem(f, s, i, j, "consume") || Stem(f, s, i, j, "honour") || Stem(f, s, i, j, "honor")
                 || Stem(f, s, i, j, "consult")
  {
    hide Spells;
    forall w: string
      ensures Stem(f, s, i, j, w) <==> Spells(f, s, i, j, w) || Spells(f, s, i, j, w + "s")
    {
    }
    hide Stem;
  }

  predicate Stem(f: Flavour, s: string, i: nat, j: nat, w: string) {
    Spells(f, s, i, j, w) || Spells(f, s, i, j, w + "s")
  }

  lemma StemIff(f: Flavour, obj: Object, w: string, s: string, i: nat, j: nat)
    ensures Matches(f, obj, Verb(w), s, i, j) <==> Stem(f, s, i, j, w)
  {
    VerbIff(f, obj, w, s, i, j);
    hide Matches, Spells;
  }

  lemma EightWays(f: Flavour, obj: Object, a: Re, b: Re, c: Re, d: Re, e: Re, g: Re, h: Re, v: Re, s: string, i: nat, j: nat)
    ensures Matches(f, obj, Or(a, Or(b, Or(c, Or(d, Or(e, Or(g, Or(h, v))))))), s, i, j)
            <==> || Matches(f, obj, a, s, i, j) || Matches(f, obj, b, s, i, j) || Matches(f, obj, c, s, i, j)
                 || Matches(f, obj, d, s, i, j) || Matches(f, obj, e, s, i, j) || Matches(f, obj, g, s, i, j)
                 || Matches(f, obj, h, s, i, j) || Matches(f, obj, v, s, i, j)
  {
    hide *;
    ConfigClaimsLaws.Either(f, obj, a, Or(b, Or(c, Or(d, Or(e, Or(g, Or(h, v)))))), s, i, j);
    ConfigClaimsLaws.Either(f, obj, b, Or(c, Or(d, Or(e, Or(g, Or(h, v))))), s, i, j);
    ConfigClaimsLaws.Either(f, obj, c, Or(d, Or(e, Or(g, Or(h, v)))), s, i, j);
    ConfigClaimsLaws.Either(f, obj, d, Or(e, Or(g, Or(h, v))), s, i, j);
    ConfigClaimsLaws.Either(f, obj, e, Or(g, Or(h, v)), s, i, j);
    ConfigClaimsLaws.Either(f, obj, g, Or(h, v), s, i, j);
    ConfigClaimsLaws.Either(f, obj, h, v, s, i, j);
  }

  lemma LivenessMeans(f: Flavour, obj: Object, s: string, i: nat, j: nat)
    ensures Matches(f, obj, LIVENESS, s, i, j) <==> Reads(f, s, i, j)
  {
    hide Text, Verb, Matches, Stem, Inflected, WordThen, Spells;
    EightWays(f, obj, Verb("read"), Verb("open"), Verb("load"), Verb("consume"), Verb("honour"), Verb("honor"),
              Cat(Text("acts"), Cat(SPACES, Text("on"))), Verb("consult"), s, i, j);
    StemIff(f, obj, "read", s, i, j);
    StemIff(f, obj, "open", s, i, j);
    StemIff(f, obj, "load", s, i, j);
    StemIff(f, obj, "consume", s, i, j);
    StemIff(f, obj, "honour", s, i, j);
    StemIff(f, obj, "honor", s, i, j);
    StemIff(f, obj, "consult", s, i, j);
    ActsOn(f, obj, s, i, j);
    SevenStems(f, s, i, j);
  }

  // -- The templates -----------------------------------------------------------------------------

  /** The negation is a word of its own, the verb another, with at most sixty characters of one clause between. */
  ghost predicate Denied(f: Flavour, s: string, i: nat, a: nat, b: nat, j: nat) {
    && Edge(f, s, i) && Negation(f, s, i, a) && Edge(f, s, a)
    && Clause(s, a, b, 60)
    && Edge(f, s, b) && Reads(f, s, b, j) && Edge(f, s, j)
  }

  /** Somebody is said not to read: a negation and a verb. */
  ghost predicate Denial(f: Flavour, s: string, i: nat, j: nat) {
    exists a: nat, b: nat :: Denied(f, s, i, a, b, j)
  }

  lemma VerbAlone(f: Flavour, obj: Object, s: string, b: nat, j: nat)
    ensures Matches(f, obj, Cat(Boundary, Cat(LIVENESS, Boundary)), s, b, j)
            <==> Edge(f, s, b) && Reads(f, s, b, j) && Edge(f, s, j)
  {
    hide *;
    EdgeFirst(f, obj, Cat(LIVENESS, Boundary), s, b, j);
    EdgeLast(f, obj, LIVENESS, s, b, j);
    LivenessMeans(f, obj, s, b, j);
  }

  lemma DenialShape()
    ensures NEGATED_LIVENESS
         == Cat(Boundary, Cat(NEGATION, Cat(Boundary, Cat(Within(60), Cat(Boundary, Cat(LIVENESS, Boundary))))))
  {
    hide NEGATION, LIVENESS, Within;
  }

  lemma DenialMeans(f: Flavour, obj: Object, s: string, i: nat, j: nat)
    ensures Matches(f, obj, NEGATED_LIVENESS, s, i, j) <==> Denial(f, s, i, j)
  {
    hide *;
    var verb := Cat(Boundary, Cat(LIVENESS, Boundary));
    var tail := Cat(Boundary, Cat(Within(60), verb));
    DenialShape();
    EdgeFirst(f, obj, Cat(NEGATION, tail), s, i, j);
    CatIff(f, obj, NEGATION, tail, s, i, j);
    if Matches(f, obj, NEGATED_LIVENESS, s, i, j) {
      var a: nat :| i <= a <= j <= |s| && Matches(f, obj, NEGATION, s, i, a) && Matches(f, obj, tail, s, a, j);
      NegationMeans(f, obj, s, i, a);
      EdgeFirst(f, obj, Cat(Within(60), verb), s, a, j);
      CatIff(f, obj, Within(60), verb, s, a, j);
      var b: nat :| a <= b <= j <= |s| && Matches(f, obj, Within(60), s, a, b) && Matches(f, obj, verb, s, b, j);
      WithinIff(f, obj, 60, s, a, b);
      VerbAlone(f, obj, s, b, j);
      DeniedBy(f, s, i, a, b, j);
    }
    if Denial(f, s, i, j) {
      var a, b := DeniedAt(f, s, i, j);
      NegationMeans(f, obj, s, i, a);
      WithinIff(f, obj, 60, s, a, b);
      VerbAlone(f, obj, s, b, j);
      Bounds(f, obj, verb, s, b, j);
      CatIff(f, obj, Within(60), verb, s, a, j);
      EdgeFirst(f, obj, Cat(Within(60), verb), s, a, j);
      Bounds(f, obj, NEGATION, s, i, a);
      Bounds(f, obj, tail, s, a, j);
    }
  }

  lemma DeniedBy(f: Flavour, s: string, i: nat, a: nat, b: nat, j: nat)
    requires Edge(f, s, i) && Negation(f, s, i, a) && Edge(f, s, a) && Clause(s, a, b, 60)
    requires Edge(f, s, b) && Reads(f, s, b, j) && Edge(f, s, j)
    ensures Denial(f, s, i, j)
  {
    hide Edge, Negation, Clause, Reads;
    assert Denied(f, s, i, a, b, j);
  }

  lemma DeniedAt(f: Flavour, s: string, i: nat, j: nat) returns (a: nat, b: nat)
    requires Denial(f, s, i, j)
    ensures Edge(f, s, i) && Negation(f, s, i, a) && Edge(f, s, a) && Clause(s, a, b, 60) && a <= b <= |s|
    ensures Edge(f, s, b) && Reads(f, s, b, j) && Edge(f, s, j)
  {
    hide Edge, Negation, Reads;
    a, b :| Denied(f, s, i, a, b, j);
  }

  /** `it` behind a denial: the pronoun shape. */
  ghost predicate PronounClaim(f: Flavour, s: string, i: nat, j: nat) {
    exists a: nat, b: nat :: Denial(f, s, i, a) && Gap(s, a, b) && Spells(f, s, b, j, "it") && Edge(f, s, j)
  }

  lemma PronounMeans(f: Flavour, obj: Object, s: string, i: nat, j: nat)
    ensures Matches(f, obj, PRONOUN, s, i, j) <==> PronounClaim(f, s, i, j)
  {
    var it := Cat(Text("it"), Boundary);
    assert PRONOUN == Cat(NEGATED_LIVENESS, Cat(SPACES, it)) by {
      hide NEGATED_LIVENESS, Text;
    }
    hide *;
    CatIff(f, obj, NEGATED_LIVENESS, Cat(SPACES, it), s, i, j);
    if Matches(f, obj, PRONOUN, s, i, j) {
      var a: nat :| i <= a <= j <= |s| && Matches(f, obj, NEGATED_LIVENESS, s, i, a) && Matches(f, obj, Cat(SPACES, it), s, a, j);
      DenialMeans(f, obj, s, i, a);
      CatIff(f, obj, SPACES, it, s, a, j);
      var b: nat :| a <= b <= j <= |s| && Matches(f, obj, SPACES, s, a, b) && Matches(f, obj, it, s, b, j);
      SpacesIff(f, obj, s, a, b);
      EdgeLast(f, obj, Text("it"), s, b, j);
      TextIff(f, obj, "it", s, b, j);
      PronounBy(f, s, i, a, b, j);
    }
    if PronounClaim(f, s, i, j) {
      var a, b := PronounAt(f, s, i, j);
      DenialMeans(f, obj, s, i, a);
      Bounds(f, obj, NEGATED_LIVENESS, s, i, a);
      SpacesIff(f, obj, s, a, b);
      Bounds(f, obj, SPACES, s, a, b);
      TextIff(f, obj, "it", s, b, j);
      EdgeLast(f, obj, Text("it"), s, b, j);
      Bounds(f, obj, it, s, b, j);
      CatIff(f, obj, SPACES, it, s, a, j);
    }
  }

  lemma PronounBy(f: Flavour, s: string, i: nat, a: nat, b: nat, j: nat)
    requires Denial(f, s, i, a) && Gap(s, a, b) && Spells(f, s, b, j, "it") && Edge(f, s, j)
    ensures PronounClaim(f, s, i, j)
  {
    hide Denial, Gap, Spells, Edge;
  }

  lemma PronounAt(f: Flavour, s: string, i: nat, j: nat) returns (a: nat, b: nat)
    requires PronounClaim(f, s, i, j)
    ensures Denial(f, s, i, a) && Gap(s, a, b) && Spells(f, s, b, j, "it") && Edge(f, s, j)
  {
    hide Denial, Gap, Spells, Edge;
    a, b :| Denial(f, s, i, a) && Gap(s, a, b) && Spells(f, s, b, j, "it") && Edge(f, s, j);
  }

  /** `no config surface`, or `no configuration surface`. */
  ghost predicate UnscopedClaim(f: Flavour, s: string, i: nat, j: nat) {
    && Edge(f, s, i) && Edge(f, s, j)
    && exists a: nat, b: nat :: WordThen(f, s, i, "no", a) && Surface(f, s, a, b) && Spells(f, s, b, j, "surface")
  }

  /** `config` or `configuration`, and whitespace. */
  ghost predicate Surface(f: Flavour, s: string, a: nat, b: nat) {
    WordThen(f, s, a, "config", b) || WordThen(f, s, a, "configuration", b)
  }

  lemma {:induction false} SpellsBoth(f: Flavour, s: string, i: nat, k: nat, j: nat, v: string, w: string)
    requires i <= k <= j && k - i == |v|
    ensures Spells(f, s, i, k, v) && Spells(f, s, k, j, w) <==> Spells(f, s, i, j, v + w)
  {
    var more := v + w;
    if Spells(f, s, i, k, v) && Spells(f, s, k, j, w) {
      forall n | 0 <= n < |more|
        ensures f.same(more[n], s[i + n])
      {
        if n >= |v| {
          assert more[n] == w[n - |v|] && s[i + n] == s[k + (n - |v|)];
        }
      }
    }
    if Spells(f, s, i, j, more) {
      forall n | 0 <= n < |v|
        ensures f.same(v[n], s[i + n])
      {
        assert more[n] == v[n];
      }
      forall n | 0 <= n < |w|
        ensures f.same(w[n], s[k + n])
      {
        assert more[|v| + n] == w[n] && s[i + (|v| + n)] == s[k + n];
      }
    }
  }

  lemma SurfaceIff(f: Flavour, obj: Object, re: Re, s: string, a: nat, j: nat)
    ensures Matches(f, obj, Cat(Text("config"), Cat(Optional(Text("uration")), Cat(SPACES, re))), s, a, j)
            <==> exists b: nat :: Surface(f, s, a, b) && Matches(f, obj, re, s, b, j)
  {
    var plain, long := Cat(SPACES, re), Cat(Text("uration"), Cat(SPACES, re));
    var rest := Cat(Optional(Text("uration")), plain);
    hide *;
    CatIff(f, obj, Text("config"), rest, s, a, j);
    CatIff(f, obj, Text("config"), plain, s, a, j);
    WordThenIff(f, obj, "config", re, s, a, j);
    WordThenIff(f, obj, "configuration", re, s, a, j);
    forall k: nat
      ensures Matches(f, obj, rest, s, k, j) <==> Matches(f, obj, plain, s, k, j) || Matches(f, obj, long, s, k, j)
    {
      OptionalFirst(f, obj, Text("uration"), plain, s, k, j);
    }
    LongWord(f, obj, plain, s, a, j);
    SurfaceSplits(f, obj, re, s, a, j);
  }

  lemma SurfaceSplits(f: Flavour, obj: Object, re: Re, s: string, a: nat, j: nat)
    ensures (exists b: nat :: Surface(f, s, a, b) && Matches(f, obj, re, s, b, j))
            <==> || (exists b: nat :: WordThen(f, s, a, "config", b) && Matches(f, obj, re, s, b, j))
                 || (exists b: nat :: WordThen(f, s, a, "configuration", b) && Matches(f, obj, re, s, b, j))
  {
    hide WordThen, Matches;
  }

  lemma OptionalFirst(f: Flavour, obj: Object, w: Re, re: Re, s: string, k: nat, j: nat)
    ensures Matches(f, obj, Cat(Optional(w), re), s, k, j)
            <==> Matches(f, obj, re, s, k, j) || Matches(f, obj, Cat(w, re), s, k, j)
  {
    CatIff(f, obj, Optional(w), re, s, k, j);
    CatIff(f, obj, w, re, s, k, j);
    forall n: nat
      ensures Matches(f, obj, Optional(w), s, k, n) <==> Matches(f, obj, w, s, k, n) || k == n <= |s|
    {
      ConfigClaimsLaws.Either(f, obj, w, Empty, s, k, n);
      NothingIff(f, obj, s, k, n);
    }
    if Matches(f, obj, re, s, k, j) {
      Bounds(f, obj, re, s, k, j);
    }
    hide Matches;
  }

  lemma NothingIff(f: Flavour, obj: Object, s: string, k: nat, n: nat)
    ensures Matches(f, obj, Empty, s, k, n) <==> k == n <= |s|
  {
  }

  lemma WholeWord()
    ensures "config" + "uration" == "configuration" && |"config"| == 6 && |"configuration"| == 13
  {
  }

  lemma LongWordIn(f: Flavour, obj: Object, re: Re, s: string, a: nat, k: nat, j: nat)
    requires a <= k <= j <= |s| && Matches(f, obj, Text("config"), s, a, k) && Matches(f, obj, Cat(Text("uration"), re), s, k, j)
    ensures Matches(f, obj, Cat(Text("configuration"), re), s, a, j)
  {
    hide *;
    WholeWord();
    CatIff(f, obj, Text("configuration"), re, s, a, j);
    TextIff(f, obj, "config", s, a, k);
    SpeltLength(f, s, a, k, "config");
    CatIff(f, obj, Text("uration"), re, s, k, j);
    var n: nat :| k <= n <= j <= |s| && Matches(f, obj, Text("uration"), s, k, n) && Matches(f, obj, re, s, n, j);
    TextIff(f, obj, "uration", s, k, n);
    SpellsBoth(f, s, a, k, n, "config", "uration");
    TextIff(f, obj, "configuration", s, a, n);
  }

  lemma LongWordOut(f: Flavour, obj: Object, re: Re, s: string, a: nat, j: nat) returns (k: nat)
    requires Matches(f, obj, Cat(Text("configuration"), re), s, a, j)
    ensures a <= k <= j <= |s| && Matches(f, obj, Text("config"), s, a, k) && Matches(f, obj, Cat(Text("uration"), re), s, k, j)
  {
    hide *;
    WholeWord();
    CatIff(f, obj, Text("configuration"), re, s, a, j);
    var n: nat :| a <= n <= j <= |s| && Matches(f, obj, Text("configuration"), s, a, n) && Matches(f, obj, re, s, n, j);
    TextIff(f, obj, "configuration", s, a, n);
    SpeltLength(f, s, a, n, "configuration");
    k := a + 6;
    SpellsBoth(f, s, a, k, n, "config", "uration");
    TextIff(f, obj, "config", s, a, k);
    TextIff(f, obj, "uration", s, k, n);
    CatIff(f, obj, Text("uration"), re, s, k, j);
  }

  lemma LongWord(f: Flavour, obj: Object, re: Re, s: string, a: nat, j: nat)
    ensures (exists k: nat :: a <= k <= j <= |s| && Matches(f, obj, Text("config"), s, a, k)
                              && Matches(f, obj, Cat(Text("uration"), re), s, k, j))
            <==> Matches(f, obj, Cat(Text("configuration"), re), s, a, j)
  {
    hide *;
    if k: nat :| a <= k <= j <= |s| && Matches(f, obj, Text("config"), s, a, k)
                 && Matches(f, obj, Cat(Text("uration"), re), s, k, j) {
      LongWordIn(f, obj, re, s, a, k, j);
    }
    if Matches(f, obj, Cat(Text("configuration"), re), s, a, j) {
      var k := LongWordOut(f, obj, re, s, a, j);
    }
  }

  lemma UnscopedMeans(f: Flavour, obj: Object, s: string, i: nat, j: nat)
    ensures Matches(f, obj, UNSCOPED, s, i, j) <==> UnscopedClaim(f, s, i, j)
  {
    var end := Cat(Text("surface"), Boundary);
    var config := Cat(Text("config"), Cat(Optional(Text("uration")), Cat(SPACES, end)));
    assert UNSCOPED == Cat(Boundary, Cat(Text("no"), Cat(SPACES, config))) by {
      hide Text;
    }
    hide *;
    EdgeFirst(f, obj, Cat(Text("no"), Cat(SPACES, config)), s, i, j);
    WordThenIff(f, obj, "no", config, s, i, j);
    forall a: nat
      ensures Matches(f, obj, config, s, a, j)
              <==> exists b: nat :: Surface(f, s, a, b) && Spells(f, s, b, j, "surface") && Edge(f, s, j)
    {
      SurfaceIff(f, obj, end, s, a, j);
      forall b: nat
        ensures Matches(f, obj, end, s, b, j) <==> Spells(f, s, b, j, "surface") && Edge(f, s, j)
      {
        EdgeLast(f, obj, Text("surface"), s, b, j);
        TextIff(f, obj, "surface", s, b, j);
      }
    }
    UnscopedParts(f, s, i, j);
  }

  lemma UnscopedParts(f: Flavour, s: string, i: nat, j: nat)
    ensures UnscopedClaim(f, s, i, j)
            <==> && Edge(f, s, i)
                 && exists a: nat ::
                      && WordThen(f, s, i, "no", a)
                      && exists b: nat :: Surface(f, s, a, b) && Spells(f, s, b, j, "surface") && Edge(f, s, j)
  {
    hide Edge, WordThen, Surface, Spells;
  }

  // -- The named shape ---------------------------------------------------------------------------

  /** `is unread`, `are unread`, `is still unread`, `are still unread`, as words of their own. */
  ghost predicate Unread(f: Flavour, s: string, i: nat, j: nat) {
    && Edge(f, s, i) && Edge(f, s, j)
    && exists a: nat, b: nat :: Being(f, s, i, a) && Still(f, s, a, b) && Spells(f, s, b, j, "unread")
  }

  ghost predicate Being(f: Flavour, s: string, i: nat, a: nat) {
    WordThen(f, s, i, "is", a) || WordThen(f, s, i, "are", a)
  }

  ghost predicate Still(f: Flavour, s: string, a: nat, b: nat) {
    (a == b <= |s|) || WordThen(f, s, a, "still", b)
  }

  /** An optional word and whitespace before the rest. */
  lemma PerhapsWord(f: Flavour, obj: Object, w: string, re: Re, s: string, a: nat, j: nat)
    ensures Matches(f, obj, Cat(Optional(Cat(Text(w), SPACES)), re), s, a, j)
            <==> || Matches(f, obj, re, s, a, j)
                 || exists b: nat :: WordThen(f, s, a, w, b) && Matches(f, obj, re, s, b, j)
  {
    hide *;
    OptionalFirst(f, obj, Cat(Text(w), SPACES), re, s, a, j);
    CatIff(f, obj, Cat(Text(w), SPACES), re, s, a, j);
    forall b: nat
      ensures Matches(f, obj, Cat(Text(w), SPACES), s, a, b) <==> WordThen(f, s, a, w, b)
    {
      WordAndSpaces(f, obj, w, s, a, b);
    }
    forall b: nat
      ensures WordThen(f, s, a, w, b) && Matches(f, obj, re, s, b, j) ==> a <= b <= j <= |s|
    {
      if WordThen(f, s, a, w, b) && Matches(f, obj, re, s, b, j) {
        var m := WordOf(f, s, a, w, b);
        Bounds(f, obj, re, s, b, j);
      }
    }
  }

  lemma WordAndSpaces(f: Flavour, obj: Object, w: string, s: string, a: nat, b: nat)
    ensures Matches(f, obj, Cat(Text(w), SPACES), s, a, b) <==> WordThen(f, s, a, w, b)
  {
    hide *;
    CatIff(f, obj, Text(w), SPACES, s, a, b);
    if k: nat :| a <= k <= b <= |s| && Matches(f, obj, Text(w), s, a, k) && Matches(f, obj, SPACES, s, k, b) {
      TextIff(f, obj, w, s, a, k);
      SpacesIff(f, obj, s, k, b);
      ThenWord(f, s, a, w, k, b);
    }
    if WordThen(f, s, a, w, b) {
      var k := WordOf(f, s, a, w, b);
      TextIff(f, obj, w, s, a, k);
      SpacesIff(f, obj, s, k, b);
    }
  }

  /** One of two words and whitespace before the rest. */
  lemma EitherWord(f: Flavour, obj: Object, v: string, w: string, re: Re, s: string, i: nat, j: nat)
    ensures Matches(f, obj, Cat(Or(Text(v), Text(w)), Cat(SPACES, re)), s, i, j)
            <==> exists a: nat :: (WordThen(f, s, i, v, a) || WordThen(f, s, i, w, a)) && Matches(f, obj, re, s, a, j)
  {
    hide *;
    var rest := Cat(SPACES, re);
    CatIff(f, obj, Or(Text(v), Text(w)), rest, s, i, j);
    CatIff(f, obj, Text(v), rest, s, i, j);
    CatIff(f, obj, Text(w), rest, s, i, j);
    forall k: nat
      ensures Matches(f, obj, Or(Text(v), Text(w)), s, i, k)
              <==> Matches(f, obj, Text(v), s, i, k) || Matches(f, obj, Text(w), s, i, k)
    {
      ConfigClaimsLaws.Either(f, obj, Text(v), Text(w), s, i, k);
    }
    WordThenIff(f, obj, v, re, s, i, j);
    WordThenIff(f, obj, w, re, s, i, j);
  }

  lemma UnreadShape()
    ensures IS_UNREAD
         == Cat(Boundary, Cat(Or(Text("is"), Text("are")),
                              Cat(SPACES, Cat(Optional(Cat(Text("still"), SPACES)), Cat(Text("unread"), Boundary)))))
  {
    hide Text;
  }

  lemma UnreadMeans(f: Flavour, obj: Object, s: string, i: nat, j: nat)
    ensures Matches(f, obj, IS_UNREAD, s, i, j) <==> Unread(f, s, i, j)
  {
    hide *;
    UnreadShape();
    var end := Cat(Text("unread"), Boundary);
    var rest := Cat(Optional(Cat(Text("still"), SPACES)), end);
    EdgeFirst(f, obj, Cat(Or(Text("is"), Text("are")), Cat(SPACES, rest)), s, i, j);
    EitherWord(f, obj, "is", "are", rest, s, i, j);
    forall b: nat
      ensures Matches(f, obj, end, s, b, j) <==> Spells(f, s, b, j, "unread") && Edge(f, s, j)
    {
      EdgeLast(f, obj, Text("unread"), s, b, j);
      TextIff(f, obj, "unread", s, b, j);
    }
    forall a: nat
      ensures Matches(f, obj, rest, s, a, j)
              <==> Edge(f, s, j) && exists b: nat :: Still(f, s, a, b) && Spells(f, s, b, j, "unread")
    {
      PerhapsWord(f, obj, "still", end, s, a, j);
      StillParts(f, s, a, j);
    }
    UnreadParts(f, s, i, j);
  }

  lemma StillParts(f: Flavour, s: string, a: nat, j: nat)
    ensures (exists b: nat :: Still(f, s, a, b) && Spells(f, s, b, j, "unread"))
            <==> || Spells(f, s, a, j, "unread")
                 || exists b: nat :: WordThen(f, s, a, "still", b) && Spells(f, s, b, j, "unread")
  {
    hide WordThen;
    if Spells(f, s, a, j, "unread") {
      assert Still(f, s, a, a);
    }
    hide Spells;
  }

  lemma UnreadParts(f: Flavour, s: string, i: nat, j: nat)
    ensures Unread(f, s, i, j)
            <==> && Edge(f, s, i)
                 && exists a: nat ::
                      && (WordThen(f, s, i, "is", a) || WordThen(f, s, i, "are", a))
                      && Edge(f, s, j) && exists b: nat :: Still(f, s, a, b) && Spells(f, s, b, j, "unread")
  {
    hide Edge, WordThen, Still, Spells;
    if Unread(f, s, i, j) {
      var a: nat, b: nat :| Being(f, s, i, a) && Still(f, s, a, b) && Spells(f, s, b, j, "unread");
    }
    forall a: nat, b: nat | (WordThen(f, s, i, "is", a) || WordThen(f, s, i, "are", a)) && Still(f, s, a, b)
                            && Spells(f, s, b, j, "unread")
      ensures Being(f, s, i, a)
    {
    }
  }

  /** A denial and then the object, perhaps behind `back`. */
  ghost predicate DeniedObject(f: Flavour, obj: Object, s: string, i: nat, j: nat) {
    exists a: nat, b: nat, c: nat ::
      Denial(f, s, i, a) && Room(s, a, b) && (b == c || WordThen(f, s, b, "back", c)) && Thing(obj, s, c, j)
  }

  /** `no reader of`, `no loader for` and so on, and then the object. */
  ghost predicate NoReaderOf(f: Flavour, obj: Object, s: string, i: nat, j: nat) {
    && Edge(f, s, i)
    && exists a: nat, b: nat, c: nat ::
         && No(f, s, i, a, {"reader", "loader", "consumer"}) && Gap(s, a, b)
         && (WordThen(f, s, b, "of", c) || WordThen(f, s, b, "for", c)) && Thing(obj, s, c, j)
  }

  /** The object, and in at most forty characters of the same clause that it is unread. */
  ghost predicate ObjectUnread(f: Flavour, obj: Object, s: string, i: nat, j: nat) {
    exists a: nat, b: nat :: Thing(obj, s, i, a) && Clause(s, a, b, 40) && Unread(f, s, b, j)
  }

  /** The object, and in at most forty characters of the same clause that it has no reader. */
  ghost predicate ObjectHasNoReader(f: Flavour, obj: Object, s: string, i: nat, j: nat) {
    exists a: nat, b: nat, c: nat ::
      && Thing(obj, s, i, a) && Clause(s, a, b, 40) && Edge(f, s, b) && WordThen(f, s, b, "has", c)
      && No(f, s, c, j, {"reader", "loader", "consumer"}) && Edge(f, s, j)
  }

  lemma ThingIff(f: Flavour, obj: Object, s: string, i: nat, j: nat)
    ensures Matches(f, obj, Hole, s, i, j) <==> Thing(obj, s, i, j)
  {
  }

  lemma FirstMeans(f: Flavour, obj: Object, s: string, i: nat, j: nat)
    ensures Matches(f, obj, Cat(NEGATED_LIVENESS, Cat(ANY_SPACES, Cat(Optional(Cat(Text("back"), SPACES)), Hole))), s, i, j)
            <==> DeniedObject(f, obj, s, i, j)
  {
    hide *;
    var back := Cat(Optional(Cat(Text("back"), SPACES)), Hole);
    var rest := Cat(ANY_SPACES, back);
    CatIff(f, obj, NEGATED_LIVENESS, rest, s, i, j);
    if Matches(f, obj, Cat(NEGATED_LIVENESS, rest), s, i, j) {
      var a: nat :| i <= a <= j <= |s| && Matches(f, obj, NEGATED_LIVENESS, s, i, a) && Matches(f, obj, rest, s, a, j);
      DenialMeans(f, obj, s, i, a);
      CatIff(f, obj, ANY_SPACES, back, s, a, j);
      var b: nat :| a <= b <= j <= |s| && Matches(f, obj, ANY_SPACES, s, a, b) && Matches(f, obj, back, s, b, j);
      SpacesIff(f, obj, s, a, b);
      PerhapsWord(f, obj, "back", Hole, s, b, j);
      if Matches(f, obj, Hole, s, b, j) {
        ThingIff(f, obj, s, b, j);
        DeniedObjectBy(f, obj, s, i, a, b, b, j);
      } else {
        var c: nat :| WordThen(f, s, b, "back", c) && Matches(f, obj, Hole, s, c, j);
        ThingIff(f, obj, s, c, j);
        DeniedObjectBy(f, obj, s, i, a, b, c, j);
      }
    }
    if DeniedObject(f, obj, s, i, j) {
      var a, b, c := DeniedObjectAt(f, obj, s, i, j);
      DenialMeans(f, obj, s, i, a);
      Bounds(f, obj, NEGATED_LIVENESS, s, i, a);
      SpacesIff(f, obj, s, a, b);
      ThingIff(f, obj, s, c, j);
      PerhapsWord(f, obj, "back", Hole, s, b, j);
      Bounds(f, obj, ANY_SPACES, s, a, b);
      Bounds(f, obj, back, s, b, j);
      CatIff(f, obj, ANY_SPACES, back, s, a, j);
    }
  }

  lemma DeniedObjectBy(f: Flavour, obj: Object, s: string, i: nat, a: nat, b: nat, c: nat, j: nat)
    requires Denial(f, s, i, a) && Room(s, a, b) && (b == c || WordThen(f, s, b, "back", c)) && Thing(obj, s, c, j)
    ensures DeniedObject(f, obj, s, i, j)
  {
    hide Denial, Room, WordThen, Thing;
  }

  lemma DeniedObjectAt(f: Flavour, obj: Object, s: string, i: nat, j: nat) returns (a: nat, b: nat, c: nat)
    requires DeniedObject(f, obj, s, i, j)
    ensures Denial(f, s, i, a) && Room(s, a, b) && (b == c || WordThen(f, s, b, "back", c)) && Thing(obj, s, c, j)
  {
    hide Denial, Room, WordThen, Thing;
    a, b, c :| Denial(f, s, i, a) && Room(s, a, b) && (b == c || WordThen(f, s, b, "back", c)) && Thing(obj, s, c, j);
  }

  lemma OfThing(f: Flavour, obj: Object, s: string, b: nat, j: nat)
    ensures Matches(f, obj, Cat(Or(Text("of"), Text("for")), Cat(SPACES, Hole)), s, b, j)
            <==> exists c: nat :: (WordThen(f, s, b, "of", c) || WordThen(f, s, b, "for", c)) && Thing(obj, s, c, j)
  {
    hide *;
    EitherWord(f, obj, "of", "for", Hole, s, b, j);
    forall c: nat
      ensures Matches(f, obj, Hole, s, c, j) <==> Thing(obj, s, c, j)
    {
      ThingIff(f, obj, s, c, j);
    }
  }

  lemma SecondMeans(f: Flavour, obj: Object, s: string, i: nat, j: nat)
    ensures Matches(f, obj, Cat(Boundary, Cat(NO_AGENT, Cat(SPACES, Cat(Or(Text("of"), Text("for")), Cat(SPACES, Hole))))), s, i, j)
            <==> NoReaderOf(f, obj, s, i, j)
  {
    hide *;
    var of := Cat(Or(Text("of"), Text("for")), Cat(SPACES, Hole));
    var rest := Cat(SPACES, of);
    EdgeFirst(f, obj, Cat(NO_AGENT, rest), s, i, j);
    CatIff(f, obj, NO_AGENT, rest, s, i, j);
    if Edge(f, s, i) && Matches(f, obj, Cat(NO_AGENT, rest), s, i, j) {
      var a: nat :| i <= a <= j <= |s| && Matches(f, obj, NO_AGENT, s, i, a) && Matches(f, obj, rest, s, a, j);
      NoAgentMeans(f, obj, s, i, a);
      CatIff(f, obj, SPACES, of, s, a, j);
      var b: nat :| a <= b <= j <= |s| && Matches(f, obj, SPACES, s, a, b) && Matches(f, obj, of, s, b, j);
      SpacesIff(f, obj, s, a, b);
      OfThing(f, obj, s, b, j);
      var c: nat :| (WordThen(f, s, b, "of", c) || WordThen(f, s, b, "for", c)) && Thing(obj, s, c, j);
      NoReaderBy(f, obj, s, i, a, b, c, j);
    }
    if NoReaderOf(f, obj, s, i, j) {
      var a, b, c := NoReaderAt(f, obj, s, i, j);
      NoAgentMeans(f, obj, s, i, a);
      Bounds(f, obj, NO_AGENT, s, i, a);
      SpacesIff(f, obj, s, a, b);
      Bounds(f, obj, SPACES, s, a, b);
      OfThing(f, obj, s, b, j);
      Bounds(f, obj, of, s, b, j);
      CatIff(f, obj, SPACES, of, s, a, j);
    }
  }

  lemma NoReaderBy(f: Flavour, obj: Object, s: string, i: nat, a: nat, b: nat, c: nat, j: nat)
    requires Edge(f, s, i) && No(f, s, i, a, {"reader", "loader", "consumer"}) && Gap(s, a, b)
    requires (WordThen(f, s, b, "of", c) || WordThen(f, s, b, "for", c)) && Thing(obj, s, c, j)
    ensures NoReaderOf(f, obj, s, i, j)
  {
    hide Edge, No, Gap, WordThen, Thing;
  }

  lemma NoReaderAt(f: Flavour, obj: Object, s: string, i: nat, j: nat) returns (a: nat, b: nat, c: nat)
    requires NoReaderOf(f, obj, s, i, j)
    ensures Edge(f, s, i) && No(f, s, i, a, {"reader", "loader", "consumer"}) && Gap(s, a, b)
    ensures (WordThen(f, s, b, "of", c) || WordThen(f, s, b, "for", c)) && Thing(obj, s, c, j)
  {
    hide Edge, No, Gap, WordThen, Thing;
    a, b, c :| && No(f, s, i, a, {"reader", "loader", "consumer"}) && Gap(s, a, b)
               && (WordThen(f, s, b, "of", c) || WordThen(f, s, b, "for", c)) && Thing(obj, s, c, j);
  }

  /** The object, a clause of at most forty characters, and what follows it. */
  lemma ObjectThen(f: Flavour, obj: Object, re: Re, s: string, i: nat, j: nat)
    ensures Matches(f, obj, Cat(Hole, Cat(Within(40), re)), s, i, j)
            <==> exists a: nat, b: nat :: Thing(obj, s, i, a) && Clause(s, a, b, 40) && Matches(f, obj, re, s, b, j)
  {
    hide *;
    CatIff(f, obj, Hole, Cat(Within(40), re), s, i, j);
    if Matches(f, obj, Cat(Hole, Cat(Within(40), re)), s, i, j) {
      var a: nat :| i <= a <= j <= |s| && Matches(f, obj, Hole, s, i, a) && Matches(f, obj, Cat(Within(40), re), s, a, j);
      ThingIff(f, obj, s, i, a);
      CatIff(f, obj, Within(40), re, s, a, j);
      var b: nat :| a <= b <= j <= |s| && Matches(f, obj, Within(40), s, a, b) && Matches(f, obj, re, s, b, j);
      WithinIff(f, obj, 40, s, a, b);
    }
    if a: nat, b: nat :| Thing(obj, s, i, a) && Clause(s, a, b, 40) && Matches(f, obj, re, s, b, j) {
      ThingIff(f, obj, s, i, a);
      WithinIff(f, obj, 40, s, a, b);
      Bounds(f, obj, Hole, s, i, a);
      Bounds(f, obj, Within(40), s, a, b);
      Bounds(f, obj, re, s, b, j);
      CatIff(f, obj, Within(40), re, s, a, j);
    }
  }

  lemma HasNoReader(f: Flavour, obj: Object, s: string, b: nat, j: nat)
    ensures Matches(f, obj, Cat(Boundary, Cat(Text("has"), Cat(SPACES, Cat(NO_AGENT, Boundary)))), s, b, j)
            <==> && Edge(f, s, b) && Edge(f, s, j)
                 && exists c: nat :: WordThen(f, s, b, "has", c) && No(f, s, c, j, {"reader", "loader", "consumer"})
  {
    hide *;
    var agent := Cat(NO_AGENT, Boundary);
    EdgeFirst(f, obj, Cat(Text("has"), Cat(SPACES, agent)), s, b, j);
    WordThenIff(f, obj, "has", agent, s, b, j);
    forall c: nat
      ensures Matches(f, obj, agent, s, c, j) <==> No(f, s, c, j, {"reader", "loader", "consumer"}) && Edge(f, s, j)
    {
      EdgeLast(f, obj, NO_AGENT, s, c, j);
      NoAgentMeans(f, obj, s, c, j);
    }
  }

  lemma ThirdMeans(f: Flavour, obj: Object, s: string, i: nat, j: nat)
    ensures Matches(f, obj, Cat(Hole, Cat(Within(40), IS_UNREAD)), s, i, j) <==> ObjectUnread(f, obj, s, i, j)
  {
    ObjectThen(f, obj, IS_UNREAD, s, i, j);
    hide Thing, Clause, Unread, Matches, IS_UNREAD;
    forall b: nat
      ensures Matches(f, obj, IS_UNREAD, s, b, j) <==> Unread(f, s, b, j)
    {
      UnreadMeans(f, obj, s, b, j);
    }
  }

  lemma FourthMeans(f: Flavour, obj: Object, s: string, i: nat, j: nat)
    ensures Matches(f, obj, Cat(Hole, Cat(Within(40), Cat(Boundary, Cat(Text("has"), Cat(SPACES, Cat(NO_AGENT, Boundary)))))), s, i, j)
            <==> ObjectHasNoReader(f, obj, s, i, j)
  {
    var has := Cat(Boundary, Cat(Text("has"), Cat(SPACES, Cat(NO_AGENT, Boundary))));
    hide Thing, Clause, Edge, WordThen, No, Matches, Text, NO_AGENT;
    ObjectThen(f, obj, has, s, i, j);
    forall b: nat
      ensures Matches(f, obj, has, s, b, j)
              <==> && Edge(f, s, b) && Edge(f, s, j)
                   && exists c: nat :: WordThen(f, s, b, "has", c) && No(f, s, c, j, {"reader", "loader", "consumer"})
    {
      HasNoReader(f, obj, s, b, j);
    }
  }

  lemma NamedShape()
    ensures NAMED
         == Or(Cat(NEGATED_LIVENESS, Cat(ANY_SPACES, Cat(Optional(Cat(Text("back"), SPACES)), Hole))),
               Or(Cat(Boundary, Cat(NO_AGENT, Cat(SPACES, Cat(Or(Text("of"), Text("for")), Cat(SPACES, Hole))))),
                  Or(Cat(Hole, Cat(Within(40), IS_UNREAD)),
                     Cat(Hole, Cat(Within(40), Cat(Boundary, Cat(Text("has"), Cat(SPACES, Cat(NO_AGENT, Boundary)))))))))
  {
    hide Text, NEGATED_LIVENESS, NO_AGENT, IS_UNREAD;
  }

  /** The named shape: any of the four ways of saying that nothing reads the object. */
  lemma NamedMeans(f: Flavour, obj: Object, s: string, i: nat, j: nat)
    ensures Matches(f, obj, NAMED, s, i, j)
            <==> || DeniedObject(f, obj, s, i, j) || NoReaderOf(f, obj, s, i, j)
                 || ObjectUnread(f, obj, s, i, j) || ObjectHasNoReader(f, obj, s, i, j)
  {
    hide *;
    NamedShape();
    var a := Cat(NEGATED_LIVENESS, Cat(ANY_SPACES, Cat(Optional(Cat(Text("back"), SPACES)), Hole)));
    var b := Cat(Boundary, Cat(NO_AGENT, Cat(SPACES, Cat(Or(Text("of"), Text("for")), Cat(SPACES, Hole)))));
    var c := Cat(Hole, Cat(Within(40), IS_UNREAD));
    var d := Cat(Hole, Cat(Within(40), Cat(Boundary, Cat(Text("has"), Cat(SPACES, Cat(NO_AGENT, Boundary))))));
    ConfigClaimsLaws.Either(f, obj, a, Or(b, Or(c, d)), s, i, j);
    ConfigClaimsLaws.Either(f, obj, b, Or(c, d), s, i, j);
    ConfigClaimsLaws.Either(f, obj, c, d, s, i, j);
    FirstMeans(f, obj, s, i, j);
    SecondMeans(f, obj, s, i, j);
    ThirdMeans(f, obj, s, i, j);
    FourthMeans(f, obj, s, i, j);
  }

  /** The text claims, in some words of it, that nothing reads the object. */
  ghost predicate NamedClaim(f: Flavour, obj: Object, s: string, i: nat, j: nat) {
    || DeniedObject(f, obj, s, i, j) || NoReaderOf(f, obj, s, i, j)
    || ObjectUnread(f, obj, s, i, j) || ObjectHasNoReader(f, obj, s, i, j)
  }

  lemma FoundAt(f: Flavour, obj: Object, re: Re, s: string) returns (i: nat, j: nat)
    requires Found(f, obj, re, s)
    ensures Matches(f, obj, re, s, i, j)
  {
    i, j :| i <= j <= |s| && Matches(f, obj, re, s, i, j);
  }

  lemma FoundBy(f: Flavour, obj: Object, re: Re, s: string, i: nat, j: nat)
    requires Matches(f, obj, re, s, i, j)
    ensures Found(f, obj, re, s)
  {
  }

  /** Each shape is found in a text exactly when some words of the text make that claim. */
  lemma FoundMeans(f: Flavour, obj: Object, s: string)
    ensures Found(f, obj, NAMED, s) <==> exists i: nat, j: nat :: NamedClaim(f, obj, s, i, j)
    ensures Found(f, obj, PRONOUN, s) <==> exists i: nat, j: nat :: PronounClaim(f, s, i, j)
    ensures Found(f, obj, UNSCOPED, s) <==> exists i: nat, j: nat :: UnscopedClaim(f, s, i, j)
  {
    hide *;
    if Found(f, obj, NAMED, s) {
      var i, j := FoundAt(f, obj, NAMED, s);
      NamedWords(f, obj, s, i, j);
    }
    if i: nat, j: nat :| NamedClaim(f, obj, s, i, j) {
      NamedWords(f, obj, s, i, j);
      FoundBy(f, obj, NAMED, s, i, j);
    }
    if Found(f, obj, PRONOUN, s) {
      var i, j := FoundAt(f, obj, PRONOUN, s);
      PronounMeans(f, obj, s, i, j);
    }
    if i: nat, j: nat :| PronounClaim(f, s, i, j) {
      PronounMeans(f, obj, s, i, j);
      FoundBy(f, obj, PRONOUN, s, i, j);
    }
    if Found(f, obj, UNSCOPED, s) {
      var i, j := FoundAt(f, obj, UNSCOPED, s);
      UnscopedMeans(f, obj, s, i, j);
    }
    if i: nat, j: nat :| UnscopedClaim(f, s, i, j) {
      UnscopedMeans(f, obj, s, i, j);
      FoundBy(f, obj, UNSCOPED, s, i, j);
    }
  }

  lemma NamedWords(f: Flavour, obj: Object, s: string, i: nat, j: nat)
    ensures Matches(f, obj, NAMED, s, i, j) <==> NamedClaim(f, obj, s, i, j)
  {
    NamedMeans(f, obj, s, i, j);
    hide Matches, DeniedObject, NoReaderOf, ObjectUnread, ObjectHasNoReader, NAMED;
  }
}
