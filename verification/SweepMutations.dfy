/**
 Mutations generated from one file's operator tokens, and the anchors they are filed under
 (tools/sweep_mutations.py). The token list and the spans of the expressions come from Python's own
 tokenizer and parser and are inputs here.
 */
module SweepMutations {
  import opened PyText
  import SweepCensus

  /** One operator token, in absolute character offsets into the source. */
  datatype Token = Token(text: string, start: nat, end: nat)

  datatype Span = Span(start: nat, end: nat)

  /** A token, the expression that encloses it and what it becomes. */
  datatype Hit = Hit(token: Token, span: Span, replacement: string)

  datatype Rung = Expression | Line

  datatype Anchor = Anchor(rung: Rung, old_: string, new_: string)

  /** The flips of the three operator families. */
  const FLIPS: map<string, string> :=
    map["<" := "<=", "<=" := "<", ">" := ">=", ">=" := ">", "==" := "!=", "!=" := "==",
        "and" := "or", "or" := "and", "True" := "False", "False" := "True"]

  /** What the parser promises about a hit: the token lies in its expression and reads as it says. */
  predicate Bracketed(source: string, hit: Hit) {
    && hit.span.start <= hit.token.start <= hit.token.end <= hit.span.end <= |source|
    && source[hit.token.start..hit.token.end] == hit.token.text
    && IsFlip(hit.token.text, hit.replacement)
  }

  predicate IsFlip(text: string, replacement: string) {
    text in FLIPS && replacement == FLIPS[text]
  }

  /** `source.rfind("\n", 0, i) + 1`. */
  function LineStart(source: string, i: nat): (r: nat)
    requires i <= |source|
    ensures r <= i && (r > 0 ==> source[r - 1] == '\n')
    ensures forall k :: r <= k < i ==> source[k] != '\n'
  {
    if i == 0 || source[i - 1] == '\n' then i else LineStart(source, i - 1)
  }

  /** `source.find("\n", i)`, or the end of the source. */
  function LineStop(source: string, i: nat): (r: nat)
    requires i <= |source|
    ensures i <= r <= |source| && (r < |source| ==> source[r] == '\n')
    ensures forall k :: i <= k < r ==> source[k] != '\n'
    decreases |source| - i
  {
    if i == |source| || source[i] == '\n' then i else LineStop(source, i + 1)
  }

  function LineSpan(source: string, span: Span): Span
    requires span.start <= |source| && span.end <= |source|
  {
    Span(LineStart(source, span.start), LineStop(source, span.end))
  }

  /** The part of the source one rung anchors on. */
  function Bounds(source: string, span: Span, rung: Rung): Span
    requires span.start <= |source| && span.end <= |source|
  {
    match rung
    case Expression => span
    case Line => LineSpan(source, span)
  }

  /** The anchor a rung offers, if it is counted exactly once. */
  function AnchorOn(source: string, hit: Hit, rung: Rung): Option<Anchor>
    requires Bracketed(source, hit)
  {
    var bounds := Bounds(source, hit.span, rung);
    var old_ := source[bounds.start..bounds.end];
    if Count(source, old_) != 1 then None
    else
      Some(Anchor(rung, old_,
                  old_[..hit.token.start - bounds.start] + hit.replacement + old_[hit.token.end - bounds.start..]))
  }

  /** `_anchored`: the expression as written, then the line or lines it sits on. */
  function Anchored(source: string, hit: Hit): Option<Anchor>
    requires Bracketed(source, hit)
  {
    var first := AnchorOn(source, hit, Expression);
    if first.Some? then first else AnchorOn(source, hit, Line)
  }

  // -- Candidates --------------------------------------------------------------------------------

  datatype Candidate = Candidate(
    name: string, path: string, old_: string, new_: string, line: nat,
    swappedFrom: string, swappedTo: string, anchor: Rung)

  datatype Skip = Skip(line: nat, swappedFrom: string)

  datatype Generated = Generated(path: string, candidates: seq<Candidate>, skipped: seq<Skip>)
  {
    /** `at_lap`: this visit's mutation, or `None` when the file is barren. */
    function AtLap(lap: nat): Option<Candidate> {
      if candidates == [] then None else Some(candidates[SweepCensus.IndexAt(lap, |candidates|)])
    }
  }

  function LineNumber(source: string, at: nat): nat
    requires at <= |source|
  {
    Count(source[..at], "\n") + 1
  }

  /** What hit number `index` of a file becomes. `nameOf` renders the label from the index. */
  function CandidateFor(path: string, source: string, hit: Hit, name: string): Option<Candidate>
    requires Bracketed(source, hit)
  {
    match Anchored(source, hit)
    case None => None
    case Some(a) =>
      Some(Candidate(name, path, a.old_, a.new_, LineNumber(source, hit.token.start),
                     hit.token.text, hit.replacement, a.rung))
  }

  function Emitted(path: string, source: string, hits: seq<Hit>, nameOf: (nat, Hit) -> string): seq<Candidate>
    requires forall h :: h in hits ==> Bracketed(source, h)
  {
    if hits == [] then []
    else
      var last := |hits| - 1;
      var c := CandidateFor(path, source, hits[last], nameOf(last, hits[last]));
      Emitted(path, source, hits[..last], nameOf) + (if c.Some? then [c.value] else [])
  }

  function Skipped(source: string, hits: seq<Hit>): seq<Skip>
    requires forall h :: h in hits ==> Bracketed(source, h)
  {
    if hits == [] then []
    else
      var last := |hits| - 1;
      Skipped(source, hits[..last])
      + (if Anchored(source, hits[last]).Some? then []
         else [Skip(LineNumber(source, hits[last].token.start), hits[last].token.text)])
  }

  /** `candidates`: every hit, in source order, is emitted under its own index or reported as skipped. */
  method Candidates(path: string, source: string, ordered: seq<Hit>, nameOf: (nat, Hit) -> string)
    returns (r: Generated)
    requires forall h :: h in ordered ==> Bracketed(source, h)
    ensures r == Generated(path, Emitted(path, source, ordered, nameOf), Skipped(source, ordered))
    ensures |r.candidates| + |r.skipped| == |ordered|
  {
    hide Bracketed, CandidateFor, LineNumber;
    var emitted: seq<Candidate> := [];
    var skipped: seq<Skip> := [];
    for index := 0 to |ordered|
      invariant emitted == Emitted(path, source, ordered[..index], nameOf)
      invariant skipped == Skipped(source, ordered[..index])
      invariant |emitted| + |skipped| == index
    {
      var hit := ordered[index];
      OneMoreHit(path, source, ordered, nameOf, index);
      hide Emitted, Skipped;
      var candidate := CandidateFor(path, source, hit, nameOf(index, hit));
      if candidate.None? {
        skipped := skipped + [Skip(LineNumber(source, hit.token.start), hit.token.text)];
      } else {
        emitted := emitted + [candidate.value];
      }
    }
    assert ordered[..|ordered|] == ordered;
    return Generated(path, emitted, skipped);
  }

  lemma OneMoreHit(path: string, source: string, ordered: seq<Hit>, nameOf: (nat, Hit) -> string, n: nat)
    requires n < |ordered| && forall h :: h in ordered ==> Bracketed(source, h)
    ensures ordered[n].token.start <= |source|
    ensures var hit := ordered[n];
            var c := CandidateFor(path, source, hit, nameOf(n, hit));
            && Emitted(path, source, ordered[..n + 1], nameOf)
               == Emitted(path, source, ordered[..n], nameOf) + (if c.Some? then [c.value] else [])
            && Skipped(source, ordered[..n + 1])
               == Skipped(source, ordered[..n])
                  + (if c.Some? then [] else [Skip(LineNumber(source, hit.token.start), hit.token.text)])
  {
    hide LineNumber, Anchored;
    assert Bracketed(source, ordered[n]);
    assert ordered[..n + 1][..n] == ordered[..n];
  }

  // -- A block's attempts ------------------------------------------------------------------------

  datatype Attempt = Attempt(slot: SweepCensus.Slot, generated: Generated, candidate: Option<Candidate>)

  /** `for_block`: one attempt a slot; a block that asks nothing at all is refused, never reported clean. */
  method ForBlock(slots: seq<SweepCensus.Slot>, generate: string -> Generated) returns (r: Option<seq<Attempt>>)
    ensures r.None? <==> forall i :: 0 <= i < |slots| ==> generate(slots[i].path).candidates == []
    ensures r.Some? ==> |r.value| == |slots|
    ensures r.Some? ==> forall i :: 0 <= i < |slots| ==>
              var g := generate(slots[i].path);
              r.value[i] == Attempt(slots[i], g, g.AtLap(slots[i].lap))
  {
    var attempts: seq<Attempt> := [];
    var asked := false;
    for i := 0 to |slots|
      invariant |attempts| == i
      invariant forall k :: 0 <= k < i ==>
                  var g := generate(slots[k].path);
                  attempts[k] == Attempt(slots[k], g, g.AtLap(slots[k].lap))
      invariant !asked <==> forall k :: 0 <= k < i ==> generate(slots[k].path).candidates == []
    {
      var generated := generate(slots[i].path);
      var candidate := generated.AtLap(slots[i].lap);
      attempts := attempts + [Attempt(slots[i], generated, candidate)];
      asked := asked || candidate.Some?;
    }
    return if asked then Some(attempts) else None;
  }

  // -- Source coordinates ------------------------------------------------------------------------

  type Byte = n: int | 0 <= n < 256

  /** UTF-8 (section 3 of RFC 3629). */
  function EncodeChar(c: char): (r: seq<Byte>)
    ensures 1 <= |r| <= 4
  {
    var n := c as int;
    if n < 0x80 then [n]
    else if n < 0x800 then [0xC0 + n / 64, 0x80 + n % 64]
    else if n < 0x1_0000 then [0xE0 + n / 4096, 0x80 + n / 64 % 64, 0x80 + n % 64]
    else [0xF0 + n / 262144, 0x80 + n / 4096 % 64, 0x80 + n / 64 % 64, 0x80 + n % 64]
  }

  function Encode(s: string): (r: seq<Byte>)
    ensures |r| >= |s|
  {
    if s == "" then [] else EncodeChar(s[0]) + Encode(s[1..])
  }

  predicate Continuation(b: Byte) {
    0x80 <= b < 0xC0
  }

  /** The length a lead byte announces; 0 if no character starts with it. */
  function SequenceLength(lead: Byte): nat {
    if lead < 0x80 then 1 else if lead < 0xC2 then 0 else if lead < 0xE0 then 2
    else if lead < 0xF0 then 3 else if lead < 0xF5 then 4 else 0
  }

  predicate ScalarValue(n: int) {
    0 <= n < 0xD800 || 0xE000 <= n < 0x11_0000
  }

  function ScalarOf(b: seq<Byte>): int
    requires 1 <= |b| <= 4
  {
    match |b|
    case 1 => b[0] as int
    case 2 => (b[0] as int - 0xC0) * 64 + (b[1] as int - 0x80)
    case 3 => (b[0] as int - 0xE0) * 4096 + (b[1] as int - 0x80) * 64 + (b[2] as int - 0x80)
    case _ => (b[0] as int - 0xF0) * 262144 + (b[1] as int - 0x80) * 4096 + (b[2] as int - 0x80) * 64 + (b[3] as int - 0x80)
  }

  /** Strict decoding: truncated, overlong and surrogate sequences are errors. */
  function Decode(b: seq<Byte>): Option<string>
    decreases |b|
  {
    if b == [] then Some("")
    else
      var n := SequenceLength(b[0]);
      if n == 0 || |b| < n || (exists k :: 1 <= k < n && !Continuation(b[k])) then None
      else
        var scalar := ScalarOf(b[..n]);
        if !ScalarValue(scalar) || |EncodeChar(scalar as char)| != n then None
        else
          match Decode(b[n..])
          case None => None
          case Some(rest) => Some([scalar as char] + rest)
  }

  /** `source.split("\n")`. */
  function SplitNewlines(source: string): (r: seq<string>)
    ensures |r| >= 1
    ensures forall line :: line in r ==> '\n' !in line
    decreases |source|
  {
    var stop := LineStop(source, 0);
    if stop == |source| then [source]
    else [source[..stop]] + SplitNewlines(source[stop + 1..])
  }

  /** `_line_index`: the lines, and the offset each starts at. */
  method LineIndex(source: string) returns (lines: seq<string>, starts: seq<nat>)
    ensures lines == SplitNewlines(source) && starts == Starts(lines)
  {
    lines := SplitNewlines(source);
    hide SplitNewlines;
    starts := [];
    var running := 0;
    for i := 0 to |lines|
      invariant |starts| == i
      invariant running == LengthBefore(lines, i)
      invariant forall k :: 0 <= k < i ==> starts[k] == LengthBefore(lines, k)
    {
      starts := starts + [running];
      running := running + |lines[i]| + 1;
    }
  }

  /** The length of the first `n` lines with their separators. */
  function LengthBefore(lines: seq<string>, n: nat): nat
    requires n <= |lines|
  {
    if n == 0 then 0 else LengthBefore(lines, n - 1) + |lines[n - 1]| + 1
  }

  function Starts(lines: seq<string>): seq<nat> {
    seq(|lines|, i requires 0 <= i < |lines| => LengthBefore(lines, i))
  }

  /** `_offset`; `None` when the byte column splits a character and the decoder raises. */
  function Offset(lines: seq<string>, starts: seq<nat>, lineno: nat, column: nat): Option<nat>
    requires |starts| == |lines| && 1 <= lineno <= |lines|
  {
    var bytes := Encode(lines[lineno - 1]);
    match Decode(if column <= |bytes| then bytes[..column] else bytes)
    case None => None
    case Some(prefix) => Some(starts[lineno - 1] + |prefix|)
  }
}
