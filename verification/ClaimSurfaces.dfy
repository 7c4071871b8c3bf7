/**
 Governed prose read as sentences, each reported at the line it opens on
 (tools/audit/claim_surfaces.py).
 */
module ClaimSurfaces {
  import opened PyText

  /** A line of the file under its number. */
  datatype Numbered = Numbered(number: nat, text: string)

  /** Collapsed text, and for each of its characters the line it came from. */
  datatype Block = Block(text: string, origin: seq<nat>)

  datatype Sentence = Sentence(line: nat, text: string, block: string)

  // -- Collapsing --------------------------------------------------------------------------------

  /** The end of the whitespace run at `i`. */
  function SpaceEnd(s: string, i: nat): (e: nat)
    requires i <= |s|
    ensures i <= e <= |s|
    ensures forall k :: i <= k < e ==> IsSpace(s[k])
    ensures e < |s| ==> !IsSpace(s[e])
    decreases |s| - i
  {
    if i < |s| && IsSpace(s[i]) then SpaceEnd(s, i + 1) else i
  }

  /** `re.sub(r"\s+", " ", s[i:])`. */
  function Squeeze(s: string, i: nat): string
    requires i <= |s|
    decreases |s| - i
  {
    if i == |s| then ""
    else if IsSpace(s[i]) then " " + Squeeze(s, SpaceEnd(s, i + 1))
    else [s[i]] + Squeeze(s, i + 1)
  }

  /** The entries `_rebuild_origin` appends from `i` on. */
  function Rebuilt(s: string, origin: seq<nat>, i: nat): (r: seq<nat>)
    requires |s| == |origin| && i <= |s|
    ensures |r| == |Squeeze(s, i)|
    decreases |s| - i
  {
    if i == |s| then []
    else if IsSpace(s[i]) then [origin[i]] + Rebuilt(s, origin, SpaceEnd(s, i + 1))
    else [origin[i]] + Rebuilt(s, origin, i + 1)
  }

  /** `_rebuild_origin`. */
  method RebuildOrigin(joined: string, origin: seq<nat>) returns (rebuilt: seq<nat>)
    requires |joined| == |origin|
    ensures rebuilt == Rebuilt(joined, origin, 0)
  {
    hide IsSpace, Squeeze;
    rebuilt := [];
    var index := 0;
    while index < |joined|
      invariant 0 <= index <= |joined|
      invariant rebuilt + Rebuilt(joined, origin, index) == Rebuilt(joined, origin, 0)
    {
      ghost var from := index;
      rebuilt := rebuilt + [origin[index]];
      if IsSpace(joined[index]) {
        while index < |joined| && IsSpace(joined[index])
          invariant from <= index <= |joined|
          invariant from < index ==> SpaceEnd(joined, from + 1) == SpaceEnd(joined, index)
        {
          index := index + 1;
        }
        assert index == SpaceEnd(joined, from + 1);
      } else {
        index := index + 1;
      }
    }
  }

  /** A number repeated once a character. */
  function Repeated(number: nat, n: nat): (r: seq<nat>)
    ensures |r| == n && forall k :: 0 <= k < n ==> r[k] == number
  {
    seq(n, i => number)
  }

  /** The stripped lines joined by single spaces, blank ones left out; a joining space belongs to the line it opens. */
  function Joined(lines: seq<Numbered>): (r: Block)
    ensures |r.text| == |r.origin|
  {
    if lines == [] then Block("", [])
    else
      var before, last := Joined(lines[..|lines| - 1]), lines[|lines| - 1];
      var piece := Strip(last.text);
      if piece == "" then before
      else if before.text == "" then Block(piece, Repeated(last.number, |piece|))
      else Block(before.text + " " + piece, before.origin + [last.number] + Repeated(last.number, |piece|))
  }

  function Collapsed(lines: seq<Numbered>): Block {
    var joined := Joined(lines);
    Block(Squeeze(joined.text, 0), Rebuilt(joined.text, joined.origin, 0))
  }

  /** `_collapse`. */
  method Collapse(lines: seq<Numbered>) returns (r: Block)
    ensures r == Collapsed(lines)
  {
    hide IsSpace, Squeeze, Strip, Rebuilt;
    var text, origin := "", [];
    for n := 0 to |lines|
      invariant Block(text, origin) == Joined(lines[..n])
    {
      assert lines[..n + 1][..n] == lines[..n];
      var piece := Strip(lines[n].text);
      if piece != "" {
        if text != "" {
          text := text + " ";
          origin := origin + [lines[n].number];
        }
        text := text + piece;
        origin := origin + Repeated(lines[n].number, |piece|);
      }
    }
    assert lines[..|lines|] == lines;
    var rebuilt := RebuildOrigin(text, origin);
    r := Block(Squeeze(text, 0), rebuilt);
  }

  // -- What a reader does with one line ----------------------------------------------------------

  /** A line separates blocks, opens one, or goes on with the one above it. */
  datatype Fate = Gap | Opens(text: string) | GoesOn(text: string)

  datatype Suffix = Markdown | Python | Json | Yaml

  predicate IsBlank(c: char) {
    c == ' ' || c == '\t'
  }

  function SkipBlanks(s: string): (r: string)
    ensures |r| <= |s| && r == s[|s| - |r|..]
    ensures r != "" ==> !IsBlank(r[0])
    ensures forall k :: 0 <= k < |s| - |r| ==> IsBlank(s[k])
  {
    if s != "" && IsBlank(s[0]) then SkipBlanks(s[1..]) else s
  }

  function SkipOneBlank(s: string): string {
    if s != "" && IsBlank(s[0]) then s[1..] else s
  }

  /** What follows the last of the leading blockquote markers, if there is one. */
  function AfterMarkers(s: string): Option<string> {
    var rest := SkipBlanks(s);
    if rest == "" || rest[0] != '>' then None
    else
      var deeper := AfterMarkers(rest[1..]);
      if deeper.Some? then deeper else Some(rest[1..])
  }

  /** `_BLOCKQUOTE_MARKERS.sub("", raw)`. */
  function Unquoted(raw: string): string {
    match AfterMarkers(raw)
    case None => raw
    case Some(rest) => SkipOneBlank(rest)
  }

  function CountLeading(s: string, c: char): (n: nat)
    ensures n <= |s| && (forall k :: 0 <= k < n ==> s[k] == c) && (n < |s| ==> s[n] != c)
  {
    if s != "" && s[0] == c then 1 + CountLeading(s[1..], c) else 0
  }

  /** `\d` on text: the decimal digits of Unicode 15.1, ten of every script that has them. */
  predicate IsDigit(c: char) {
    var n := c as int;
    || 0x30 <= n <= 0x39 || 0x660 <= n <= 0x669 || 0x6F0 <= n <= 0x6F9 || 0x7C0 <= n <= 0x7C9
    || 0x966 <= n <= 0x96F || 0x9E6 <= n <= 0x9EF || 0xA66 <= n <= 0xA6F || 0xAE6 <= n <= 0xAEF
    || 0xB66 <= n <= 0xB6F || 0xBE6 <= n <= 0xBEF || 0xC66 <= n <= 0xC6F || 0xCE6 <= n <= 0xCEF
    || 0xD66 <= n <= 0xD6F || 0xDE6 <= n <= 0xDEF || 0xE50 <= n <= 0xE59 || 0xED0 <= n <= 0xED9
    || 0xF20 <= n <= 0xF29 || 0x1040 <= n <= 0x1049 || 0x1090 <= n <= 0x1099 || 0x17E0 <= n <= 0x17E9
    || 0x1810 <= n <= 0x1819 || 0x1946 <= n <= 0x194F || 0x19D0 <= n <= 0x19D9 || 0x1A80 <= n <= 0x1A89
    || 0x1A90 <= n <= 0x1A99 || 0x1B50 <= n <= 0x1B59 || 0x1BB0 <= n <= 0x1BB9 || 0x1C40 <= n <= 0x1C49
    || 0x1C50 <= n <= 0x1C59 || 0xA620 <= n <= 0xA629 || 0xA8D0 <= n <= 0xA8D9 || 0xA900 <= n <= 0xA909
    || 0xA9D0 <= n <= 0xA9D9 || 0xA9F0 <= n <= 0xA9F9 || 0xAA50 <= n <= 0xAA59 || 0xABF0 <= n <= 0xABF9
    || 0xFF10 <= n <= 0xFF19 || 0x104A0 <= n <= 0x104A9 || 0x10D30 <= n <= 0x10D39 || 0x11066 <= n <= 0x1106F
    || 0x110F0 <= n <= 0x110F9 || 0x11136 <= n <= 0x1113F || 0x111D0 <= n <= 0x111D9 || 0x112F0 <= n <= 0x112F9
    || 0x11450 <= n <= 0x11459 || 0x114D0 <= n <= 0x114D9 || 0x11650 <= n <= 0x11659 || 0x116C0 <= n <= 0x116C9
    || 0x11730 <= n <= 0x11739 || 0x118E0 <= n <= 0x118E9 || 0x11950 <= n <= 0x11959 || 0x11C50 <= n <= 0x11C59
    || 0x11D50 <= n <= 0x11D59 || 0x11DA0 <= n <= 0x11DA9 || 0x11F50 <= n <= 0x11F59 || 0x16A60 <= n <= 0x16A69
    || 0x16AC0 <= n <= 0x16AC9 || 0x16B50 <= n <= 0x16B59 || 0x1D7CE <= n <= 0x1D7D7 || 0x1D7D8 <= n <= 0x1D7E1
    || 0x1D7E2 <= n <= 0x1D7EB || 0x1D7EC <= n <= 0x1D7F5 || 0x1D7F6 <= n <= 0x1D7FF || 0x1E140 <= n <= 0x1E149
    || 0x1E2F0 <= n <= 0x1E2F9 || 0x1E4F0 <= n <= 0x1E4F9 || 0x1E950 <= n <= 0x1E959 || 0x1FBF0 <= n <= 0x1FBF9
  }

  function CountDigits(s: string): (n: nat)
    ensures n <= |s| && (forall k :: 0 <= k < n ==> IsDigit(s[k])) && (n < |s| ==> !IsDigit(s[n]))
  {
    if s != "" && IsDigit(s[0]) then 1 + CountDigits(s[1..]) else 0
  }

  predicate SpaceAt(s: string, i: nat) {
    i < |s| && IsSpace(s[i])
  }

  predicate OpensHeading(s: string) {
    1 <= CountLeading(s, '#') <= 6 && SpaceAt(s, CountLeading(s, '#'))
  }

  predicate OpensBullet(s: string) {
    s != "" && s[0] in {'-', '*', '+'} && SpaceAt(s, 1)
  }

  predicate OpensNumber(s: string) {
    var digits := CountDigits(s);
    0 < digits < |s| && s[digits] == '.' && SpaceAt(s, digits + 1)
  }

  predicate OpensRule(s: string) {
    "---" <= s && Strip(s[3..]) == ""
  }

  /** `_BLOCK_START.match`: a heading, a list item, a table row, a fence or a rule. */
  predicate StartsBlock(line: string) {
    var s := SkipBlanks(line);
    OpensHeading(s) || OpensBullet(s) || OpensNumber(s) || "|" <= s || "```" <= s || OpensRule(s)
  }

  function MarkdownFate(raw: string): Fate {
    var line := Unquoted(raw);
    if Strip(line) == "" then Gap else if StartsBlock(line) then Opens(line) else GoesOn(line)
  }

  /** `_PY_COMMENT.sub("", raw)`. */
  function Uncommented(raw: string): string {
    var s := SkipBlanks(raw);
    if s == "" || s[0] != '#' then raw
    else SkipOneBlank(if |s| > 1 && s[1] == ':' then s[2..] else s[1..])
  }

  function PythonFate(raw: string): Fate {
    if Strip(raw) == "" then Gap else GoesOn(Uncommented(raw))
  }

  /** `_YAML_INLINE_COMMENT.search` from `i`: the comment after the first whitespace and `#`. */
  function InlineComment(raw: string, i: nat): Option<string>
    requires i <= |raw|
    decreases |raw| - i
  {
    if i + 1 >= |raw| then None
    else if IsSpace(raw[i]) && raw[i + 1] == '#' then Some(SkipOneBlank(raw[i + 2..]))
    else InlineComment(raw, i + 1)
  }

  function YamlFate(raw: string): Fate {
    var s := SkipBlanks(raw);
    if s != "" && s[0] == '#' then GoesOn(SkipOneBlank(s[1..]))
    else
      match InlineComment(raw, 0)
      case None => Gap
      case Some(comment) => GoesOn(comment)
  }

  /** `s.replace(old, new)` for a two-character `old` that starts with a backslash. */
  function Unescape(s: string, escaped: char): string {
    if |s| < 2 then s
    else if s[0] == '\\' && s[1] == escaped then [escaped] + Unescape(s[2..], escaped)
    else [s[0]] + Unescape(s[1..], escaped)
  }

  /** JSON's string escapes undone, quotes first. */
  function JsonFate(raw: string): Fate {
    var decoded := Unescape(Unescape(raw, '"'), '\\');
    if Strip(decoded) == "" then Gap else Opens(decoded)
  }

  function FateOf(suffix: Suffix, raw: string): Fate {
    match suffix
    case Markdown => MarkdownFate(raw)
    case Python => PythonFate(raw)
    case Json => JsonFate(raw)
    case Yaml => YamlFate(raw)
  }

  // -- Blocks ------------------------------------------------------------------------------------

  /** The blocks closed so far and the one still open. */
  datatype Groups = Groups(closed: seq<seq<Numbered>>, open: seq<Numbered>)

  function Close(g: Groups): Groups {
    if g.open == [] then g else Groups(g.closed + [g.open], [])
  }

  function Place(g: Groups, number: nat, fate: Fate): Groups {
    match fate
    case Gap => Close(g)
    case Opens(text) => Groups(Close(g).closed, [Numbered(number, text)])
    case GoesOn(text) => Groups(g.closed, g.open + [Numbered(number, text)])
  }

  /** The lines of a file, the first numbered 1, grouped into blocks. */
  function Grouped(suffix: Suffix, raws: seq<string>): Groups {
    if raws == [] then Groups([], [])
    else Place(Grouped(suffix, raws[..|raws| - 1]), |raws|, FateOf(suffix, raws[|raws| - 1]))
  }

  function CollapsedAll(groups: seq<seq<Numbered>>): (r: seq<Block>)
    ensures |r| == |groups|
  {
    if groups == [] then []
    else CollapsedAll(groups[..|groups| - 1]) + [Collapsed(groups[|groups| - 1])]
  }

  function BlocksOf(suffix: Suffix, text: string): seq<Block> {
    CollapsedAll(Close(Grouped(suffix, SplitLines(text))).closed)
  }

  /** `if current: blocks.append(_collapse(current))`. */
  method Flush(blocks: seq<Block>, current: seq<Numbered>, ghost g: Groups) returns (r: seq<Block>)
    requires blocks == CollapsedAll(g.closed) && current == g.open
    ensures r == CollapsedAll(Close(g).closed)
  {
    hide Collapsed;
    r := blocks;
    if current != [] {
      var block := Collapse(current);
      r := r + [block];
      assert Close(g).closed[..|g.closed|] == g.closed;
    }
  }

  /** `_markdown_blocks`. */
  method MarkdownBlocks(text: string) returns (blocks: seq<Block>)
    ensures blocks == BlocksOf(Markdown, text)
  {
    hide SplitLines, CollapsedAll, Unquoted, StartsBlock, Strip;
    var raws := SplitLines(text);
    var current: seq<Numbered> := [];
    ghost var g := Groups([], []);
    blocks := [];
    NothingCollapsed();
    for n := 0 to |raws|
      invariant g == Grouped(Markdown, raws[..n])
      invariant blocks == CollapsedAll(g.closed) && current == g.open
    {
      assert raws[..n + 1][..n] == raws[..n];
      var line := Unquoted(raws[n]);
      g := Grouped(Markdown, raws[..n + 1]);
      if Strip(line) == "" || StartsBlock(line) {
        blocks := Flush(blocks, current, Grouped(Markdown, raws[..n]));
        current := [];
        if Strip(line) == "" {
          continue;
        }
      }
      current := current + [Numbered(n + 1, line)];
    }
    assert raws[..|raws|] == raws;
    blocks := Flush(blocks, current, g);
  }

  lemma NothingCollapsed()
    ensures CollapsedAll([]) == []
  {
  }

  /** `_python_blocks`, for Python and TOML. */
  method PythonBlocks(text: string) returns (blocks: seq<Block>)
    ensures blocks == BlocksOf(Python, text)
  {
    hide SplitLines, CollapsedAll, Uncommented, Strip;
    var raws := SplitLines(text);
    var current: seq<Numbered> := [];
    ghost var g := Groups([], []);
    blocks := [];
    NothingCollapsed();
    for n := 0 to |raws|
      invariant g == Grouped(Python, raws[..n])
      invariant blocks == CollapsedAll(g.closed) && current == g.open
    {
      assert raws[..n + 1][..n] == raws[..n];
      g := Grouped(Python, raws[..n + 1]);
      if Strip(raws[n]) == "" {
        blocks := Flush(blocks, current, Grouped(Python, raws[..n]));
        current := [];
        continue;
      }
      current := current + [Numbered(n + 1, Uncommented(raws[n]))];
    }
    assert raws[..|raws|] == raws;
    blocks := Flush(blocks, current, g);
  }

  /** `_yaml_blocks`. */
  method YamlBlocks(text: string) returns (blocks: seq<Block>)
    ensures blocks == BlocksOf(Yaml, text)
  {
    hide SplitLines, CollapsedAll, YamlFate;
    var raws := SplitLines(text);
    var current: seq<Numbered> := [];
    ghost var g := Groups([], []);
    blocks := [];
    NothingCollapsed();
    for n := 0 to |raws|
      invariant g == Grouped(Yaml, raws[..n])
      invariant blocks == CollapsedAll(g.closed) && current == g.open
    {
      assert raws[..n + 1][..n] == raws[..n];
      g := Grouped(Yaml, raws[..n + 1]);
      var comment := YamlComment(raws[n]);
      if comment.None? {
        blocks := Flush(blocks, current, Grouped(Yaml, raws[..n]));
        current := [];
        continue;
      }
      current := current + [Numbered(n + 1, comment.value)];
    }
    assert raws[..|raws|] == raws;
    blocks := Flush(blocks, current, g);
  }

  /** The comment of a line: a whole-line one, or else an inline one. */
  method YamlComment(raw: string) returns (r: Option<string>)
    ensures YamlFate(raw) == if r.Some? then GoesOn(r.value) else Gap
  {
    var s := SkipBlanks(raw);
    if s != "" && s[0] == '#' {
      r := Some(SkipOneBlank(s[1..]));
    } else {
      r := InlineComment(raw, 0);
    }
  }

  /** `_json_blocks`: every line that is not blank is a block of its own. */
  method JsonBlocks(text: string) returns (blocks: seq<Block>)
    ensures blocks == BlocksOf(Json, text)
  {
    hide SplitLines, CollapsedAll, Unescape, Strip, Collapsed;
    var raws := SplitLines(text);
    ghost var g := Groups([], []);
    blocks := [];
    NothingCollapsed();
    for n := 0 to |raws|
      invariant g == Grouped(Json, raws[..n])
      invariant blocks == CollapsedAll(Close(g).closed)
    {
      assert raws[..n + 1][..n] == raws[..n];
      ghost var before := Close(g).closed;
      g := Grouped(Json, raws[..n + 1]);
      var decoded := Unescape(Unescape(raws[n], '"'), '\\');
      if Strip(decoded) != "" {
        var block := Collapse([Numbered(n + 1, decoded)]);
        assert Close(g).closed == before + [[Numbered(n + 1, decoded)]];
        OneMoreCollapsed(before, [Numbered(n + 1, decoded)]);
        blocks := blocks + [block];
      }
    }
    assert raws[..|raws|] == raws;
  }

  lemma OneMoreCollapsed(groups: seq<seq<Numbered>>, group: seq<Numbered>)
    ensures CollapsedAll(groups + [group]) == CollapsedAll(groups) + [Collapsed(group)]
  {
    hide Collapsed;
    assert (groups + [group])[..|groups|] == groups;
  }

  /** The reader a suffix is given. */
  method Blocks(suffix: Suffix, text: string) returns (blocks: seq<Block>)
    ensures blocks == BlocksOf(suffix, text)
  {
    match suffix
    case Markdown => blocks := MarkdownBlocks(text);
    case Python => blocks := PythonBlocks(text);
    case Json => blocks := JsonBlocks(text);
    case Yaml => blocks := YamlBlocks(text);
  }

  // -- Sentences ---------------------------------------------------------------------------------

  predicate EndsSentence(c: char) {
    c == '.' || c == '!' || c == '?'
  }

  /** `_SENTENCE_END.split`: cut at the whitespace after a full stop, an exclamation or a question mark. */
  function SplitFrom(s: string, start: nat, i: nat): (r: seq<string>)
    requires start <= i <= |s|
    ensures r != []
    decreases |s| - i
  {
    if i == |s| then [s[start..]]
    else if i > 0 && EndsSentence(s[i - 1]) && IsSpace(s[i]) then
      var next := SpaceEnd(s, i + 1);
      [s[start..i]] + SplitFrom(s, next, next)
    else SplitFrom(s, start, i + 1)
  }

  function SplitSentences(s: string): seq<string> {
    SplitFrom(s, 0, 0)
  }
}
