/** What the reader makes of an issue the sweep filed. */
module KillRatesLaws {
  import opened PyText
  import TextLines
  import opened Delimiters
  import opened SweepFiling
  import opened KillRates

  // -- Reading item by item ----------------------------------------------------------------------

  lemma {:induction false} ReadAppend(legacy: Option<string>, r: Reader, a: seq<string>, b: seq<string>)
    ensures ReadLines(legacy, r, a + b) == ReadLines(legacy, ReadLines(legacy, r, a), b)
  {
    hide ReadLine;
    if b == [] {
      assert a + b == a;
    } else {
      var last := |b| - 1;
      assert (a + b)[..|a| + last] == a + b[..last] && (a + b)[|a| + last] == b[last];
      ReadAppend(legacy, r, a, b[..last]);
    }
  }

  /** What a reader makes of one item of the body, which may span several lines. */
  function ReadItem(legacy: Option<string>, r: Reader, item: string): Reader {
    ReadLines(legacy, r, SplitLines(item + "\n"))
  }

  function ReadItems(legacy: Option<string>, r: Reader, items: seq<string>): Reader
    decreases |items|
  {
    if items == [] then r else ReadItems(legacy, ReadItem(legacy, r, items[0]), items[1..])
  }

  lemma {:induction false} ItemsAreLines(legacy: Option<string>, r: Reader, items: seq<string>)
    ensures ReadLines(legacy, r, TextLines.AllLines(items)) == ReadItems(legacy, r, items)
    decreases |items|
  {
    hide SplitLines, ReadLine;
    if items != [] {
      ReadAppend(legacy, r, SplitLines(items[0] + "\n"), TextLines.AllLines(items[1..]));
      ItemsAreLines(legacy, ReadItem(legacy, r, items[0]), items[1..]);
    }
  }

  lemma {:induction false} ReadItemsAppend(legacy: Option<string>, r: Reader, a: seq<string>, b: seq<string>)
    ensures ReadItems(legacy, r, a + b) == ReadItems(legacy, ReadItems(legacy, r, a), b)
    decreases |a|
  {
    hide ReadItem;
    if a == [] {
      assert a + b == b;
    } else {
      assert (a + b)[0] == a[0] && (a + b)[1..] == a[1..] + b;
      ReadItemsAppend(legacy, ReadItem(legacy, r, a[0]), a[1..], b);
    }
  }

  lemma ReadSingle(legacy: Option<string>, r: Reader, line: string)
    ensures ReadLines(legacy, r, [line]) == ReadLine(legacy, r, line)
  {
    hide ReadLine;
    assert [line][..0] == [];
    assert ReadLines(legacy, r, [line]) == ReadLine(legacy, ReadLines(legacy, r, []), line);
  }

  lemma ReadOne(legacy: Option<string>, r: Reader, x: string)
    requires SingleLine(x)
    ensures ReadItem(legacy, r, x) == ReadLine(legacy, r, x)
  {
    hide SplitLines, ReadLine, ReadLines, SingleLine;
    TextLines.SplitOne(x);
    ReadSingle(legacy, r, x);
  }

  // -- Lines that attribute nothing --------------------------------------------------------------

  /** Prose: blank, or opening with a character no pattern opens with. */
  predicate Plain(x: string) {
    SingleLine(x) && (x == "" || (!IsSpace(x[0]) && x[0] !in {'#', '-', '`'}))
  }

  lemma NotAFence(line: string)
    requires line == "" || line[0] != '`'
    ensures FenceLine(line) == None
  {
    RunIs(line, 0, 0);
  }

  /** What a stripped line outside every fence is read as, by its first character. */
  lemma OpenInert(legacy: Option<string>, r: Reader, line: string)
    requires line == "" || (line[0] != '#' && (line[0] == '-' ==> r.owner.None?))
    ensures ReadOpen(legacy, r, line) == r
  {
    hide ParseHeading, ParseVerdictLine, MatchSpan;
    assert line != MODULES_HEADING && line != LEGACY_VERDICTS && !("## " <= line);
    assert ParseHeading(line) == None && (line == "" || line[0] != '-' ==> ParseVerdictLine(line) == None) by {
      PlainParses(line);
    }
  }

  lemma PlainParses(line: string)
    ensures line == "" || line[0] != '#' ==> ParseHeading(line) == None
    ensures line == "" || line[0] != '-' ==> ParseVerdictLine(line) == None
  {
    hide MatchSpan, FieldAndLabel;
  }

  /** A line whose stripped form no pattern opens. */
  lemma InertLine(legacy: Option<string>, r: Reader, x: string)
    requires SingleLine(x)
    requires var line := Strip(x);
             line == "" || (line[0] !in {'#', '`'} && (line[0] == '-' ==> r.owner.None?))
    ensures ReadItem(legacy, r, x) == r
  {
    hide Strip, FenceLine, SplitLines, ReadItem, SingleLine, ReadOpen;
    ReadOne(legacy, r, x);
    NotAFence(Strip(x));
    OpenInert(legacy, r.(fence := 0), Strip(x));
  }

  lemma StrippedBlank()
    ensures Strip("") == ""
  {
  }

  lemma PlainIsInert(legacy: Option<string>, r: Reader, x: string)
    requires Plain(x)
    ensures ReadItem(legacy, r, x) == r
  {
    hide Strip, ReadItem, SingleLine, IsSpace;
    if x == "" {
      StrippedBlank();
    } else {
      TextLines.StripKeeps(x);
    }
    InertLine(legacy, r, x);
  }

  /** A bullet outside every region, whatever it says. */
  predicate Bullet(x: string) {
    SingleLine(x) && x != "" && x[0] == '-'
  }

  lemma UnownedBullet(legacy: Option<string>, r: Reader, x: string)
    requires Bullet(x) && r.owner.None?
    ensures ReadItem(legacy, r, x) == r
  {
    assert !IsSpace('-');
    hide Strip, ReadItem, SingleLine, IsSpace;
    TextLines.StripKeeps(x);
    InertLine(legacy, r, x);
  }

  lemma {:induction false} InertItems(legacy: Option<string>, r: Reader, items: seq<string>)
    requires forall i :: 0 <= i < |items| ==> Plain(items[i]) || (Bullet(items[i]) && r.owner.None?)
    ensures ReadItems(legacy, r, items) == r
    decreases |items|
  {
    hide Plain, Bullet, ReadItem;
    if items != [] {
      if Plain(items[0]) {
        PlainIsInert(legacy, r, items[0]);
      } else {
        UnownedBullet(legacy, r, items[0]);
      }
      InertItems(legacy, r, items[1..]);
    }
  }

  /** A line with no edge space that opens with no tick is read as it stands. */
  lemma ReadAsItStands(legacy: Option<string>, r: Reader, x: string)
    requires SingleLine(x) && x != "" && !IsSpace(x[0]) && !IsSpace(x[|x| - 1]) && x[0] != '`' && r.fence == 0
    ensures ReadItem(legacy, r, x) == ReadOpen(legacy, r, x)
  {
    TextLines.StripKeeps(x);
    hide Strip, FenceLine, SplitLines, ReadItem, SingleLine, ReadOpen, IsSpace;
    ReadOne(legacy, r, x);
    NotAFence(x);
  }

  /** A section heading that opens no region closes the one that was open. */
  lemma SectionCloses(legacy: Option<string>, r: Reader, x: string)
    requires SingleLine(x) && "## " <= x && !IsSpace(x[|x| - 1]) && x != MODULES_HEADING && x != LEGACY_VERDICTS
    requires r.fence == 0
    ensures ReadItem(legacy, r, x) == r.(inModules := false, owner := None)
  {
    assert !IsSpace(x[0]);
    hide ReadItem, SingleLine, ParseHeading, ParseVerdictLine, IsSpace;
    ReadAsItStands(legacy, r, x);
  }

  lemma ModulesOpen(legacy: Option<string>, r: Reader)
    requires r.fence == 0
    ensures ReadItem(legacy, r, MODULES_HEADING) == r.(inModules := true, owner := None)
  {
    assert SingleLine(MODULES_HEADING);
    hide ReadItem, SingleLine, ParseHeading, ParseVerdictLine;
    ReadAsItStands(legacy, r, MODULES_HEADING);
  }

  // -- Fenced blocks -----------------------------------------------------------------------------

  /** A language a fence may carry: one line, no tick. */
  predicate Language(x: string) {
    SingleLine(x) && '`' !in x
  }

  lemma TicksAreNoBreaks(n: nat)
    ensures SingleLine(Ticks(n)) && '`' !in Ticks(n)[n..]
  {
  }

  lemma SingleLineConcat(a: string, b: string)
    requires SingleLine(a) && SingleLine(b)
    ensures SingleLine(a + b)
  {
  }

  /** What is left of a line of `n` ticks and a language once stripped. */
  lemma OpenerStripped(n: nat, language: string)
    requires n > 0 && Language(language)
    ensures var s := Strip(Ticks(n) + language);
            n <= |s| && TicksAt(s, 0, n) && '`' !in s[n..] && (language == "" ==> s[n..] == "")
  {
    var line := Ticks(n) + language;
    assert forall k :: 0 <= k < n ==> !IsSpace(line[k]);
    hide Strip, IsSpace, SingleLine;
    TextLines.StripKeeps(line);
    TrimmedTicks(Strip(line), n, language);
  }

  /** A line of ticks and a language, cut off behind its last character that is no space. */
  lemma TrimmedTicks(s: string, n: nat, language: string)
    requires s <= Ticks(n) + language && '`' !in language
    requires forall k :: |s| <= k < n + |language| ==> IsSpace((Ticks(n) + language)[k])
    requires n > 0 && !IsSpace((Ticks(n) + language)[n - 1])
    ensures n <= |s| && TicksAt(s, 0, n) && '`' !in s[n..] && (language == "" ==> s[n..] == "")
  {
    var line := Ticks(n) + language;
    hide IsSpace;
    assert |s| >= n;
    assert forall k :: 0 <= k < |s| ==> s[k] == line[k];
    assert s[n..] == language[..|s| - n];
  }

  lemma TicksAreAFence(s: string, n: nat)
    requires 3 <= n <= |s| && TicksAt(s, 0, n) && '`' !in s[n..]
    ensures FenceLine(s) == Some((n, s[n..]))
  {
    assert n < |s| ==> s[n] == s[n..][0];
    hide TicksAt;
    RunIs(s, 0, n);
    hide RunLength;
  }

  /** A line of `n` ticks and a language, as the fence pattern sees it once stripped. */
  lemma OpenerIsAFence(n: nat, language: string)
    requires n >= 3 && Language(language)
    ensures FenceLine(Strip(Ticks(n) + language)).Some?
    ensures FenceLine(Strip(Ticks(n) + language)).value.0 == n
    ensures language == "" ==> FenceLine(Strip(Ticks(n) + language)).value.1 == ""
  {
    hide *;
    OpenerStripped(n, language);
    TicksAreAFence(Strip(Ticks(n) + language), n);
  }

  /** A stripped line lies inside the line. */
  lemma StripWithin(line: string) returns (skipped: nat)
    ensures OccursAt(line, Strip(line), skipped)
  {
    skipped := |line| - |LStrip(line)|;
    StripParts(line);
    hide *;
    PrefixOccurs(line, skipped, Strip(line));
  }

  lemma StripParts(line: string)
    ensures |LStrip(line)| <= |line| && Strip(line) <= line[|line| - |LStrip(line)|..]
  {
    hide IsSpace;
  }

  lemma PrefixOccurs(line: string, k: nat, part: string)
    requires k <= |line| && part <= line[k..]
    ensures OccursAt(line, part, k)
  {
    assert line[k..k + |part|] == line[k..][..|part|];
  }

  lemma OccursWithin(s: string, t: string, u: string, i: nat, j: nat)
    requires OccursAt(s, t, i) && OccursAt(t, u, j)
    ensures OccursAt(s, u, i + j)
  {
    forall k | 0 <= k < |u|
      ensures s[i + j..i + j + |u|][k] == u[k]
    {
      assert s[i..i + |t|][j + k] == t[j..j + |u|][k];
    }
  }

  lemma TicksWithin(whole: string, s: string, q: nat, n: nat)
    requires OccursAt(whole, s, q) && TicksAt(s, 0, n)
    ensures TicksAt(whole, q, n)
  {
    forall k | q <= k < q + n
      ensures whole[k] == '`'
    {
      assert whole[q..q + |s|][k - q] == s[k - q];
    }
  }

  lemma TicksBeforeNewline(text: string, q: nat, n: nat)
    requires n > 0 && TicksAt(text + "\n", q, n)
    ensures TicksAt(text, q, n)
  {
    var whole := text + "\n";
    assert q + n <= |text| by {
      assert whole[q + n - 1] == '`' && whole[|text|] == '\n';
    }
    assert forall k :: q <= k < q + n ==> whole[k] == text[k];
  }

  lemma FenceTicks(line: string)
    requires FenceLine(line).Some?
    ensures FenceLine(line).value.0 >= 3 && TicksAt(line, 0, FenceLine(line).value.0)
  {
  }

  /** A fence line taken from a text has no more ticks than the text's longest run. */
  lemma InnerFence(text: string, line: string, at: nat)
    requires OccursAt(text + "\n", line, at)
    requires FenceLine(Strip(line)).Some?
    ensures FenceLine(Strip(line)).value.0 <= Longest(text)
  {
    hide *;
    var s, ticks := Strip(line), FenceLine(Strip(line)).value.0;
    FenceTicks(s);
    var skipped := StripWithin(line);
    OccursWithin(text + "\n", line, s, at, skipped);
    TicksWithin(text + "\n", s, at + skipped, ticks);
    TicksBeforeNewline(text, at + skipped, ticks);
  }

  /** Lines that cannot close the open fence leave the reader where it stood. */
  lemma {:induction false} StaysInside(legacy: Option<string>, r: Reader, lines: seq<string>)
    requires r.fence > 0
    requires forall i :: 0 <= i < |lines| && FenceLine(Strip(lines[i])).Some? ==>
               FenceLine(Strip(lines[i])).value.0 < r.fence
    ensures ReadLines(legacy, r, lines) == r
  {
    hide FenceLine, Strip, ReadOpen;
    if lines != [] {
      StaysInside(legacy, r, lines[..|lines| - 1]);
      assert ReadLine(legacy, r, lines[|lines| - 1]) == r;
    }
  }

  lemma TextStaysInside(legacy: Option<string>, r: Reader, text: string)
    requires r.fence > Longest(text)
    ensures ReadLines(legacy, r, SplitLines(text + "\n")) == r
  {
    var lines := SplitLines(text + "\n");
    hide *;
    forall i | 0 <= i < |lines| && FenceLine(Strip(lines[i])).Some?
      ensures FenceLine(Strip(lines[i])).value.0 < r.fence
    {
      var at := LineOf(text + "\n", i);
      InnerFence(text, lines[i], at);
    }
    StaysInside(legacy, r, lines);
  }

  lemma LineOf(s: string, i: nat) returns (at: nat)
    requires i < |SplitLines(s)|
    ensures OccursAt(s, SplitLines(s)[i], at)
  {
    at := TextLines.LinesLieWithin(s, 0, i);
  }

  lemma BlockLines(text: string, language: string)
    requires Language(language)
    ensures var fence := Fence(text, 3);
            SplitLines(FencedBlock(text, language) + "\n")
            == [fence + language] + SplitLines(text + "\n") + [fence]
  {
    var fence := Fence(text, 3);
    var first, middle, last := fence + language + "\n", text + "\n", fence + "\n";
    TicksAreNoBreaks(|fence|);
    SingleLineConcat(fence, language);
    TextLines.SplitOne(fence + language);
    TextLines.SplitOne(fence);
    assert FencedBlock(text, language) + "\n" == first + (middle + last);
    assert TextLines.Ended(first) && TextLines.Ended(middle);
    hide *;
    TextLines.SplitAppend(first, middle + last);
    TextLines.SplitAppend(middle, last);
  }

  lemma FenceOpens(legacy: Option<string>, r: Reader, line: string)
    requires r.fence == 0 && FenceLine(Strip(line)).Some?
    ensures ReadLines(legacy, r, [line]) == r.(fence := FenceLine(Strip(line)).value.0)
  {
    ReadSingle(legacy, r, line);
    hide Strip, FenceLine, ReadOpen, ReadLines;
  }

  lemma FenceCloses(legacy: Option<string>, r: Reader, line: string)
    requires r.fence > 0 && FenceLine(Strip(line)).Some?
    requires FenceLine(Strip(line)).value.0 >= r.fence && FenceLine(Strip(line)).value.1 == ""
    ensures ReadLines(legacy, r, [line]) == r.(fence := 0)
  {
    assert Strip("") == "";
    ReadSingle(legacy, r, line);
    hide Strip, FenceLine, ReadOpen, ReadLines;
  }

  /** The two fences of a block, as the reader meets them. */
  lemma FencesOpenAndClose(legacy: Option<string>, r: Reader, n: nat, language: string)
    requires r.fence == 0 && n >= 3 && Language(language)
    ensures ReadLines(legacy, r, [Ticks(n) + language]) == r.(fence := n)
    ensures ReadLines(legacy, r.(fence := n), [Ticks(n)]) == r
  {
    assert Language("");
    assert Ticks(n) + "" == Ticks(n);
    hide *;
    OpenerIsAFence(n, language);
    OpenerIsAFence(n, "");
    FenceOpens(legacy, r, Ticks(n) + language);
    FenceCloses(legacy, r.(fence := n), Ticks(n));
  }

  /** A fenced block attributes nothing and leaves the fence closed, whatever text it holds. */
  lemma BlockIsInert(legacy: Option<string>, r: Reader, text: string, language: string)
    requires r.fence == 0 && Language(language)
    ensures ReadItem(legacy, r, FencedBlock(text, language)) == r
  {
    var fence := Fence(text, 3);
    var n := |fence|;
    assert fence == Ticks(n);
    assert ReadItem(legacy, r, FencedBlock(text, language))
        == ReadLines(legacy, r, SplitLines(FencedBlock(text, language) + "\n"));
    hide *;
    BlockLines(text, language);
    FencesOpenAndClose(legacy, r, n, language);
    TextStaysInside(legacy, r.(fence := n), text);
    ReadAppend(legacy, r, [fence + language], SplitLines(text + "\n"));
    ReadAppend(legacy, r, [fence + language] + SplitLines(text + "\n"), [fence]);
  }

  // -- Nothing is lost in the tally --------------------------------------------------------------

  function CountOf(row: Row): nat {
    row.killed + row.unheld + row.other
  }

  /** The verdicts counted in the rows of these modules. */
  ghost function CountedIn(rows: map<string, Row>, paths: set<string>): nat
    requires paths <= rows.Keys
    decreases |paths|
  {
    if paths == {} then 0
    else
      var path :| path in paths;
      CountOf(rows[path]) + CountedIn(rows, paths - {path})
  }

  lemma {:induction false} CountedApart(rows: map<string, Row>, paths: set<string>, path: string)
    requires path in paths && paths <= rows.Keys
    ensures CountedIn(rows, paths) == CountOf(rows[path]) + CountedIn(rows, paths - {path})
    decreases |paths|
  {
    var first :| first in paths && CountedIn(rows, paths) == CountOf(rows[first]) + CountedIn(rows, paths - {first});
    if first != path {
      CountedApart(rows, paths - {first}, path);
      CountedApart(rows, paths - {path}, first);
      assert paths - {first} - {path} == paths - {path} - {first};
    }
  }

  /** How many of the verdicts seen are of these modules. */
  function SeenIn(paths: set<string>, seen: seq<(int, ModuleVerdict)>): nat {
    if seen == [] then 0
    else SeenIn(paths, seen[..|seen| - 1]) + if seen[|seen| - 1].1.path in paths then 1 else 0
  }

  lemma {:induction false} SeenApart(paths: set<string>, path: string, seen: seq<(int, ModuleVerdict)>)
    requires path in paths
    ensures SeenIn(paths, seen) == SeenIn({path}, seen) + SeenIn(paths - {path}, seen)
  {
    if seen != [] {
      SeenApart(paths, path, seen[..|seen| - 1]);
    }
  }

  lemma CountedOnce(row: Row, issue: int, verdict: string)
    ensures CountOf(Counted(row, issue, verdict)) == CountOf(row) + 1
  {
  }

  lemma LastSeen(path: string, seen: seq<(int, ModuleVerdict)>)
    requires seen != []
    ensures SeenIn({path}, seen) == SeenIn({path}, seen[..|seen| - 1]) + if seen[|seen| - 1].1.path == path then 1 else 0
  {
  }

  lemma NoneCounted(path: string)
    ensures CountOf(RowOf(path, [])) == SeenIn({path}, [])
  {
    NoVerdictNoRow(path, []);
  }

  lemma {:induction false} RowCounts(path: string, seen: seq<(int, ModuleVerdict)>)
    ensures CountOf(RowOf(path, seen)) == SeenIn({path}, seen)
  {
    if seen == [] {
      NoneCounted(path);
    } else {
      hide *;
      var n := |seen| - 1;
      RowCounts(path, seen[..n]);
      LastSeen(path, seen);
      RowGrows(path, seen);
      CountedOnce(RowOf(path, seen[..n]), seen[n].0, seen[n].1.verdict);
    }
  }

  lemma {:induction false} NoneSeenIn(seen: seq<(int, ModuleVerdict)>)
    ensures SeenIn({}, seen) == 0
  {
    if seen != [] {
      NoneSeenIn(seen[..|seen| - 1]);
    }
  }

  lemma {:induction false} CountedAreSeen(rows: map<string, Row>, paths: set<string>, seen: seq<(int, ModuleVerdict)>)
    requires paths <= rows.Keys && forall path :: path in paths ==> rows[path] == RowOf(path, seen)
    ensures CountedIn(rows, paths) == SeenIn(paths, seen)
    decreases |paths|
  {
    hide RowOf, SeenIn, CountOf;
    if path :| path in paths {
      CountedApart(rows, paths, path);
      SeenApart(paths, path, seen);
      RowCounts(path, seen);
      CountedAreSeen(rows, paths - {path}, seen);
    } else {
      NoneSeenIn(seen);
    }
  }

  lemma {:induction false} AllSeenIn(paths: set<string>, seen: seq<(int, ModuleVerdict)>)
    requires forall i :: 0 <= i < |seen| ==> seen[i].1.path in paths
    ensures SeenIn(paths, seen) == |seen|
  {
    if seen != [] {
      AllSeenIn(paths, seen[..|seen| - 1]);
    }
  }

  /** Killed, unheld and other, over all the rows of a tally, are every verdict seen in the issues, once each. */
  lemma TallyConserves(rows: map<string, Row>, seen: seq<(int, ModuleVerdict)>)
    requires Tallied(rows, seen)
    ensures CountedIn(rows, rows.Keys) == |seen|
  {
    hide RowOf, CountOf;
    forall i | 0 <= i < |seen|
      ensures seen[i].1.path in rows.Keys
    {
      assert seen[i].0 in IssuesOf(seen[i].1.path, seen);
    }
    CountedAreSeen(rows, rows.Keys, seen);
    AllSeenIn(rows.Keys, seen);
  }
}
