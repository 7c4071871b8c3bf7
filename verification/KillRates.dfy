/** Kill rates, read back out of the issues the sweep filed (tools/audit/sweep_kill_rates.py). */
module KillRates {
  import opened PyText
  import Delimiters
  import opened SweepFiling
  import opened Verdicts

  const LEGACY_VERDICTS := "## Verdicts"

  datatype ModuleVerdict = ModuleVerdict(path: string, name: string, verdict: string)

  /** Where the reader stands between two lines, and what it has collected. */
  datatype Reader = Reader(fence: nat, inModules: bool, owner: Option<string>, found: seq<ModuleVerdict>)

  const START := Reader(0, false, None, [])

  /** `_FENCE_PATTERN`: three or more ticks, then no tick: how many, and the language. */
  function FenceLine(line: string): Option<(nat, string)> {
    var ticks := Delimiters.RunLength(line, 0);
    if ticks >= 3 && '`' !in line[ticks..] then Some((ticks, line[ticks..])) else None
  }

  /** `_LEGACY_TARGET_PATTERN` on one stripped line. */
  function LegacyTarget(line: string): Option<string> {
    if "- **Target:** " <= line then MatchSpan(line, 14, Dollar) else None
  }

  function FirstTarget(lines: seq<string>): Option<string> {
    if lines == [] then None
    else
      var found := LegacyTarget(Strip(lines[0]));
      if found.Some? then found else FirstTarget(lines[1..])
  }

  /** A verdict line, if one was read, credited to the owner of the region. */
  function Credit(r: Reader, read: Option<(string, string)>): Reader {
    if read.None? || r.owner.None? || ControlVerdict(read.value.0) then r
    else r.(found := r.found + [ModuleVerdict(r.owner.value, read.value.1, read.value.0)])
  }

  /** One stripped line outside every fence. */
  function ReadOpen(legacy: Option<string>, r: Reader, line: string): Reader {
    if line == MODULES_HEADING then r.(inModules := true, owner := None)
    else if line == LEGACY_VERDICTS then r.(inModules := false, owner := legacy)
    else if "## " <= line then r.(inModules := false, owner := None)
    else
      var heading := ParseHeading(line);
      if heading.Some? then r.(owner := if r.inModules then heading else None)
      else Credit(r, ParseVerdictLine(line))
  }

  function ReadLine(legacy: Option<string>, r: Reader, raw: string): Reader {
    var line := Strip(raw);
    match FenceLine(line)
    case Some((ticks, language)) =>
      if r.fence == 0 then r.(fence := ticks)
      else if ticks >= r.fence && Strip(language) == "" then r.(fence := 0)
      else r
    case None => if r.fence == 0 then ReadOpen(legacy, r, line) else r
  }

  function ReadLines(legacy: Option<string>, r: Reader, lines: seq<string>): Reader {
    if lines == [] then r
    else ReadLine(legacy, ReadLines(legacy, r, lines[..|lines| - 1]), lines[|lines| - 1])
  }

  function Parsed(body: string): seq<ModuleVerdict> {
    var lines := SplitLines(body);
    ReadLines(FirstTarget(lines), START, lines).found
  }

  /** The loop that looks for the legacy header line. */
  method FindTarget(lines: seq<string>) returns (legacy: Option<string>)
    ensures legacy == FirstTarget(lines)
  {
    hide LegacyTarget, Strip;
    legacy := None;
    var i := 0;
    while i < |lines| && legacy.None?
      invariant 0 <= i <= |lines|
      invariant FirstTarget(lines) == if legacy.Some? then legacy else FirstTarget(lines[i..])
    {
      legacy := LegacyTarget(Strip(lines[i]));
      i := i + 1;
    }
  }

  /** `parse_body`. */
  method ParseBody(body: string) returns (collected: seq<ModuleVerdict>)
    ensures collected == Parsed(body)
  {
    hide FirstTarget, FenceLine, Strip, ReadOpen, SplitLines;
    var lines := SplitLines(body);
    var legacy := FindTarget(lines);
    var fence, inModules := 0, false;
    var owner: Option<string> := None;
    collected := [];
    for n := 0 to |lines|
      invariant Reader(fence, inModules, owner, collected) == ReadLines(legacy, START, lines[..n])
    {
      assert lines[..n + 1][..n] == lines[..n];
      var line := Strip(lines[n]);
      var mark := FenceLine(line);
      if mark.Some? {
        if fence == 0 {
          fence := mark.value.0;
        } else if mark.value.0 >= fence && Strip(mark.value.1) == "" {
          fence := 0;
        }
      } else if fence == 0 {
        inModules, owner, collected := Attribute(legacy, inModules, owner, collected, line);
      }
    }
    assert lines[..|lines|] == lines;
  }

  /** The body of the reading loop, for one line outside every fence. */
  method Attribute(legacy: Option<string>, inModules: bool, owner: Option<string>, collected: seq<ModuleVerdict>,
                   line: string)
    returns (inModules': bool, owner': Option<string>, collected': seq<ModuleVerdict>)
    ensures Reader(0, inModules', owner', collected') == ReadOpen(legacy, Reader(0, inModules, owner, collected), line)
  {
    hide ParseHeading, ParseVerdictLine;
    inModules', owner', collected' := inModules, owner, collected;
    if line == MODULES_HEADING {
      inModules', owner' := true, None;
      return;
    }
    if line == LEGACY_VERDICTS {
      inModules', owner' := false, legacy;
      return;
    }
    if "## " <= line {
      inModules', owner' := false, None;
      return;
    }
    var heading := ParseHeading(line);
    if heading.Some? {
      owner' := if inModules then heading else None;
      return;
    }
    var verdict := ParseVerdictLine(line);
    if verdict.None? || ControlVerdict(verdict.value.0) || owner.None? {
      return;
    }
    collected' := collected + [ModuleVerdict(owner.value, verdict.value.1, verdict.value.0)];
  }

  // -- Rates -------------------------------------------------------------------------------------

  /** One module's row: the issues it was seen in, and its verdicts by kind. */
  datatype Row = Row(issues: set<int>, killed: nat, unheld: nat, other: nat)

  const NO_ROW := Row({}, 0, 0, 0)

  /** `tally`'s step: one verdict more in a row. */
  function Counted(row: Row, issue: int, verdict: string): Row {
    var r := row.(issues := row.issues + {issue});
    if verdict == "KILLED" then r.(killed := r.killed + 1)
    else if Unheld(verdict) then r.(unheld := r.unheld + 1)
    else r.(other := r.other + 1)
  }

  /** A verdict of the module that is one of `verdicts`, or, when not `listed`, any other. */
  predicate Falls(v: ModuleVerdict, path: string, verdicts: set<string>, listed: bool) {
    v.path == path && (v.verdict in verdicts) == listed
  }

  /** Where such verdicts are. */
  function Where(path: string, verdicts: set<string>, listed: bool, seen: seq<(int, ModuleVerdict)>): set<nat> {
    set i: nat | i < |seen| && Falls(seen[i].1, path, verdicts, listed)
  }

  /** The issues in which a module has a verdict. */
  function IssuesOf(path: string, seen: seq<(int, ModuleVerdict)>): set<int> {
    set i: nat | i < |seen| && seen[i].1.path == path :: seen[i].0
  }

  /**
   The row of `path` over every verdict of the issues: its KILLED verdicts, its SURVIVED and HUNG ones and
   its others, each counted apart, and the issues it has a verdict in.
   */
  function RowOf(path: string, seen: seq<(int, ModuleVerdict)>): Row {
    Row(IssuesOf(path, seen),
        |Where(path, {"KILLED"}, true, seen)|,
        |Where(path, {"SURVIVED", "HUNG"}, true, seen)|,
        |Where(path, {"KILLED", "SURVIVED", "HUNG"}, false, seen)|)
  }

  /** One verdict more. */
  lemma WhereGrows(path: string, verdicts: set<string>, listed: bool, seen: seq<(int, ModuleVerdict)>)
    requires seen != []
    ensures var n := |seen| - 1;
            |Where(path, verdicts, listed, seen)|
            == |Where(path, verdicts, listed, seen[..n])| + (if Falls(seen[n].1, path, verdicts, listed) then 1 else 0)
  {
    hide Falls;
    var n := |seen| - 1;
    var here := Where(path, verdicts, listed, seen[..n]);
    assert Where(path, verdicts, listed, seen)
        == if Falls(seen[n].1, path, verdicts, listed) then here + {n} else here;
  }

  lemma IssuesGrow(path: string, seen: seq<(int, ModuleVerdict)>)
    requires seen != []
    ensures var n := |seen| - 1;
            IssuesOf(path, seen) == IssuesOf(path, seen[..n]) + if seen[n].1.path == path then {seen[n].0} else {}
  {
    var n := |seen| - 1;
    var before := IssuesOf(path, seen[..n]);
    forall issue | issue in before
      ensures issue in IssuesOf(path, seen)
    {
      var i: nat :| i < n && seen[..n][i].1.path == path && seen[..n][i].0 == issue;
      assert seen[i] == seen[..n][i];
    }
    forall issue | issue in IssuesOf(path, seen) && !(seen[n].1.path == path && issue == seen[n].0)
      ensures issue in before
    {
      var i: nat :| i < |seen| && seen[i].1.path == path && seen[i].0 == issue;
      assert seen[i] == seen[..n][i];
    }
  }

  lemma OneCounted(row: Row, issue: int, v: ModuleVerdict)
    ensures var r, path := Counted(row, issue, v.verdict), v.path;
            && r.issues == row.issues + {issue}
            && r.killed == row.killed + (if Falls(v, path, {"KILLED"}, true) then 1 else 0)
            && r.unheld == row.unheld + (if Falls(v, path, {"SURVIVED", "HUNG"}, true) then 1 else 0)
            && r.other == row.other + (if Falls(v, path, {"KILLED", "SURVIVED", "HUNG"}, false) then 1 else 0)
  {
  }

  lemma NotOfThePath(v: ModuleVerdict, path: string, verdicts: set<string>, listed: bool)
    requires v.path != path
    ensures !Falls(v, path, verdicts, listed)
  {
  }

  /** Counting one verdict more is the row of the verdicts with that one more. */
  lemma RowGrows(path: string, seen: seq<(int, ModuleVerdict)>)
    requires seen != []
    ensures var n := |seen| - 1;
            RowOf(path, seen) == if seen[n].1.path == path then Counted(RowOf(path, seen[..n]), seen[n].0, seen[n].1.verdict)
                                 else RowOf(path, seen[..n])
  {
    var n := |seen| - 1;
    hide Counted, Where, IssuesOf, Falls;
    OneCounted(RowOf(path, seen[..n]), seen[n].0, seen[n].1);
    WhereGrows(path, {"KILLED"}, true, seen);
    WhereGrows(path, {"SURVIVED", "HUNG"}, true, seen);
    WhereGrows(path, {"KILLED", "SURVIVED", "HUNG"}, false, seen);
    IssuesGrow(path, seen);
    if seen[n].1.path != path {
      NotOfThePath(seen[n].1, path, {"KILLED"}, true);
      NotOfThePath(seen[n].1, path, {"SURVIVED", "HUNG"}, true);
      NotOfThePath(seen[n].1, path, {"KILLED", "SURVIVED", "HUNG"}, false);
    }
  }

  /** Every verdict of every issue, in reading order. */
  function Seen(issues: seq<(int, string)>): seq<(int, ModuleVerdict)> {
    if issues == [] then []
    else
      var (issue, body) := issues[|issues| - 1];
      Seen(issues[..|issues| - 1]) + Tagged(issue, Parsed(body))
  }

  function Tagged(issue: int, found: seq<ModuleVerdict>): (r: seq<(int, ModuleVerdict)>)
    ensures |r| == |found| && forall i :: 0 <= i < |r| ==> r[i] == (issue, found[i])
  {
    seq(|found|, i requires 0 <= i < |found| => (issue, found[i]))
  }

  /** The rows hold exactly the verdicts seen: one row a module that has any, none for the others. */
  ghost predicate Tallied(rows: map<string, Row>, seen: seq<(int, ModuleVerdict)>) {
    forall path ::
      (path in rows <==> IssuesOf(path, seen) != {}) && (path in rows ==> rows[path] == RowOf(path, seen))
  }

  lemma NoVerdictNoRow(path: string, seen: seq<(int, ModuleVerdict)>)
    requires IssuesOf(path, seen) == {}
    ensures RowOf(path, seen) == NO_ROW
  {
    assert forall i: nat :: i < |seen| && seen[i].1.path == path ==> seen[i].0 in IssuesOf(path, seen);
    assert Where(path, {"KILLED"}, true, seen) == {} && Where(path, {"SURVIVED", "HUNG"}, true, seen) == {}
      && Where(path, {"KILLED", "SURVIVED", "HUNG"}, false, seen) == {};
  }

  lemma OneMoreTallied(rows: map<string, Row>, seen: seq<(int, ModuleVerdict)>, issue: int, v: ModuleVerdict)
    requires Tallied(rows, seen)
    ensures var row := if v.path in rows then rows[v.path] else NO_ROW;
            Tallied(rows[v.path := Counted(row, issue, v.verdict)], seen + [(issue, v)])
  {
    hide RowOf, Counted, IssuesOf;
    var row, more := if v.path in rows then rows[v.path] else NO_ROW, seen + [(issue, v)];
    if v.path !in rows {
      NoVerdictNoRow(v.path, seen);
    }
    assert more[..|seen|] == seen;
    forall path
      ensures var after := rows[v.path := Counted(row, issue, v.verdict)];
              (path in after <==> IssuesOf(path, more) != {}) && (path in after ==> after[path] == RowOf(path, more))
    {
      RowGrows(path, more);
      IssuesGrow(path, more);
    }
  }

  /** The inner loop of `tally`, over one issue. */
  method AddIssue(rows: map<string, Row>, issue: int, found: seq<ModuleVerdict>, ghost before: seq<(int, ModuleVerdict)>)
    returns (after: map<string, Row>)
    requires Tallied(rows, before)
    ensures Tallied(after, before + Tagged(issue, found))
  {
    hide Tallied, Counted;
    ghost var tagged := Tagged(issue, found);
    after := rows;
    assert before + tagged[..0] == before;
    for i := 0 to |found|
      invariant Tallied(after, before + tagged[..i])
    {
      var v := found[i];
      var row := if v.path in after then after[v.path] else NO_ROW;
      OneMoreTallied(after, before + tagged[..i], issue, v);
      assert before + tagged[..i + 1] == before + tagged[..i] + [(issue, v)];
      after := after[v.path := Counted(row, issue, v.verdict)];
    }
    assert tagged[..|found|] == tagged;
  }

  /** `tally`. */
  method TallyIssues(issues: seq<(int, string)>) returns (rows: map<string, Row>)
    ensures Tallied(rows, Seen(issues))
  {
    hide RowOf, ReadLines;
    rows := map[];
    for n := 0 to |issues|
      invariant Tallied(rows, Seen(issues[..n]))
    {
      var (issue, body) := issues[n];
      var found := ParseBody(body);
      assert issues[..n + 1][..n] == issues[..n];
      rows := AddIssue(rows, issue, found, Seen(issues[..n]));
    }
    assert issues[..|issues|] == issues;
  }
}
