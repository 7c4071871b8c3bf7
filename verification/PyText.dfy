/** The few Python string operations the tools rely on, with the facts the other modules use. */
module PyText {

  datatype Option<+T> = None | Some(value: T)
  datatype Result<+T, +E> = Ok(value: T) | Err(error: E)

  // -- Searching ---------------------------------------------------------------------------------

  /** `sub` occurs in `s` at position `i`. */
  predicate OccursAt(s: string, sub: string, i: int) {
    0 <= i && i + |sub| <= |s| && s[i..i + |sub|] == sub
  }

  /** `s.find(sub, from)`, with `None` for -1: the first occurrence at or after `from`. */
  function FindFrom(s: string, sub: string, from: nat): (r: Option<nat>)
    requires from <= |s|
    ensures r.Some? ==> from <= r.value && OccursAt(s, sub, r.value)
    ensures forall k :: from <= k && OccursAt(s, sub, k) ==> r.Some? && r.value <= k
    decreases |s| - from
  {
    if OccursAt(s, sub, from) then Some(from)
    else if from == |s| then None
    else FindFrom(s, sub, from + 1)
  }

  /** Non-overlapping occurrences from `from` on, scanned left to right. */
  function CountFrom(s: string, sub: string, from: nat): nat
    requires from <= |s| && sub != ""
    decreases |s| - from
  {
    match FindFrom(s, sub, from)
    case None => 0
    case Some(at) => 1 + CountFrom(s, sub, at + |sub|)
  }

  /** `s.count(sub)`: Python counts `len(s) + 1` empty strings. */
  function Count(s: string, sub: string): nat {
    if sub == "" then |s| + 1 else CountFrom(s, sub, 0)
  }

  /** `s.replace(old, new, 1)`. */
  function ReplaceFirst(s: string, old_: string, new_: string): string {
    match FindFrom(s, old_, 0)
    case None => s
    case Some(at) => s[..at] + new_ + s[at + |old_|..]
  }

  predicate Contains(s: string, sub: string) {
    FindFrom(s, sub, 0).Some?
  }

  lemma OccursMeansContains(s: string, sub: string, i: nat)
    requires OccursAt(s, sub, i)
    ensures Contains(s, sub)
  {
  }

  /** A string counted exactly once is found, and a second occurrence can only overlap the first. */
  lemma CountedOnce(s: string, sub: string)
    requires Count(s, sub) == 1
    ensures FindFrom(s, sub, 0).Some?
    ensures forall k :: OccursAt(s, sub, k) ==>
              FindFrom(s, sub, 0).value <= k && (k == FindFrom(s, sub, 0).value || k < FindFrom(s, sub, 0).value + |sub|)
  {
    if sub == "" {
      assert OccursAt(s, sub, 0);
    } else {
      var first := FindFrom(s, sub, 0).value;
      assert CountFrom(s, sub, 0) == 1 + CountFrom(s, sub, first + |sub|);
    }
  }

  /** The converse: a text whose first occurrence is at `i` and whose occurrences all start before `i` ends is counted once. */
  lemma OverlapsCountOnce(s: string, sub: string, i: nat)
    requires sub != "" && OccursAt(s, sub, i)
    requires forall k :: OccursAt(s, sub, k) ==> i <= k < i + |sub|
    ensures Count(s, sub) == 1 && FindFrom(s, sub, 0) == Some(i)
  {
    assert FindFrom(s, sub, 0) == Some(i);
    assert CountFrom(s, sub, i + |sub|) == 0;
    assert CountFrom(s, sub, 0) == 1 + CountFrom(s, sub, i + |sub|);
  }

  // -- Order ------------------------------------------------------------------------------------

  /** Python's order on strings: by code point, a prefix first. */
  predicate Before(a: string, b: string) {
    if b == "" then false
    else if a == "" then true
    else a[0] < b[0] || (a[0] == b[0] && Before(a[1..], b[1..]))
  }

  lemma {:induction false} BeforeTotal(a: string, b: string)
    ensures Before(a, b) || Before(b, a) || a == b
    ensures !(Before(a, b) && Before(b, a)) && (a == b ==> !Before(a, b))
  {
    if a != "" && b != "" {
      BeforeTotal(a[1..], b[1..]);
      assert a == [a[0]] + a[1..] && b == [b[0]] + b[1..];
    }
  }

  lemma {:induction false} BeforeTransitive(a: string, b: string, c: string)
    requires Before(a, b) && Before(b, c)
    ensures Before(a, c)
  {
    if a != "" && a[0] == b[0] == c[0] {
      BeforeTransitive(a[1..], b[1..], c[1..]);
    }
  }

  predicate NamesAscend(names: seq<string>) {
    forall i, j :: 0 <= i < j < |names| ==> Before(names[i], names[j])
  }

  function InsertName(name: string, names: seq<string>): (r: seq<string>)
    requires NamesAscend(names) && name !in names
    ensures NamesAscend(r) && forall x :: x in r <==> x == name || x in names
  {
    if names == [] then [name]
    else
      assert names == [names[0]] + names[1..];
      if Before(name, names[0]) then
        AllAfter(name, names);
        [name] + names
      else
        BeforeTotal(name, names[0]);
        var rest := InsertName(name, names[1..]);
        assert forall i :: 0 <= i < |rest| ==> rest[i] in rest;
        assert forall x :: x in names[1..] ==> Before(names[0], x);
        [names[0]] + rest
  }

  lemma AllAfter(name: string, names: seq<string>)
    requires NamesAscend(names) && names != [] && Before(name, names[0])
    ensures forall i :: 0 <= i < |names| ==> Before(name, names[i])
  {
    forall i | 0 < i < |names|
      ensures Before(name, names[i])
    {
      BeforeTransitive(name, names[0], names[i]);
    }
  }

  /** `sorted(names)`. */
  method SortedNames(names: set<string>) returns (r: seq<string>)
    ensures NamesAscend(r) && forall x :: x in r <==> x in names
  {
    r := [];
    var todo := names;
    while todo != {}
      invariant todo <= names && NamesAscend(r) && forall x :: x in r <==> x in names - todo
      decreases |todo|
    {
      var x :| x in todo;
      r := InsertName(x, r);
      todo := todo - {x};
    }
  }

  // -- Newlines ----------------------------------------------------------------------------------

  predicate HasCR(s: string) {
    '\r' in s
  }

  /** What `Path.read_text` returns: universal newlines, so CR LF and a lone CR both become LF. */
  function Translate(s: string): (r: string)
    ensures !HasCR(r)
    ensures !HasCR(s) <==> r == s
  {
    if s == "" then ""
    else if s[0] == '\r' then
      assert HasCR(s);
      if |s| > 1 && s[1] == '\n' then "\n" + Translate(s[2..]) else "\n" + Translate(s[1..])
    else
      assert s == [s[0]] + s[1..];
      [s[0]] + Translate(s[1..])
  }

  /** Characters `str.splitlines` ends a line at. */
  predicate IsLineBreak(c: char) {
    c in {'\n', '\r', '\U{0B}', '\U{0C}', '\U{1C}', '\U{1D}', '\U{1E}', '\U{85}', '\U{2028}', '\U{2029}'}
  }

  /** `str.isspace` for one character; the `re` class `\s` is the same set. */
  predicate IsSpace(c: char) {
    || '\t' <= c <= '\r'
    || '\U{1C}' <= c <= ' '
    || c in {'\U{85}', '\U{A0}', '\U{1680}', '\U{2028}', '\U{2029}', '\U{202F}', '\U{205F}', '\U{3000}'}
    || '\U{2000}' <= c <= '\U{200A}'
  }

  predicate SingleLine(s: string) {
    forall c :: c in s ==> !IsLineBreak(c)
  }

  /** Index just past the first line break at or after `from`'s line: the end of that line's text. */
  function LineEnd(s: string, from: nat): (e: nat)
    requires from <= |s|
    ensures from <= e <= |s|
    ensures SingleLine(s[from..e])
    ensures e < |s| ==> IsLineBreak(s[e])
    decreases |s| - from
  {
    if from == |s| || IsLineBreak(s[from]) then from
    else
      var e := LineEnd(s, from + 1);
      assert s[from..e] == [s[from]] + s[from + 1..e];
      e
  }

  /** Where the line after a break at `e` starts; CR LF is one break. */
  function AfterBreak(s: string, e: nat): (n: nat)
    requires e < |s|
    ensures e < n <= |s|
  {
    if s[e] == '\r' && e + 1 < |s| && s[e + 1] == '\n' then e + 2 else e + 1
  }

  /** `s[from..].splitlines()`. */
  function LinesFrom(s: string, from: nat): (r: seq<string>)
    requires from <= |s|
    ensures forall line :: line in r ==> SingleLine(line)
    decreases |s| - from
  {
    if from == |s| then []
    else
      var e := LineEnd(s, from);
      if e == |s| then [s[from..]] else [s[from..e]] + LinesFrom(s, AfterBreak(s, e))
  }

  function SplitLines(s: string): (r: seq<string>)
    ensures forall line :: line in r ==> SingleLine(line)
  {
    LinesFrom(s, 0)
  }

  /** `"\n".join(items)`. */
  function JoinLines(items: seq<string>): string {
    if items == [] then "" else if |items| == 1 then items[0]
    else items[0] + "\n" + JoinLines(items[1..])
  }

  // -- Stripping ---------------------------------------------------------------------------------

  function LStrip(s: string): (r: string)
    ensures r != "" ==> !IsSpace(r[0])
    ensures |r| <= |s| && r == s[|s| - |r|..]
    ensures forall k :: 0 <= k < |s| - |r| ==> IsSpace(s[k])
  {
    if s != "" && IsSpace(s[0]) then LStrip(s[1..]) else s
  }

  function RStrip(s: string): (r: string)
    ensures r != "" ==> !IsSpace(r[|r| - 1])
    ensures r <= s
    ensures forall k :: |r| <= k < |s| ==> IsSpace(s[k])
  {
    if s != "" && IsSpace(s[|s| - 1]) then RStrip(s[..|s| - 1]) else s
  }

  /** `s.strip()`. */
  function Strip(s: string): (r: string)
    ensures r != "" ==> !IsSpace(r[0]) && !IsSpace(r[|r| - 1])
  {
    var l := LStrip(s);
    var r := RStrip(l);
    assert r != "" ==> r[0] == l[0];
    r
  }

  // -- Numbers ----------------------------------------------------------------------------------

  /** `str(n)`. */
  function Decimal(n: nat): (r: string)
    ensures r != "" && forall c :: c in r ==> '0' <= c <= '9'
  {
    if n < 10 then [(n as char) + '0'] else Decimal(n / 10) + [((n % 10) as char) + '0']
  }

  /** Digits are read back. */
  lemma {:induction false} DecimalInjective(m: nat, n: nat)
    requires Decimal(m) == Decimal(n)
    ensures m == n
    decreases m
  {
    DecimalStep(m);
    DecimalStep(n);
    if m >= 10 && n >= 10 {
      assert Decimal(m)[..|Decimal(m)| - 1] == Decimal(m / 10);
      assert Decimal(n)[..|Decimal(n)| - 1] == Decimal(n / 10);
      DecimalInjective(m / 10, n / 10);
    }
  }

  lemma DecimalStep(n: nat)
    ensures Decimal(n)[|Decimal(n)| - 1] == ((n % 10) as char) + '0'
    ensures n < 10 <==> |Decimal(n)| == 1
  {
  }

  predicate Free(s: string, c: char) {
    c !in s
  }

  /** Of two cuts of one text, the later lies in the tail of the earlier. */
  lemma LaterCut(x: string, c: char, k: string, y: string, d: char, j: string)
    requires x + [c] + k == y + [d] + j && |x| < |y|
    ensures d in k
  {
    var s := x + [c] + k;
    assert s[|y|] == d && s[|y|] == k[|y| - |x| - 1];
  }

  /** Two texts cut at their last `c`. */
  lemma CutAtLast(x: string, k: string, y: string, j: string, c: char)
    requires x + [c] + k == y + [c] + j && Free(k, c) && Free(j, c)
    ensures x == y && k == j
  {
    if |x| < |y| {
      LaterCut(x, c, k, y, c, j);
    } else if |y| < |x| {
      LaterCut(y, c, j, x, c, k);
    } else {
      var s := x + [c] + k;
      assert s[..|x|] == x && s[..|y|] == y && s[|x| + 1..] == k && s[|y| + 1..] == j;
    }
  }
}
