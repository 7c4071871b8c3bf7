/** Where two JSON trees disagree (tools/eval/metrics.py, tools/eval/report.py). */
module Metrics {
  import PyText

  datatype Json =
    | Null | Bool(b: bool) | Number(n: real) | Str(s: string) | Arr(items: seq<Json>) | Obj(fields: map<string, Json>)

  /** Python compares a truth value as the number 0 or 1. */
  function AsNumber(v: Json): Json {
    if v.Bool? then Number(if v.b then 1.0 else 0.0) else v
  }

  /** `==` on decoded JSON. */
  predicate PyEq(l: Json, r: Json)
    decreases l
  {
    if l.Obj? && r.Obj? then
      && l.fields.Keys == r.fields.Keys
      && forall k :: k in l.fields.Keys ==> k in r.fields && PyEq(l.fields[k], r.fields[k])
    else if l.Arr? && r.Arr? then
      |l.items| == |r.items| && forall i :: 0 <= i < |l.items| ==> PyEq(l.items[i], r.items[i])
    else !l.Arr? && !l.Obj? && AsNumber(l) == AsNumber(r)
  }

  // -- The dotted paths --------------------------------------------------------------------------

  function Child(prefix: string, key: string): string {
    if prefix == "" then key else prefix + "." + key
  }

  function Element(prefix: string, i: nat): string {
    prefix + "[" + PyText.Decimal(i) + "]"
  }

  function RootLabel(prefix: string): string {
    if prefix == "" then "<root>" else prefix
  }

  /** The set `differing_paths` returns. */
  ghost function Paths(l: Json, r: Json, prefix: string): set<string>
    decreases l, 2
  {
    if l.Obj? && r.Obj? then KeysPaths(l, r, prefix, l.fields.Keys + r.fields.Keys)
    else if l.Arr? && r.Arr? then
      if |l.items| != |r.items| then {RootLabel(prefix)} else ItemsPaths(l, r, prefix, |l.items|)
    else if PyEq(l, r) then {} else {RootLabel(prefix)}
  }

  /** What one key of two objects reports. */
  ghost function KeyPaths(l: Json, r: Json, prefix: string, k: string): set<string>
    requires l.Obj? && r.Obj?
    decreases l, 0
  {
    if k in l.fields && k in r.fields then Paths(l.fields[k], r.fields[k], Child(prefix, k)) else {Child(prefix, k)}
  }

  ghost function KeysPaths(l: Json, r: Json, prefix: string, keys: set<string>): set<string>
    requires l.Obj? && r.Obj?
    decreases l, 1
  {
    set k, p | k in keys && p in KeyPaths(l, r, prefix, k) :: p
  }

  /** What the first `n` items of two arrays report. */
  ghost function ItemsPaths(l: Json, r: Json, prefix: string, n: nat): set<string>
    requires l.Arr? && r.Arr? && n <= |l.items| == |r.items|
    decreases l, 1, n
  {
    if n == 0 then {} else ItemsPaths(l, r, prefix, n - 1) + Paths(l.items[n - 1], r.items[n - 1], Element(prefix, n - 1))
  }

  lemma OneMoreKey(l: Json, r: Json, prefix: string, keys: set<string>, k: string)
    requires l.Obj? && r.Obj?
    ensures KeysPaths(l, r, prefix, keys + {k}) == KeysPaths(l, r, prefix, keys) + KeyPaths(l, r, prefix, k)
  {
    hide KeyPaths;
    var before, after := KeysPaths(l, r, prefix, keys), KeysPaths(l, r, prefix, keys + {k});
    forall p | p in KeyPaths(l, r, prefix, k)
      ensures p in after
    {
      assert k in keys + {k};
    }
    forall p | p in before
      ensures p in after
    {
      var j :| j in keys && p in KeyPaths(l, r, prefix, j);
      assert j in keys + {k};
    }
  }

  /** `differing_paths`. */
  method DifferingPaths(l: Json, r: Json, prefix: string) returns (diffs: set<string>)
    ensures diffs == Paths(l, r, prefix)
    decreases l, 1
  {
    if l.Obj? && r.Obj? {
      diffs := DifferingKeys(l, r, prefix);
    } else if l.Arr? && r.Arr? {
      diffs := DifferingItems(l, r, prefix);
    } else {
      diffs := if PyEq(l, r) then {} else {RootLabel(prefix)};
    }
  }

  /** Its loop over the keys of two objects. */
  method DifferingKeys(l: Json, r: Json, prefix: string) returns (diffs: set<string>)
    requires l.Obj? && r.Obj?
    ensures diffs == Paths(l, r, prefix)
    decreases l, 0
  {
    var keys := l.fields.Keys + r.fields.Keys;
    assert Paths(l, r, prefix) == KeysPaths(l, r, prefix, keys);
    hide KeysPaths, Paths, Child;
    var todo := keys;
    diffs := {};
    NoKeys(l, r, prefix, keys - todo);
    while todo != {}
      invariant todo <= keys && diffs == KeysPaths(l, r, prefix, keys - todo)
      decreases |todo|
    {
      var key :| key in todo;
      OneMoreKey(l, r, prefix, keys - todo, key);
      assert keys - (todo - {key}) == keys - todo + {key};
      todo := todo - {key};
      if key !in l.fields || key !in r.fields {
        diffs := diffs + {Child(prefix, key)};
        continue;
      }
      var below := DifferingPaths(l.fields[key], r.fields[key], Child(prefix, key));
      diffs := diffs + below;
    }
    assert keys - {} == keys;
  }

  /** Its loop over the items of two arrays. */
  method DifferingItems(l: Json, r: Json, prefix: string) returns (diffs: set<string>)
    requires l.Arr? && r.Arr?
    ensures diffs == Paths(l, r, prefix)
    decreases l, 0
  {
    if |l.items| != |r.items| {
      return {RootLabel(prefix)};
    }
    assert Paths(l, r, prefix) == ItemsPaths(l, r, prefix, |l.items|);
    hide Paths, Element;
    diffs := {};
    for i := 0 to |l.items|
      invariant diffs == ItemsPaths(l, r, prefix, i)
    {
      var below := DifferingPaths(l.items[i], r.items[i], Element(prefix, i));
      diffs := diffs + below;
    }
  }

  lemma NoKeys(l: Json, r: Json, prefix: string, keys: set<string>)
    requires l.Obj? && r.Obj? && keys == {}
    ensures KeysPaths(l, r, prefix, keys) == {}
  {
  }

  // -- Paths as steps ----------------------------------------------------------------------------

  datatype Step = Key(key: string) | Index(i: nat)

  type Path = seq<Step>

  /** Where the trees disagree, at the shallowest place each disagreement is detected. */
  ghost function Differing(l: Json, r: Json): set<Path>
    decreases l
  {
    if l.Obj? && r.Obj? then
      (set k | k in l.fields.Keys + r.fields.Keys && (k !in l.fields || k !in r.fields) :: [Key(k)])
      + set k, q | k in l.fields && k in r.fields && q in Differing(l.fields[k], r.fields[k]) :: [Key(k)] + q
    else if l.Arr? && r.Arr? then
      if |l.items| != |r.items| then {[]}
      else set i, q | 0 <= i < |l.items| && q in Differing(l.items[i], r.items[i]) :: [Index(i)] + q
    else if PyEq(l, r) then {} else {[]}
  }

  function Rendered(path: Path): string {
    if path == [] then "" else StepOn(Rendered(path[..|path| - 1]), path[|path| - 1])
  }

  function StepOn(prefix: string, step: Step): string {
    match step
    case Key(k) => Child(prefix, k)
    case Index(i) => Element(prefix, i)
  }

  function Label(path: Path): string {
    RootLabel(Rendered(path))
  }

  /** The tree without the nodes at the given paths. */
  function Erased(v: Json, at: Path, gone: set<Path>): Json
    decreases v
  {
    if at in gone then Null
    else
      match v
      case Obj(fields) =>
        Obj(map k | k in fields && at + [Key(k)] !in gone :: Erased(fields[k], at + [Key(k)], gone))
      case Arr(items) =>
        Arr(seq(|items|, i requires 0 <= i < |items| => Erased(items[i], at + [Index(i)], gone)))
      case _ => v
  }
}
