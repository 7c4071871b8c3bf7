/** What an empty difference set, and an exempt one, say about two trees. */
module MetricsLaws {
  import opened PyText
  import opened Metrics

  // -- Differences and equality ------------------------------------------------------------------

  lemma {:induction false} DifferingSome(l: Json, r: Json)
    ensures Differing(l, r) == {} <==> PyEq(l, r)
    decreases l
  {
    if l.Obj? && r.Obj? {
      forall k | k in l.fields && k in r.fields
        ensures Differing(l.fields[k], r.fields[k]) == {} <==> PyEq(l.fields[k], r.fields[k])
      {
        DifferingSome(l.fields[k], r.fields[k]);
      }
      ObjectDiffers(l, r);
    } else if l.Arr? && r.Arr? && |l.items| == |r.items| {
      forall i | 0 <= i < |l.items|
        ensures Differing(l.items[i], r.items[i]) == {} <==> PyEq(l.items[i], r.items[i])
      {
        DifferingSome(l.items[i], r.items[i]);
      }
      ArrayDiffers(l, r);
    }
  }

  lemma ObjectDiffers(l: Json, r: Json)
    requires l.Obj? && r.Obj?
    requires forall k :: k in l.fields && k in r.fields ==>
               (Differing(l.fields[k], r.fields[k]) == {} <==> PyEq(l.fields[k], r.fields[k]))
    ensures Differing(l, r) == {} <==> PyEq(l, r)
  {
    if PyEq(l, r) {
      assert Differing(l, r) == {};
    } else if l.fields.Keys != r.fields.Keys {
      var k :| k in l.fields.Keys + r.fields.Keys && (k !in l.fields || k !in r.fields);
      assert [Key(k)] in Differing(l, r);
    } else {
      var k :| k in l.fields && !PyEq(l.fields[k], r.fields[k]);
      var q :| q in Differing(l.fields[k], r.fields[k]);
      assert [Key(k)] + q in Differing(l, r);
    }
  }

  lemma ArrayDiffers(l: Json, r: Json)
    requires l.Arr? && r.Arr? && |l.items| == |r.items|
    requires forall i :: 0 <= i < |l.items| ==>
               (Differing(l.items[i], r.items[i]) == {} <==> PyEq(l.items[i], r.items[i]))
    ensures Differing(l, r) == {} <==> PyEq(l, r)
  {
    if PyEq(l, r) {
      assert Differing(l, r) == {};
    } else {
      var i :| 0 <= i < |l.items| && !PyEq(l.items[i], r.items[i]);
      var q :| q in Differing(l.items[i], r.items[i]);
      assert [Index(i)] + q in Differing(l, r);
    }
  }

  /** Nothing is reported exactly when the two trees are equal, whatever their keys. */
  lemma {:induction false} EmptyMeansEqual(l: Json, r: Json, prefix: string)
    ensures Paths(l, r, prefix) == {} <==> PyEq(l, r)
    decreases l
  {
    if l.Obj? && r.Obj? {
      forall k | k in l.fields && k in r.fields
        ensures Paths(l.fields[k], r.fields[k], Child(prefix, k)) == {} <==> PyEq(l.fields[k], r.fields[k])
      {
        EmptyMeansEqual(l.fields[k], r.fields[k], Child(prefix, k));
      }
      EmptyKeys(l, r, prefix);
    } else if l.Arr? && r.Arr? && |l.items| == |r.items| {
      forall i | 0 <= i < |l.items|
        ensures Paths(l.items[i], r.items[i], Element(prefix, i)) == {} <==> PyEq(l.items[i], r.items[i])
      {
        EmptyMeansEqual(l.items[i], r.items[i], Element(prefix, i));
      }
      EmptyItems(l, r, prefix, |l.items|);
    }
  }

  lemma EmptyKeys(l: Json, r: Json, prefix: string)
    requires l.Obj? && r.Obj?
    requires forall k :: k in l.fields && k in r.fields ==>
               (Paths(l.fields[k], r.fields[k], Child(prefix, k)) == {} <==> PyEq(l.fields[k], r.fields[k]))
    ensures Paths(l, r, prefix) == {} <==> PyEq(l, r)
  {
    var keys := l.fields.Keys + r.fields.Keys;
    if PyEq(l, r) {
      assert KeysPaths(l, r, prefix, keys) == {};
    } else if l.fields.Keys != r.fields.Keys {
      var k :| k in keys && (k !in l.fields || k !in r.fields);
      assert Child(prefix, k) in KeyPaths(l, r, prefix, k) && Child(prefix, k) in KeysPaths(l, r, prefix, keys);
    } else {
      var k :| k in l.fields && !PyEq(l.fields[k], r.fields[k]);
      var p :| p in Paths(l.fields[k], r.fields[k], Child(prefix, k));
      assert p in KeyPaths(l, r, prefix, k) && p in KeysPaths(l, r, prefix, keys);
    }
  }

  lemma {:induction false} EmptyItems(l: Json, r: Json, prefix: string, n: nat)
    requires l.Arr? && r.Arr? && n <= |l.items| == |r.items|
    requires forall i :: 0 <= i < n ==>
               (Paths(l.items[i], r.items[i], Element(prefix, i)) == {} <==> PyEq(l.items[i], r.items[i]))
    ensures ItemsPaths(l, r, prefix, n) == {} <==> forall i :: 0 <= i < n ==> PyEq(l.items[i], r.items[i])
  {
    hide Paths, PyEq;
    if n > 0 {
      EmptyItems(l, r, prefix, n - 1);
    }
  }

  lemma {:induction false} PyEqSymmetric(l: Json, r: Json)
    ensures PyEq(l, r) <==> PyEq(r, l)
    decreases l
  {
    if l.Obj? && r.Obj? {
      forall k | k in l.fields && k in r.fields
        ensures PyEq(l.fields[k], r.fields[k]) <==> PyEq(r.fields[k], l.fields[k])
      {
        PyEqSymmetric(l.fields[k], r.fields[k]);
      }
    } else if l.Arr? && r.Arr? && |l.items| == |r.items| {
      forall i | 0 <= i < |l.items|
        ensures PyEq(l.items[i], r.items[i]) <==> PyEq(r.items[i], l.items[i])
      {
        PyEqSymmetric(l.items[i], r.items[i]);
      }
    }
  }

  /** The order of the two trees does not matter. */
  lemma {:induction false} Symmetric(l: Json, r: Json, prefix: string)
    ensures Paths(l, r, prefix) == Paths(r, l, prefix)
    decreases l
  {
    if l.Obj? && r.Obj? {
      forall k
        ensures KeyPaths(l, r, prefix, k) == KeyPaths(r, l, prefix, k)
      {
        if k in l.fields && k in r.fields {
          Symmetric(l.fields[k], r.fields[k], Child(prefix, k));
        }
      }
      hide KeyPaths;
      assert l.fields.Keys + r.fields.Keys == r.fields.Keys + l.fields.Keys;
      assert KeysPaths(l, r, prefix, l.fields.Keys + r.fields.Keys) == KeysPaths(r, l, prefix, l.fields.Keys + r.fields.Keys);
    } else if l.Arr? && r.Arr? && |l.items| == |r.items| {
      forall i | 0 <= i < |l.items|
        ensures Paths(l.items[i], r.items[i], Element(prefix, i)) == Paths(r.items[i], l.items[i], Element(prefix, i))
      {
        Symmetric(l.items[i], r.items[i], Element(prefix, i));
      }
      SymmetricItems(l, r, prefix, |l.items|);
    } else {
      PyEqSymmetric(l, r);
    }
  }

  lemma {:induction false} SymmetricItems(l: Json, r: Json, prefix: string, n: nat)
    requires l.Arr? && r.Arr? && n <= |l.items| == |r.items|
    requires forall i :: 0 <= i < n ==>
               Paths(l.items[i], r.items[i], Element(prefix, i)) == Paths(r.items[i], l.items[i], Element(prefix, i))
    ensures ItemsPaths(l, r, prefix, n) == ItemsPaths(r, l, prefix, n)
  {
    hide Paths;
    if n > 0 {
      SymmetricItems(l, r, prefix, n - 1);
    }
  }

  // -- Erasing -----------------------------------------------------------------------------------

  lemma {:induction false} PyEqReflexive(v: Json)
    ensures PyEq(v, v)
    decreases v
  {
    match v
    case Obj(fields) =>
      forall k | k in fields
        ensures PyEq(fields[k], fields[k])
      {
        PyEqReflexive(fields[k]);
      }
    case Arr(items) =>
      forall i | 0 <= i < |items|
        ensures PyEq(items[i], items[i])
      {
        PyEqReflexive(items[i]);
      }
    case _ =>
  }

  /** The places below `at` where the trees disagree are all among `gone`. */
  ghost predicate Covered(l: Json, r: Json, at: Path, gone: set<Path>) {
    forall q :: q in Differing(l, r) ==> at + q in gone
  }

  lemma CoveredKey(l: Json, r: Json, at: Path, gone: set<Path>, k: string)
    requires l.Obj? && r.Obj? && k in l.fields && k in r.fields && Covered(l, r, at, gone)
    ensures Covered(l.fields[k], r.fields[k], at + [Key(k)], gone)
  {
    forall q | q in Differing(l.fields[k], r.fields[k])
      ensures at + [Key(k)] + q in gone
    {
      assert [Key(k)] + q in Differing(l, r);
      assert at + ([Key(k)] + q) == at + [Key(k)] + q;
    }
  }

  lemma ItemDiffering(l: Json, r: Json, i: nat, q: Path)
    requires l.Arr? && r.Arr? && i < |l.items| == |r.items| && q in Differing(l.items[i], r.items[i])
    ensures [Index(i)] + q in Differing(l, r)
  {
  }

  lemma CoveredItem(l: Json, r: Json, at: Path, gone: set<Path>, i: nat)
    requires l.Arr? && r.Arr? && |l.items| == |r.items| && i < |l.items| && Covered(l, r, at, gone)
    ensures Covered(l.items[i], r.items[i], at + [Index(i)], gone)
  {
    hide Differing;
    forall q | q in Differing(l.items[i], r.items[i])
      ensures at + [Index(i)] + q in gone
    {
      ItemDiffering(l, r, i, q);
      Deeper(at, Index(i), q);
    }
  }

  lemma CoveredMissing(l: Json, r: Json, at: Path, gone: set<Path>, k: string)
    requires l.Obj? && r.Obj? && Covered(l, r, at, gone) && at + [Key(k)] !in gone
    ensures k in l.fields <==> k in r.fields
  {
    if k in l.fields.Keys + r.fields.Keys && (k !in l.fields || k !in r.fields) {
      assert [Key(k)] in Differing(l, r);
    }
  }

  /** Erasing the places of disagreement from both trees leaves equal trees. */
  lemma {:induction false} ErasedAgree(l: Json, r: Json, at: Path, gone: set<Path>)
    requires Covered(l, r, at, gone)
    ensures PyEq(Erased(l, at, gone), Erased(r, at, gone))
    decreases l
  {
    if at in gone {
    } else if l.Obj? && r.Obj? {
      var el, er := Erased(l, at, gone), Erased(r, at, gone);
      forall k
        ensures k in el.fields <==> k in er.fields
        ensures k in el.fields ==> k in er.fields && PyEq(el.fields[k], er.fields[k])
      {
        if at + [Key(k)] !in gone {
          CoveredMissing(l, r, at, gone, k);
          if k in l.fields {
            CoveredKey(l, r, at, gone, k);
            ErasedAgree(l.fields[k], r.fields[k], at + [Key(k)], gone);
          }
        }
      }
    } else if l.Arr? && r.Arr? && |l.items| == |r.items| {
      forall i | 0 <= i < |l.items|
        ensures PyEq(Erased(l.items[i], at + [Index(i)], gone), Erased(r.items[i], at + [Index(i)], gone))
      {
        CoveredItem(l, r, at, gone, i);
        ErasedAgree(l.items[i], r.items[i], at + [Index(i)], gone);
      }
    } else {
      DisagreeHere(l, r, at, gone);
    }
  }

  lemma DisagreeHere(l: Json, r: Json, at: Path, gone: set<Path>)
    requires Covered(l, r, at, gone) && at !in gone && !(l.Obj? && r.Obj?)
    requires !(l.Arr? && r.Arr? && |l.items| == |r.items|)
    ensures !l.Obj? && !r.Obj? && !l.Arr? && !r.Arr? && PyEq(l, r)
  {
    assert at + [] == at;
    assert [] !in Differing(l, r);
  }

  // -- Dotted paths name places ------------------------------------------------------------------

  /** A key the dotted notation can carry: not empty, no dot, no bracket. */
  predicate DottedKey(k: string) {
    k != "" && '.' !in k && '[' !in k
  }

  /** Such a key, not spelled as the root's own label either. */
  predicate CleanKey(k: string) {
    DottedKey(k) && k != "<root>"
  }

  predicate DottedPath(p: Path) {
    forall i :: 0 <= i < |p| ==> p[i].Key? ==> DottedKey(p[i].key)
  }

  predicate CleanPath(p: Path) {
    forall i :: 0 <= i < |p| ==> p[i].Key? ==> CleanKey(p[i].key)
  }

  predicate Clean(v: Json) {
    match v
    case Obj(fields) => forall k :: k in fields ==> CleanKey(k) && Clean(fields[k])
    case Arr(items) => forall i :: 0 <= i < |items| ==> Clean(items[i])
    case _ => true
  }

  lemma {:induction false} DifferingIsClean(l: Json, r: Json, q: Path)
    requires Clean(l) && Clean(r) && q in Differing(l, r)
    ensures CleanPath(q)
    decreases l
  {
    hide CleanKey;
    if q == [] {
    } else if l.Obj? && r.Obj? {
      var k :| q[0] == Key(k) && k in l.fields.Keys + r.fields.Keys
               && (q == [Key(k)] || (k in l.fields && k in r.fields && q[1..] in Differing(l.fields[k], r.fields[k])));
      if q != [Key(k)] {
        DifferingIsClean(l.fields[k], r.fields[k], q[1..]);
      }
      assert q == [q[0]] + q[1..];
    } else {
      var i: nat :| q[0] == Index(i) && i < |l.items| && i < |r.items| && q[1..] in Differing(l.items[i], r.items[i]);
      DifferingIsClean(l.items[i], r.items[i], q[1..]);
      assert q == [q[0]] + q[1..];
    }
  }

  lemma RenderedOn(p: Path, s: Step)
    ensures Rendered(p + [s]) == StepOn(Rendered(p), s)
  {
    assert (p + [s])[..|p|] == p;
  }

  lemma CleanIsDotted(p: Path)
    requires CleanPath(p)
    ensures DottedPath(p)
  {
    hide DottedKey;
  }

  lemma RenderedNotEmpty(p: Path)
    requires DottedPath(p) && p != []
    ensures Rendered(p) != ""
  {
  }

  lemma DigitsAreFree(i: nat)
    ensures Free(Decimal(i) + "]", '.') && Free(Decimal(i) + "]", '[')
    ensures Element("", i) == "" + ['['] + (Decimal(i) + "]")
  {
    hide Decimal;
  }

  lemma ElementCut(x: string, i: nat)
    ensures Element(x, i) == x + ['['] + (Decimal(i) + "]")
  {
    hide Decimal;
  }

  lemma ChildCut(x: string, k: string)
    requires x != ""
    ensures Child(x, k) == x + ['.'] + k
  {
  }

  /** A key never renders as an index does. */
  lemma KeyIsNoIndex(x: string, k: string, y: string, i: nat)
    requires DottedKey(k)
    ensures Child(x, k) != Element(y, i)
  {
    if Child(x, k) == Element(y, i) {
      KeyOrIndex(x, k, y, i);
    }
  }

  lemma KeyOrIndex(x: string, k: string, y: string, i: nat)
    requires Child(x, k) == Element(y, i)
    ensures '[' in k || '.' in k
  {
    var tail := Decimal(i) + "]";
    DigitsAreFree(i);
    ElementCut(y, i);
    hide Decimal, Element;
    if x == "" {
      assert (y + ['['] + tail)[|y|] == '[';
    } else {
      ChildCut(x, k);
      var s := x + ['.'] + k;
      assert s[|x|] == '.' && s[|y|] == '[';
      if |x| < |y| {
        LaterCut(x, '.', k, y, '[', tail);
      } else {
        LaterCut(y, '[', tail, x, '.', k);
      }
    }
  }

  lemma SameIndex(x: string, i: nat, y: string, j: nat)
    requires Element(x, i) == Element(y, j)
    ensures x == y && i == j
  {
    DigitsAreFree(i);
    DigitsAreFree(j);
    ElementCut(x, i);
    ElementCut(y, j);
    hide Element, Decimal, Free;
    CutAtLast(x, Decimal(i) + "]", y, Decimal(j) + "]", '[');
    assert (Decimal(i) + "]")[..|Decimal(i)|] == Decimal(i) && (Decimal(j) + "]")[..|Decimal(j)|] == Decimal(j);
    DecimalInjective(i, j);
  }

  lemma ChildHasDot(x: string, k: string)
    requires x != ""
    ensures '.' in Child(x, k)
  {
    assert Child(x, k)[|x|] == '.';
  }

  lemma SameKey(x: string, k: string, y: string, j: string)
    requires DottedKey(k) && DottedKey(j) && Child(x, k) == Child(y, j)
    ensures x == y && k == j
  {
    if x != "" && y != "" {
      ChildCut(x, k);
      ChildCut(y, j);
      CutAtLast(x, k, y, j, '.');
    } else if x != "" {
      ChildHasDot(x, k);
    } else if y != "" {
      ChildHasDot(y, j);
    }
  }

  /** On such keys the dotted notation tells any two places apart. */
  lemma {:induction false} RenderedInjective(p: Path, q: Path)
    requires DottedPath(p) && DottedPath(q) && Rendered(p) == Rendered(q)
    ensures p == q
    decreases |p|
  {
    hide DottedKey;
    if p == [] || q == [] {
      if q != [] {
        RenderedNotEmpty(q);
      } else if p != [] {
        RenderedNotEmpty(p);
      }
    } else {
      var p0, s, q0, t := p[..|p| - 1], p[|p| - 1], q[..|q| - 1], q[|q| - 1];
      assert p == p0 + [s] && q == q0 + [t];
      hide Child, Element, DottedPath;
      LastStep(Rendered(p0), s, Rendered(q0), t);
      assert DottedPath(p0) && DottedPath(q0) by {
        InitIsDotted(p);
        InitIsDotted(q);
      }
      RenderedInjective(p0, q0);
    }
  }

  lemma InitIsDotted(p: Path)
    requires DottedPath(p) && p != []
    ensures DottedPath(p[..|p| - 1]) && (p[|p| - 1].Key? ==> DottedKey(p[|p| - 1].key))
  {
  }

  lemma LastStep(x: string, s: Step, y: string, t: Step)
    requires s.Key? ==> DottedKey(s.key)
    requires t.Key? ==> DottedKey(t.key)
    requires StepOn(x, s) == StepOn(y, t)
    ensures x == y && s == t
  {
    hide Child, Element, DottedKey;
    match (s, t)
    case (Key(k), Key(j)) => SameKey(x, k, y, j);
    case (Index(i), Index(j)) => SameIndex(x, i, y, j);
    case (Key(k), Index(j)) => KeyIsNoIndex(x, k, y, j);
    case (Index(i), Key(j)) => KeyIsNoIndex(y, j, x, i);
  }

  /** The root, and a key spelled as its label. */
  predicate RootAndItsName(p: Path, q: Path) {
    p == [] && q == [Key("<root>")]
  }

  /** Two places share a label exactly when they are one place, or the root and a key spelled as its label. */
  lemma SameLabelIff(p: Path, q: Path)
    requires DottedPath(p) && DottedPath(q)
    ensures Label(p) == Label(q) <==> p == q || RootAndItsName(p, q) || RootAndItsName(q, p)
  {
    NamedRoot();
    hide Rendered, DottedKey;
    if Label(p) == Label(q) {
      if Rendered(p) == Rendered(q) {
        RenderedInjective(p, q);
      } else if Rendered(p) == "" {
        OnlyTheRootIsEmpty(p);
        RootByName(q);
      } else {
        OnlyTheRootIsEmpty(q);
        RootByName(p);
      }
    }
  }

  lemma NamedRoot()
    ensures Rendered([]) == "" && Rendered([Key("<root>")]) == "<root>"
  {
    RenderedOn([], Key("<root>"));
    assert [] + [Key("<root>")] == [Key("<root>")];
  }

  lemma OnlyTheRootIsEmpty(p: Path)
    requires DottedPath(p) && Rendered(p) == ""
    ensures p == []
  {
    if p != [] {
      RenderedNotEmpty(p);
    }
  }

  /** On dotted keys only the key of that name renders as the root's label. */
  lemma RootByName(q: Path)
    requires DottedPath(q) && Rendered(q) == "<root>"
    ensures q == [Key("<root>")]
  {
    NamedRoot();
    assert DottedPath([Key("<root>")]);
    hide Rendered, DottedPath;
    RenderedInjective(q, [Key("<root>")]);
  }

  /** On clean keys the label names one place, the root included. */
  lemma LabelInjective(p: Path, q: Path)
    requires CleanPath(p) && CleanPath(q) && Label(p) == Label(q)
    ensures p == q
  {
    SameLabelIff(p, q);
    assert p != [] ==> p[0] != Key("<root>");
    assert q != [] ==> q[0] != Key("<root>");
  }

  /** Every key of the path is one of `keys`. */
  predicate Over(p: Path, keys: set<string>) {
    forall i :: 0 <= i < |p| ==> p[i].Key? ==> p[i].key in keys
  }

  ghost predicate LabelsTellApart(keys: set<string>) {
    forall p, q :: Over(p, keys) && Over(q, keys) && Label(p) == Label(q) ==> p == q
  }

  /** Labels over a set of dotted keys tell all places apart exactly when the root's label is not one of the keys. */
  lemma LabelsTellApartIff(keys: set<string>)
    requires forall k :: k in keys ==> DottedKey(k)
    ensures LabelsTellApart(keys) <==> "<root>" !in keys
  {
    hide DottedKey, Label;
    if "<root>" in keys {
      assert Over([], keys) && Over([Key("<root>")], keys);
      SameLabelIff([], [Key("<root>")]);
      assert Label([]) == Label([Key("<root>")]) && [] != [Key("<root>")];
    } else {
      forall p, q | Over(p, keys) && Over(q, keys) && Label(p) == Label(q)
        ensures p == q
      {
        SameLabelIff(p, q);
        OverMisses(p, keys);
        OverMisses(q, keys);
      }
    }
  }

  lemma OverMisses(p: Path, keys: set<string>)
    requires Over(p, keys) && "<root>" !in keys
    ensures p != [Key("<root>")]
  {
    assert p != [] ==> p[0] != Key("<root>");
  }

  lemma ElementHasBracket(x: string, i: nat)
    ensures '[' in Element(x, i)
  {
    ElementCut(x, i);
    assert Element(x, i)[|x|] == '[';
  }

  // -- What the report says ----------------------------------------------------------------------

  /** On clean keys what is reported is exactly the labels of the places of disagreement. */
  lemma {:induction false} PathsAreLabels(l: Json, r: Json, at: Path, p: string)
    requires Clean(l) && Clean(r) && CleanPath(at)
    ensures p in Paths(l, r, Rendered(at)) <==> exists q :: q in Differing(l, r) && p == Label(at + q)
    decreases l
  {
    if l.Obj? && r.Obj? {
      forall k | k in l.fields.Keys + r.fields.Keys
        ensures p in KeyPaths(l, r, Rendered(at), k) <==> exists q :: q in KeyDiffers(l, r, k) && p == Label(at + q)
      {
        if k in l.fields && k in r.fields {
          RenderedOn(at, Key(k));
          PathsAreLabels(l.fields[k], r.fields[k], at + [Key(k)], p);
        }
        KeyLabels(l, r, at, k, p);
      }
      AllKeysLabels(l, r, at, p);
    } else if l.Arr? && r.Arr? && |l.items| == |r.items| {
      forall i | 0 <= i < |l.items|
        ensures p in Paths(l.items[i], r.items[i], Element(Rendered(at), i)) <==>
                  exists q :: q in Differing(l.items[i], r.items[i]) && p == Label(at + [Index(i)] + q)
      {
        RenderedOn(at, Index(i));
        PathsAreLabels(l.items[i], r.items[i], at + [Index(i)], p);
      }
      AllItemsLabels(l, r, at, p);
    } else {
      assert at + [] == at;
      assert Differing(l, r) == if PyEq(l, r) then {} else {[]};
    }
  }

  /** What one key of two objects differs in. */
  ghost function KeyDiffers(l: Json, r: Json, k: string): set<Path>
    requires l.Obj? && r.Obj?
  {
    if k in l.fields && k in r.fields then set q | q in Differing(l.fields[k], r.fields[k]) :: [Key(k)] + q else {[Key(k)]}
  }

  lemma Deeper(at: Path, s: Step, q: Path)
    ensures at + ([s] + q) == at + [s] + q
  {
  }

  /** Labels below a step, seen from above it. */
  lemma LabelsBelow(below: set<Path>, here: set<Path>, at: Path, s: Step, p: string)
    requires forall q :: q in here <==> exists d :: d in below && q == [s] + d
    ensures (exists q :: q in here && p == Label(at + q)) <==> (exists d :: d in below && p == Label(at + [s] + d))
  {
    hide Label;
    if d :| d in below && p == Label(at + [s] + d) {
      Deeper(at, s, d);
      assert [s] + d in here;
    }
    if q :| q in here && p == Label(at + q) {
      var d :| d in below && q == [s] + d;
      Deeper(at, s, d);
    }
  }

  lemma KeyLabels(l: Json, r: Json, at: Path, k: string, p: string)
    requires l.Obj? && r.Obj? && Clean(l) && Clean(r) && CleanPath(at) && k in l.fields.Keys + r.fields.Keys
    requires k in l.fields && k in r.fields ==>
               (p in Paths(l.fields[k], r.fields[k], Rendered(at + [Key(k)])) <==>
                  exists q :: q in Differing(l.fields[k], r.fields[k]) && p == Label(at + [Key(k)] + q))
    ensures p in KeyPaths(l, r, Rendered(at), k) <==> exists q :: q in KeyDiffers(l, r, k) && p == Label(at + q)
  {
    var below := at + [Key(k)];
    RenderedOn(at, Key(k));
    assert CleanPath(below);
    hide Paths, Differing, Clean, CleanKey;
    if k in l.fields && k in r.fields {
      hide Rendered, Label, CleanPath;
      LabelsBelow(Differing(l.fields[k], r.fields[k]), KeyDiffers(l, r, k), at, Key(k), p);
    } else {
      CleanIsDotted(below);
      RenderedNotEmpty(below);
      hide Rendered, CleanPath;
      assert KeyDiffers(l, r, k) == {[Key(k)]} && Label(below) == Child(Rendered(at), k);
    }
  }

  lemma AllKeysLabels(l: Json, r: Json, at: Path, p: string)
    requires l.Obj? && r.Obj?
    requires forall k :: k in l.fields.Keys + r.fields.Keys ==>
               (p in KeyPaths(l, r, Rendered(at), k) <==> exists q :: q in KeyDiffers(l, r, k) && p == Label(at + q))
    ensures p in Paths(l, r, Rendered(at)) <==> exists q :: q in Differing(l, r) && p == Label(at + q)
  {
    var keys := l.fields.Keys + r.fields.Keys;
    forall q
      ensures q in Differing(l, r) <==> exists k :: k in keys && q in KeyDiffers(l, r, k)
    {
      DifferingByKey(l, r, q);
    }
    assert Paths(l, r, Rendered(at)) == KeysPaths(l, r, Rendered(at), keys);
    hide Paths, Differing, KeyDiffers, KeyPaths, Rendered, Label;
    if p in Paths(l, r, Rendered(at)) {
      var k :| k in keys && p in KeyPaths(l, r, Rendered(at), k);
      var q :| q in KeyDiffers(l, r, k) && p == Label(at + q);
    }
    if q :| q in Differing(l, r) && p == Label(at + q) {
      var k :| k in keys && q in KeyDiffers(l, r, k);
      assert p in KeyPaths(l, r, Rendered(at), k);
    }
  }

  lemma DifferingByKey(l: Json, r: Json, q: Path)
    requires l.Obj? && r.Obj?
    ensures q in Differing(l, r) <==> exists k :: k in l.fields.Keys + r.fields.Keys && q in KeyDiffers(l, r, k)
  {
    if q in Differing(l, r) {
      var k :| k in l.fields.Keys + r.fields.Keys
               && ((q == [Key(k)] && (k !in l.fields || k !in r.fields))
                   || (k in l.fields && k in r.fields && exists d :: d in Differing(l.fields[k], r.fields[k]) && q == [Key(k)] + d));
      assert q in KeyDiffers(l, r, k);
    }
    if k :| k in l.fields.Keys + r.fields.Keys && q in KeyDiffers(l, r, k) {
      if k in l.fields && k in r.fields {
        var d :| d in Differing(l.fields[k], r.fields[k]) && q == [Key(k)] + d;
      }
    }
  }

  lemma {:induction false} ItemsPathsAre(l: Json, r: Json, prefix: string, n: nat, p: string)
    requires l.Arr? && r.Arr? && n <= |l.items| == |r.items|
    ensures p in ItemsPaths(l, r, prefix, n) <==>
              exists i :: 0 <= i < n && p in Paths(l.items[i], r.items[i], Element(prefix, i))
  {
    hide Paths, Element;
    if n > 0 {
      ItemsPathsAre(l, r, prefix, n - 1, p);
    }
  }

  lemma PathsOfItems(l: Json, r: Json, prefix: string, p: string)
    requires l.Arr? && r.Arr? && |l.items| == |r.items|
    ensures p in Paths(l, r, prefix) <==>
              exists i :: 0 <= i < |l.items| && p in Paths(l.items[i], r.items[i], Element(prefix, i))
  {
    ItemsPathsAre(l, r, prefix, |l.items|, p);
    assert Paths(l, r, prefix) == ItemsPaths(l, r, prefix, |l.items|);
  }

  lemma AllItemsLabels(l: Json, r: Json, at: Path, p: string)
    requires l.Arr? && r.Arr? && |l.items| == |r.items|
    requires forall i :: 0 <= i < |l.items| ==>
               (p in Paths(l.items[i], r.items[i], Element(Rendered(at), i)) <==>
                  exists q :: q in Differing(l.items[i], r.items[i]) && p == Label(at + [Index(i)] + q))
    ensures p in Paths(l, r, Rendered(at)) <==> exists q :: q in Differing(l, r) && p == Label(at + q)
  {
    hide *;
    forall q
      ensures q in Differing(l, r) <==> exists i :: 0 <= i < |l.items| && q in ItemDiffers(l, r, i)
    {
      DifferingByItem(l, r, q);
    }
    forall i | 0 <= i < |l.items|
      ensures (exists q :: q in ItemDiffers(l, r, i) && p == Label(at + q)) <==>
                (exists q :: q in Differing(l.items[i], r.items[i]) && p == Label(at + [Index(i)] + q))
    {
      ItemLabels(l, r, at, i, p);
    }
    PathsOfItems(l, r, Rendered(at), p);
    if p in Paths(l, r, Rendered(at)) {
      var i :| 0 <= i < |l.items| && p in Paths(l.items[i], r.items[i], Element(Rendered(at), i));
      var q :| q in ItemDiffers(l, r, i) && p == Label(at + q);
    }
    if q :| q in Differing(l, r) && p == Label(at + q) {
      var i :| 0 <= i < |l.items| && q in ItemDiffers(l, r, i);
      assert p in Paths(l.items[i], r.items[i], Element(Rendered(at), i));
    }
  }

  lemma ItemLabels(l: Json, r: Json, at: Path, i: nat, p: string)
    requires l.Arr? && r.Arr? && i < |l.items| == |r.items|
    ensures (exists q :: q in ItemDiffers(l, r, i) && p == Label(at + q)) <==>
              (exists q :: q in Differing(l.items[i], r.items[i]) && p == Label(at + [Index(i)] + q))
  {
    hide Differing, Label;
    LabelsBelow(Differing(l.items[i], r.items[i]), ItemDiffers(l, r, i), at, Index(i), p);
  }

  /** What one item of two arrays of one length differs in. */
  ghost function ItemDiffers(l: Json, r: Json, i: nat): set<Path>
    requires l.Arr? && r.Arr? && i < |l.items| == |r.items|
  {
    set q | q in Differing(l.items[i], r.items[i]) :: [Index(i)] + q
  }

  lemma DifferingByItem(l: Json, r: Json, q: Path)
    requires l.Arr? && r.Arr? && |l.items| == |r.items|
    ensures q in Differing(l, r) <==> exists i :: 0 <= i < |l.items| && q in ItemDiffers(l, r, i)
  {
    if q in Differing(l, r) {
      var i: nat, d :| i < |l.items| && d in Differing(l.items[i], r.items[i]) && q == [Index(i)] + d;
      assert q in ItemDiffers(l, r, i);
    }
    if i :| 0 <= i < |l.items| && q in ItemDiffers(l, r, i) {
      var d :| d in Differing(l.items[i], r.items[i]) && q == [Index(i)] + d;
    }
  }

  /**
   A report inside an exempt set means the trees agree everywhere else: with the exempt places erased
   from both, they are equal.
   */
  lemma ExemptMeansAgreement(l: Json, r: Json, gone: set<Path>)
    requires Clean(l) && Clean(r) && forall g :: g in gone ==> CleanPath(g)
    requires Paths(l, r, "") <= set g | g in gone :: Label(g)
    ensures Differing(l, r) <= gone
    ensures PyEq(Erased(l, [], gone), Erased(r, [], gone))
  {
    forall q | q in Differing(l, r)
      ensures [] + q in gone
    {
      assert [] + q == q;
      PathsAreLabels(l, r, [], Label(q));
      assert Label(q) in Paths(l, r, "");
      var g :| g in gone && Label(g) == Label(q);
      DifferingIsClean(l, r, q);
      LabelInjective(g, q);
    }
    forall q | q in Differing(l, r)
      ensures q in gone
    {
      assert [] + q == q;
    }
    ErasedAgree(l, r, [], gone);
  }

  /** What the equality queries exempt: the two fields that name the artifact that answered. */
  const BUILD_IDENTITY: set<Path> := {[Key("retrieval"), Key("indexBuildId")], [Key("retrieval"), Key("snapshotId")]}

  lemma IndexLabel()
    ensures Label([Key("retrieval"), Key("indexBuildId")]) == "retrieval.indexBuildId"
  {
    TwoKeys("retrieval", "indexBuildId");
    hide Rendered;
  }

  lemma SnapshotLabel()
    ensures Label([Key("retrieval"), Key("snapshotId")]) == "retrieval.snapshotId"
  {
    TwoKeys("retrieval", "snapshotId");
    hide Rendered;
  }

  lemma BuildIdentityIsClean()
    ensures forall g :: g in BUILD_IDENTITY ==> CleanPath(g)
  {
    assert CleanKey("retrieval") && CleanKey("indexBuildId") && CleanKey("snapshotId");
    hide CleanKey;
  }

  lemma BuildIdentityLabels()
    ensures (set g | g in BUILD_IDENTITY :: Label(g)) == {"retrieval.indexBuildId", "retrieval.snapshotId"}
  {
    var first, second := [Key("retrieval"), Key("indexBuildId")], [Key("retrieval"), Key("snapshotId")];
    assert BUILD_IDENTITY == {first, second};
    hide *;
    IndexLabel();
    SnapshotLabel();
    LabelsOfTwo(first, second);
  }

  lemma LabelsOfTwo(a: Path, b: Path)
    ensures (set g | g in {a, b} :: Label(g)) == {Label(a), Label(b)}
  {
    hide Label;
  }

  lemma TwoKeys(a: string, b: string)
    requires a != ""
    ensures Rendered([Key(a), Key(b)]) == a + "." + b
  {
    RenderedOn([], Key(a));
    RenderedOn([Key(a)], Key(b));
    assert [] + [Key(a)] == [Key(a)] && [Key(a)] + [Key(b)] == [Key(a), Key(b)];
  }

  /** The equality property as the report counts it. */
  lemma SameAnswer(l: Json, r: Json)
    requires Clean(l) && Clean(r) && Paths(l, r, "") <= {"retrieval.indexBuildId", "retrieval.snapshotId"}
    ensures PyEq(Erased(l, [], BUILD_IDENTITY), Erased(r, [], BUILD_IDENTITY))
  {
    hide Clean, Paths, Erased, Label, CleanPath, PyEq;
    BuildIdentityLabels();
    BuildIdentityIsClean();
    ExemptMeansAgreement(l, r, BUILD_IDENTITY);
  }

  /** A key spelled as the root's label is reported as the root is. */
  lemma RootKeyCollides(v: Json, w: Json)
    requires !PyEq(v, w) && !v.Obj? && !v.Arr?
    ensures Paths(Obj(map["<root>" := v]), Obj(map["<root>" := w]), "") == Paths(v, w, "") == {"<root>"}
  {
    var l, r := Obj(map["<root>" := v]), Obj(map["<root>" := w]);
    assert l.fields.Keys + r.fields.Keys == {"<root>"};
    assert KeyPaths(l, r, "", "<root>") == Paths(v, w, "<root>");
    assert Paths(l, r, "") == KeysPaths(l, r, "", {"<root>"});
  }

  // -- Equal leaves ------------------------------------------------------------------------------

  /** A truth value equals itself and the number 1 or 0 it stands for, and nothing else. */
  lemma TruthEquals(b: bool, r: Json)
    ensures PyEq(Bool(b), r) <==> r == Bool(b) || r == Number(if b then 1.0 else 0.0)
    ensures PyEq(r, Bool(b)) <==> PyEq(Bool(b), r)
  {
  }

  /** Null, a text and a number equal themselves, and a number also the truth value it stands for. */
  lemma LeavesEqual(l: Json, r: Json)
    requires l.Null? || l.Str? || l.Number?
    ensures PyEq(l, r) <==> r == l || (r.Bool? && l == Number(if r.b then 1.0 else 0.0))
  {
  }
}
