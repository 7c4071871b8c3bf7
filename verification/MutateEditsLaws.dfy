/** What landing and undoing edits promise (tools/mutate_edits.py), proved about `MutateEdits`. */
module MutateEditsLaws {
  import opened PyText
  import opened MutateEdits

  // -- What one edit does ------------------------------------------------------------------------

  /** `after` is `files` with the one counted occurrence of the anchor in `text` replaced. */
  ghost predicate Splices(text: string, files: Files, edit: Edit, after: Files) {
    && Count(text, edit.old_) == 1
    && exists at ::
         && OccursAt(text, edit.old_, at)
         && (forall k :: OccursAt(text, edit.old_, k) ==> at <= k)
         && after == files[edit.path := Utf8(text[..at] + edit.new_ + text[at + |edit.old_|..])]
  }

  /** `after` is `files` with the one counted occurrence of the anchor replaced, and nothing else. */
  ghost predicate Replaces(files: Files, edit: Edit, after: Files) {
    && edit.path in files && files[edit.path].Utf8?
    && Splices(files[edit.path].text, files, edit, after)
  }

  /** `after` is `files` with every edit replaced in turn, and nothing else. */
  ghost predicate Carries(files: Files, edits: seq<Edit>, after: Files) {
    if edits == [] then after == files
    else
      var last := |edits| - 1;
      exists mid :: Carries(files, edits[..last], mid) && Replaces(mid, edits[last], after)
  }

  /** The same of the text as it is read: the file's newlines are all rewritten with the anchor. */
  ghost predicate ReplacesRead(files: Files, edit: Edit, after: Files) {
    && edit.path in files && files[edit.path].Utf8?
    && Splices(Translate(files[edit.path].text), files, edit, after)
  }

  ghost predicate CarriesRead(files: Files, edits: seq<Edit>, after: Files) {
    if edits == [] then after == files
    else
      var last := |edits| - 1;
      exists mid :: CarriesRead(files, edits[..last], mid) && ReplacesRead(mid, edits[last], after)
  }

  lemma SpliceHasCR(text: string, new_: string, i: nat, j: nat)
    requires !HasCR(text) && i <= j <= |text|
    ensures HasCR(text[..i] + new_ + text[j..]) <==> HasCR(new_)
  {
    var whole := text[..i] + new_ + text[j..];
    if HasCR(new_) {
      var k :| 0 <= k < |new_| && new_[k] == '\r';
      assert whole[i + k] == '\r';
    }
  }

  /** Nothing containing a carriage return can be read back out of a file. */
  lemma NeverReadBack(text: string, new_: string)
    requires HasCR(new_)
    ensures !Contains(Translate(text), new_)
  {
    var read := Translate(text);
    var k :| 0 <= k < |new_| && new_[k] == '\r';
    forall at | 0 <= at && at + |new_| <= |read|
      ensures !OccursAt(read, new_, at)
    {
      assert read[at + k] != new_[k];
      assert read[at..at + |new_|][k] == read[at + k];
    }
  }

  /** The edit reaches its write: the file is text and the anchor matches once. */
  predicate ReachesWrite(files: Files, edit: Edit) {
    && edit.path in files && files[edit.path].Utf8?
    && Count(Translate(files[edit.path].text), edit.old_) == 1
  }

  function Written(files: Files, edit: Edit): Content
    requires ReachesWrite(files, edit)
  {
    Utf8(ReplaceFirst(Translate(files[edit.path].text), edit.old_, edit.new_))
  }

  /** The written text holds the replacement, and a carriage return exactly when the replacement does. */
  lemma WrittenText(files: Files, edit: Edit)
    requires ReachesWrite(files, edit)
    ensures HasCR(Written(files, edit).text) <==> HasCR(edit.new_)
    ensures Contains(Translate(Written(files, edit).text), edit.new_) <==> !HasCR(edit.new_)
  {
    var text := Translate(files[edit.path].text);
    CountedOnce(text, edit.old_);
    var at := FindFrom(text, edit.old_, 0).value;
    SpliceHasCR(text, edit.new_, at, at + |edit.old_|);
    var written := Written(files, edit).text;
    if HasCR(edit.new_) {
      NeverReadBack(written, edit.new_);
    } else {
      assert written[at..at + |edit.new_|] == edit.new_;
      OccursMeansContains(written, edit.new_, at);
    }
  }

  /**
   The two checks made after the write. An edit that is refused has changed the tree exactly when its
   replacement holds a carriage return, the anchor matched, and the write was not a coincidental no-op;
   that change is recorded nowhere.
   */
  lemma RefusedEditChangesTree(files: Files, edit: Edit)
    requires Landing(files, edit, Calm).1.Err?
    ensures Landing(files, edit, Calm).0 != files
            <==> ReachesWrite(files, edit) && HasCR(edit.new_) && Written(files, edit) != files[edit.path]
    ensures Landing(files, edit, Calm).0 != files
            <==> Landing(files, edit, Calm).1 == Err(Harness(ReplacementAbsent))
  {
    if ReachesWrite(files, edit) {
      WrittenText(files, edit);
      var after := files[edit.path := Written(files, edit)];
      if Written(files, edit) == files[edit.path] {
        assert after == files;
      } else {
        assert after[edit.path] != files[edit.path];
      }
    }
  }

  /** An edit lands exactly when it reaches its write, changes the file and can be read back. */
  lemma LandsIff(files: Files, edit: Edit)
    ensures Landing(files, edit, Calm).1.Ok?
            <==> ReachesWrite(files, edit) && !HasCR(edit.new_) && Written(files, edit) != files[edit.path]
  {
    if ReachesWrite(files, edit) {
      WrittenText(files, edit);
    }
  }

  /** What an edit that lands did to the tree, and what it recorded about the tree before. */
  lemma LandedEdit(files: Files, edit: Edit, fault: Fault)
    requires Landing(files, edit, fault).1.Ok?
    ensures var (after, r) := Landing(files, edit, fault);
            && ReplacesRead(files, edit, after)
            && after == files[edit.path := Written(files, edit)] && after != files
            && PlainText(after, edit.path)
            && r.value == Applied(edit.path, Translate(files[edit.path].text),
                                  Digest(files[edit.path]), Digest(after[edit.path]))
  {
    hide Landing, Translate, ReplaceFirst, Count, FindFrom, HasCR;
    LandedReaches(files, edit, fault);
    WrittenText(files, edit);
    var text := Translate(files[edit.path].text);
    CountedOnce(text, edit.old_);
    assert OccursAt(text, edit.old_, FindFrom(text, edit.old_, 0).value);
    hide OccursAt;
    ReplacedOnce(text, edit.old_, edit.new_);
  }

  lemma ReplacedOnce(text: string, old_: string, new_: string)
    requires FindFrom(text, old_, 0).Some?
    ensures var at := FindFrom(text, old_, 0).value;
            at + |old_| <= |text| && ReplaceFirst(text, old_, new_) == text[..at] + new_ + text[at + |old_|..]
  {
  }

  /** The branch a landing takes. */
  lemma LandedReaches(files: Files, edit: Edit, fault: Fault)
    requires Landing(files, edit, fault).1.Ok?
    ensures ReachesWrite(files, edit) && Written(files, edit) != files[edit.path]
    ensures Contains(Translate(Written(files, edit).text), edit.new_)
    ensures Landing(files, edit, fault).0 == files[edit.path := Written(files, edit)]
    ensures Landing(files, edit, fault).1.value
            == Applied(edit.path, Translate(files[edit.path].text), Digest(files[edit.path]), Digest(Written(files, edit)))
  {
    hide Translate, ReplaceFirst, Count, Contains;
  }

  lemma LandingStaysInside(files: Files, edit: Edit, fault: Fault)
    ensures AgreeOutside({edit.path}, files, Landing(files, edit, fault).0)
  {
  }

  // -- What a composite does ---------------------------------------------------------------------

  lemma PathsOfPrefix(edits: seq<Edit>, n: nat)
    requires n < |edits|
    ensures Paths(edits[..n + 1]) == Paths(edits[..n]) + {edits[n].path}
  {
    assert edits[..n + 1] == edits[..n] + [edits[n]];
    assert edits[n] in edits[..n + 1];
  }

  /** The last of `n` landed edits, with the record it left. */
  lemma LastLanded(files: Files, edits: seq<Edit>, faults: Faults, n: nat)
    requires 0 < n <= |edits| && LandFirst(files, edits, faults, n).failure.None?
    ensures var sofar, now := LandFirst(files, edits, faults, n - 1), LandFirst(files, edits, faults, n);
            var edit := edits[n - 1];
            && sofar.failure.None? && edit.path in sofar.files && sofar.files[edit.path].Utf8?
            && ReplacesRead(sofar.files, edit, now.files)
            && AgreeOutside({edit.path}, sofar.files, now.files)
            && PlainText(now.files, edit.path)
            && now.landed == sofar.landed
                             + [Applied(edit.path, Translate(sofar.files[edit.path].text),
                                        Digest(sofar.files[edit.path]), Digest(now.files[edit.path]))]
  {
    hide Landing;
    var sofar := LandFirst(files, edits, faults, n - 1);
    LandedEdit(sofar.files, edits[n - 1], faults(n - 1));
  }

  lemma {:induction false} LandFirstStaysInside(files: Files, edits: seq<Edit>, faults: Faults, n: nat)
    requires n <= |edits|
    ensures AgreeOutside(Paths(edits[..n]), files, LandFirst(files, edits, faults, n).files)
  {
    hide Landing, Paths;
    if n > 0 {
      LandFirstStaysInside(files, edits, faults, n - 1);
      PathsOfPrefix(edits, n - 1);
      LandingStaysInside(LandFirst(files, edits, faults, n - 1).files, edits[n - 1], faults(n - 1));
    }
  }

  /** Every file a landed edit names is text without a carriage return afterwards. */
  lemma {:induction false} LandedFilesArePlain(files: Files, edits: seq<Edit>, faults: Faults, n: nat)
    requires n <= |edits| && LandFirst(files, edits, faults, n).failure.None?
    ensures forall p :: p in Paths(edits[..n]) ==> PlainText(LandFirst(files, edits, faults, n).files, p)
  {
    hide Landing, ReplacesRead, LandFirst;
    if n > 0 {
      LastLanded(files, edits, faults, n);
      LandedFilesArePlain(files, edits, faults, n - 1);
      PathsOfPrefix(edits, n - 1);
    }
  }

  // -- What it carries ---------------------------------------------------------------------------

  lemma {:induction false} LandFirstCarriesRead(files: Files, edits: seq<Edit>, faults: Faults, n: nat)
    requires n <= |edits| && LandFirst(files, edits, faults, n).failure.None?
    ensures CarriesRead(files, edits[..n], LandFirst(files, edits, faults, n).files)
  {
    hide *;
    if n == 0 {
      NothingLanded(files, edits, faults);
      CarriesNone(files, edits);
    } else {
      LastLanded(files, edits, faults, n);
      LandFirstCarriesRead(files, edits, faults, n - 1);
      CarriesReadOn(files, edits, n, LandFirst(files, edits, faults, n - 1).files, LandFirst(files, edits, faults, n).files);
    }
  }

  lemma CarriesNone(files: Files, edits: seq<Edit>)
    ensures Carries(files, edits[..0], files) && CarriesRead(files, edits[..0], files)
  {
  }

  lemma CarriesReadOn(files: Files, edits: seq<Edit>, n: nat, mid: Files, after: Files)
    requires 0 < n <= |edits| && CarriesRead(files, edits[..n - 1], mid) && ReplacesRead(mid, edits[n - 1], after)
    ensures CarriesRead(files, edits[..n], after)
  {
    hide ReplacesRead;
    assert edits[..n][..n - 1] == edits[..n - 1] && edits[..n][n - 1] == edits[n - 1];
  }

  lemma CarriesOn(files: Files, edits: seq<Edit>, n: nat, mid: Files, after: Files)
    requires 0 < n <= |edits| && Carries(files, edits[..n - 1], mid) && Replaces(mid, edits[n - 1], after)
    ensures Carries(files, edits[..n], after)
  {
    hide Replaces;
    assert edits[..n][..n - 1] == edits[..n - 1] && edits[..n][n - 1] == edits[n - 1];
  }

  /** In a file without a carriage return the text read is the text itself. */
  lemma PlainReplaces(files: Files, edit: Edit, after: Files)
    requires ReplacesRead(files, edit, after) && PlainText(files, edit.path)
    ensures Replaces(files, edit, after)
  {
    hide Splices;
  }

  /** Plain files stay plain as edits land. */
  lemma StillPlain(files: Files, edits: seq<Edit>, faults: Faults, n: nat, path: Path)
    requires n <= |edits| && LandFirst(files, edits, faults, n).failure.None? && PlainText(files, path)
    ensures PlainText(LandFirst(files, edits, faults, n).files, path)
  {
    hide LandFirst, Paths;
    LandedFilesArePlain(files, edits, faults, n);
    LandFirstStaysInside(files, edits, faults, n);
  }

  lemma {:induction false} PlainCarries(files: Files, edits: seq<Edit>, faults: Faults, n: nat)
    requires n <= |edits| && LandFirst(files, edits, faults, n).failure.None?
    requires forall p :: p in Paths(edits[..n]) ==> PlainText(files, p)
    ensures Carries(files, edits[..n], LandFirst(files, edits, faults, n).files)
  {
    hide LandFirst, Paths, PlainText, Replaces, ReplacesRead, Carries, AgreeOutside;
    if n == 0 {
      NothingLanded(files, edits, faults);
      CarriesNone(files, edits);
    } else {
      LastLanded(files, edits, faults, n);
      PathsOfPrefix(edits, n - 1);
      PlainCarries(files, edits, faults, n - 1);
      var sofar, now := LandFirst(files, edits, faults, n - 1).files, LandFirst(files, edits, faults, n).files;
      StillPlain(files, edits, faults, n - 1, edits[n - 1].path);
      PlainReplaces(sofar, edits[n - 1], now);
      CarriesOn(files, edits, n, sofar, now);
    }
  }

  /** What landed was read as text, and its anchor, met in what was read, holds no carriage return. */
  lemma {:induction false} LandedWasText(files: Files, edits: seq<Edit>, faults: Faults, n: nat)
    requires n <= |edits| && LandFirst(files, edits, faults, n).failure.None?
    ensures forall p :: p in Paths(edits[..n]) ==> p in files && files[p].Utf8?
    ensures forall i :: 0 <= i < n ==> !HasCR(edits[i].old_)
  {
    hide LandFirst, Paths, PlainText, ReplacesRead;
    if n == 0 {
      PathsOfNone(edits);
    } else {
      LastLanded(files, edits, faults, n);
      PathsOfPrefix(edits, n - 1);
      LandedWasText(files, edits, faults, n - 1);
      LandFirstStaysInside(files, edits, faults, n - 1);
      AnchorHasNoCR(LandFirst(files, edits, faults, n - 1).files, edits[n - 1], LandFirst(files, edits, faults, n).files);
    }
  }

  lemma AnchorHasNoCR(files: Files, edit: Edit, after: Files)
    requires ReplacesRead(files, edit, after)
    ensures !HasCR(edit.old_)
  {
    hide Count, FindFrom, HasCR, Translate;
    var text := Translate(files[edit.path].text);
    var at :| OccursAt(text, edit.old_, at);
    AroundOccurrence(text, edit.old_, at);
    PartsWithCR(text[..at], edit.old_, text[at + |edit.old_|..]);
  }

  lemma AroundOccurrence(text: string, part: string, at: nat)
    requires OccursAt(text, part, at)
    ensures at + |part| <= |text| && text == text[..at] + part + text[at + |part|..]
  {
  }

  lemma PartsWithCR(a: string, b: string, c: string)
    ensures HasCR(a + b + c) <==> HasCR(a) || HasCR(b) || HasCR(c)
  {
  }

  /** The file still holds the carriage returns it had. */
  predicate HoldsReturn(files: Files, path: Path) {
    path in files && files[path].Utf8? && HasCR(files[path].text)
  }

  /** Replacing text that holds no carriage return takes none away. */
  lemma ReturnsStay(files: Files, edit: Edit, after: Files, path: Path)
    requires Replaces(files, edit, after) && HoldsReturn(files, path) && !HasCR(edit.old_)
    ensures HoldsReturn(after, path)
  {
    if path == edit.path {
      var text := files[path].text;
      var at := SplicedAt(text, files, edit, after);
      hide *;
      AroundOccurrence(text, edit.old_, at);
      PartsWithCR(text[..at], edit.old_, text[at + |edit.old_|..]);
      PartsWithCR(text[..at], edit.new_, text[at + |edit.old_|..]);
      StillHolds(files, edit.path, text[..at] + edit.new_ + text[at + |edit.old_|..]);
    }
  }

  lemma StillHolds(files: Files, path: Path, text: string)
    requires HasCR(text)
    ensures HoldsReturn(files[path := Utf8(text)], path)
  {
  }

  lemma SplicedAt(text: string, files: Files, edit: Edit, after: Files) returns (at: nat)
    requires Splices(text, files, edit, after)
    ensures OccursAt(text, edit.old_, at) && at + |edit.old_| <= |text|
    ensures after == files[edit.path := Utf8(text[..at] + edit.new_ + text[at + |edit.old_|..])]
  {
    hide Count;
    var i :| OccursAt(text, edit.old_, i)
             && after == files[edit.path := Utf8(text[..i] + edit.new_ + text[i + |edit.old_|..])];
    at := i;
  }

  lemma {:induction false} CarriedReturnsStay(files: Files, edits: seq<Edit>, after: Files, path: Path)
    requires Carries(files, edits, after) && HoldsReturn(files, path) && forall e :: e in edits ==> !HasCR(e.old_)
    ensures HoldsReturn(after, path)
  {
    hide Replaces, HoldsReturn;
    if edits != [] {
      var last := |edits| - 1;
      var mid :| Carries(files, edits[..last], mid) && Replaces(mid, edits[last], after);
      CarriedReturnsStay(files, edits[..last], mid, path);
      ReturnsStay(mid, edits[last], after, path);
    }
  }

  /**
   An `_apply` that succeeds leaves the tree with each edit's one occurrence replaced in the text as it
   was read. Nothing else has changed, newlines included, exactly when no named file held a carriage
   return.
   */
  lemma LandFirstCarries(files: Files, edits: seq<Edit>, faults: Faults, n: nat)
    requires n <= |edits| && LandFirst(files, edits, faults, n).failure.None?
    ensures CarriesRead(files, edits[..n], LandFirst(files, edits, faults, n).files)
    ensures Carries(files, edits[..n], LandFirst(files, edits, faults, n).files)
            <==> forall p :: p in Paths(edits[..n]) ==> PlainText(files, p)
  {
    hide LandFirst, Carries, CarriesRead, Paths;
    LandFirstCarriesRead(files, edits, faults, n);
    var after := LandFirst(files, edits, faults, n).files;
    if forall p :: p in Paths(edits[..n]) ==> PlainText(files, p) {
      PlainCarries(files, edits, faults, n);
    } else {
      var p :| p in Paths(edits[..n]) && !PlainText(files, p);
      LandedWasText(files, edits, faults, n);
      LandedFilesArePlain(files, edits, faults, n);
      if Carries(files, edits[..n], after) {
        CarriedReturnsStay(files, edits[..n], after, p);
      }
    }
  }

  // -- Undoing -----------------------------------------------------------------------------------

  /** One step of `_restore_all` over the first `n` landed edits. */
  lemma RestoreStep(files: Files, edits: seq<Edit>, landing: Faults, n: nat, dirty: Files, restoring: Faults)
    requires 0 < n <= |edits| && LandFirst(files, edits, landing, n).failure.None?
    ensures var sofar, edit := LandFirst(files, edits, landing, n - 1), edits[n - 1];
            && sofar.failure.None? && edit.path in sofar.files && sofar.files[edit.path].Utf8?
            && var back := dirty[edit.path := Utf8(Translate(sofar.files[edit.path].text))];
            && var (after, r) := RestoreAll(dirty, LandFirst(files, edits, landing, n).landed, restoring);
            && var (rest, s) := RestoreAll(back, sofar.landed, restoring);
            && (r.Ok? ==> back[edit.path] == sofar.files[edit.path] && s.Ok? && after == rest)
            && (restoring(n - 1) == Calm ==> (r.Ok? <==> PlainText(sofar.files, edit.path) && s.Ok?))
  {
    hide Landing, ReplacesRead, TrailOf, LandFirst, RestoreAll, Translate, AgreeOutside, PlainText;
    LastLanded(files, edits, landing, n);
    var sofar, now := LandFirst(files, edits, landing, n - 1), LandFirst(files, edits, landing, n);
    assert now.landed[..n - 1] == sofar.landed && now.landed[n - 1].target == edits[n - 1].path;
    RestoreLast(dirty, now.landed, restoring);
    ReadBackPlain(sofar.files, edits[n - 1].path);
  }

  /** Writing back what was read gives the file back exactly when it held no carriage return. */
  lemma ReadBackPlain(files: Files, path: Path)
    requires path in files && files[path].Utf8?
    ensures Utf8(Translate(files[path].text)) == files[path] <==> PlainText(files, path)
  {
    hide Translate;
  }

  /** `_restore_all` undoes the last landed edit first. */
  lemma RestoreLast(dirty: Files, landed: seq<Applied>, faults: Faults)
    requires landed != []
    ensures var last := |landed| - 1;
            var back := dirty[landed[last].target := Utf8(landed[last].original)];
            var (after, r) := RestoreAll(dirty, landed, faults);
            var (rest, s) := RestoreAll(back, landed[..last], faults);
            var same := Digest(back[landed[last].target]) == landed[last].before;
            && (r.Ok? ==> same && s.Ok? && after == rest)
            && (faults(last) == Calm ==> (r.Ok? <==> same && s.Ok?))
  {
    hide TrailOf;
  }

  /**
   A restore that reports success has put the tree back exactly, whatever the suite wrote to the
   mutated files in between, whatever faults struck, and however many edits share a file.
   */
  lemma {:induction false} RestoreReturnsTree(
      files: Files, edits: seq<Edit>, landing: Faults, n: nat, dirty: Files, restoring: Faults)
    requires n <= |edits| && LandFirst(files, edits, landing, n).failure.None?
    requires AgreeOutside(Paths(edits[..n]), files, dirty)
    ensures var (after, r) := RestoreAll(dirty, LandFirst(files, edits, landing, n).landed, restoring);
            r.Ok? ==> after == files
  {
    hide LandFirst, Paths;
    if n == 0 {
      assert Paths(edits[..0]) == {} by { PathsOfNone(edits); }
      NothingLanded(files, edits, landing);
      assert dirty == files;
    } else {
      hide RestoreAll;
      RestoreStep(files, edits, landing, n, dirty, restoring);
      var sofar, edit := LandFirst(files, edits, landing, n - 1), edits[n - 1];
      var back := dirty[edit.path := Utf8(Translate(sofar.files[edit.path].text))];
      if back[edit.path] == sofar.files[edit.path] {
        LandFirstStaysInside(files, edits, landing, n - 1);
        PathsOfPrefix(edits, n - 1);
        RestoreReturnsTree(files, edits, landing, n - 1, back, restoring);
      }
    }
  }

  /** Whatever write failed, a restore that reports success has met no file with a carriage return. */
  lemma {:induction false} RestoredWasPlain(
      files: Files, edits: seq<Edit>, landing: Faults, n: nat, dirty: Files, restoring: Faults)
    requires n <= |edits| && LandFirst(files, edits, landing, n).failure.None?
    requires RestoreAll(dirty, LandFirst(files, edits, landing, n).landed, restoring).1.Ok?
    ensures forall p :: p in Paths(edits[..n]) ==> PlainText(files, p)
  {
    hide *;
    if n == 0 {
      PathsOfNone(edits);
    } else {
      var back := LastWasPlain(files, edits, landing, n, dirty, restoring);
      RestoredWasPlain(files, edits, landing, n - 1, back, restoring);
      PathsOfPrefix(edits, n - 1);
    }
  }

  lemma LastWasPlain(files: Files, edits: seq<Edit>, landing: Faults, n: nat, dirty: Files, restoring: Faults)
    returns (back: Files)
    requires 0 < n <= |edits| && LandFirst(files, edits, landing, n).failure.None?
    requires RestoreAll(dirty, LandFirst(files, edits, landing, n).landed, restoring).1.Ok?
    ensures LandFirst(files, edits, landing, n - 1).failure.None?
    ensures RestoreAll(back, LandFirst(files, edits, landing, n - 1).landed, restoring).1.Ok?
    ensures edits[n - 1].path in Paths(edits[..n - 1]) || PlainText(files, edits[n - 1].path)
  {
    hide *;
    RestoreStep(files, edits, landing, n, dirty, restoring);
    var sofar, edit := LandFirst(files, edits, landing, n - 1), edits[n - 1];
    back := dirty[edit.path := Utf8(Translate(sofar.files[edit.path].text))];
    ReadBackPlain(sofar.files, edit.path);
    PlainFromStart(files, edits, landing, n - 1, edit.path);
  }

  /** A file that is plain once edits have landed, and none of them names, was plain from the start. */
  lemma PlainFromStart(files: Files, edits: seq<Edit>, landing: Faults, n: nat, path: Path)
    requires n <= |edits| && PlainText(LandFirst(files, edits, landing, n).files, path)
    ensures path in Paths(edits[..n]) || PlainText(files, path)
  {
    hide LandFirst, Paths;
    LandFirstStaysInside(files, edits, landing, n);
  }

  lemma PathsOfNone(edits: seq<Edit>)
    ensures Paths(edits[..0]) == {}
  {
  }

  lemma NothingLanded(files: Files, edits: seq<Edit>, landing: Faults)
    ensures LandFirst(files, edits, landing, 0) == Progress(files, [], None)
  {
  }

  /** Without faults the restore succeeds exactly when no mutated file held a carriage return. */
  lemma {:induction false} RestoreSucceedsIff(
      files: Files, edits: seq<Edit>, landing: Faults, n: nat, dirty: Files)
    requires n <= |edits| && LandFirst(files, edits, landing, n).failure.None?
    ensures RestoreAll(dirty, LandFirst(files, edits, landing, n).landed, NO_FAULTS).1.Ok?
            <==> forall p :: p in Paths(edits[..n]) ==> PlainText(files, p)
  {
    hide LandFirst, Paths;
    if n == 0 {
      PathsOfNone(edits);
      NothingLanded(files, edits, landing);
    } else {
      hide RestoreAll;
      RestoreStep(files, edits, landing, n, dirty, NO_FAULTS);
      var sofar, edit := LandFirst(files, edits, landing, n - 1), edits[n - 1];
      var back := dirty[edit.path := Utf8(Translate(sofar.files[edit.path].text))];
      RestoreSucceedsIff(files, edits, landing, n - 1, back);
      LandedFilesArePlain(files, edits, landing, n - 1);
      LandFirstStaysInside(files, edits, landing, n - 1);
      PathsOfPrefix(edits, n - 1);
    }
  }

  // -- The digest report -------------------------------------------------------------------------

  /** Splitting at the first `:`: what precedes it holds none. */
  lemma FirstColon(a: string, b: string, x: string, y: string)
    requires a + ":" + x == b + ":" + y && ':' !in a && ':' !in b
    ensures a == b && x == y
  {
    var whole := a + ":" + x;
    assert whole[|a|] == ':' && whole[|b|] == ':';
    assert forall k :: 0 <= k < |a| ==> whole[k] == a[k];
    assert forall k :: 0 <= k < |b| ==> whole[k] == b[k];
    assert |a| == |b|;
    assert a == whole[..|a|] && b == whole[..|b|];
    assert x == whole[|a| + 1..] && y == whole[|b| + 1..];
  }

  /** No two digests in a report share a key, though paths may hold any characters. */
  lemma TrailKeyInjective(p: Path, i: nat, s: Trail, q: Path, j: nat, t: Trail)
    requires TrailKey(p, i, s) == TrailKey(q, j, t)
    ensures p == q && i == j && s == t
  {
    hide Decimal;
    assert Free(Decimal(i) + ":" + TrailName(s), '#') && Free(Decimal(j) + ":" + TrailName(t), '#');
    CutAtLast(p, Decimal(i) + ":" + TrailName(s), q, Decimal(j) + ":" + TrailName(t), '#') by {
      hide TrailName;
    }
    FirstColon(Decimal(i), Decimal(j), TrailName(s), TrailName(t)) by {
      hide TrailName;
    }
    DecimalInjective(i, j);
  }

  /** The keys a report of these edits must hold: three an edit. */
  function TrailKeys(landed: seq<Applied>): set<string> {
    if landed == [] then {}
    else
      var last := |landed| - 1;
      KeysOf(landed[last].target, last) + TrailKeys(landed[..last])
  }

  function KeysOf(path: Path, index: nat): set<string> {
    {TrailKey(path, index, Before), TrailKey(path, index, Mutated), TrailKey(path, index, Restored)}
  }

  lemma ThreeKeys(path: Path, index: nat)
    ensures |KeysOf(path, index)| == 3
  {
    hide TrailKey;
    forall s, t | TrailKey(path, index, s) == TrailKey(path, index, t)
      ensures s == t
    {
      TrailKeyInjective(path, index, s, path, index, t);
    }
  }

  /** `part` ends the text. */
  predicate EndsIn(s: string, part: string) {
    |part| <= |s| && s[|s| - |part|..] == part
  }

  /** A key ends in which of the three digests it names. */
  lemma TrailKeySays(path: Path, index: nat, t: Trail)
    ensures t.Before? ==> EndsIn(TrailKey(path, index, t), "before")
    ensures t.Mutated? ==> EndsIn(TrailKey(path, index, t), "mutated")
    ensures t.Restored? ==> EndsIn(TrailKey(path, index, t), "restored")
  {
    KeyEnds(path, index, t);
    hide TrailKey;
  }

  lemma KeyEnds(path: Path, index: nat, t: Trail)
    ensures EndsIn(TrailKey(path, index, t), TrailName(t))
  {
    hide Decimal, TrailName;
    var name := TrailName(t);
    var head := path + "#" + (Decimal(index) + ":");
    assert TrailKey(path, index, t) == head + name;
    assert (head + name)[|head|..] == name;
  }

  lemma {:induction false} LaterKeysAreNew(landed: seq<Applied>, path: Path, index: nat, t: Trail)
    requires |landed| <= index
    ensures TrailKey(path, index, t) !in TrailKeys(landed)
  {
    hide TrailKey;
    if landed != [] {
      var last := |landed| - 1;
      LaterKeysAreNew(landed[..last], path, index, t);
      forall s
        ensures TrailKey(landed[last].target, last, s) != TrailKey(path, index, t)
      {
        if TrailKey(landed[last].target, last, s) == TrailKey(path, index, t) {
          TrailKeyInjective(landed[last].target, last, s, path, index, t);
        }
      }
    }
  }

  /** No two edits share a key, so a report holds exactly three entries an edit. */
  lemma {:induction false} ThreeKeysAnEdit(landed: seq<Applied>)
    ensures |TrailKeys(landed)| == 3 * |landed|
  {
    if landed != [] {
      hide TrailKey;
      var last := |landed| - 1;
      ThreeKeysAnEdit(landed[..last]);
      ThreeKeys(landed[last].target, last);
      LaterKeysAreNew(landed[..last], landed[last].target, last, Before);
      LaterKeysAreNew(landed[..last], landed[last].target, last, Mutated);
      LaterKeysAreNew(landed[..last], landed[last].target, last, Restored);
      assert KeysOf(landed[last].target, last) !! TrailKeys(landed[..last]);
    }
  }

  /** The report on one edit: its three digests, the restored one being the one taken before. */
  predicate ReportsEdit(report: Trails, applied: Applied, index: nat) {
    && KeysOf(applied.target, index) <= report.Keys
    && report[TrailKey(applied.target, index, Before)] == applied.before
    && report[TrailKey(applied.target, index, Mutated)] == applied.mutated
    && report[TrailKey(applied.target, index, Restored)] == applied.before
  }

  lemma TrailOfKeys(applied: Applied, index: nat)
    ensures TrailOf(applied, index, applied.before).Keys == KeysOf(applied.target, index)
    ensures ReportsEdit(TrailOf(applied, index, applied.before), applied, index)
  {
    hide TrailKey;
    forall s, t | TrailKey(applied.target, index, s) == TrailKey(applied.target, index, t)
      ensures s == t
    {
      TrailKeyInjective(applied.target, index, s, applied.target, index, t);
    }
  }

  lemma RestoredLast(dirty: Files, landed: seq<Applied>, faults: Faults) returns (back: Files)
    requires landed != [] && RestoreAll(dirty, landed, faults).1.Ok?
    ensures var last := |landed| - 1;
            && RestoreAll(back, landed[..last], faults).1.Ok?
            && RestoreAll(dirty, landed, faults).1.value
               == TrailOf(landed[last], last, landed[last].before) + RestoreAll(back, landed[..last], faults).1.value
  {
    hide TrailOf;
    back := PutBack(dirty, landed[|landed| - 1], faults(|landed| - 1)).0;
  }

  lemma {:induction false} ReportKeys(dirty: Files, landed: seq<Applied>, faults: Faults)
    requires RestoreAll(dirty, landed, faults).1.Ok?
    ensures RestoreAll(dirty, landed, faults).1.value.Keys == TrailKeys(landed)
    decreases |landed|
  {
    if landed != [] {
      var back := RestoredLast(dirty, landed, faults);
      var last := |landed| - 1;
      ReportKeys(back, landed[..last], faults);
      hide RestoreAll, TrailOf, KeysOf;
      TrailOfKeys(landed[last], last);
    }
  }

  lemma KeysAreNew(landed: seq<Applied>, path: Path, index: nat)
    requires |landed| <= index
    ensures forall t :: TrailKey(path, index, t) !in TrailKeys(landed)
  {
    hide TrailKey, TrailKeys;
    forall t
      ensures TrailKey(path, index, t) !in TrailKeys(landed)
    {
      LaterKeysAreNew(landed, path, index, t);
    }
  }

  lemma ReportsLastEdit(dirty: Files, landed: seq<Applied>, faults: Faults)
    requires landed != [] && RestoreAll(dirty, landed, faults).1.Ok?
    ensures var last := |landed| - 1;
            ReportsEdit(RestoreAll(dirty, landed, faults).1.value, landed[last], last)
  {
    hide *;
    var last := |landed| - 1;
    var back := RestoredLast(dirty, landed, faults);
    TrailOfKeys(landed[last], last);
    ReportKeys(back, landed[..last], faults);
    KeysAreNew(landed[..last], landed[last].target, last);
    ReportedOnTop(TrailOf(landed[last], last, landed[last].before),
                  RestoreAll(back, landed[..last], faults).1.value, landed[last], last);
  }

  lemma {:induction false} ReportsEveryEdit(dirty: Files, landed: seq<Applied>, faults: Faults, i: nat)
    requires i < |landed| && RestoreAll(dirty, landed, faults).1.Ok?
    ensures ReportsEdit(RestoreAll(dirty, landed, faults).1.value, landed[i], i)
    decreases |landed|
  {
    hide *;
    var last := |landed| - 1;
    if i == last {
      ReportsLastEdit(dirty, landed, faults);
    } else {
      var back := RestoredLast(dirty, landed, faults);
      ReportsEveryEdit(back, landed[..last], faults, i);
      ReportedBelow(TrailOf(landed[last], last, landed[last].before),
                    RestoreAll(back, landed[..last], faults).1.value, landed[i], i);
    }
  }

  lemma ReportedBelow(top: Trails, rest: Trails, applied: Applied, index: nat)
    requires ReportsEdit(rest, applied, index)
    ensures ReportsEdit(top + rest, applied, index)
  {
    hide TrailKey;
  }

  lemma ReportedOnTop(top: Trails, rest: Trails, applied: Applied, index: nat)
    requires ReportsEdit(top, applied, index)
    requires TrailKey(applied.target, index, Before) !in rest
    requires TrailKey(applied.target, index, Mutated) !in rest
    requires TrailKey(applied.target, index, Restored) !in rest
    ensures ReportsEdit(top + rest, applied, index)
  {
    hide TrailKey;
  }

  // -- Whole mutations ---------------------------------------------------------------------------

  /**
   Apply then restore is the identity on the tree, for any list of edits, exactly when none of the
   files it names holds a carriage return, which is when the mutated tree carried the edits and nothing
   else; otherwise the restore raises.
   */
  lemma ApplyThenRestore(files: Files, edits: seq<Edit>, dirty: Files)
    requires ApplyAll(files, edits, NO_FAULTS, NO_FAULTS).1.Ok?
    requires AgreeOutside(Paths(edits), ApplyAll(files, edits, NO_FAULTS, NO_FAULTS).0, dirty)
    ensures var (mutated, landed) := ApplyAll(files, edits, NO_FAULTS, NO_FAULTS);
            var (after, r) := RestoreAll(dirty, landed.value, NO_FAULTS);
            && CarriesRead(files, edits, mutated)
            && (r.Ok? <==> Carries(files, edits, mutated))
            && (r.Ok? <==> forall p :: p in Paths(edits) ==> PlainText(files, p))
            && (r.Ok? ==>
                  && after == files
                  && |r.value| == 3 * |edits|
                  && forall i :: 0 <= i < |edits| ==> ReportsEdit(r.value, landed.value[i], i))
  {
    hide LandFirst, RestoreAll, Carries, CarriesRead, ReportsEdit, TrailKeys;
    assert edits[..|edits|] == edits;
    LandFirstStaysInside(files, edits, NO_FAULTS, |edits|);
    LandFirstCarries(files, edits, NO_FAULTS, |edits|);
    RestoreSucceedsIff(files, edits, NO_FAULTS, |edits|, dirty);
    RestoreReturnsTree(files, edits, NO_FAULTS, |edits|, dirty, NO_FAULTS);
    var landed := LandFirst(files, edits, NO_FAULTS, |edits|).landed;
    if RestoreAll(dirty, landed, NO_FAULTS).1.Ok? {
      ReportKeys(dirty, landed, NO_FAULTS);
      ThreeKeysAnEdit(landed);
      var report := RestoreAll(dirty, landed, NO_FAULTS).1.value;
      assert |report| == |report.Keys|;
      forall i | 0 <= i < |edits|
        ensures ReportsEdit(report, landed[i], i)
      {
        ReportsEveryEdit(dirty, landed, NO_FAULTS, i);
      }
    }
  }

  /** Every path holds what reading the original file gave, written back. */
  ghost predicate HoldsOriginals(paths: set<Path>, after: Files, files: Files) {
    forall p :: p in paths ==> p in after && p in files && files[p].Utf8? && after[p] == Utf8(Translate(files[p].text))
  }

  /** Undoing the last edit of several: its file holds what the earlier edits left, or the original. */
  lemma UnwoundStep(prev: set<Path>, path: Path, files: Files, sofar: Files, dirty: Files, after: Files)
    requires AgreeOutside(prev, sofar, files) && path in sofar && sofar[path].Utf8?
    requires AgreeOutside(prev, after, dirty[path := Utf8(Translate(sofar[path].text))])
    requires HoldsOriginals(prev, after, files)
    ensures AgreeOutside(prev + {path}, after, dirty) && HoldsOriginals(prev + {path}, after, files)
  {
    hide Translate;
    if path !in prev {
      assert path in files && after[path] == Utf8(Translate(sofar[path].text));
    }
  }

  lemma UnwindLast(dirty: Files, landed: seq<Applied>, faults: Faults)
    requires landed != []
    ensures var last := |landed| - 1;
            Unwind(dirty, landed, faults) == Unwind(PutBack(dirty, landed[last], faults(last)).0, landed[..last], faults)
  {
    hide PutBack;
  }

  lemma {:induction false} UnwoundContents(files: Files, edits: seq<Edit>, n: nat, dirty: Files)
    requires n <= |edits| && LandFirst(files, edits, NO_FAULTS, n).failure.None?
    ensures var after := Unwind(dirty, LandFirst(files, edits, NO_FAULTS, n).landed, NO_FAULTS);
            AgreeOutside(Paths(edits[..n]), after, dirty) && HoldsOriginals(Paths(edits[..n]), after, files)
  {
    hide *;
    if n == 0 {
      PathsOfNone(edits);
      NothingLanded(files, edits, NO_FAULTS);
      UnwindNone(dirty, NO_FAULTS);
      NothingHeld(dirty, files);
    } else {
      var sofar, now := LandFirst(files, edits, NO_FAULTS, n - 1), LandFirst(files, edits, NO_FAULTS, n);
      LastLanded(files, edits, NO_FAULTS, n);
      var path := edits[n - 1].path;
      var back := dirty[path := Utf8(Translate(sofar.files[path].text))];
      UnwindLast(dirty, now.landed, NO_FAULTS);
      PutBackWrites(dirty, now.landed[n - 1]);
      assert now.landed[..n - 1] == sofar.landed;
      UnwoundContents(files, edits, n - 1, back);
      LandFirstStaysInside(files, edits, NO_FAULTS, n - 1);
      AgreeSymmetric(Paths(edits[..n - 1]), files, sofar.files);
      PathsOfPrefix(edits, n - 1);
      UnwoundStep(Paths(edits[..n - 1]), path, files, sofar.files, dirty, Unwind(back, sofar.landed, NO_FAULTS));
    }
  }

  lemma NothingHeld(dirty: Files, files: Files)
    ensures AgreeOutside({}, dirty, dirty) && HoldsOriginals({}, dirty, files)
  {
  }

  lemma AgreeSymmetric(paths: set<Path>, a: Files, b: Files)
    requires AgreeOutside(paths, a, b)
    ensures AgreeOutside(paths, b, a)
  {
  }

  lemma PutBackWrites(files: Files, applied: Applied)
    ensures PutBack(files, applied, NO_FAULTS(0)).0 == files[applied.target := Utf8(applied.original)]
    ensures forall i: nat :: NO_FAULTS(i) == NO_FAULTS(0)
  {
  }

  lemma UnwindNone(files: Files, faults: Faults)
    ensures Unwind(files, [], faults) == files
  {
  }

  /** Where a failed walk stopped: the edits before it landed, and its own landing raised. */
  lemma {:induction false} FailedAt(files: Files, edits: seq<Edit>, n: nat)
    requires n <= |edits| && LandFirst(files, edits, NO_FAULTS, n).failure.Some?
    ensures var p := LandFirst(files, edits, NO_FAULTS, n);
            var k := |p.landed|;
            && k < n
            && LandFirst(files, edits, NO_FAULTS, k).failure.None?
            && LandFirst(files, edits, NO_FAULTS, k).landed == p.landed
            && Landing(LandFirst(files, edits, NO_FAULTS, k).files, edits[k], Calm)
               == (p.files, Err(p.failure.value))
  {
    hide Landing;
    if n > 0 && LandFirst(files, edits, NO_FAULTS, n - 1).failure.Some? {
      FailedAt(files, edits, n - 1);
    }
  }

  /**
   A composite that fails at edit `k` unwinds to the tree it started from exactly when the files of
   the edits that landed hold no carriage return and edit `k` was not refused after its own write on a
   file no landed edit names. A refusal after the write needs a replacement with a carriage return.
   */
  lemma FailedApplyUnwinds(files: Files, edits: seq<Edit>)
    requires ApplyAll(files, edits, NO_FAULTS, NO_FAULTS).1.Err?
    ensures var k := |LandFirst(files, edits, NO_FAULTS, |edits|).landed|;
            var (after, r) := ApplyAll(files, edits, NO_FAULTS, NO_FAULTS);
            && k < |edits|
            && (after == files <==>
                && (forall p :: p in Paths(edits[..k]) ==> PlainText(files, p))
                && (r.error == Harness(ReplacementAbsent) ==> edits[k].path in Paths(edits[..k])))
            && (r.error == Harness(ReplacementAbsent) ==> HasCR(edits[k].new_))
  {
    hide LandFirst, Unwind, Landing, Paths;
    FailedAt(files, edits, |edits|);
    var p := LandFirst(files, edits, NO_FAULTS, |edits|);
    var k := |p.landed|;
    var at := LandFirst(files, edits, NO_FAULTS, k);
    UnwoundContents(files, edits, k, p.files);
    LandFirstStaysInside(files, edits, NO_FAULTS, k);
    RefusedEditChangesTree(at.files, edits[k]);
    LandingStaysInside(at.files, edits[k], Calm);
    hide Replaces, ReachesWrite, Written, PlainText;
    UnwoundToStart(files, Paths(edits[..k]), edits[k].path, at.files, p.files, Unwind(p.files, p.landed, NO_FAULTS));
  }

  /** The set-theoretic core of `FailedApplyUnwinds`: who can still differ after the rollback. */
  lemma UnwoundToStart(files: Files, touched: set<Path>, last: Path, at: Files, failed: Files, after: Files)
    requires AgreeOutside(touched, files, at) && AgreeOutside({last}, at, failed)
    requires AgreeOutside(touched, after, failed)
    requires forall p :: p in touched ==>
               p in after && p in files && files[p].Utf8? && after[p] == Utf8(Translate(files[p].text))
    ensures after == files <==>
            (forall p :: p in touched ==> PlainText(files, p)) && (failed != at ==> last in touched)
  {
    hide Translate;
    if last !in touched && failed != at {
      assert (last in failed <==> last in at) ==> last in at && failed[last] != at[last];
    }
    if (forall p :: p in touched ==> PlainText(files, p)) && (failed != at ==> last in touched) {
      assert after == files;
    }
  }

  /** So a batch whose files and replacements hold no carriage return always unwinds completely. */
  lemma PlainBatchUnwinds(files: Files, edits: seq<Edit>)
    requires forall p :: p in Paths(edits) && p in files && files[p].Utf8? ==> PlainText(files, p)
    requires forall e :: e in edits ==> !HasCR(e.new_)
    requires ApplyAll(files, edits, NO_FAULTS, NO_FAULTS).1.Err?
    ensures ApplyAll(files, edits, NO_FAULTS, NO_FAULTS).0 == files
  {
    hide LandFirst, Unwind;
    FailedApplyUnwinds(files, edits);
    FailedAt(files, edits, |edits|);
    var p := LandFirst(files, edits, NO_FAULTS, |edits|);
    UnwoundContents(files, edits, |p.landed|, p.files);
  }

  // -- The checkout ------------------------------------------------------------------------------

  /**
   The integrity check around a run: digests of one batch taken of two states of the checkout differ at
   exactly the targets whose file changed, appeared or went; nothing is reported exactly when none did.
   */
  method CheckoutMoved(before: Files, after: Files, mutations: seq<Mutation>) returns (changed: set<Path>)
    ensures forall p :: p in changed <==>
              (exists i :: 0 <= i < |mutations| && Targeted(mutations[i], p))
              && ((p in before) != (p in after) || (p in before && before[p] != after[p]))
    ensures changed == {} <==>
              forall i :: 0 <= i < |mutations| ==>
                forall p :: Targeted(mutations[i], p) ==> (p in before <==> p in after) && (p in before ==> before[p] == after[p])
  {
    hide Targeted;
    var first := DigestTargets(before, mutations);
    var second := DigestTargets(after, mutations);
    changed := ChangedTargets(first, second);
    if i, p :| 0 <= i < |mutations| && Targeted(mutations[i], p)
               && ((p in before) != (p in after) || (p in before && before[p] != after[p])) {
      assert p in changed;
    }
  }

  // -- Carriage returns at work ------------------------------------------------------------------

  const RETURNS: Files := map["f" := Utf8("a\r\nb")]
  const RENAMED: Files := map["f" := Utf8("c\nb")]

  lemma ReadReturns()
    ensures Translate("a\r\nb") == "a\nb"
    ensures Count("a\nb", "a") == 1 && ReplaceFirst("a\nb", "a", "c") == "c\nb"
  {
    assert "a\r\nb"[1..] == "\r\nb" && "\r\nb"[2..] == "b" && "b"[1..] == "";
    assert Translate("b") == "b" && Translate("\r\nb") == "\nb";
    hide Translate;
    SoleOccurrence("a\nb", "a");
    assert "c" + "a\nb"[1..] == "c\nb";
  }

  /** A text that opens with a part and holds it nowhere else. */
  lemma SoleOccurrence(text: string, part: string)
    requires |part| == 1 && text != "" && text[0] == part[0] && forall k :: 1 <= k < |text| ==> text[k] != part[0]
    ensures Count(text, part) == 1 && FindFrom(text, part, 0) == Some(0)
  {
    forall k | OccursAt(text, part, k)
      ensures 0 <= k < 1
    {
      assert text[k..k + 1][0] == text[k];
    }
    assert text[0..1] == part;
    hide Count, FindFrom;
    OverlapsCountOnce(text, part, 0);
  }

  /**
   One edit of one letter, in a file that ends its lines with CR LF: both newlines are rewritten with the
   letter, and undoing the edit writes neither back and raises.
   */
  lemma ReturnsAreLost()
    ensures Landing(RETURNS, Edit("f", "a", "c"), Calm)
            == (RENAMED, Ok(Applied("f", "a\nb", Digest(Utf8("a\r\nb")), Digest(Utf8("c\nb")))))
    ensures PutBack(RENAMED, Applied("f", "a\nb", Digest(Utf8("a\r\nb")), Digest(Utf8("c\nb"))), Calm)
            == (map["f" := Utf8("a\nb")], Err(Harness(RestoreFailed)))
  {
    ReadReturns();
    assert Utf8("c\nb") != Utf8("a\r\nb") && Utf8("a\nb") != Utf8("a\r\nb") by {
      assert |"c\nb"| == |"a\nb"| == 3 && |"a\r\nb"| == 4;
    }
    assert Contains(Translate("c\nb"), "c") by {
      assert !HasCR("c\nb") && "c\nb"[0..1] == "c";
      assert OccursAt("c\nb", "c", 0);
    }
    hide Translate, Count, ReplaceFirst, Contains;
    assert RETURNS["f" := Utf8("c\nb")] == RENAMED;
    assert RENAMED["f" := Utf8("a\nb")] == map["f" := Utf8("a\nb")];
  }

  /** A replacement that ends in a carriage return is refused, with the file already changed. */
  lemma RefusedYetChanged()
    ensures Landing(map["f" := Utf8("b")], Edit("f", "b", "b\r"), Calm)
            == (map["f" := Utf8("b\r")], Err(Harness(ReplacementAbsent)))
  {
    assert !HasCR("b") && Translate("b") == "b";
    SoleOccurrence("b", "b");
    assert ReplaceFirst("b", "b", "b\r") == "b\r";
    assert "b\r"[1] == '\r';
    NeverReadBack("b\r", "b\r");
    assert |"b"| != |"b\r"|;
    hide Translate, Count, ReplaceFirst, Contains, HasCR;
    var files: Files := map["f" := Utf8("b")];
    assert files["f" := Utf8("b\r")] == map["f" := Utf8("b\r")];
  }
}
