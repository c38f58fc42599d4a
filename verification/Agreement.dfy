/** How far the two readers agree, and what a selection changes. */
module Agreement {
  import opened Paths
  import opened Links
  import opened FileSystem
  import opened Archives
  import opened Extraction
  import opened Containment
  import opened Exactness

  /** No file or link comes after an entry below it: the one thing the scan does not see. */
  ghost predicate NoLateParent(es: seq<TarEntry>) {
    forall i, j :: 0 <= i < j < |es| ==> NotAbove(es[i], es[j])
  }

  ghost predicate NotAbove(e: TarEntry, later: TarEntry) {
    StrictlyBelow(PathOf(later), PathOf(e)) ==> later.kind.DirKind?
  }

  lemma LateSnoc(es: seq<TarEntry>, e: TarEntry)
    ensures NoLateParent(es + [e]) <==> NoLateParent(es) && forall i :: 0 <= i < |es| ==> NotAbove(es[i], e)
  {
    hide NotAbove;
    var all := es + [e];
    assert all[|es|] == e && forall i :: 0 <= i < |es| ==> all[i] == es[i];
    if NoLateParent(all) {
      forall i, j | 0 <= i < j < |es| ensures NotAbove(es[i], es[j]) {
        assert NotAbove(all[i], all[j]);
      }
      forall i | 0 <= i < |es| ensures NotAbove(es[i], e) {
        assert NotAbove(all[i], all[|es|]);
      }
    }
  }

  /** Everything seen was made, directories as directories. */
  ghost predicate SameTable(made: map<Path, Node>, seen: map<Path, Kind>) {
    made.Keys == seen.Keys && forall p :: p in made ==> (made[p].DirNode? <==> seen[p] == DirKind)
  }

  lemma TableImplies(made: map<Path, Node>, seen: map<Path, Kind>, es: seq<TarEntry>, path: Path)
    requires SameTable(made, seen) && Seen(seen, es) && path != [] && path !in seen
    ensures WayClear(made, path) <==> ParentsAreDirs(seen, path)
    ensures Implied(made, path) <==> exists i :: 0 <= i < |es| && StrictlyBelow(path, PathOf(es[i]))
  {
    hide PathOf;
    if Implied(made, path) {
      var k :| k in made && path <= k;
      var i :| 0 <= i < |es| && PathOf(es[i]) == k;
      assert k[..|path|] == path && (|k| == |path| ==> k == path);
      assert StrictlyBelow(path, PathOf(es[i]));
    }
    if i :| 0 <= i < |es| && StrictlyBelow(path, PathOf(es[i])) {
      assert PathOf(es[i]) in made && path <= PathOf(es[i]);
    }
  }

  lemma AdmittedKind(l: Limits, t: Tally, seen: map<Path, Kind>, e: TarEntry)
    requires Admit(l, t, seen, e).Admitted?
    ensures NodeOf(e).DirNode? <==> e.kind == DirKind
  {
    hide EntryName;
  }

  /** The extraction has made every one of these entries. */
  ghost predicate Matching(root: Path, base: Fs, at: Path, s: Extracting, es: seq<TarEntry>) {
    && Going(root, base, at, s) && SameTable(s.made, s.seen) && Seen(s.seen, es)
    && s.tally == Summary(es) && s.selected == |es|
  }

  /** One turn of both readers on the same entry. */
  lemma StepsAgree(l: Limits, root: Path, base: Fs, at: Path, s: Extracting, es: seq<TarEntry>, e: TarEntry)
    requires AllNormal(root) && Positive(l) && Matching(root, base, at, s, es) && Acceptable(l, es)
    ensures var t := ExtractStep(l, root, EverySelector(), s, e);
            && (t.ok <==> Acceptable(l, es + [e]) && forall i :: 0 <= i < |es| ==> NotAbove(es[i], e))
            && (t.ok ==> Matching(root, base, at, t, es + [e]))
  {
    hide ExtractStep, Admit, Going, Seen, Summary, Acceptable, PathOf, NodeOf, Implied, WayClear, ParentsAreDirs, Whole,
         StrictlyBelow;
    AcceptStep(l, Scanning(s.tally, s.seen), es, e);
    StepExact(l, root, EverySelector(), base, at, s, e);
    AdmitMeans(l, s.tally, s.seen, e);
    if Admit(l, s.tally, s.seen, e).Admitted? {
      TableImplies(s.made, s.seen, es, PathOf(e));
      AdmittedKind(l, s.tally, s.seen, e);
    }
  }

  /** Extracting everything succeeds exactly on what the scan accepts without a late parent. */
  lemma {:induction false} RunsAgree(l: Limits, root: Path, base: Fs, at: Path, es: seq<TarEntry>)
    requires AllNormal(root) && Positive(l) && Ready(base, root, at) && Untouched(base, at)
    ensures var s := ExtractRun(l, root, EverySelector(), base, es);
            && (s.ok <==> Acceptable(l, es) && NoLateParent(es))
            && (s.ok ==> Matching(root, base, at, s, es))
    decreases |es|
  {
    if es == [] {
      hide Exact, Ready;
      ExactStart(base, at);
    } else {
      hide ExtractStep, Acceptable, NoLateParent, NotAbove, Matching, Ready, Untouched, Fits, AgreesWithAll, SizeOf,
           TotalSize;
      var front, e := es[..|es| - 1], es[|es| - 1];
      assert front + [e] == es;
      RunsAgree(l, root, base, at, front);
      LateSnoc(front, e);
      var t := ExtractRun(l, root, EverySelector(), base, front);
      if t.ok {
        StepsAgree(l, root, base, at, t, front, e);
      } else {
        StoppedStays(l, root, EverySelector(), t, e);
      }
      AcceptableSnoc(l, front, e);
    }
  }

  /**
    Scan and extraction agree: extracting everything into a destination that can be prepared succeeds
    exactly when the scan does, the archive is not empty, and no file or link comes after an entry
    below it; and both report the same.
   */
  lemma ScanAndExtractionAgree(limits: Limits, fs: Fs, root: Path, a: Archive)
    requires Rooted(fs) && AllNormal(root) && PrepareDestination(fs, root).ok
    ensures var scanned, extracted := ScanResult(limits, a),
            ExtractResult(limits, fs, root, a, EverySelector()).summary;
            && (extracted.Some? <==> scanned.Some? && a.entries != [] && NoLateParent(a.entries))
            && (extracted.Some? ==> extracted == scanned)
  {
    hide PrepareDestination, Ready, Untouched, PreparedFrom, Rooted, Acceptable, NoLateParent, Summary, Seen, SameTable,
         Going, ExtractRun, ScanRun;
    if WithDefaults(limits).Some? {
      hide WithDefaults;
      var l, base := WithDefaults(limits).value, PrepareDestination(fs, root).fs;
      Preparation(fs, root);
      var at :| Ready(base, root, at) && Untouched(base, at) && PreparedFrom(fs, base, at);
      RunsAgree(l, root, base, at, a.entries);
      ScanAccepts(l, a.entries);
    }
  }

  lemma TwoSizes(a: TarEntry, b: TarEntry)
    ensures TotalSize([a, b]) == SizeOf(a) + SizeOf(b)
  {
    hide SizeOf;
    assert [a, b][..1] == [a] && [a][..0] == [];
    assert TotalSize([a]) == SizeOf(a);
  }

  lemma TwoAccepted(l: Limits, a: TarEntry, b: TarEntry)
    requires 2 <= l.entries && SizeOf(a) + SizeOf(b) <= l.total && Fits(l, a) && Fits(l, b) && Agree(a, b)
    ensures Acceptable(l, [a, b])
  {
    hide SizeOf, Fits, Agree, TotalSize;
    TwoSizes(a, b);
    var es := [a, b];
    forall i, j | 0 <= i < j < |es| ensures Agree(es[i], es[j]) {
      assert i == 0 && j == 1;
    }
    forall i | 0 <= i < |es| ensures Fits(l, es[i]) {
      assert i == 0 || i == 1;
    }
  }

  /** The case that is left: a link after a file below it scans, but cannot be extracted. */
  lemma LateParentScans(limits: Limits, fs: Fs, root: Path, late: TarEntry, file: TarEntry)
    requires Rooted(fs) && AllNormal(root) && PrepareDestination(fs, root).ok
    requires file.kind.FileKind? && late.kind.LinkKind? && PathOf(late) != []
             && StrictlyBelow(PathOf(late), PathOf(file))
    requires WithDefaults(limits).Some?
    requires var l := WithDefaults(limits).value;
             Fits(l, file) && Fits(l, late) && file.size <= l.total && 2 <= l.entries
    ensures ScanResult(limits, Archive([file, late], false)).Some?
    ensures ExtractResult(limits, fs, root, Archive([file, late], false), EverySelector()).summary.None?
  {
    hide PrepareDestination, ExtractRun, ScanRun, Fits, PathOf, WithDefaults;
    var l, es := WithDefaults(limits).value, [file, late];
    ScanAndExtractionAgree(limits, fs, root, Archive(es, false));
    ScanAccepts(l, es);
    TwoSizes(file, late);
    TwoAccepted(l, file, late);
    assert !NotAbove(es[0], es[1]);
  }

  // Selections

  /** A run that selects less is as far, with less made. */
  ghost predicate Narrower(root: Path, base: Fs, at: Path, some: Extracting, all: Extracting) {
    && Going(root, base, at, some) && Going(root, base, at, all)
    && some.tally == all.tally && some.seen == all.seen && some.made.Items <= all.made.Items
  }

  lemma NarrowStep(l: Limits, root: Path, select: Selector, base: Fs, at: Path, some: Extracting, all: Extracting,
                   e: TarEntry)
    requires AllNormal(root) && Narrower(root, base, at, some, all) && select(EntryOf(e)) != Fault
    requires ExtractStep(l, root, EverySelector(), all, e).ok
    ensures var t := ExtractStep(l, root, select, some, e);
            && Narrower(root, base, at, t, ExtractStep(l, root, EverySelector(), all, e))
            && t.selected == some.selected + if select(EntryOf(e)) == Yes then 1 else 0
  {
    hide ExtractStep, Ready, Exact, PathOf, NodeOf, EntryOf, Admit, Whole, WayClear, Implied;
    StepExact(l, root, EverySelector(), base, at, all, e);
    StepExact(l, root, select, base, at, some, e);
    AdmitMeans(l, all.tally, all.seen, e);
    NarrowWork(some.made, all.made, e);
    NarrowPut(some.made, all.made, PathOf(e), NodeOf(e));
  }

  ghost predicate NeverFaults(select: Selector) {
    forall e: Entry :: select(e) != Fault
  }

  ghost predicate AnyChosen(es: seq<TarEntry>, select: Selector) {
    exists i :: 0 <= i < |es| && select(EntryOf(es[i])) == Yes
  }

  lemma ChosenLast(es: seq<TarEntry>, select: Selector)
    requires es != []
    ensures AnyChosen(es, select) ==> AnyChosen(es[..|es| - 1], select) || select(EntryOf(es[|es| - 1])) == Yes
    ensures NeverFaults(select) ==> select(EntryOf(es[|es| - 1])) != Fault
  {
    hide EntryOf;
    var front := es[..|es| - 1];
    if AnyChosen(es, select) {
      var i :| 0 <= i < |es| && select(EntryOf(es[i])) == Yes;
      assert i < |front| ==> front[i] == es[i];
    }
  }

  /** A selector that gives no error, on an archive that extracts whole. */
  lemma {:induction false} NarrowRun(l: Limits, root: Path, select: Selector, base: Fs, at: Path, es: seq<TarEntry>)
    requires AllNormal(root) && Ready(base, root, at) && Untouched(base, at)
    requires ExtractRun(l, root, EverySelector(), base, es).ok && NeverFaults(select)
    ensures var some := ExtractRun(l, root, select, base, es);
            && Narrower(root, base, at, some, ExtractRun(l, root, EverySelector(), base, es))
            && (AnyChosen(es, select) ==> some.selected > 0)
    decreases |es|
  {
    if es == [] {
      hide Exact, Ready;
      ExactStart(base, at);
    } else {
      hide ExtractStep, Narrower, Ready, Untouched, EntryOf, NeverFaults, AnyChosen;
      var front, e := es[..|es| - 1], es[|es| - 1];
      var all, some := ExtractRun(l, root, EverySelector(), base, front), ExtractRun(l, root, select, base, front);
      if !all.ok {
        StoppedStays(l, root, EverySelector(), all, e);
      }
      NarrowRun(l, root, select, base, at, front);
      ChosenLast(es, select);
      NarrowStep(l, root, select, base, at, some, all, e);
    }
  }

  lemma NarrowWork(some: map<Path, Node>, all: map<Path, Node>, e: TarEntry)
    requires some.Items <= all.Items
    ensures WayClear(all, PathOf(e)) ==> WayClear(some, PathOf(e))
    ensures Implied(some, PathOf(e)) ==> Implied(all, PathOf(e))
  {
    hide PathOf;
    forall p | p in some ensures p in all && all[p] == some[p] {
      assert (p, some[p]) in some.Items;
    }
  }

  lemma NarrowPut(some: map<Path, Node>, all: map<Path, Node>, path: Path, node: Node)
    requires some.Items <= all.Items
    ensures path !in all ==> some.Items <= all[path := node].Items
    ensures some[path := node].Items <= all[path := node].Items
  {
    forall p | p in some ensures p in all && all[p] == some[p] {
      assert (p, some[p]) in some.Items;
    }
  }

  /**
    A selection changes what is written and nothing else: where everything can be extracted, so can
    any nonempty selection; the whole archive is checked and counted all the same, and the destination
    receives exactly the selected entries and the directories they need.
   */
  lemma SelectionNarrows(limits: Limits, fs: Fs, root: Path, a: Archive, select: Selector)
    requires Rooted(fs) && AllNormal(root) && PrepareDestination(fs, root).ok
    requires ExtractResult(limits, fs, root, a, EverySelector()).summary.Some?
    requires NeverFaults(select) && AnyChosen(a.entries, select)
    ensures var base, r := PrepareDestination(fs, root).fs, ExtractResult(limits, fs, root, a, select);
            && r.summary == ExtractResult(limits, fs, root, a, EverySelector()).summary
            && exists at ::
                Ready(base, root, at) && Untouched(base, at) && Exact(base, at, Made(a.entries, select), r.fs)
  {
    hide PrepareDestination, WithDefaults, Ready, Untouched, PreparedFrom, Rooted, ExtractRun, EntryOf, Made, Exact,
         NeverFaults, AnyChosen;
    var l, base := WithDefaults(limits).value, PrepareDestination(fs, root).fs;
    Preparation(fs, root);
    var at :| Ready(base, root, at) && Untouched(base, at) && PreparedFrom(fs, base, at);
    NarrowRun(l, root, select, base, at, a.entries);
    RunExact(l, root, select, base, at, a.entries);
    var r := ExtractResult(limits, fs, root, a, select);
    assert Exact(base, at, Made(a.entries, select), r.fs);
  }
}
