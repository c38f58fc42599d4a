/** The archive a filtered walk writes, stated without the walk. */
module Filtering {
  import opened Paths
  import opened Trees
  import opened Selection
  import opened Choosing
  import opened Archives
  import opened Creation
  import opened RoundTrip
  import opened Extraction
  import opened Containment
  import opened Agreement
  import FileSystem
  import Links
  import Matcher

  /** Excluded by no pattern, and wanted by the includes, if there are any. */
  ghost predicate Wanted(m: SegmentMatch, patterns: seq<string>, includes: seq<string>, name: string, dir: bool) {
    && !SomeMatch(m, patterns, name)
    && (includes == [] || SomeMatch(m, includes, name) || (dir && exists p :: p in includes && CouldContain(p, name)))
  }

  ghost predicate ExcludedAbove(m: SegmentMatch, patterns: seq<string>, p: Path) {
    exists k :: 0 < k < |p| && SomeMatch(m, patterns, Join(p[..k]))
  }

  lemma FilterDecides(m: SegmentMatch, patterns: seq<string>, includes: seq<string>, t: Tree, p: Path)
    requires p != [] && At(t, p).Node? && FilterOf(m, patterns, includes)(p, At(t, p).node) != Stop
    ensures var d := FilterOf(m, patterns, includes)(p, At(t, p).node);
            && (d == Include <==> Wanted(m, patterns, includes, Join(p), At(t, p).node.Dir?))
            && (d == Prune <==> SomeMatch(m, patterns, Join(p)) && At(t, p).node.Dir?)
  {
    hide SomeMatch, CouldContain, Join, Decide;
    DecideMeans(m, patterns, includes, Join(p), At(t, p).node.Dir?);
  }

  /** In a walk that succeeds no selection errs on a node the walk comes to. */
  lemma ShownDecides(choose: Chooser, t: Tree, v: Visit)
    requires t.Dir? && !FailureIn(choose, [], t, t.entries.Keys) && Shown(choose, t, v)
    ensures choose(v.path, v.node) != Stop
  {
    hide FailureIn, Shown;
    CreationFails(choose, t);
    assert !Fails(choose, v);
  }

  /** Up to length `k` no directory on the way is excluded exactly when none was pruned. */
  lemma {:induction false} NotPrunedMeans(m: SegmentMatch, patterns: seq<string>, includes: seq<string>, t: Tree,
                                          p: Path, k: nat)
    requires t.Dir? && At(t, p).Node? && k <= |p|
    requires !FailureIn(FilterOf(m, patterns, includes), [], t, t.entries.Keys)
    ensures (forall l :: 0 < l < k ==> NotPruned(FilterOf(m, patterns, includes), t, p[..l])) <==>
            (forall l :: 0 < l < k ==> !SomeMatch(m, patterns, Join(p[..l])))
    decreases k
  {
    hide SomeMatch, Join, FilterOf, FailureIn;
    if k > 1 {
      var choose, l := FilterOf(m, patterns, includes), k - 1;
      NotPrunedMeans(m, patterns, includes, t, p, l);
      if forall i :: 0 < i < l ==> NotPruned(choose, t, p[..i]) {
        AtAbove(t, p, l);
        var v := Visit(p[..l], At(t, p[..l]).node);
        forall i | 0 < i < l ensures NotPruned(choose, t, v.path[..i]) {
          assert v.path[..i] == p[..i];
        }
        ShownDecides(choose, t, v);
        FilterDecides(m, patterns, includes, t, p[..l]);
      }
    }
  }

  /**
    Whenever the walk succeeds, whatever its patterns would do on nodes it never comes to: archived are
    exactly the wanted nodes with no excluded directory above them.
   */
  lemma PrunedWalkIsAFilter(m: SegmentMatch, patterns: seq<string>, includes: seq<string>, t: Tree, w: seq<Visit>,
                            v: Visit)
    requires t.Dir? && !FailureIn(FilterOf(m, patterns, includes), [], t, t.entries.Keys)
    requires CompleteIn(FilterOf(m, patterns, includes), [], t, t.entries.Keys, w)
    ensures Kept(FilterOf(m, patterns, includes), w, v) <==>
            && v.path != [] && At(t, v.path) == Node(v.node)
            && !ExcludedAbove(m, patterns, v.path)
            && Wanted(m, patterns, includes, Join(v.path), v.node.Dir?)
  {
    hide SomeMatch, Join, CompleteIn, FailureIn, FilterOf, Wanted, NotPruned;
    var choose := FilterOf(m, patterns, includes);
    VisitedMeans(choose, t, w, v);
    if v.path != [] && At(t, v.path) == Node(v.node) {
      NotPrunedMeans(m, patterns, includes, t, v.path, |v.path|);
      if Shown(choose, t, v) {
        ShownDecides(choose, t, v);
        FilterDecides(m, patterns, includes, t, v.path);
      }
    }
  }

  /** With patterns that end in double stars, directories above need not be looked at. */
  lemma StarPatternsFilterNodes(m: SegmentMatch, patterns: seq<string>, includes: seq<string>, t: Tree, w: seq<Visit>,
                                v: Visit)
    requires t.Dir? && Named(t) && !FailureIn(FilterOf(m, patterns, includes), [], t, t.entries.Keys)
    requires CompleteIn(FilterOf(m, patterns, includes), [], t, t.entries.Keys, w)
    requires forall p :: p in patterns ==> EndsInStars(p)
    ensures Kept(FilterOf(m, patterns, includes), w, v) <==>
            v.path != [] && At(t, v.path) == Node(v.node) && Wanted(m, patterns, includes, Join(v.path), v.node.Dir?)
  {
    hide Join, CompleteIn, FailureIn, FilterOf, EndsInStars, Named, Matcher.MatchName, CouldContain;
    PrunedWalkIsAFilter(m, patterns, includes, t, w, v);
    if v.path != [] && At(t, v.path) == Node(v.node) && ExcludedAbove(m, patterns, v.path) {
      NamedPath(t, v.path);
      var k :| 0 < k < |v.path| && SomeMatch(m, patterns, Join(v.path[..k]));
      var p :| p in patterns && Matcher.MatchName(m, p, Join(v.path[..k])) == Value(true);
      assert v.path[..k] + v.path[k..] == v.path;
      StarsReachBelow(m, p, v.path[..k], v.path[k..]);
      assert SomeMatch(m, patterns, Join(v.path));
    }
  }

  /** The built-in excludes alone leave out exactly the nodes they match. */
  lemma BuiltInExcludesFilterNodes(m: SegmentMatch, includes: seq<string>, vcs: bool, cache: bool, t: Tree,
                                   w: seq<Visit>, v: Visit)
    requires t.Dir? && Named(t)
    requires !FailureIn(FilterOf(m, ExcludePatterns([], vcs, cache), includes), [], t, t.entries.Keys)
    requires CompleteIn(FilterOf(m, ExcludePatterns([], vcs, cache), includes), [], t, t.entries.Keys, w)
    ensures var patterns := ExcludePatterns([], vcs, cache);
            Kept(FilterOf(m, patterns, includes), w, v) <==>
            v.path != [] && At(t, v.path) == Node(v.node) && Wanted(m, patterns, includes, Join(v.path), v.node.Dir?)
  {
    hide Join, CompleteIn, FailureIn, FilterOf, EndsInStars, Named, Wanted;
    BuiltInsEndInStars();
    StarPatternsFilterNodes(m, ExcludePatterns([], vcs, cache), includes, t, w, v);
  }

  function SizesOf(w: seq<Visit>): nat {
    if w == [] then 0 else SizesOf(w[..|w| - 1]) + Size(w[|w| - 1].node)
  }

  /** The preview accounts for every visited node once: the included ones are the entries written, byte for byte. */
  lemma {:induction false} PreviewAccounts(choose: Chooser, w: seq<Visit>)
    ensures var p, es := Counted(choose, w), Written(choose, w);
            && p.includedEntries == |es| && p.includedBytes == TotalSize(es)
            && p.includedEntries + p.excludedEntries == |w| && p.includedBytes + p.excludedBytes == SizesOf(w)
    decreases |w|
  {
    if w != [] {
      hide EntryFor;
      var front, v := w[..|w| - 1], w[|w| - 1];
      PreviewAccounts(choose, front);
      SizePositive(v);
      TotalSnoc(Written(choose, front), EntryFor(v));
    }
  }

  function EverythingChosen(): Chooser {
    (p: Path, t: Tree) => Include
  }

  /** Without a selection the tree itself comes back: every node, and nothing else, at its path. */
  lemma WholeTreeComesBack(t: Tree, w: seq<Visit>, base: FileSystem.Fs, at: Path, fs: FileSystem.Fs, p: Path)
    requires t.Dir? && CompleteIn(EverythingChosen(), [], t, t.entries.Keys, w)
             && Restored(EverythingChosen(), w, base, at, fs) && p != []
    ensures at + p in fs <==> At(t, p).Node?
    ensures At(t, p).Node? ==>
              fs[at + p] == match At(t, p).node
                            case File(mode, data) => FileSystem.FileNode(mode % 512, data)
                            case Link(target) => FileSystem.LinkNode(target)
                            case Dir(_, _) => FileSystem.DirNode(448)
  {
    hide CompleteIn;
    var choose := EverythingChosen();
    if At(t, p).Node? {
      var v := Visit(p, At(t, p).node);
      VisitedMeans(choose, t, w, v);
      EverythingShown(t, v);
      assert Kept(choose, w, v);
    }
    if Needed(choose, w, p) {
      var v :| Kept(choose, w, v) && p <= v.path;
      VisitedMeans(choose, t, w, v);
      if |p| < |v.path| {
        AtAbove(t, v.path, |p|);
        assert v.path[..|p|] == p;
      } else {
        assert v.path == p;
      }
    }
  }

  lemma EverythingShown(t: Tree, v: Visit)
    requires t.Dir?
    ensures Shown(EverythingChosen(), t, v) <==> v.path != [] && At(t, v.path) == Node(v.node)
  {
    if v.path != [] && At(t, v.path) == Node(v.node) {
      forall k | 0 < k < |v.path| ensures NotPruned(EverythingChosen(), t, v.path[..k]) {
        AtAbove(t, v.path, k);
      }
    }
  }

  /** Creating a whole archive fails exactly on a symlink that is not portable. */
  lemma WholeTreeFails(t: Tree)
    requires t.Dir?
    ensures FailureIn(EverythingChosen(), [], t, t.entries.Keys) <==>
            exists v: Visit ::
                v.path != [] && At(t, v.path) == Node(v.node) && v.node.Link?
                  && !Links.PortableLink(v.path, v.node.target)
  {
    hide FailureIn, Shown;
    var choose := EverythingChosen();
    CreationFails(choose, t);
    if FailureIn(choose, [], t, t.entries.Keys) {
      var v :| Shown(choose, t, v) && Fails(choose, v);
      EverythingShown(t, v);
    }
    if v: Visit :|
        v.path != [] && At(t, v.path) == Node(v.node) && v.node.Link? && !Links.PortableLink(v.path, v.node.target) {
      EverythingShown(t, v);
      assert Shown(choose, t, v) && Fails(choose, v);
    }
  }

  lemma {:induction false} KeptIsWritten(choose: Chooser, w: seq<Visit>, v: Visit)
    requires Kept(choose, w, v)
    ensures Written(choose, w) != []
    decreases |w|
  {
    hide EntryFor;
    if v != w[|w| - 1] {
      KeptIsWritten(choose, w[..|w| - 1], v);
    }
  }

  /** A tree whose one file has a name the writer archives and both readers refuse. */
  lemma NotPortableName(n: string, node: Tree, w: seq<Visit>, limits: Limits, fs: FileSystem.Fs, root: Path)
    requires Normal(n) && !Links.PortableText(n) && node.File?
    requires var t := Dir(493, map[n := node]); CompleteIn(EverythingChosen(), [], t, t.entries.Keys, w)
    requires FileSystem.Rooted(fs) && AllNormal(root) && PrepareDestination(fs, root).ok && WithDefaults(limits).Some?
    ensures var t := Dir(493, map[n := node]); !FailureIn(EverythingChosen(), [], t, t.entries.Keys)
    ensures var a := Archive(Written(EverythingChosen(), w), false);
            && a.entries != []
            && ExtractResult(limits, fs, root, a, EverySelector()).summary.None?
            && ScanResult(limits, a).None?
  {
    hide CompleteIn, FailureIn, Written, ExtractResult, ScanResult, PrepareDestination, FileSystem.Rooted, Acceptable,
         WithDefaults, Ready, Untouched, Restored, Summary, NoLateParent, Links.PortableText;
    var t, choose := Dir(493, map[n := node]), EverythingChosen();
    var v, a := Visit([n], node), Archive(Written(choose, w), false);
    assert At(t, [n]) == Node(node);
    WholeTreeFails(t);
    EverythingShown(t, v);
    VisitedMeans(choose, t, w, v);
    KeptIsWritten(choose, w, v);
    assert Join([n]) == n;
    var i :| 0 <= i < |w| && w[i] == v;
    assert !RoundTrip.Readable(WithDefaults(limits).value, w[i]);
    ArchiveRoundTrip(choose, t, w, limits, fs, root);
    WalkDraws(choose, t, w);
    WrittenAccepted(choose, WithDefaults(limits).value, t, w);
    ScanAccepts(WithDefaults(limits).value, a.entries);
    ScansWhole(limits, a);
  }

  lemma ScansWhole(limits: Limits, a: Archive)
    requires WithDefaults(limits).Some?
    ensures ScanResult(limits, a).Some? ==> ScanRun(WithDefaults(limits).value, a.entries).Scanning?
  {
    hide ScanRun;
  }

  /** Names with a backslash, and drive names, are such names. */
  lemma BackslashNotPortable(before: string, after: string)
    requires '/' !in before && '/' !in after
    ensures Normal(before + "\\" + after) && !Links.PortableText(before + "\\" + after)
    ensures Normal("C:") && !Links.PortableText("C:")
  {
    assert (before + "\\" + after)[|before|] == '\\';
  }
}
