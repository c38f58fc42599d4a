/** From a tree to an archive and back. */
module RoundTrip {
  import opened Paths
  import opened Links
  import opened Trees
  import FileSystem
  import opened Archives
  import opened Extraction
  import opened Creation
  import opened Containment
  import opened Exactness
  import opened Agreement

  // What the walk visits

  ghost predicate NotPruned(choose: Chooser, t: Tree, p: Path) {
    At(t, p).Node? && choose(p, At(t, p).node) != Prune
  }

  /** In the tree, with no pruned directory above it. */
  ghost predicate Shown(choose: Chooser, t: Tree, v: Visit) {
    && v.path != [] && At(t, v.path) == Node(v.node)
    && forall k :: 0 < k < |v.path| ==> NotPruned(choose, t, v.path[..k])
  }

  lemma {:induction false} ReachedMeans(choose: Chooser, path: Path, t: Tree, rest: Path, node: Tree)
    ensures Reached(choose, path, t, rest, node) <==>
            At(t, rest) == Node(node) && forall k :: 0 <= k < |rest| ==>
                At(t, rest[..k]).Node? && choose(path + rest[..k], At(t, rest[..k]).node) != Prune
    decreases |rest|
  {
    if rest == [] {
    } else if t.Dir? && rest[0] in t.entries {
      var n, tail := rest[0], rest[1..];
      ReachedMeans(choose, path + [n], t.entries[n], tail, node);
      forall k | 0 < k < |rest|
        ensures rest[..k][1..] == tail[..k - 1] && path + rest[..k] == path + [n] + tail[..k - 1] {
      }
      assert rest[..0] == [] && path + [] == path;
      if Reached(choose, path, t, rest, node) {
        forall k | 0 <= k < |rest|
          ensures At(t, rest[..k]).Node? && choose(path + rest[..k], At(t, rest[..k]).node) != Prune {
          if k > 0 {
            assert At(t, rest[..k]) == At(t.entries[n], tail[..k - 1]);
          }
        }
      }
      if At(t, rest) == Node(node) && forall k :: 0 <= k < |rest| ==>
          At(t, rest[..k]).Node? && choose(path + rest[..k], At(t, rest[..k]).node) != Prune {
        assert choose(path + rest[..0], At(t, rest[..0]).node) != Prune;
        forall k | 0 <= k < |tail|
          ensures At(t.entries[n], tail[..k]).Node? && choose(path + [n] + tail[..k],
                                                              At(t.entries[n], tail[..k]).node) != Prune {
          assert At(t, rest[..k + 1]) == At(t.entries[n], tail[..k]);
          assert choose(path + rest[..k + 1], At(t, rest[..k + 1]).node) != Prune;
        }
      }
    } else {
      assert At(t, rest) == Nothing;
    }
  }

  ghost predicate VisitedFrom(choose: Chooser, t: Tree, v: Visit)
    requires t.Dir?
  {
    exists n :: n in t.entries && Visits(choose, [] + [n], t.entries[n], v)
  }

  lemma VisitsShown(choose: Chooser, t: Tree, v: Visit)
    requires t.Dir?
    ensures VisitedFrom(choose, t, v) <==> Shown(choose, t, v)
  {
    if v.path != [] && v.path[0] in t.entries {
      var n, rest := v.path[0], v.path[1..];
      assert [] + [n] == [n] && v.path[..1] == [n];
      ReachedMeans(choose, [n], t.entries[n], rest, v.node);
      assert Visits(choose, [] + [n], t.entries[n], v) <==> Reached(choose, [n], t.entries[n], rest, v.node);
      forall k | 0 < k < |v.path|
        ensures v.path[..k][1..] == rest[..k - 1] && v.path[..k] == [n] + rest[..k - 1]
                && At(t, v.path[..k]) == At(t.entries[n], rest[..k - 1]) {
      }
      if Shown(choose, t, v) {
        forall k | 0 <= k < |rest|
          ensures At(t.entries[n], rest[..k]).Node? && choose([n] + rest[..k],
                                                              At(t.entries[n], rest[..k]).node) != Prune {
          assert NotPruned(choose, t, v.path[..k + 1]);
        }
      }
    }
    forall m | m in t.entries && Visits(choose, [] + [m], t.entries[m], v) ensures v.path != [] && m == v.path[0] {
      assert v.path[..1] == [m];
    }
  }

  /** The walk visits each node with no pruned directory above it, and no other. */
  lemma VisitedMeans(choose: Chooser, t: Tree, w: seq<Visit>, v: Visit)
    requires t.Dir? && CompleteIn(choose, [], t, t.entries.Keys, w)
    ensures v in w <==> Shown(choose, t, v)
  {
    hide Visits, Shown, Ordered;
    VisitsShown(choose, t, v);
  }

  /** Creation fails exactly on a node it comes to whose selection errs, or that is a link which may not be written. */
  lemma CreationFails(choose: Chooser, t: Tree)
    requires t.Dir?
    ensures FailureIn(choose, [], t, t.entries.Keys) <==> exists v :: Shown(choose, t, v) && Fails(choose, v)
  {
    hide Visits, Shown, Fails;
    if FailureIn(choose, [], t, t.entries.Keys) {
      var n :| n in t.entries.Keys && SomeFailure(choose, [] + [n], t.entries[n]);
      var v :| Visits(choose, [] + [n], t.entries[n], v) && Fails(choose, v);
      assert VisitedFrom(choose, t, v);
      VisitsShown(choose, t, v);
    }
    if v :| Shown(choose, t, v) && Fails(choose, v) {
      VisitsShown(choose, t, v);
      var n :| n in t.entries && Visits(choose, [] + [n], t.entries[n], v);
      assert SomeFailure(choose, [] + [n], t.entries[n]);
    }
  }

  // Names

  lemma {:induction false} SignificantNormal(p: Path)
    requires AllNormal(p)
    ensures Significant(p) == p && Significant(p + [""]) == p
    decreases |p|
  {
    assert (p + [""])[..|p|] == p;
    if p != [] {
      SignificantNormal(p[..|p| - 1]);
    }
  }

  /** The readers see the path the writer meant, as long as its text is portable. */
  lemma NameOfPath(p: Path)
    requires AllNormal(p) && p != []
    ensures EntryName(Join(p)) == if PortableText(Join(p)) then Name(p) else BadName
    ensures EntryName(Join(p) + "/") == if PortableText(Join(p)) then Name(p) else BadName
  {
    hide Split, Significant;
    var s := Join(p);
    SplitJoin(p);
    SplitConcat(s, "");
    SplitOne("");
    assert s + "/" + "" == s + "/";
    SignificantNormal(p);
    assert UP !in p && UP !in p + [""];
    assert s != "" && s[0] != '/' by { assert s[0] == p[0][0]; }
    assert PortableText(s + "/") <==> PortableText(s);
  }

  lemma PathOfEntry(v: Visit)
    requires AllNormal(v.path) && v.path != []
    ensures EntryName(EntryFor(v).name) == if PortableText(Join(v.path)) then Name(v.path) else BadName
  {
    hide EntryName, Join;
    NameOfPath(v.path);
  }

  // What the readers make of what the writer wrote

  /** The readers' demands on a node that the writer does not check. */
  predicate Readable(l: Limits, v: Visit) {
    PortableText(Join(v.path)) && |v.path| <= l.depth && Size(v.node) <= l.entrySize
  }

  lemma FitsWhen(choose: Chooser, l: Limits, v: Visit)
    requires Positive(l) && AllNormal(v.path) && v.path != [] && !Fails(choose, v) && choose(v.path, v.node) == Include
    ensures Fits(l, EntryFor(v)) <==> Readable(l, v)
    ensures PortableText(Join(v.path)) ==> PathOf(EntryFor(v)) == v.path
  {
    hide EntryName, Join, PortableText, PortableLink;
    PathOfEntry(v);
  }

  /** Nodes of one tree, each with a plain path. */
  ghost predicate Drawn(t: Tree, w: seq<Visit>) {
    forall i :: 0 <= i < |w| ==> w[i].path != [] && AllNormal(w[i].path) && At(t, w[i].path) == Node(w[i].node)
  }

  ghost predicate NoneFails(choose: Chooser, w: seq<Visit>) {
    forall i :: 0 <= i < |w| ==> !Fails(choose, w[i])
  }

  ghost predicate AllReadable(choose: Chooser, l: Limits, w: seq<Visit>) {
    forall i :: 0 <= i < |w| && choose(w[i].path, w[i].node) == Include ==> Readable(l, w[i])
  }

  lemma {:induction false} AtAbove(t: Tree, p: Path, k: nat)
    requires k < |p| && At(t, p).Node?
    ensures At(t, p[..k]).Node? && At(t, p[..k]).node.Dir?
    decreases k
  {
    if k > 0 {
      assert p[..k][1..] == p[1..][..k - 1];
      AtAbove(t.entries[p[0]], p[1..], k - 1);
    }
  }

  /** Two entries of one tree in walking order get along. */
  lemma PairAgrees(choose: Chooser, l: Limits, t: Tree, v: Visit, u: Visit)
    requires forall x :: x in {v, u} ==>
               x.path != [] && AllNormal(x.path) && At(t, x.path) == Node(x.node) && Readable(l, x)
    requires !(u.path <= v.path)
    ensures Agree(EntryFor(v), EntryFor(u)) && NotAbove(EntryFor(v), EntryFor(u))
  {
    hide EntryName, Join, PortableText;
    assert v in {v, u} && u in {v, u};
    PathOfEntry(v);
    PathOfEntry(u);
    if StrictlyBelow(v.path, u.path) {
      AtAbove(t, u.path, |v.path|);
    }
  }

  /** The entries, one by one, against the visits they come from. */
  ghost predicate Comes(choose: Chooser, w: seq<Visit>, e: TarEntry) {
    exists i :: 0 <= i < |w| && choose(w[i].path, w[i].node) == Include && e == EntryFor(w[i])
  }

  lemma {:induction false} WrittenComes(choose: Chooser, w: seq<Visit>)
    ensures forall i :: 0 <= i < |Written(choose, w)| ==> Comes(choose, w, Written(choose, w)[i])
    decreases |w|
  {
    if w != [] {
      hide EntryFor;
      var front := w[..|w| - 1];
      WrittenComes(choose, front);
      var es, all := Written(choose, front), Written(choose, w);
      forall i | 0 <= i < |all| ensures Comes(choose, w, all[i]) {
        if i < |es| {
          assert all[i] == es[i];
          var k :| 0 <= k < |front| && choose(front[k].path, front[k].node) == Include && es[i] == EntryFor(front[k]);
          assert w[k] == front[k];
        } else {
          assert all[i] == EntryFor(w[|w| - 1]);
        }
      }
    }
  }

  lemma NextAgrees(choose: Chooser, l: Limits, t: Tree, w: seq<Visit>, u: Visit)
    requires Drawn(t, w + [u]) && Ordered(w + [u]) && AllReadable(choose, l, w + [u])
             && choose(u.path, u.node) == Include
    ensures AgreesWithAll(Written(choose, w), EntryFor(u))
    ensures forall i :: 0 <= i < |Written(choose, w)| ==> NotAbove(Written(choose, w)[i], EntryFor(u))
  {
    hide EntryFor, Written, Agree, NotAbove, Readable;
    var es, all := Written(choose, w), w + [u];
    assert all[|w|] == u;
    WrittenComes(choose, w);
    forall i | 0 <= i < |es| ensures Agree(es[i], EntryFor(u)) && NotAbove(es[i], EntryFor(u)) {
      assert Comes(choose, w, es[i]);
      var k :| 0 <= k < |w| && choose(w[k].path, w[k].node) == Include && es[i] == EntryFor(w[k]);
      assert all[k] == w[k] && !(all[|w|].path <= all[k].path);
      PairAgrees(choose, l, t, w[k], u);
    }
  }

  lemma Front(choose: Chooser, l: Limits, t: Tree, w: seq<Visit>, u: Visit)
    requires Drawn(t, w + [u]) && Ordered(w + [u])
    ensures Drawn(t, w) && Ordered(w) && u.path != [] && AllNormal(u.path)
    ensures NoneFails(choose, w + [u]) ==> NoneFails(choose, w) && !Fails(choose, u)
    ensures AllReadable(choose, l, w + [u]) <==>
              AllReadable(choose, l, w) && (choose(u.path, u.node) == Include ==> Readable(l, u))
  {
    hide Readable, Fails;
    var all := w + [u];
    assert all[|w|] == u && forall i :: 0 <= i < |w| ==> all[i] == w[i];
    if AllReadable(choose, l, all) {
      forall i | 0 <= i < |w| && choose(w[i].path, w[i].node) == Include ensures Readable(l, w[i]) {
        assert all[i] == w[i];
      }
    }
  }

  /** The readers accept what the writer wrote exactly when the names are portable and the limits are kept. */
  lemma {:induction false} WrittenAccepted(choose: Chooser, l: Limits, t: Tree, w: seq<Visit>)
    requires Positive(l) && Drawn(t, w) && Ordered(w) && NoneFails(choose, w)
    ensures var es := Written(choose, w);
            && (Acceptable(l, es) <==> |es| <= l.entries && TotalSize(es) <= l.total && AllReadable(choose, l, w))
            && (Acceptable(l, es) ==> NoLateParent(es))
    decreases |w|
  {
    if w == [] {
      assert Acceptable(l, []);
    } else {
      hide EntryFor, Fits, Readable, Agree, NotAbove, Fails, SizeOf, Acceptable, NoLateParent, TotalSize, AgreesWithAll,
           Drawn, Ordered, NoneFails, AllReadable;
      var front, u := w[..|w| - 1], w[|w| - 1];
      var es := Written(choose, front);
      assert w == front + [u];
      Front(choose, l, t, front, u);
      WrittenAccepted(choose, l, t, front);
      if choose(u.path, u.node) == Include {
        SizePositive(u);
        AcceptableSnoc(l, es, EntryFor(u));
        LateSnoc(es, EntryFor(u));
        TotalSnoc(es, EntryFor(u));
        FitsWhen(choose, l, u);
        if AllReadable(choose, l, w) {
          NextAgrees(choose, l, t, front, u);
        }
      }
    }
  }

  lemma SizePositive(v: Visit)
    ensures SizeOf(EntryFor(v)) == Size(v.node)
  {
  }

  lemma TotalSnoc(es: seq<TarEntry>, e: TarEntry)
    ensures TotalSize(es + [e]) == TotalSize(es) + SizeOf(e)
  {
    hide SizeOf;
    var all := es + [e];
    assert all[..|all| - 1] == es && all[|es|] == e;
  }

  // What is restored

  /** The node extraction makes for a tree node: its own, but directories are private. */
  function NodeFor(t: Tree): FileSystem.Node {
    match t
    case File(mode, data) => FileSystem.FileNode(mode % 512, data)
    case Link(target) => FileSystem.LinkNode(target)
    case Dir(_, _) => FileSystem.PRIVATE_DIR
  }

  /** A visit that was written. */
  predicate Kept(choose: Chooser, w: seq<Visit>, v: Visit) {
    v in w && choose(v.path, v.node) == Include
  }

  ghost predicate MadeOf(choose: Chooser, w: seq<Visit>, made: map<Path, FileSystem.Node>) {
    && (forall v :: Kept(choose, w, v) ==> v.path in made && made[v.path] == NodeFor(v.node))
    && forall p :: p in made ==> exists v :: Kept(choose, w, v) && v.path == p
  }

  lemma EntryMakes(l: Limits, v: Visit)
    requires AllNormal(v.path) && v.path != [] && Readable(l, v)
    ensures PathOf(EntryFor(v)) == v.path && NodeOf(EntryFor(v)) == NodeFor(v.node)
  {
    hide EntryName, Join, PortableText;
    PathOfEntry(v);
  }

  lemma KeptFront(choose: Chooser, w: seq<Visit>, u: Visit, v: Visit)
    ensures Kept(choose, w + [u], v) <==> Kept(choose, w, v) || (v == u && choose(u.path, u.node) == Include)
  {
  }

  lemma MadeNext(choose: Chooser, w: seq<Visit>, u: Visit, made: map<Path, FileSystem.Node>)
    requires MadeOf(choose, w, made) && Ordered(w + [u])
    ensures MadeOf(choose, w + [u], if choose(u.path, u.node) == Include then made[u.path := NodeFor(u.node)] else made)
  {
    hide Kept, NodeFor, Ordered;
    var included := choose(u.path, u.node) == Include;
    forall v ensures Kept(choose, w + [u], v) <==> Kept(choose, w, v) || (v == u && included) {
      KeptFront(choose, w, u, v);
    }
    forall v | Kept(choose, w, v) ensures v.path != u.path {
      KeptBefore(choose, w, v, u);
    }
    var more := if included then made[u.path := NodeFor(u.node)] else made;
    forall p | p in more ensures exists v :: Kept(choose, w + [u], v) && v.path == p {
      if p in made {
        var v :| Kept(choose, w, v) && v.path == p;
        assert Kept(choose, w + [u], v);
      } else {
        assert Kept(choose, w + [u], u);
      }
    }
  }

  lemma {:induction false} MadeWritten(choose: Chooser, l: Limits, t: Tree, w: seq<Visit>)
    requires Drawn(t, w) && Ordered(w) && AllReadable(choose, l, w)
    ensures MadeOf(choose, w, Made(Written(choose, w), EverySelector()))
    decreases |w|
  {
    if w != [] {
      hide EntryFor, Readable, NodeOf, PathOf, MadeOf, EntryOf, NodeFor, Drawn, Ordered, AllReadable;
      var front, u := w[..|w| - 1], w[|w| - 1];
      var es := Written(choose, front);
      assert w == front + [u];
      Front(choose, l, t, front, u);
      MadeWritten(choose, l, t, front);
      MadeNext(choose, front, u, Made(es, EverySelector()));
      if choose(u.path, u.node) == Include {
        EntryMakes(l, u);
        var all := es + [EntryFor(u)];
        assert all[..|all| - 1] == es && all[|es|] == EntryFor(u);
      }
    }
  }

  lemma KeptBefore(choose: Chooser, w: seq<Visit>, v: Visit, u: Visit)
    requires Kept(choose, w, v) && Ordered(w + [u])
    ensures v.path != u.path
  {
    var i :| 0 <= i < |w| && w[i] == v;
    var all := w + [u];
    assert all[i] == v && all[|w|] == u;
  }

  /** Names that occur in a file system. */
  ghost predicate Named(t: Tree)
    decreases t
  {
    t.Dir? ==> forall n :: n in t.entries ==> Normal(n) && Named(t.entries[n])
  }

  lemma {:induction false} NamedPath(t: Tree, p: Path)
    requires Named(t) && At(t, p).Node?
    ensures AllNormal(p)
    decreases |p|
  {
    if p != [] {
      NamedPath(t.entries[p[0]], p[1..]);
      forall i | 0 <= i < |p| ensures Normal(p[i]) {
        if i > 0 {
          assert p[i] == p[1..][i - 1];
        }
      }
    }
  }

  lemma WalkDraws(choose: Chooser, t: Tree, w: seq<Visit>)
    requires t.Dir? && Named(t) && CompleteIn(choose, [], t, t.entries.Keys, w)
             && !FailureIn(choose, [], t, t.entries.Keys)
    ensures Drawn(t, w) && Ordered(w) && NoneFails(choose, w)
  {
    hide Visits, Fails, Named;
    forall i | 0 <= i < |w|
      ensures w[i].path != [] && AllNormal(w[i].path) && At(t, w[i].path) == Node(w[i].node) && !Fails(choose, w[i]) {
      assert w[i] in w;
      VisitedMeans(choose, t, w, w[i]);
      NamedPath(t, w[i].path);
    }
  }

  /** Below `at` stand exactly the archived nodes and the directories they need; elsewhere nothing changed. */
  ghost predicate Restored(choose: Chooser, w: seq<Visit>, base: FileSystem.Fs, at: Path, fs: FileSystem.Fs) {
    && (forall q :: !FileSystem.Under(at, q) ==>
        (q in fs <==> q in base) && (q in fs && q in base ==> fs[q] == base[q]))
    && (forall p :: p != [] ==> (at + p in fs <==> Needed(choose, w, p)))
    && (forall v :: Kept(choose, w, v) ==> at + v.path in fs && fs[at + v.path] == NodeFor(v.node))
    && (forall p :: p != [] && at + p in fs ==>
        fs[at + p] == FileSystem.PRIVATE_DIR || exists v :: Kept(choose, w, v) && v.path == p)
  }

  ghost predicate Needed(choose: Chooser, w: seq<Visit>, p: Path) {
    exists v :: Kept(choose, w, v) && p <= v.path
  }

  lemma ImpliedNeeded(choose: Chooser, w: seq<Visit>, made: map<Path, FileSystem.Node>, p: Path)
    requires MadeOf(choose, w, made)
    ensures Implied(made, p) <==> Needed(choose, w, p)
  {
    hide Kept, NodeFor;
    if Implied(made, p) {
      var k :| k in made && p <= k;
      var v :| Kept(choose, w, v) && v.path == k;
    }
    if Needed(choose, w, p) {
      var v :| Kept(choose, w, v) && p <= v.path;
      assert v.path in made;
    }
  }

  lemma RestoredWhen(choose: Chooser, w: seq<Visit>, t: Tree, base: FileSystem.Fs, at: Path, made: map<Path,
                     FileSystem.Node>, fs: FileSystem.Fs)
    requires Drawn(t, w) && MadeOf(choose, w, made) && Exact(base, at, made, fs)
    ensures Restored(choose, w, base, at, fs)
  {
    assert forall q :: !FileSystem.Under(at, q) ==>
        (q in fs <==> q in base) && (q in fs && q in base ==> fs[q] == base[q]);
    hide NodeFor, Exact, Implied, Needed, FileSystem.Under;
    forall p | p != []
      ensures at + p in fs <==> Needed(choose, w, p)
      ensures at + p in fs ==> fs[at + p] == FileSystem.PRIVATE_DIR || exists v :: Kept(choose, w, v) && v.path == p
    {
      InMade(base, at, made, fs, p);
      ImpliedNeeded(choose, w, made, p);
    }
    forall v | Kept(choose, w, v) ensures at + v.path in fs && fs[at + v.path] == NodeFor(v.node) {
      InMade(base, at, made, fs, v.path);
    }
  }

  /**
    Create, then extract. Whatever the selection, what was written extracts exactly when it is not
    empty, its names are portable and the limits are kept; then exactly the archived files, with their
    modes, links and directories come back, at their paths.
   */
  lemma ArchiveRoundTrip(choose: Chooser, t: Tree, w: seq<Visit>, limits: Limits, fs: FileSystem.Fs, root: Path)
    requires t.Dir? && Named(t) && CompleteIn(choose, [], t, t.entries.Keys, w)
             && !FailureIn(choose, [], t, t.entries.Keys)
    requires FileSystem.Rooted(fs) && AllNormal(root) && PrepareDestination(fs, root).ok && WithDefaults(limits).Some?
    ensures var es, l, base := Written(choose, w), WithDefaults(limits).value, PrepareDestination(fs, root).fs;
            var r := ExtractResult(limits, fs, root, Archive(es, false), EverySelector());
            && (r.summary.Some? <==>
                es != [] && |es| <= l.entries && TotalSize(es) <= l.total && AllReadable(choose, l, w))
            && (r.summary.Some? ==> r.summary.value == Summary(es))
            && (r.summary.Some? ==>
                exists at :: Ready(base, root, at) && Untouched(base, at) && Restored(choose, w, base, at, r.fs))
  {
    hide CompleteIn, FailureIn, Named, Drawn, Ordered, NoneFails, AllReadable, Acceptable, NoLateParent, Summary,
         TotalSize, Written, PrepareDestination, WithDefaults, FileSystem.Rooted, ExtractRun, ExtractResult, Ready,
         Untouched, Restored, Exact, Made, MadeOf, PreparedFrom, FromEntries;
    var es, l, base := Written(choose, w), WithDefaults(limits).value, PrepareDestination(fs, root).fs;
    var a := Archive(es, false);
    var r := ExtractResult(limits, fs, root, a, EverySelector());
    WalkDraws(choose, t, w);
    WrittenAccepted(choose, l, t, w);
    ScanAndExtractionAgree(limits, fs, root, a);
    ScanAccepts(l, es);
    if r.summary.Some? {
      ExtractionStaysBelow(limits, fs, root, a, EverySelector());
      var at, made :| StaysBelow(fs, base, root, at, made, r.fs, a.entries, EverySelector())
                      && (r.summary.Some? ==> made == Made(a.entries, EverySelector()));
      MadeWritten(choose, l, t, w);
      RestoredWhen(choose, w, t, base, at, made, r.fs);
    }
  }

  /** Every link that was written passes both checks of the readers, wherever it is unpacked. */
  lemma WrittenLinksAccepted(choose: Chooser, t: Tree, w: seq<Visit>, v: Visit, root: Path)
    requires t.Dir? && Named(t) && CompleteIn(choose, [], t, t.entries.Keys, w)
             && !FailureIn(choose, [], t, t.entries.Keys)
    requires Kept(choose, w, v) && v.node.Link? && AllNormal(root)
    ensures v.path != [] && PortableLink(v.path, v.node.target) && LinkBelow(root, v.path, v.node.target)
  {
    hide CompleteIn, FailureIn, Named, PortableLink, LinkBelow;
    WalkDraws(choose, t, w);
    var i :| 0 <= i < |w| && w[i] == v;
    assert !Fails(choose, w[i]);
    PortableIsBelow(root, v.path, v.node.target);
  }
}
