/** From a tree to an archive and back through ExtractTar, directory modes included. */
module FullRoundTrip {
  import opened Paths
  import opened Trees
  import FileSystem
  import opened Archives
  import opened Extraction
  import opened Creation
  import opened Containment
  import opened Exactness
  import opened Unpacking
  import opened DirectoryModes
  import opened RoundTrip

  /** Every written directory asks for its own mode, and nothing else asks for any. */
  ghost predicate ModesAsked(choose: Chooser, w: seq<Visit>, ds: seq<DirMeta>) {
    && (forall v :: Kept(choose, w, v) && v.node.Dir? ==> LastMode(ds, v.path) == Mode(v.node.mode % 512))
    && forall p :: LastMode(ds, p).Mode? ==> exists v :: Kept(choose, w, v) && v.path == p && v.node.Dir?
  }

  lemma ModesAskedMore(choose: Chooser, w: seq<Visit>, u: Visit, ds: seq<DirMeta>)
    requires ModesAsked(choose, w, ds) && Ordered(w + [u])
    ensures ModesAsked(choose, w + [u],
                       if choose(u.path, u.node) == Include
                         && u.node.Dir? then ds + [DirMeta(u.path, u.node.mode % 512)]
                       else ds)
  {
    hide Kept, Ordered, LastMode;
    var added := choose(u.path, u.node) == Include && u.node.Dir?;
    var d := DirMeta(u.path, if u.node.Dir? then u.node.mode % 512 else 0);
    var more := if added then ds + [d] else ds;
    forall v ensures Kept(choose, w + [u], v) <==> Kept(choose, w, v) || (v == u && choose(u.path, u.node) == Include) {
      KeptFront(choose, w, u, v);
    }
    forall v | Kept(choose, w, v) ensures v.path != u.path {
      KeptBefore(choose, w, v, u);
    }
    forall p ensures LastMode(ds + [d], p) == if d.path == p then Mode(d.mode) else LastMode(ds, p) {
      LastSnoc(ds, d, p);
    }
    forall p | LastMode(more, p).Mode? ensures exists v :: Kept(choose, w + [u], v) && v.path == p && v.node.Dir? {
      if added && p == u.path {
        assert Kept(choose, w + [u], u);
      } else {
        var v :| Kept(choose, w, v) && v.path == p && v.node.Dir?;
        assert Kept(choose, w + [u], v);
      }
    }
  }

  lemma {:induction false} WrittenAsks(choose: Chooser, l: Limits, t: Tree, w: seq<Visit>)
    requires Drawn(t, w) && Ordered(w) && AllReadable(choose, l, w)
    ensures ModesAsked(choose, w, MetaOf(Written(choose, w)))
    decreases |w|
  {
    if w != [] {
      hide EntryFor, Readable, PathOf, Drawn, Ordered, AllReadable, ModesAsked;
      var front, u := w[..|w| - 1], w[|w| - 1];
      var es := Written(choose, front);
      assert w == front + [u];
      Front(choose, l, t, front, u);
      WrittenAsks(choose, l, t, front);
      ModesAskedMore(choose, front, u, MetaOf(es));
      if choose(u.path, u.node) == Include {
        EntryMakes(l, u);
        AskedBy(u);
        var all := es + [EntryFor(u)];
        assert all[..|all| - 1] == es && all[|es|] == EntryFor(u);
      }
    } else {
      assert MetaOf([]) == [];
    }
  }

  lemma AskedBy(v: Visit)
    ensures EntryFor(v).kind.DirKind? <==> v.node.Dir?
    ensures v.node.Dir? ==> EntryFor(v).mode == v.node.mode
  {
  }

  /** Each archived node stands at its path below `at`: content, permission bits, target; directories included. */
  ghost predicate BroughtBack(choose: Chooser, w: seq<Visit>, at: Path, fs: FileSystem.Fs) {
    forall v :: Kept(choose, w, v) ==>
      && at + v.path in fs
      && fs[at + v.path] == match v.node
                            case File(mode, data) => FileSystem.FileNode(mode % 512, data)
                            case Link(target) => FileSystem.LinkNode(target)
                            case Dir(mode, _) => FileSystem.DirNode(mode % 512)
  }

  lemma BroughtBackWhen(choose: Chooser, w: seq<Visit>, t: Tree, es: seq<TarEntry>, base: FileSystem.Fs, at: Path,
                        made: map<Path, FileSystem.Node>, fs: FileSystem.Fs)
    requires Drawn(t, w) && Ordered(w) && MadeOf(choose, w, Made(es, EverySelector()))
             && ModesAsked(choose, w, MetaOf(es))
    requires Exact(base, at, made, fs) && WithTheirModes(made, es)
    ensures BroughtBack(choose, w, at, fs)
  {
    hide Exact, Made, MetaOf, LastMode;
    forall v | Kept(choose, w, v)
      ensures at + v.path in fs && v.path in made && fs[at + v.path] == made[v.path]
      ensures LastMode(MetaOf(es), v.path) == if v.node.Dir? then Mode(v.node.mode % 512) else NoMode
    {
      var i :| 0 <= i < |w| && w[i] == v;
      assert v.path in Made(es, EverySelector());
      InMade(base, at, made, fs, v.path);
      if LastMode(MetaOf(es), v.path).Mode? {
        var u :| Kept(choose, w, u) && u.path == v.path && u.node.Dir?;
        var j :| 0 <= j < |w| && w[j] == u;
        assert At(t, w[i].path) == At(t, w[j].path);
      }
    }
  }

  /**
    Create, then ExtractTar: under the same conditions as the selective form it succeeds, and brings
    every archived node back, each directory with its own permission bits even where these shut out
    what is below it.
   */
  lemma FullArchiveRoundTrip(choose: Chooser, t: Tree, w: seq<Visit>, limits: Limits, fs: FileSystem.Fs, root: Path)
    requires t.Dir? && Named(t) && CompleteIn(choose, [], t, t.entries.Keys, w)
             && !FailureIn(choose, [], t, t.entries.Keys)
    requires FileSystem.Rooted(fs) && AllNormal(root) && PrepareDestination(fs, root).ok && WithDefaults(limits).Some?
    requires var es, l := Written(choose, w), WithDefaults(limits).value;
             es != [] && |es| <= l.entries && TotalSize(es) <= l.total && AllReadable(choose, l, w)
    ensures var base, r := PrepareDestination(fs, root).fs,
                           UnpackResult(limits, fs, root, Archive(Written(choose, w), false));
            r.ok && exists at ::
              && Ready(base, root, at) && Untouched(base, at) && BroughtBack(choose, w, at, r.fs)
              && forall p :: p != [] ==> (at + p in r.fs <==> Needed(choose, w, p))
  {
    hide CompleteIn, FailureIn, Named, Drawn, Ordered, NoneFails, AllReadable, TotalSize, Written, PrepareDestination,
         WithDefaults, FileSystem.Rooted, ExtractResult, UnpackResult, Ready, Untouched, Restored, Exact, Made, MadeOf,
         ModesAsked, PreparedFrom, FromEntries, WithTheirModes, LinksBelow, UnpackRun, BroughtBack;
    var es, l, base := Written(choose, w), WithDefaults(limits).value, PrepareDestination(fs, root).fs;
    var a := Archive(es, false);
    var r := UnpackResult(limits, fs, root, a);
    ArchiveRoundTrip(choose, t, w, limits, fs, root);
    FullFollowsSelective(limits, fs, root, a);
    UnpackingStaysBelow(limits, fs, root, a);
    var at, made :|
        && Ready(base, root, at) && Untouched(base, at) && PreparedFrom(fs, base, at)
        && Exact(base, at, made, r.fs) && LinksBelow(root, made)
        && (if r.ok then WithTheirModes(made, es) else FromEntries(made, es, EverySelector()));
    var at' :|
        Ready(base, root, at') && Restored(choose, w, base, at',
                                           ExtractResult(limits, fs, root, a, EverySelector()).fs);
    OneRoot(base, root, at, at');
    RestoredKeys(choose, w, base, at, ExtractResult(limits, fs, root, a, EverySelector()).fs);
    WalkDraws(choose, t, w);
    MadeWritten(choose, l, t, w);
    WrittenAsks(choose, l, t, w);
    BroughtBackWhen(choose, w, t, es, base, at, made, r.fs);
  }

  lemma OneRoot(base: FileSystem.Fs, root: Path, at: Path, at': Path)
    requires Ready(base, root, at) && Ready(base, root, at')
    ensures at == at'
  {
  }

  lemma RestoredKeys(choose: Chooser, w: seq<Visit>, base: FileSystem.Fs, at: Path, fs: FileSystem.Fs)
    requires Restored(choose, w, base, at, fs)
    ensures forall p :: p != [] ==> (at + p in fs <==> Needed(choose, w, p))
  {
    hide Needed;
  }
}
