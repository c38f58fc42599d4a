/** ExtractTar stays below its root too, and gives every directory entry its mode at the end. */
module DirectoryModes {
  import opened Paths
  import opened Links
  import opened FileSystem
  import opened Archives
  import opened Extraction
  import opened Containment
  import opened Exactness
  import opened Unpacking

  datatype Mode = NoMode | Mode(mode: nat)

  /** The mode the last of these gives to `p`. */
  function LastMode(ds: seq<DirMeta>, p: Path): Mode {
    if ds == [] then NoMode
    else
      var later := LastMode(ds[1..], p);
      if later.NoMode? && ds[0].path == p then Mode(ds[0].mode) else later
  }

  lemma {:induction false} LastSnoc(ds: seq<DirMeta>, d: DirMeta, p: Path)
    ensures LastMode(ds + [d], p) == if d.path == p then Mode(d.mode) else LastMode(ds, p)
  {
    var all := ds + [d];
    if ds == [] {
      assert all[1..] == [];
    } else {
      assert all[1..] == ds[1..] + [d];
      LastSnoc(ds[1..], d, p);
    }
  }

  lemma {:induction false} NoneThere(ds: seq<DirMeta>, p: Path)
    requires forall i :: 0 <= i < |ds| ==> ds[i].path != p
    ensures LastMode(ds, p).NoMode?
  {
    if ds != [] {
      NoneThere(ds[1..], p);
    }
  }

  lemma SortedCons(d: DirMeta, ds: seq<DirMeta>)
    ensures Sorted([d] + ds) <==> Sorted(ds) && forall x :: x in ds ==> |d.path| >= |x.path|
  {
    var all := [d] + ds;
    assert forall i :: 0 < i < |all| ==> all[i] == ds[i - 1];
    if Sorted(all) {
      forall i, j | 0 <= i < j < |ds| ensures |ds[i].path| >= |ds[j].path| {
        assert all[i + 1] == ds[i] && all[j + 1] == ds[j];
      }
      forall x | x in ds ensures |d.path| >= |x.path| {
        var j :| 0 <= j < |ds| && ds[j] == x;
        assert all[0] == d && all[j + 1] == x;
      }
    }
  }

  lemma {:induction false} InsertBag(d: DirMeta, ds: seq<DirMeta>)
    ensures multiset(Insert(d, ds)) == multiset(ds) + multiset{d}
  {
    if ds != [] && |ds[0].path| >= |d.path| {
      InsertBag(d, ds[1..]);
      assert ds == [ds[0]] + ds[1..];
    }
  }

  lemma {:induction false} InsertSorts(d: DirMeta, ds: seq<DirMeta>)
    requires Sorted(ds)
    ensures Sorted(Insert(d, ds))
  {
    hide Sorted;
    if ds != [] {
      assert ds == [ds[0]] + ds[1..];
      SortedCons(ds[0], ds[1..]);
    }
    if ds == [] || |ds[0].path| < |d.path| {
      SortedCons(d, ds);
    } else {
      var rest := Insert(d, ds[1..]);
      InsertSorts(d, ds[1..]);
      InsertBag(d, ds[1..]);
      forall x | x in rest ensures |ds[0].path| >= |x.path| {
        assert x in multiset(rest);
        assert x in multiset(ds[1..]) || x == d;
      }
      SortedCons(ds[0], rest);
    }
  }

  lemma {:induction false} InsertLast(d: DirMeta, ds: seq<DirMeta>, p: Path)
    requires Sorted(ds)
    ensures LastMode(Insert(d, ds), p) == if d.path == p then Mode(d.mode) else LastMode(ds, p)
  {
    if ds == [] || |ds[0].path| < |d.path| {
      assert ([d] + ds)[1..] == ds;
      NoneThere(ds, d.path);
    } else {
      hide Sorted;
      assert ds == [ds[0]] + ds[1..];
      SortedCons(ds[0], ds[1..]);
      InsertLast(d, ds[1..], p);
      assert ([ds[0]] + Insert(d, ds[1..]))[1..] == Insert(d, ds[1..]);
    }
  }

  /** The sort is one: nothing lost, deepest first, and the last mode given to a path stays the last. */
  lemma {:induction false} DeepestFirstSorts(ds: seq<DirMeta>)
    ensures Sorted(DeepestFirst(ds)) && multiset(DeepestFirst(ds)) == multiset(ds)
    ensures forall p :: LastMode(DeepestFirst(ds), p) == LastMode(ds, p)
    decreases |ds|
  {
    if ds != [] {
      hide Insert, Sorted;
      var front, d := ds[..|ds| - 1], ds[|ds| - 1];
      assert ds == front + [d];
      DeepestFirstSorts(front);
      InsertBag(d, DeepestFirst(front));
      InsertSorts(d, DeepestFirst(front));
      forall p ensures LastMode(DeepestFirst(ds), p) == LastMode(ds, p) {
        LastSnoc(front, d, p);
        InsertLast(d, DeepestFirst(front), p);
      }
    }
  }

  // Applying the modes

  /** What is made, with the directories' modes set one after the other. */
  function WithModes(made: map<Path, Node>, ds: seq<DirMeta>): map<Path, Node>
    decreases |ds|
  {
    if ds == [] then made else WithModes(made[ds[0].path := DirNode(ds[0].mode)], ds[1..])
  }

  lemma {:induction false} WithModesAt(made: map<Path, Node>, ds: seq<DirMeta>)
    requires forall i :: 0 <= i < |ds| ==> ds[i].path in made
    ensures WithModes(made, ds).Keys == made.Keys
    ensures forall p :: p in made ==>
              WithModes(made, ds)[p] == if LastMode(ds, p).Mode? then DirNode(LastMode(ds, p).mode) else made[p]
    decreases |ds|
  {
    if ds != [] {
      WithModesAt(made[ds[0].path := DirNode(ds[0].mode)], ds[1..]);
    }
  }

  ghost predicate Listed(ds: seq<DirMeta>, made: map<Path, Node>) {
    forall i :: 0 <= i < |ds| ==>
        ds[i].path != [] && AllNormal(ds[i].path) && ds[i].path in made && made[ds[i].path].DirNode?
  }

  /** Directories above depth `n` are still private. */
  ghost predicate PrivateAbove(made: map<Path, Node>, n: nat) {
    forall p :: p in made && |p| < n && made[p].DirNode? ==> made[p] == PRIVATE_DIR
  }

  lemma ClearPresent(fs: Fs, at: Path, p: Path)
    requires Rooted(fs) && at + p in fs && fs[at + p].DirNode?
    ensures Clear(fs, at, p)
  {
    forall k | 0 < k <= |p| && at + p[..k] in fs ensures fs[at + p[..k]].DirNode? {
      if k < |p| {
        RootedUp(fs, at + p, |at| + k);
        assert (at + p)[..|at| + k] == at + p[..k];
      } else {
        assert p[..k] == p;
      }
    }
  }

  lemma SearchableBelow(base: Fs, at: Path, made: map<Path, Node>, fs: Fs, p: Path)
    requires Exact(base, at, made, fs) && PrivateAbove(made, |p|) && Clear(fs, at, p)
    ensures Searchable(fs, at, at + p)
  {
    hide Exact;
    forall k | |at| < k < |at + p| && (at + p)[..k] in fs
      ensures fs[(at + p)[..k]].DirNode? && CanSearch(fs[(at + p)[..k]].mode) {
      var q := p[..k - |at|];
      assert (at + p)[..k] == at + q;
      InMade(base, at, made, fs, q);
    }
  }

  /** Setting the mode of a directory that was made. */
  lemma ChmodBelow(base: Fs, root: Path, at: Path, made: map<Path, Node>, fs: Fs, d: DirMeta)
    requires Ready(fs, root, at) && Exact(base, at, made, fs) && d.path != [] && AllNormal(d.path)
    requires d.path in made && made[d.path].DirNode? && PrivateAbove(made, |d.path|)
    ensures var fs' := fs[at + d.path := DirNode(d.mode)];
            && Chmod(fs, root, d) == Effect(fs', true)
            && Ready(fs', root, at) && Exact(base, at, made[d.path := DirNode(d.mode)], fs')
  {
    hide Walk, Searchable, Clear;
    var p, fs' := d.path, fs[at + d.path := DirNode(d.mode)];
    InMade(base, at, made, fs, p);
    ClearPresent(fs, at, p);
    SearchableBelow(base, at, made, fs, p);
    WalkBelow(fs, root, at, p);
    HomeGrows(fs, fs', root, at);
    assert Rooted(fs') by {
      forall q | q in fs' ensures q != [] && IsDir(fs', q[..|q| - 1]) {
        assert q in fs && IsDir(fs, q[..|q| - 1]);
      }
    }
    ExactSet(base, at, made, fs, p, DirNode(d.mode));
  }

  lemma ExactSet(base: Fs, at: Path, made: map<Path, Node>, fs: Fs, p: Path, node: Node)
    requires Exact(base, at, made, fs) && p != [] && p in made
    ensures Exact(base, at, made[p := node], fs[at + p := node])
  {
    var more, fs' := made[p := node], fs[at + p := node];
    InMade(base, at, made, fs, p);
    forall q | !Under(at, q) ensures (q in fs' <==> q in base) && (q in fs' && q in base ==> fs'[q] == base[q]) {
      NotUnder(at, p, q);
    }
    forall q | q != []
      ensures (at + q in fs' <==> Implied(more, q)) && (at + q in fs' ==> fs'[at + q] == NodeAt(more, q)) {
      assert Implied(more, q) <==> Implied(made, q) by {
        assert forall k :: k in more <==> k in made;
      }
      assert at + q == at + p <==> q == p by {
        assert (at + q)[|at|..] == q && (at + p)[|at|..] == p;
      }
    }
  }

  lemma ListedFirst(ds: seq<DirMeta>, made: map<Path, Node>)
    requires ds != [] && Listed(ds, made)
    ensures ds[0].path != [] && AllNormal(ds[0].path) && ds[0].path in made && made[ds[0].path].DirNode?
  {
  }

  lemma NextModes(made: map<Path, Node>, ds: seq<DirMeta>)
    requires Sorted(ds) && Listed(ds, made) && ds != [] && PrivateAbove(made, |ds[0].path|)
    ensures var more := made[ds[0].path := DirNode(ds[0].mode)];
            Sorted(ds[1..]) && Listed(ds[1..], more) && (ds[1..] != [] ==> PrivateAbove(more, |ds[1..][0].path|))
  {
    assert forall i :: 0 <= i < |ds[1..]| ==> ds[1..][i] == ds[i + 1];
  }

  /** Deepest first, no directory is closed before the ones below it are done: every mode is set. */
  lemma {:induction false} ApplyModesWorks(base: Fs, root: Path, at: Path, made: map<Path, Node>, fs: Fs,
                                           ds: seq<DirMeta>)
    requires Ready(fs, root, at) && Exact(base, at, made, fs) && Sorted(ds) && Listed(ds, made)
    requires ds != [] ==> PrivateAbove(made, |ds[0].path|)
    ensures ApplyModes(fs, root, ds).ok
    ensures Exact(base, at, WithModes(made, ds), ApplyModes(fs, root, ds).fs)
    decreases |ds|
  {
    if ds != [] {
      hide Chmod, Ready, Exact, Sorted, PrivateAbove;
      ListedFirst(ds, made);
      NextModes(made, ds);
      hide Listed;
      ChmodBelow(base, root, at, made, fs, ds[0]);
      ApplyModesWorks(base, root, at, made[ds[0].path := DirNode(ds[0].mode)],
                      fs[at + ds[0].path := DirNode(ds[0].mode)], ds[1..]);
    }
  }

  /** Shallowest first, a directory that may not be searched shuts out the one below it. */
  lemma ShallowestFirstFails(base: Fs, root: Path, at: Path, made: map<Path, Node>, fs: Fs, outer: DirMeta,
                             inner: DirMeta)
    requires Ready(fs, root, at) && Exact(base, at, made, fs) && PrivateAbove(made, |inner.path|)
             && Listed([outer, inner], made)
    requires StrictlyBelow(outer.path, inner.path) && !CanSearch(outer.mode)
    ensures !ApplyModes(fs, root, [outer, inner]).ok && ApplyModes(fs, root, DeepestFirst([outer, inner])).ok
  {
    hide Walk, Exact, Ready, Searchable;
    var ds := [outer, inner];
    assert ds[0] == outer && ds[1] == inner && ds[1..] == [inner] && ds[..1] == [outer] && [outer][..0] == [];
    assert DeepestFirst([outer]) == [outer] && DeepestFirst(ds) == [inner, outer];
    assert [inner, outer][1..] == [outer];
    ApplyModesWorks(base, root, at, made, fs, [inner, outer]);
    ChmodBelow(base, root, at, made, fs, outer);
    ShutOut(base, root, at, made[outer.path := DirNode(outer.mode)], fs[at + outer.path := DirNode(outer.mode)], outer,
            inner);
  }

  lemma ShutOut(base: Fs, root: Path, at: Path, made: map<Path, Node>, fs: Fs, outer: DirMeta, inner: DirMeta)
    requires Ready(fs, root, at) && Exact(base, at, made, fs) && Listed([outer, inner], made)
    requires StrictlyBelow(outer.path, inner.path) && outer.path in made && made[outer.path] == DirNode(outer.mode)
             && !CanSearch(outer.mode)
    ensures !Chmod(fs, root, inner).ok
  {
    hide Walk, Clear, Exact, Rooted, Searchable;
    var p := inner.path;
    assert [outer, inner][0] == outer && [outer, inner][1] == inner;
    InMade(base, at, made, fs, p);
    InMade(base, at, made, fs, outer.path);
    ClearPresent(fs, at, p);
    WalkBelow(fs, root, at, p);
    NotSearchable(fs, at, outer.path, p);
  }

  lemma NotSearchable(fs: Fs, at: Path, p: Path, below: Path)
    requires StrictlyBelow(p, below) && at + p in fs && fs[at + p].DirNode? && !CanSearch(fs[at + p].mode)
    ensures !Searchable(fs, at, at + below)
  {
    assert (at + below)[..|at| + |p|] == at + p;
  }

  // Whole runs

  /** Every made link passed the check below this root. */
  ghost predicate LinksBelow(root: Path, made: map<Path, Node>) {
    forall p :: p in made && made[p].LinkNode? ==> p != [] && AllNormal(p) && LinkBelow(root, p, made[p].target)
  }

  lemma DirsAddNoLinksBelow(root: Path, more: map<Path, Node>, made: map<Path, Node>, path: Path)
    requires LinksBelow(root, made) && AtMostDirs(more, made, path)
    ensures LinksBelow(root, more)
  {
    hide LinkBelow;
  }

  lemma MadeLinkBelow(root: Path, made: map<Path, Node>, e: TarEntry, path: Path)
    requires LinksBelow(root, made) && path != [] && AllNormal(path) && !e.kind.OtherKind?
    requires e.kind.LinkKind? ==> LinkBelow(root, path, e.link)
    ensures LinksBelow(root, made[path := NodeOf(e)])
  {
    hide LinkBelow;
    var more := made[path := NodeOf(e)];
    forall p | p in more && more[p].LinkNode? ensures p != [] && AllNormal(p) && LinkBelow(root, p, more[p].target) {
      if p != path {
        assert p in made;
      }
    }
  }

  /** What the loop of ExtractTar keeps while it succeeds. */
  ghost predicate Unwinding(root: Path, base: Fs, at: Path, made: map<Path, Node>, s: Unpacked) {
    s.ok && Ready(s.fs, root, at) && Exact(base, at, made, s.fs) && Listed(s.dirs, made) && LinksBelow(root, made)
    && forall p :: p in made && made[p].DirNode? ==> made[p] == PRIVATE_DIR
  }

  lemma DirOverFile(fs: Fs, root: Path, at: Path, path: Path)
    requires Ready(fs, root, at) && AllNormal(path) && path != [] && at + path in fs && fs[at + path].FileNode?
    ensures MkdirAll(fs, root + path) == Effect(fs, false)
  {
    hide Walk, CreateNode, Lstat, Rooted;
    WalkOn(fs, [], root, path, MAX_LINKS);
    var left: nat :| Walk(fs, [], root + path, MAX_LINKS) == Walk(fs, at, path, left);
    assert path[..|path|] == path;
    WalkBlocked(fs, at, path, |path|, left);
  }

  lemma LeafOverFile(fs: Fs, root: Path, at: Path, path: Path, node: Node)
    requires Ready(fs, root, at) && AllNormal(path) && path != [] && Clear(fs, at, Parent(path)) && at + path in fs
    ensures MkdirAll(fs, root + Parent(path)) == Effect(fs, true)
            && CreateNode(fs, root + path, node) == Effect(fs, false)
  {
    hide Walk, MkdirAll, CreateNode, WithDirs, Clear;
    MkdirAllBelow(fs, root, at, Parent(path));
    ParentThere(fs, at, path);
    WithDirsPresent(fs, at, Parent(path));
    CreateAfterDirs(fs, root, at, path, node);
  }

  /** An entry over a file that is already there is refused, and changes nothing. */
  lemma MaterialiseOver(fs: Fs, root: Path, at: Path, e: TarEntry, path: Path, maxBytes: int)
    requires Ready(fs, root, at) && AllNormal(path) && path != [] && Clear(fs, at, Parent(path))
    requires at + path in fs && fs[at + path].FileNode?
    ensures Materialise(fs, root, e, path, maxBytes) == Effect(fs, false)
  {
    hide MkdirAll, CreateNode, RemoveNode, Clear, LinkBelow, Ready, NodeOf;
    DirOverFile(fs, root, at, path);
    LeafOverFile(fs, root, at, path, NodeOf(e));
  }

  lemma ParentThere(fs: Fs, at: Path, path: Path)
    requires Rooted(fs) && path != [] && at + path in fs
    ensures Parent(path) == [] || at + Parent(path) in fs
  {
    assert (at + path)[..|at + path| - 1] == at + Parent(path);
  }

  /** Writing one entry whose path is safe: on success the entry is made, on failure at most directories are. */
  lemma WriteAny(base: Fs, root: Path, at: Path, made: map<Path, Node>, fs: Fs, e: TarEntry, path: Path, maxBytes: int)
    requires Ready(fs, root, at) && Exact(base, at, made, fs) && AllNormal(path) && path != [] && !e.kind.OtherKind?
    requires SafeJoin(fs, root, path) && forall p :: p in made && made[p].DirNode? ==> made[p] == PRIVATE_DIR
    ensures Materialise(fs, root, e, path, maxBytes).ok <==>
            if e.kind.DirKind? then path in made ==> made[path].DirNode?
            else !Implied(made, path) && (e.kind.LinkKind? ==> LinkBelow(root, path, e.link)) && (e.kind.FileKind? ==>
                Copies(e, maxBytes))
    ensures var m := Materialise(fs, root, e, path, maxBytes);
            && (m.ok ==>
                Ready(m.fs, root, at) && Exact(base, at, made[path := NodeOf(e)], m.fs)
                  && (e.kind.FileKind? ==> Copies(e, maxBytes)))
            && (m.ok && !e.kind.DirKind? ==> path !in made)
            && (!m.ok ==> exists more :: Exact(base, at, more, m.fs) && AtMostDirs(more, made, path))
  {
    hide SafeJoin, Materialise, Exact, Ready, Clear, Implied, WithDirs, LinkBelow, Copies, NodeOf;
    InMade(base, at, made, fs, path);
    SafeJoinMeans(fs, root, at, path);
    if at + path in fs && fs[at + path].FileNode? {
      MaterialiseOver(fs, root, at, e, path, maxBytes);
      assert Exact(base, at, made, fs);
    } else if e.kind.LinkKind? && !LinkBelow(root, path, e.link) {
      LinkRefused(fs, root, e, path, maxBytes);
      assert Exact(base, at, made, fs);
    } else {
      MaterialiseBelow(fs, root, at, e, path, maxBytes);
      ClearSnoc(fs, at, path);
      if e.kind.DirKind? {
        ReadyDirs(fs, root, at, path);
        DirsMade(base, root, at, made, fs, path, path);
        DirNodeOf(e);
      } else if at + path in fs || (e.kind.FileKind? && !Copies(e, maxBytes)) {
        if Parent(path) != [] {
          DirsMade(base, root, at, made, fs, Parent(path), path);
        } else {
          NoDirs(fs, at);
        }
      } else {
        ReadyDirs(fs, root, at, Parent(path));
        WithDirsAbsent(fs, at, path);
        AddLeaf(WithDirs(fs, at, Parent(path)), root, at, path, NodeOf(e));
        ExactLeaf(base, at, made, fs, path, NodeOf(e));
      }
    }
  }

  lemma NoDirs(fs: Fs, at: Path)
    ensures WithDirs(fs, at, []) == fs
  {
  }

  lemma DirNodeOf(e: TarEntry)
    requires e.kind.DirKind?
    ensures NodeOf(e) == PRIVATE_DIR
  {
  }

  lemma LinkRefused(fs: Fs, root: Path, e: TarEntry, path: Path, maxBytes: int)
    requires path != [] && e.kind.LinkKind? && !LinkBelow(root, path, e.link)
    ensures Materialise(fs, root, e, path, maxBytes) == Effect(fs, false)
  {
  }

  /** Making directories where they, or a made directory, may stand already. */
  lemma DirsMade(base: Fs, root: Path, at: Path, made: map<Path, Node>, fs: Fs, p: Path, path: Path)
    requires Ready(fs, root, at) && Exact(base, at, made, fs) && p != [] && p <= path && Clear(fs, at, p)
    requires forall q :: q in made && made[q].DirNode? ==> made[q] == PRIVATE_DIR
    ensures Exact(base, at, made[p := PRIVATE_DIR], WithDirs(fs, at, p))
            && AtMostDirs(made[p := PRIVATE_DIR], made, path)
  {
    hide Exact, WithDirs, Implied;
    InMade(base, at, made, fs, p);
    if p in made {
      assert p[..|p|] == p;
      assert fs[at + p[..|p|]].DirNode?;
      assert made[p := PRIVATE_DIR] == made;
      WithDirsPresent(fs, at, p);
    } else {
      ExactDirs(base, at, made, fs, p);
    }
  }

  lemma UnpackStepExact(l: Limits, root: Path, base: Fs, at: Path, made: map<Path, Node>, s: Unpacked, e: TarEntry)
    requires Unwinding(root, base, at, made, s)
    ensures var t := UnpackStep(l, root, s, e);
            && (t.ok ==> Unwinding(root, base, at, made[PathOf(e) := NodeOf(e)], t))
            && (t.ok ==> t.dirs == (if e.kind.DirKind? then s.dirs + [DirMeta(PathOf(e), e.mode % 512)] else s.dirs))
            && (t.ok ==> t.count == s.count + 1 && t.count <= l.entries && t.total == s.total + SizeOf(e))
            && (t.ok && e.kind.FileKind? ==> t.total <= l.total)
            && (!t.ok ==> exists more :: Exact(base, at, more, t.fs) && AtMostDirs(more, made, PathOf(e)))
  {
    hide SafeJoin, Materialise, Exact, Ready, EntryName, AtMostDirs;
    var t := UnpackStep(l, root, s, e);
    SelfAtMost(made, PathOf(e));
    if t.fs == s.fs && !t.ok {
      assert Exact(base, at, made, t.fs);
    } else {
      var path := PathOf(e);
      WriteAny(base, root, at, made, s.fs, e, path, Min(l.entrySize, l.total - s.total));
      if t.ok {
        ListedMore(s.dirs, made, e, path);
        MadeLinkBelow(root, made, e, path);
      }
    }
  }

  lemma SelfAtMost(made: map<Path, Node>, path: Path)
    ensures AtMostDirs(made, made, path)
  {
  }

  lemma ListedMore(ds: seq<DirMeta>, made: map<Path, Node>, e: TarEntry, path: Path)
    requires Listed(ds, made) && path != [] && AllNormal(path) && !e.kind.OtherKind?
    requires path in made && made[path].DirNode? ==> e.kind.DirKind?
    ensures var more := made[path := NodeOf(e)];
            Listed(ds, more) && (e.kind.DirKind? ==> Listed(ds + [DirMeta(path, e.mode % 512)], more))
  {
  }

  /** The modes the directory entries ask for, in order. */
  function MetaOf(es: seq<TarEntry>): seq<DirMeta> {
    if es == [] then []
    else
      var e, front := es[|es| - 1], MetaOf(es[..|es| - 1]);
      if e.kind.DirKind? then front + [DirMeta(PathOf(e), e.mode % 512)] else front
  }

  lemma {:induction false} UnpackRunExact(l: Limits, root: Path, base: Fs, at: Path, es: seq<TarEntry>)
    requires Positive(l) && Ready(base, root, at) && Untouched(base, at)
    ensures var s := UnpackRun(l, root, base, es);
            && (s.ok ==> Unwinding(root, base, at, Made(es, EverySelector()), s) && s.dirs == MetaOf(es))
            && (s.ok ==> s.count == |es| <= l.entries && s.total == TotalSize(es) <= l.total)
            && exists made ::
                 Exact(base, at, made, s.fs) && FromEntries(made, es, EverySelector()) && LinksBelow(root, made)
    decreases |es|
  {
    var s := UnpackRun(l, root, base, es);
    if es == [] {
      hide Ready;
      ExactStart(base, at);
      assert Exact(base, at, map[], s.fs) && FromEntries(map[], es, EverySelector()) && LinksBelow(root, map[]);
    } else {
      hide UnpackStep, Unwinding, Exact, Ready, Untouched, PathOf, NodeOf, EntryOf, FromEntries, AtMostDirs, LinksBelow;
      var front, e := es[..|es| - 1], es[|es| - 1];
      var t := UnpackRun(l, root, base, front);
      assert front + [e] == es;
      UnpackRunExact(l, root, base, at, front);
      var made :| Exact(base, at, made, t.fs) && FromEntries(made, front, EverySelector()) && LinksBelow(root, made);
      if !t.ok {
        UnpackStopped(l, root, t, e);
        FromMore(made, front, e, EverySelector(), made);
      } else {
        var m := Made(front, EverySelector());
        MadeFrom(front, EverySelector());
        UnpackStepExact(l, root, base, at, m, t, e);
        if s.ok {
          ExactNow(root, base, at, m[PathOf(e) := NodeOf(e)], s);
          LinksNow(root, base, at, m[PathOf(e) := NodeOf(e)], s);
          FromMore(m, front, e, EverySelector(), m[PathOf(e) := NodeOf(e)]);
        } else {
          var more :| Exact(base, at, more, s.fs) && AtMostDirs(more, m, PathOf(e));
          FromMore(m, front, e, EverySelector(), more);
          LinksNow(root, base, at, m, t);
          DirsAddNoLinksBelow(root, more, m, PathOf(e));
        }
      }
    }
  }

  lemma UnpackStopped(l: Limits, root: Path, s: Unpacked, e: TarEntry)
    requires !s.ok
    ensures UnpackStep(l, root, s, e) == s
  {
  }

  lemma ExactNow(root: Path, base: Fs, at: Path, made: map<Path, Node>, s: Unpacked)
    requires Unwinding(root, base, at, made, s)
    ensures Exact(base, at, made, s.fs)
  {
  }

  lemma LinksNow(root: Path, base: Fs, at: Path, made: map<Path, Node>, s: Unpacked)
    requires Unwinding(root, base, at, made, s)
    ensures LinksBelow(root, made)
  {
  }

  lemma {:induction false} MadeFrom(es: seq<TarEntry>, select: Selector)
    ensures FromEntries(Made(es, select), es, select)
    decreases |es|
  {
    if es != [] {
      hide PathOf, NodeOf, EntryOf, FromEntries, AtMostDirs;
      var front, e := es[..|es| - 1], es[|es| - 1];
      assert front + [e] == es;
      MadeFrom(front, select);
      FromMore(Made(front, select), front, e, select, Made(es, select));
    }
  }

  /** The made entries, each directory entry with the mode last given for it. */
  ghost predicate WithTheirModes(made: map<Path, Node>, es: seq<TarEntry>) {
    var plain := Made(es, EverySelector());
    && made.Keys == plain.Keys
    && forall p :: p in made ==>
         made[p] == if LastMode(MetaOf(es), p).Mode? then DirNode(LastMode(MetaOf(es), p).mode) else plain[p]
  }

  /** Once every entry is written, setting the directory modes cannot fail. */
  lemma ModesSucceed(root: Path, base: Fs, at: Path, s: Unpacked, es: seq<TarEntry>)
    requires Unwinding(root, base, at, Made(es, EverySelector()), s) && s.dirs == MetaOf(es)
    ensures var r := ApplyModes(s.fs, root, DeepestFirst(s.dirs));
            r.ok && exists made :: Exact(base, at, made, r.fs) && WithTheirModes(made, es) && LinksBelow(root, made)
  {
    hide Ready, Exact, Made, MetaOf;
    var ds, plain := DeepestFirst(s.dirs), Made(es, EverySelector());
    DeepestFirstSorts(s.dirs);
    forall i | 0 <= i < |ds| ensures ds[i] in s.dirs {
      assert ds[i] in multiset(ds);
    }
    ApplyModesWorks(base, root, at, plain, s.fs, ds);
    WithModesAt(plain, ds);
    assert WithTheirModes(WithModes(plain, ds), es);
    forall p | p in plain && WithModes(plain, ds)[p].LinkNode? ensures plain[p] == WithModes(plain, ds)[p] {
    }
  }

  /**
    ExtractTar, like the selective form, touches nothing outside its root but what preparing it takes,
    and below it makes nothing but what entries stand for and directories on the way to them; it
    succeeds exactly when its loop does, and then each directory entry has the mode last given for it.
   */
  lemma UnpackingStaysBelow(limits: Limits, fs: Fs, root: Path, a: Archive)
    requires Rooted(fs) && AllNormal(root)
    ensures var p, r := PrepareDestination(fs, root), UnpackResult(limits, fs, root, a);
            && (WithDefaults(limits).None? ==> r == Effect(fs, false))
            && (WithDefaults(limits).Some? && !p.ok ==> !r.ok && PartWay(fs, r.fs, root))
            && (WithDefaults(limits).Some? && p.ok ==>
                  && (r.ok <==> !a.broken && UnpackRun(WithDefaults(limits).value, root, p.fs, a.entries).ok)
                  && (r.ok ==>
                      |a.entries| <= WithDefaults(limits).value.entries
                        && TotalSize(a.entries) <= WithDefaults(limits).value.total)
                  && exists at, made ::
                       && Ready(p.fs, root, at) && Untouched(p.fs, at) && PreparedFrom(fs, p.fs, at)
                       && Exact(p.fs, at, made, r.fs) && LinksBelow(root, made)
                       && (if r.ok then WithTheirModes(made, a.entries)
                         else FromEntries(made, a.entries, EverySelector())))
  {
    hide PrepareDestination, WithDefaults, Ready, Untouched, PreparedFrom, Rooted, UnpackRun, Exact, FromEntries,
         WithTheirModes, Unwinding, ApplyModes, DeepestFirst, TotalSize, PartWay, LinksBelow;
    var p, r := PrepareDestination(fs, root), UnpackResult(limits, fs, root, a);
    if WithDefaults(limits).Some? && p.ok {
      var l := WithDefaults(limits).value;
      Preparation(fs, root);
      var at :| Ready(p.fs, root, at) && Untouched(p.fs, at) && PreparedFrom(fs, p.fs, at);
      UnpackRunExact(l, root, p.fs, at, a.entries);
      var s := UnpackRun(l, root, p.fs, a.entries);
      if s.ok && !a.broken {
        ModesSucceed(root, p.fs, at, s, a.entries);
        var made :| Exact(p.fs, at, made, r.fs) && WithTheirModes(made, a.entries) && LinksBelow(root, made);
        assert r.ok;
      } else {
        var made :|
            Exact(p.fs, at, made, s.fs) && FromEntries(made, a.entries, EverySelector()) && LinksBelow(root, made);
        assert !r.ok && r.fs == s.fs;
      }
    } else if !p.ok {
      PreparationFails(fs, root);
    }
  }

  /** No link ExtractTar leaves below its root, whenever it stops, is absolute or leads out of that root. */
  lemma UnpackedLinksStay(limits: Limits, fs: Fs, root: Path, a: Archive)
    requires Rooted(fs) && AllNormal(root) && PrepareDestination(fs, root).ok && WithDefaults(limits).Some?
    ensures var base, r := PrepareDestination(fs, root).fs, UnpackResult(limits, fs, root, a);
            exists at ::
              && Ready(base, root, at) && Untouched(base, at)
              && forall p, target :: p != [] && at + p in r.fs && r.fs[at + p] == LinkNode(target) ==>
                   LeadsBelow(root, p, target)
  {
    hide PrepareDestination, WithDefaults, Ready, Untouched, Exact, FromEntries, PreparedFrom, Rooted, Made, TotalSize,
         UnpackResult, UnpackRun, LeadsBelow, WithTheirModes;
    var base, r := PrepareDestination(fs, root).fs, UnpackResult(limits, fs, root, a);
    UnpackingStaysBelow(limits, fs, root, a);
    var at, made :|
        && Ready(base, root, at) && Untouched(base, at) && PreparedFrom(fs, base, at)
        && Exact(base, at, made, r.fs) && LinksBelow(root, made)
        && (if r.ok then WithTheirModes(made, a.entries) else FromEntries(made, a.entries, EverySelector()));
    forall p, target | p != [] && at + p in r.fs && r.fs[at + p] == LinkNode(target)
      ensures LeadsBelow(root, p, target)
    {
      InMade(base, at, made, r.fs, p);
      AcceptedLeadsBelow(root, p, target);
    }
  }

  // Beside the selective form

  lemma WithinCeiling(fs: Fs, root: Path, e: TarEntry, path: Path, ceiling: int)
    requires path != [] && (e.kind.FileKind? ==> Copies(e, ceiling) && Copies(e, e.size))
    ensures Materialise(fs, root, e, path, ceiling) == Materialise(fs, root, e, path, e.size)
  {
    hide MkdirAll, CreateNode, RemoveNode, LinkBelow;
  }

  lemma CopiesUnder(l: Limits, t: Tally, seen: map<Path, Kind>, e: TarEntry)
    requires Admit(l, t, seen, e).Admitted? && e.kind.FileKind? && Whole(e)
    ensures Copies(e, Min(l.entrySize, l.total - t.bytes)) && Copies(e, e.size)
  {
    hide EntryName;
  }

  /** What the selective form accepts whole, ExtractTar accepts, and makes the same of it until the modes are set. */
  lemma {:induction false} UnpackFollows(l: Limits, root: Path, base: Fs, at: Path, es: seq<TarEntry>)
    requires AllNormal(root) && Positive(l) && Ready(base, root, at) && Untouched(base, at)
    requires ExtractRun(l, root, EverySelector(), base, es).ok
    ensures var s, u := ExtractRun(l, root, EverySelector(), base, es), UnpackRun(l, root, base, es);
            u.ok && u.fs == s.fs && u.count == s.tally.entries && u.total == s.tally.bytes
    decreases |es|
  {
    if es != [] {
      hide Ready, Untouched, Going, Exact, PathOf, NodeOf, SafeJoin, Materialise, Whole, Copies;
      var front, e := es[..|es| - 1], es[|es| - 1];
      var s := ExtractRun(l, root, EverySelector(), base, front);
      if !s.ok {
        StoppedStays(l, root, EverySelector(), s, e);
      }
      UnpackFollows(l, root, base, at, front);
      RunExact(l, root, EverySelector(), base, at, front);
      StepExact(l, root, EverySelector(), base, at, s, e);
      if e.kind.FileKind? {
        CopiesUnder(l, s.tally, s.seen, e);
      }
      FollowStep(l, root, s, UnpackRun(l, root, base, front), e);
    }
  }

  lemma FollowStep(l: Limits, root: Path, s: Extracting, u: Unpacked, e: TarEntry)
    requires s.ok && u.ok && u.fs == s.fs && u.count == s.tally.entries && u.total == s.tally.bytes
    requires ExtractStep(l, root, EverySelector(), s, e).ok
    requires e.kind.FileKind? ==> Copies(e, Min(l.entrySize, l.total - s.tally.bytes)) && Copies(e, e.size)
    ensures var t, v := ExtractStep(l, root, EverySelector(), s, e), UnpackStep(l, root, u, e);
            v.ok && v.fs == t.fs && v.count == t.tally.entries && v.total == t.tally.bytes
  {
    hide SafeJoin, Materialise, Copies, EntryName, PortableLink, NodeOf;
    AdmitMeans(l, s.tally, s.seen, e);
    var path := PathOf(e);
    if path != [] {
      WithinCeiling(s.fs, root, e, path, Min(l.entrySize, l.total - s.tally.bytes));
    }
  }

  /** ExtractTar accepts every archive the selective form extracts whole; the results differ in directory modes only. */
  lemma FullFollowsSelective(limits: Limits, fs: Fs, root: Path, a: Archive)
    requires Rooted(fs) && AllNormal(root) && PrepareDestination(fs, root).ok
    requires ExtractResult(limits, fs, root, a, EverySelector()).summary.Some?
    ensures var s, u := ExtractResult(limits, fs, root, a, EverySelector()), UnpackResult(limits, fs, root, a);
            && u.ok && u.fs.Keys == s.fs.Keys
            && forall q :: q in u.fs ==> u.fs[q] == s.fs[q] || (u.fs[q].DirNode? && s.fs[q].DirNode?)
  {
    hide PrepareDestination, WithDefaults, Ready, Untouched, PreparedFrom, Rooted, UnpackRun, ExtractRun, Unwinding,
         ApplyModes, DeepestFirst, TotalSize;
    var l, base := WithDefaults(limits).value, PrepareDestination(fs, root).fs;
    Preparation(fs, root);
    var at :| Ready(base, root, at) && Untouched(base, at) && PreparedFrom(fs, base, at);
    UnpackFollows(l, root, base, at, a.entries);
    UnpackRunExact(l, root, base, at, a.entries);
    var u := UnpackRun(l, root, base, a.entries);
    ModesSucceed(root, base, at, u, a.entries);
    ModesOnly(u.fs, root, DeepestFirst(u.dirs));
  }

  /** Setting modes changes nothing else. */
  lemma {:induction false} ModesOnly(fs: Fs, root: Path, ds: seq<DirMeta>)
    ensures var r := ApplyModes(fs, root, ds).fs;
            r.Keys == fs.Keys && forall q :: q in fs ==> r[q] == fs[q] || (r[q].DirNode? && fs[q].DirNode?)
    decreases |ds|
  {
    if ds != [] {
      hide Searchable;
      ModesOnly(Chmod(fs, root, ds[0]).fs, root, ds[1..]);
    }
  }
}
