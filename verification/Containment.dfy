/** What extraction leaves in the file system: nothing outside its root, and below it exactly the selected entries. */
module Containment {
  import opened Paths
  import opened Links
  import opened FileSystem
  import opened Archives
  import opened Extraction

  ghost predicate Untouched(fs: Fs, at: Path) {
    forall q :: q in fs ==> !Under(at, q)
  }

  ghost predicate Ready(fs: Fs, root: Path, at: Path) {
    Rooted(fs) && Home(fs, root, at)
  }

  lemma NoChildrenNothing(fs: Fs, at: Path)
    requires Rooted(fs) && NoChildren(fs, at)
    ensures Untouched(fs, at)
  {
    forall q | q in fs ensures !Under(at, q) {
      if Under(at, q) {
        var n := |at| + 1;
        assert |q| > n ==> q[..n][..|at|] == at;
        if |q| > n {
          RootedUp(fs, q, n);
        }
        assert false;
      }
    }
  }

  /**
    A path that leads to a directory leads one further if its next name is a directory, and misses
    it if it is absent.
   */
  lemma WalkLast(fs: Fs, p: Path)
    requires p != [] && Normal(p[|p| - 1])
    ensures var r := Walk(fs, [], p[..|p| - 1], MAX_LINKS);
            && (r.Missing? ==> Walk(fs, [], p, MAX_LINKS) == Missing)
            && (r.Reached? && IsDir(fs, r.path) ==>
                var at := r.path + [p[|p| - 1]];
                && (at !in fs ==> Walk(fs, [], p, MAX_LINKS) == Missing)
                && (at in fs && fs[at].DirNode? ==> Walk(fs, [], p, MAX_LINKS) == Reached(at)))
  {
    hide Split;
    var up, last := p[..|p| - 1], [p[|p| - 1]];
    assert up + last == p;
    WalkOn(fs, [], up, last, MAX_LINKS);
    var r := Walk(fs, [], up, MAX_LINKS);
    if r.Reached? && IsDir(fs, r.path) {
      var left: nat :| Walk(fs, [], up + last, MAX_LINKS) == Walk(fs, r.path, last, left);
      assert last[1..] == [] && last[0] == p[|p| - 1];
    }
  }

  lemma NewDir(fs: Fs, at: Path)
    requires Rooted(fs) && at != [] && at !in fs && IsDir(fs, at[..|at| - 1])
    ensures Rooted(fs[at := PRIVATE_DIR]) && Untouched(fs[at := PRIVATE_DIR], at) && Extends(fs, fs[at := PRIVATE_DIR])
  {
    var fs' := fs[at := PRIVATE_DIR];
    forall q | q in fs' ensures !Under(at, q) {
      if q in fs && Under(at, q) {
        RootedUp(fs, q, |at|);
        assert false;
      }
    }
    forall q | q in fs' ensures q != [] && IsDir(fs', q[..|q| - 1]) {
      assert q in fs ==> IsDir(fs, q[..|q| - 1]);
    }
  }

  /** Private directories were added on the way to `at`, and nothing else happened. */
  ghost predicate OnlyDirsTo(fs: Fs, fs': Fs, at: Path) {
    && (forall q :: q in fs ==> q in fs' && fs'[q] == fs[q])
    && forall q :: q in fs' && q !in fs ==> fs'[q] == PRIVATE_DIR && q != [] && q <= at
  }

  /** What preparing the destination `at` does: private directories on the way to it, and itself private. */
  ghost predicate PreparedFrom(fs: Fs, base: Fs, at: Path) {
    && (forall q :: q in fs ==>
        q in base && (base[q] == fs[q] || (q == at && fs[q].DirNode? && base[q] == PRIVATE_DIR)))
    && (forall q :: q in base && q !in fs ==> base[q] == PRIVATE_DIR && q != [] && q <= at)
    && (at != [] ==> at in base && base[at] == DirNode(448))
  }

  lemma OnlyDirsOneMore(fs: Fs, w: Fs, d: Path, last: string)
    requires OnlyDirsTo(fs, w, d) && d + [last] !in w
    ensures OnlyDirsTo(fs, w[d + [last] := PRIVATE_DIR], d + [last])
  {
    var at := d + [last];
    forall q | q in w && q !in fs ensures q <= at {
      assert at[..|d|] == d;
      assert q == d[..|q|] == at[..|q|];
    }
  }

  /** A name missing below a directory is created there. */
  lemma MkdirHere(fs: Fs, up: Path, d: Path, root: Path)
    requires Ready(fs, up, d) && root != [] && up == root[..|root| - 1] && Normal(root[|root| - 1])
    requires d + [root[|root| - 1]] !in fs
    ensures var at := d + [root[|root| - 1]];
            var fs' := fs[at := PRIVATE_DIR];
            && Ready(fs', root, at) && Untouched(fs', at)
            && CreateNode(fs, root, PRIVATE_DIR) == Effect(fs', true)
  {
    hide Walk, Split, Rooted, Extends;
    var at := d + [root[|root| - 1]];
    assert at[..|at| - 1] == d;
    NewDir(fs, at);
    HomeGrows(fs, fs[at := PRIVATE_DIR], up, d);
    WalkLast(fs[at := PRIVATE_DIR], root);
  }

  /** os.MkdirAll on a path that leads nowhere yet ends with a new, empty directory there. */
  lemma {:induction false} MkdirFresh(fs: Fs, root: Path)
    requires Rooted(fs) && AllNormal(root) && !Walk(fs, [], root, MAX_LINKS).Reached? && MkdirAll(fs, root).ok
    ensures var fs' := MkdirAll(fs, root).fs;
            exists at :: Ready(fs', root, at) && Untouched(fs', at) && OnlyDirsTo(fs, fs', at)
                         && at in fs' && fs'[at] == PRIVATE_DIR
    decreases |root|
  {
    hide Walk, Split, Rooted, CreateNode;
    RootReached(fs);
    var up, last := root[..|root| - 1], root[|root| - 1];
    var w := MkdirAll(fs, up).fs;
    if Walk(fs, [], up, MAX_LINKS).Reached? {
      var d := Walk(fs, [], up, MAX_LINKS).path;
      assert w == fs && Home(fs, up, d);
      NotThere(fs, root, d);
      MkdirHere(fs, up, d, root);
      OnlyDirsOneMore(fs, fs, d, last);
    } else {
      MkdirFresh(fs, up);
      var d :| Ready(w, up, d) && Untouched(w, d) && OnlyDirsTo(fs, w, d);
      assert (d + [last])[..|d|] == d;
      MkdirHere(w, up, d, root);
      OnlyDirsOneMore(fs, w, d, last);
    }
  }

  /**
    However os.MkdirAll ends, it has added directories on the way to a directory some part of the
    path leads to, or nothing.
   */
  ghost predicate PartWay(fs: Fs, fs': Fs, root: Path) {
    fs' == fs || exists k, at :: 0 <= k <= |root| && Ready(fs', root[..k], at) && OnlyDirsTo(fs, fs', at)
  }

  lemma {:induction false} MkdirPartWay(fs: Fs, root: Path)
    requires Rooted(fs) && AllNormal(root)
    ensures PartWay(fs, MkdirAll(fs, root).fs, root)
    decreases |root|
  {
    hide Walk, CreateNode, Lstat, Rooted, Home, OnlyDirsTo;
    assert root[..|root|] == root;
    if !Walk(fs, [], root, MAX_LINKS).Reached? && root != [] {
      var up := root[..|root| - 1];
      MkdirPartWay(fs, up);
      if MkdirAll(fs, root).ok {
        MkdirFresh(fs, root);
      }
      PartWayUp(fs, MkdirAll(fs, up).fs, root);
    }
  }

  lemma PartWayUp(fs: Fs, fs': Fs, root: Path)
    requires root != [] && PartWay(fs, fs', root[..|root| - 1])
    ensures PartWay(fs, fs', root)
  {
    hide Ready, OnlyDirsTo;
    if fs' != fs {
      var up := root[..|root| - 1];
      var k: int, at :| 0 <= k <= |up| && Ready(fs', up[..k], at) && OnlyDirsTo(fs, fs', at);
      assert up[..k] == root[..k];
    }
  }

  lemma RootReached(fs: Fs)
    ensures Walk(fs, [], [], MAX_LINKS).Reached?
  {
  }

  lemma NotThere(fs: Fs, root: Path, d: Path)
    requires root != [] && Normal(root[|root| - 1]) && Home(fs, root[..|root| - 1], d)
    requires !Walk(fs, [], root, MAX_LINKS).Reached? && MkdirAll(fs, root).ok
    ensures d + [root[|root| - 1]] !in fs
  {
    hide Walk;
    WalkLast(fs, root);
  }

  /** A destination that could be prepared is an empty directory, wherever links lead on the way to it. */
  lemma Preparation(fs: Fs, root: Path)
    requires Rooted(fs) && AllNormal(root) && PrepareDestination(fs, root).ok
    ensures var base := PrepareDestination(fs, root).fs;
            exists at :: Ready(base, root, at) && Untouched(base, at) && PreparedFrom(fs, base, at)
  {
    hide Walk, MkdirAll, NoChildren, Lstat, Rooted, Untouched, OnlyDirsTo, PreparedFrom;
    if Lstat(fs, root).Absent? {
      AbsentNotReached(fs, root);
      MkdirFresh(fs, root);
      var base := PrepareDestination(fs, root).fs;
      var at :| Ready(base, root, at) && Untouched(base, at) && OnlyDirsTo(fs, base, at)
                && at in base && base[at] == PRIVATE_DIR;
      DirsPrepare(fs, base, at);
    } else {
      DirReached(fs, root);
      var at := Walk(fs, [], root, MAX_LINKS).path;
      FoundPrepared(fs, root, at);
    }
  }

  lemma DirsPrepare(fs: Fs, base: Fs, at: Path)
    requires OnlyDirsTo(fs, base, at) && at in base && base[at] == PRIVATE_DIR
    ensures PreparedFrom(fs, base, at)
  {
  }

  /** An empty directory, made private. */
  lemma FoundPrepared(fs: Fs, root: Path, at: Path)
    requires Ready(fs, root, at) && NoChildren(fs, at)
    ensures var base := if at == [] then fs else fs[at := PRIVATE_DIR];
            Ready(base, root, at) && Untouched(base, at) && PreparedFrom(fs, base, at)
  {
    hide Walk, Rooted, NoChildren;
    NoChildrenNothing(fs, at);
    if at != [] {
      var base := fs[at := PRIVATE_DIR];
      hide Home;
      AtThere(fs, root, at);
      assert base.Keys == fs.Keys;
      HomeGrows(fs, base, root, at);
      SameKeysRooted(fs, base);
    }
  }

  lemma AtThere(fs: Fs, root: Path, at: Path)
    requires Home(fs, root, at) && at != []
    ensures at in fs && fs[at].DirNode?
  {
    hide Walk;
  }

  lemma SameKeysRooted(fs: Fs, fs': Fs)
    requires Rooted(fs) && fs'.Keys == fs.Keys && forall q :: q in fs && fs[q].DirNode? ==> fs'[q].DirNode?
    ensures Rooted(fs')
  {
    forall q | q in fs' ensures q != [] && IsDir(fs', q[..|q| - 1]) {
      assert q in fs && IsDir(fs, q[..|q| - 1]);
    }
  }

  /** A destination that could not be prepared is left as it was, or with directories on the way to it. */
  lemma PreparationFails(fs: Fs, root: Path)
    requires Rooted(fs) && AllNormal(root) && !PrepareDestination(fs, root).ok
    ensures PartWay(fs, PrepareDestination(fs, root).fs, root)
  {
    hide Walk, MkdirAll, NoChildren, Lstat, PartWay;
    MkdirPartWay(fs, root);
    NothingDone(fs, root);
  }

  lemma NothingDone(fs: Fs, root: Path)
    ensures PartWay(fs, fs, root)
  {
  }

  lemma AbsentNotReached(fs: Fs, root: Path)
    requires AllNormal(root) && Lstat(fs, root).Absent?
    ensures !Walk(fs, [], root, MAX_LINKS).Reached?
  {
    hide Walk;
    WalkLast(fs, root);
  }

  lemma DirReached(fs: Fs, root: Path)
    requires AllNormal(root) && Lstat(fs, root).Present? && Lstat(fs, root).node.DirNode?
             && Walk(fs, [], root, MAX_LINKS).Reached?
    ensures IsDir(fs, Walk(fs, [], root, MAX_LINKS).path)
  {
    if root != [] {
      hide Walk;
      WalkLast(fs, root);
    }
  }

  // Joining safely

  /** secureJoin accepts a path exactly when its way is clear and it is not itself a link. */
  lemma SafeJoinMeans(fs: Fs, root: Path, at: Path, path: Path)
    requires Ready(fs, root, at) && AllNormal(path) && path != []
    ensures SafeJoin(fs, root, path) <==>
            Clear(fs, at, Parent(path)) && (at + path in fs ==> !fs[at + path].LinkNode?)
  {
    hide Lstat, Rooted, Home, Clear;
    assert path[..|path|] == path;
    if SafeJoin(fs, root, path) {
      SafeWay(fs, root, at, path, |path| - 1);
      LocateBelow(fs, root, at, path);
      assert NotThroughLink(Lstat(fs, root + path[..|path|]));
    }
    if Clear(fs, at, Parent(path)) && (at + path in fs ==> !fs[at + path].LinkNode?) {
      forall k | 0 < k <= |path| ensures NotThroughLink(Lstat(fs, root + path[..k])) {
        var p := path[..k];
        assert p[..|p| - 1] == Parent(path)[..k - 1] && p[|p| - 1] == path[k - 1];
        ClearPrefix(fs, at, Parent(path), k - 1);
        LocateBelow(fs, root, at, p);
        if k < |path| {
          assert Parent(path)[..k] == p;
          if at + p in fs {
            ClearAt(fs, at, Parent(path), k);
          }
        }
      }
    }
  }

  lemma ClearAt(fs: Fs, at: Path, p: Path, k: nat)
    requires Clear(fs, at, p) && 0 < k <= |p| && at + p[..k] in fs
    ensures fs[at + p[..k]].DirNode?
  {
  }

  lemma ClearSnoc(fs: Fs, at: Path, p: Path)
    requires p != [] && Clear(fs, at, p[..|p| - 1]) && (at + p in fs ==> fs[at + p].DirNode?)
    ensures Clear(fs, at, p)
  {
    var up := p[..|p| - 1];
    forall k | 0 < k <= |p| && at + p[..k] in fs ensures fs[at + p[..k]].DirNode? {
      if k < |p| {
        assert up[..k] == p[..k];
      } else {
        assert p[..k] == p;
      }
    }
  }

  lemma {:induction false} SafeWay(fs: Fs, root: Path, at: Path, path: Path, k: nat)
    requires Ready(fs, root, at) && AllNormal(path) && k < |path| && SafeJoin(fs, root, path)
    ensures Clear(fs, at, path[..k])
    decreases k
  {
    hide Lstat, Rooted, Home;
    if k > 0 {
      hide Clear;
      SafeWay(fs, root, at, path, k - 1);
      var p := path[..k];
      assert p[..|p| - 1] == path[..k - 1];
      LocateBelow(fs, root, at, p);
      assert NotThroughLink(Lstat(fs, root + path[..k]));
      if at + p in fs && fs[at + p].FileNode? {
        var next := path[..k + 1];
        assert next[..k] == p;
        assert NotThroughLink(Lstat(fs, root + path[..k + 1]));
        LstatBlocked(fs, root, at, next, k);
      }
      ClearSnoc(fs, at, p);
    }
  }

  // What one entry does

  /**
    Writing an accepted entry acts on the path it names and nowhere else: missing directories on the
    way are made, and then the node itself, unless a directory stands there already or the payload
    breaks off.
   */
  lemma MaterialiseBelow(fs: Fs, root: Path, at: Path, e: TarEntry, path: Path, maxBytes: int)
    requires Ready(fs, root, at) && AllNormal(path) && path != []
    requires SafeJoin(fs, root, path) && (at + path in fs ==> fs[at + path].DirNode?)
    requires e.kind.LinkKind? ==> LinkBelow(root, path, e.link)
    ensures var up := WithDirs(fs, at, Parent(path));
            Materialise(fs, root, e, path, maxBytes) ==
              if e.kind.DirKind? then Effect(WithDirs(fs, at, path), true)
              else if at + path in fs || (e.kind.FileKind? && !Copies(e, maxBytes)) then Effect(up, false)
              else Effect(up[at + path := NodeOf(e)], true)
  {
    hide MkdirAll, CreateNode, RemoveNode, Rooted, Home, Clear, SafeJoin, LinkBelow, PortableLink, WithDirs;
    SafeJoinMeans(fs, root, at, path);
    ClearSnoc(fs, at, path);
    if e.kind.DirKind? {
      MkdirAllBelow(fs, root, at, path);
    } else {
      MkdirAllBelow(fs, root, at, Parent(path));
      CreateAfterDirs(fs, root, at, path, NodeOf(e));
    }
  }

  lemma CreateAfterDirs(fs: Fs, root: Path, at: Path, path: Path, node: Node)
    requires Ready(fs, root, at) && AllNormal(path) && path != [] && Clear(fs, at, Parent(path))
    ensures var up := WithDirs(fs, at, Parent(path));
            if at + path in fs then CreateNode(up, root + path, node) == Effect(up, false)
            else
              var made := up[at + path := node];
              CreateNode(up, root + path, node) == Effect(made, true)
              && (!node.DirNode? ==> RemoveNode(made, root + path) == up)
  {
    hide CreateNode, RemoveNode, Rooted, Walk, WithDirs, Extends;
    var up := WithDirs(fs, at, Parent(path));
    WithDirsRooted(fs, at, Parent(path));
    WithDirsNodes(fs, at, Parent(path));
    HomeGrows(fs, up, root, at);
    assert !OnTheWay(at, Parent(path), at + path);
    CreateBelow(up, root, at, path, node);
    if at + path !in fs && !node.DirNode? {
      var made := up[at + path := node];
      AddLeaf(up, root, at, path, node);
      CreateBelow(made, root, at, path, node);
      assert made - {at + path} == up;
    }
  }

  /** Adding a node whose parent is there keeps everything in order. */
  lemma AddLeaf(fs: Fs, root: Path, at: Path, path: Path, node: Node)
    requires Ready(fs, root, at) && path != [] && Clear(fs, at, Parent(path)) && IsDir(fs, at + Parent(path))
             && at + path !in fs
    ensures var made := fs[at + path := node];
            Ready(made, root, at) && Clear(made, at, Parent(path)) && IsDir(made, at + Parent(path))
  {
    hide Walk, Rooted, Clear, Home;
    var made := fs[at + path := node];
    HomeGrows(fs, made, root, at);
    assert (at + path)[..|at + path| - 1] == at + Parent(path);
    RootedAdd(fs, at + path, node);
    ClearStays(fs, at, path, node);
  }

  lemma RootedAdd(fs: Fs, q: Path, node: Node)
    requires Rooted(fs) && q != [] && q !in fs && IsDir(fs, q[..|q| - 1])
    ensures Rooted(fs[q := node])
  {
    var made := fs[q := node];
    forall r | r in made ensures r != [] && IsDir(made, r[..|r| - 1]) {
      assert r in fs ==> IsDir(fs, r[..|r| - 1]);
    }
  }

  lemma ClearStays(fs: Fs, at: Path, path: Path, node: Node)
    requires path != [] && Clear(fs, at, Parent(path)) && at + path !in fs
    ensures Clear(fs[at + path := node], at, Parent(path))
  {
    var made := fs[at + path := node];
    forall k | 0 < k <= |Parent(path)| && at + Parent(path)[..k] in made ensures made[at + Parent(path)[..k]].DirNode? {
      assert |at + Parent(path)[..k]| < |at + path|;
      assert at + Parent(path)[..k] in fs;
    }
  }
}
