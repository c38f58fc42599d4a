/**
  A file system whose calls follow symlinks, and the fact extraction relies on: along a path
  without links a call acts exactly where the path says.
 */
module FileSystem {
  import opened Bytes
  import opened Paths
  import opened Links

  datatype Node = FileNode(mode: nat, data: Bytes) | DirNode(mode: nat) | LinkNode(target: string)

  /** Absolute paths to nodes; the root directory itself is not listed. */
  type Fs = map<Path, Node>

  const PRIVATE_DIR: Node := DirNode(448)
  const MAX_LINKS: nat := 40

  predicate IsDir(fs: Fs, p: Path) {
    p == [] || (p in fs && fs[p].DirNode?)
  }

  datatype Resolved = Reached(path: Path) | Missing | NotADirectory | TooManyLinks

  /** Follow `todo` from the directory `base`, links included. */
  function Walk(fs: Fs, base: Path, todo: Path, links: nat): Resolved
    decreases links, |todo|
  {
    if todo == [] then Reached(base)
    else if todo[0] == "" || todo[0] == HERE then Walk(fs, base, todo[1..], links)
    else if todo[0] == UP then Walk(fs, if base == [] then [] else base[..|base| - 1], todo[1..], links)
    else
      var p := base + [todo[0]];
      if p !in fs then Missing
      else
        match fs[p]
        case LinkNode(target) =>
          if links == 0 then TooManyLinks
          else Walk(fs, if IsAbs(target) then [] else base, Split(target) + todo[1..], links - 1)
        case DirNode(_) => Walk(fs, p, todo[1..], links)
        case FileNode(_, _) => if |todo| == 1 then Reached(p) else NotADirectory
  }

  datatype Place = Place(path: Path) | NoPlace(missing: bool)

  /** Where a name would be looked up or created: its parent resolved through links, the last segment taken as it is. */
  function Locate(fs: Fs, p: Path): Place
    requires p != []
  {
    match Walk(fs, [], p[..|p| - 1], MAX_LINKS)
    case Reached(d) => if IsDir(fs, d) then Place(d + [p[|p| - 1]]) else NoPlace(false)
    case Missing => NoPlace(true)
    case _ => NoPlace(false)
  }

  datatype Stat = Present(node: Node) | Absent | StatError

  /** os.Lstat */
  function Lstat(fs: Fs, p: Path): Stat {
    if p == [] then Present(PRIVATE_DIR)
    else
      match Locate(fs, p)
      case Place(at) => if at in fs then Present(fs[at]) else Absent
      case NoPlace(missing) => if missing then Absent else StatError
  }

  /** What a call leaves behind, and whether it succeeded. */
  datatype Effect = Effect(fs: Fs, ok: bool)

  /** mkdir, open with O_CREATE|O_EXCL, symlink: a new node, or nothing. */
  function CreateNode(fs: Fs, p: Path, node: Node): (r: Effect)
    requires p != []
    ensures r.ok ==> exists at :: at !in fs && r.fs == fs[at := node]
    ensures !r.ok ==> r.fs == fs
  {
    match Locate(fs, p)
    case Place(at) => if at in fs then Effect(fs, false) else Effect(fs[at := node], true)
    case NoPlace(_) => Effect(fs, false)
  }

  /** os.Remove of a file. */
  function RemoveNode(fs: Fs, p: Path): Fs
    requires p != []
  {
    match Locate(fs, p)
    case Place(at) => fs - {at}
    case NoPlace(_) => fs
  }

  /** os.MkdirAll with mode 0700: done if a directory is there, else parents first. */
  function MkdirAll(fs: Fs, p: Path): Effect
    decreases |p|
  {
    match Walk(fs, [], p, MAX_LINKS)
    case Reached(at) => Effect(fs, IsDir(fs, at))
    case _ =>
      if p == [] then Effect(fs, false)
      else
        var up := MkdirAll(fs, p[..|p| - 1]);
        if !up.ok then up
        else
          var made := CreateNode(up.fs, p, PRIVATE_DIR);
          if made.ok then made
          else Effect(up.fs, Lstat(up.fs, p).Present? && Lstat(up.fs, p).node.DirNode?)
  }

  // Walking in parts

  /** A walk that reaches a directory can be continued from there; one that misses a name stays lost. */
  lemma {:induction false} WalkOn(fs: Fs, base: Path, a: Path, b: Path, links: nat)
    ensures var r := Walk(fs, base, a, links);
            && (r.Reached? && IsDir(fs, r.path) ==>
                exists left: nat :: Walk(fs, base, a + b, links) == Walk(fs, r.path, b, left))
            && (r.Missing? ==> Walk(fs, base, a + b, links) == Missing)
    decreases links, |a|
  {
    hide Split;
    if a == [] {
      assert a + b == b;
      assert Walk(fs, base, a + b, links) == Walk(fs, base, b, links);
    } else {
      assert (a + b)[1..] == a[1..] + b;
      if a[0] == "" || a[0] == HERE {
        WalkOn(fs, base, a[1..], b, links);
      } else if a[0] == UP {
        WalkOn(fs, if base == [] then [] else base[..|base| - 1], a[1..], b, links);
      } else {
        var p := base + [a[0]];
        if p in fs {
          match fs[p]
          case LinkNode(target) =>
            if links > 0 {
              assert Split(target) + (a + b)[1..] == Split(target) + a[1..] + b;
              WalkOn(fs, if IsAbs(target) then [] else base, Split(target) + a[1..], b, links - 1);
            }
          case DirNode(_) => WalkOn(fs, p, a[1..], b, links);
          case FileNode(_, _) =>
        }
      }
    }
  }

  /** Nothing of `fs` is lost in `fs'`; directories may have changed mode. */
  ghost predicate Extends(fs: Fs, fs': Fs) {
    forall p :: p in fs ==> p in fs' && (fs'[p] == fs[p] || (fs[p].DirNode? && fs'[p].DirNode?))
  }

  lemma {:induction false} WalkGrows(fs: Fs, fs': Fs, base: Path, todo: Path, links: nat)
    requires Extends(fs, fs') && Walk(fs, base, todo, links).Reached?
    ensures Walk(fs', base, todo, links) == Walk(fs, base, todo, links)
    decreases links, |todo|
  {
    if todo != [] {
      if todo[0] == "" || todo[0] == HERE {
        WalkGrows(fs, fs', base, todo[1..], links);
      } else if todo[0] == UP {
        WalkGrows(fs, fs', if base == [] then [] else base[..|base| - 1], todo[1..], links);
      } else {
        var p := base + [todo[0]];
        match fs[p]
        case LinkNode(target) =>
          WalkGrows(fs, fs', if IsAbs(target) then [] else base, Split(target) + todo[1..], links - 1);
        case DirNode(_) => WalkGrows(fs, fs', p, todo[1..], links);
        case FileNode(_, _) =>
      }
    }
  }

  // Below a directory, along paths without links

  /** Every node has its parents. */
  ghost predicate Rooted(fs: Fs) {
    forall p :: p in fs ==> p != [] && IsDir(fs, p[..|p| - 1])
  }

  lemma {:induction false} RootedUp(fs: Fs, p: Path, k: nat)
    requires Rooted(fs) && k < |p| && p in fs
    ensures IsDir(fs, p[..k])
    decreases |p|
  {
    if k < |p| - 1 {
      var up := p[..|p| - 1];
      assert up[..k] == p[..k];
      RootedUp(fs, up, k);
    }
  }

  /** The path `root`, links and all, leads to the directory `at`. */
  ghost predicate Home(fs: Fs, root: Path, at: Path) {
    Walk(fs, [], root, MAX_LINKS) == Reached(at) && IsDir(fs, at)
  }

  lemma HomeGrows(fs: Fs, fs': Fs, root: Path, at: Path)
    requires Home(fs, root, at) && Extends(fs, fs')
    ensures Home(fs', root, at)
  {
    WalkGrows(fs, fs', [], root, MAX_LINKS);
  }

  predicate Under(at: Path, q: Path) {
    |at| < |q| && at == q[..|at|]
  }

  /** Whatever exists on the way from `base` along `p`, its end included, is a directory. */
  ghost predicate Clear(fs: Fs, base: Path, p: Path) {
    forall k :: 0 < k <= |p| && base + p[..k] in fs ==> fs[base + p[..k]].DirNode?
  }

  lemma ClearPrefix(fs: Fs, base: Path, p: Path, k: nat)
    requires Clear(fs, base, p) && k <= |p|
    ensures Clear(fs, base, p[..k])
  {
    forall j | 0 < j <= k && base + p[..k][..j] in fs ensures fs[base + p[..k][..j]].DirNode? {
      assert p[..k][..j] == p[..j];
    }
  }

  /** Along a clear path the walk stays on the path. */
  lemma {:induction false} WalkClear(fs: Fs, base: Path, todo: Path, links: nat)
    requires Rooted(fs) && AllNormal(todo) && Clear(fs, base, todo)
    ensures Walk(fs, base, todo, links) == if todo == [] || base + todo in fs then Reached(base + todo) else Missing
    decreases |todo|
  {
    hide Split, Rooted;
    var whole := base + todo;
    if todo == [] {
      assert whole == base;
    } else {
      var next := base + [todo[0]];
      assert todo[..1] == [todo[0]];
      assert whole[..|next|] == next && next + todo[1..] == whole;
      assert |todo| == 1 ==> whole == next;
      if next !in fs {
        if whole in fs && |todo| > 1 {
          RootedUp(fs, whole, |next|);
        }
      } else {
        assert base + todo[..1] in fs;
        forall k | 0 < k <= |todo[1..]| && next + todo[1..][..k] in fs ensures fs[next + todo[1..][..k]].DirNode? {
          assert next + todo[1..][..k] == base + todo[..k + 1];
        }
        WalkClear(fs, next, todo[1..], links);
      }
    }
  }

  lemma WalkBelow(fs: Fs, root: Path, at: Path, p: Path)
    requires Rooted(fs) && Home(fs, root, at) && AllNormal(p) && Clear(fs, at, p)
    ensures Walk(fs, [], root + p, MAX_LINKS) == if p == [] || at + p in fs then Reached(at + p) else Missing
  {
    WalkOn(fs, [], root, p, MAX_LINKS);
    var left: nat :| Walk(fs, [], root + p, MAX_LINKS) == Walk(fs, at, p, left);
    WalkClear(fs, at, p, left);
  }

  lemma NormalFront(p: Path)
    requires AllNormal(p) && p != []
    ensures AllNormal(p[..|p| - 1])
  {
  }

  /** A call on a path whose way is clear acts on the node the path names. */
  lemma LocateBelow(fs: Fs, root: Path, at: Path, p: Path)
    requires Rooted(fs) && Home(fs, root, at) && AllNormal(p) && p != [] && Clear(fs, at, p[..|p| - 1])
    ensures Lstat(fs, root + p) == if at + p in fs then Present(fs[at + p]) else Absent
    ensures IsDir(fs, at + p[..|p| - 1]) ==> Locate(fs, root + p) == Place(at + p)
  {
    hide Walk, Clear, Home, Rooted, AllNormal;
    var up := p[..|p| - 1];
    assert AllNormal(up) by { NormalFront(p); }
    assert (root + p)[..|root + p| - 1] == root + up && (at + p)[..|at + p| - 1] == at + up;
    assert at + up + [p[|p| - 1]] == at + p;
    WalkBelow(fs, root, at, up);
    if up == [] || at + up in fs {
      ReachedDir(fs, root, at, up);
    } else {
      if at + p in fs { RootedUp(fs, at + p, |at + up|); }
    }
  }

  lemma CreateBelow(fs: Fs, root: Path, at: Path, p: Path, node: Node)
    requires Rooted(fs) && Home(fs, root, at) && AllNormal(p) && p != [] && Clear(fs, at, p[..|p| - 1])
    requires IsDir(fs, at + p[..|p| - 1])
    ensures CreateNode(fs, root + p, node) == if at + p in fs then Effect(fs, false)
            else Effect(fs[at + p := node], true)
    ensures RemoveNode(fs, root + p) == fs - {at + p}
  {
    hide Walk, Clear, Locate;
    LocateBelow(fs, root, at, p);
  }

  /** A file on the way stops a walk. */
  lemma {:induction false} WalkBlocked(fs: Fs, base: Path, todo: Path, k: nat, links: nat)
    requires Rooted(fs) && AllNormal(todo) && 0 < k <= |todo|
    requires base + todo[..k] in fs && fs[base + todo[..k]].FileNode?
    ensures Walk(fs, base, todo, links) == if k == |todo| then Reached(base + todo) else NotADirectory
    decreases k
  {
    hide Split, Rooted;
    var next, whole := base + [todo[0]], base + todo[..k];
    assert base + todo[..1] == next && whole[..|next|] == next;
    if k == 1 {
      assert k == |todo| ==> todo[..k] == todo;
    } else {
      RootedUp(fs, whole, |next|);
      var rest := todo[1..];
      assert fs[next].DirNode?;
      assert next + rest[..k - 1] == whole && next + rest == base + todo;
      WalkBlocked(fs, next, rest, k - 1, links);
    }
  }

  /** A file on the way makes os.Lstat fail. */
  lemma LstatBlocked(fs: Fs, root: Path, at: Path, p: Path, k: nat)
    requires Rooted(fs) && Home(fs, root, at) && AllNormal(p) && 0 < k < |p|
    requires at + p[..k] in fs && fs[at + p[..k]].FileNode?
    ensures Lstat(fs, root + p) == StatError
  {
    var up := p[..|p| - 1];
    assert (root + p)[..|root + p| - 1] == root + up && up[..k] == p[..k];
    WalkOn(fs, [], root, up, MAX_LINKS);
    var left: nat :| Walk(fs, [], root + up, MAX_LINKS) == Walk(fs, at, up, left);
    WalkBlocked(fs, at, up, k, left);
    assert k == |up| ==> up[..k] == up;
  }

  /** The file system with every missing directory from `base` along `p` added. */
  function WithDirs(fs: Fs, base: Path, p: Path): Fs
    decreases |p|
  {
    if p == [] then fs
    else
      var up := WithDirs(fs, base, p[..|p| - 1]);
      if base + p in up then up else up[base + p := PRIVATE_DIR]
  }

  predicate OnTheWay(base: Path, p: Path, q: Path) {
    Under(base, q) && q <= base + p
  }

  lemma WayStep(base: Path, p: Path, q: Path)
    requires p != []
    ensures OnTheWay(base, p, q) <==> OnTheWay(base, p[..|p| - 1], q) || q == base + p
  {
    var up := p[..|p| - 1];
    assert (base + p)[..|base + up|] == base + up;
    if |q| < |base + p| {
      assert (base + p)[..|q|] == (base + up)[..|q|];
    }
    assert (base + p)[..|base|] == base;
  }

  lemma {:induction false} WithDirsNodes(fs: Fs, base: Path, p: Path)
    ensures forall q :: q in WithDirs(fs, base, p) <==> q in fs || OnTheWay(base, p, q)
    ensures forall q :: q in WithDirs(fs, base, p) ==> WithDirs(fs, base, p)[q] == if q in fs then fs[q]
            else PRIVATE_DIR
    decreases |p|
  {
    if p != [] {
      WithDirsNodes(fs, base, p[..|p| - 1]);
      forall q ensures OnTheWay(base, p, q) <==> OnTheWay(base, p[..|p| - 1], q) || q == base + p {
        WayStep(base, p, q);
      }
    }
  }

  lemma OnTheWayPrefix(base: Path, p: Path, q: Path)
    requires OnTheWay(base, p, q)
    ensures var k := |q| - |base|; 0 < k <= |p| && q == base + p[..k] && q[..|q| - 1] == base + p[..k - 1]
  {
    var k := |q| - |base|;
    assert (base + p)[..|q|] == base + p[..k];
    assert q[..|q| - 1] == base + p[..k - 1];
  }

  lemma WithDirsRooted(fs: Fs, base: Path, p: Path)
    requires Rooted(fs) && IsDir(fs, base) && Clear(fs, base, p)
    ensures var w := WithDirs(fs, base, p); Rooted(w) && IsDir(w, base + p) && Extends(fs, w) && Clear(w, base, p)
  {
    hide WithDirs, OnTheWay;
    WithDirsNodes(fs, base, p);
    var w := WithDirs(fs, base, p);
    assert forall q :: IsDir(fs, q) ==> IsDir(w, q);
    forall k | 0 <= k <= |p| ensures IsDir(w, base + p[..k]) {
      WayTo(base, p, k);
      if k == 0 {
        assert base + p[..k] == base;
      } else if base + p[..k] in fs {
        assert fs[base + p[..k]].DirNode?;
      }
    }
    assert p[..|p|] == p;
    forall q | q in w ensures q != [] && IsDir(w, q[..|q| - 1]) {
      if q !in fs {
        OnTheWayPrefix(base, p, q);
      }
    }
  }

  lemma WayTo(base: Path, p: Path, k: nat)
    requires k <= |p|
    ensures k > 0 ==> OnTheWay(base, p, base + p[..k])
  {
    assert (base + p)[..|base| + k] == base + p[..k];
    assert (base + p[..k])[..|base|] == base;
  }

  lemma WithDirsPresent(fs: Fs, base: Path, p: Path)
    requires Rooted(fs) && (p == [] || base + p in fs)
    ensures WithDirs(fs, base, p) == fs
  {
    WithDirsNodes(fs, base, p);
    forall q | OnTheWay(base, p, q) ensures q in fs {
      OnTheWayPrefix(base, p, q);
      if |q| < |base + p| {
        RootedUp(fs, base + p, |q|);
        assert (base + p)[..|q|] == q;
      } else {
        assert q == base + p;
      }
    }
    assert WithDirs(fs, base, p).Keys == fs.Keys;
  }

  /** os.MkdirAll along a clear path adds exactly the missing directories on it. */
  lemma {:induction false} MkdirAllBelow(fs: Fs, root: Path, at: Path, p: Path)
    requires Rooted(fs) && Home(fs, root, at) && AllNormal(p) && Clear(fs, at, p)
    ensures MkdirAll(fs, root + p) == Effect(WithDirs(fs, at, p), true)
    decreases |p|
  {
    hide Walk, Locate, CreateNode, Lstat, Clear, Rooted, Home;
    WalkBelow(fs, root, at, p);
    if p == [] || at + p in fs {
      WithDirsPresent(fs, at, p);
      ReachedDir(fs, root, at, p);
    } else {
      var up := p[..|p| - 1];
      assert (root + p)[..|root + p| - 1] == root + up;
      ClearPrefix(fs, at, p, |up|);
      MkdirAllBelow(fs, root, at, up);
      MkdirLast(fs, root, at, p);
    }
  }

  lemma ReachedDir(fs: Fs, root: Path, at: Path, p: Path)
    requires Home(fs, root, at) && Clear(fs, at, p) && (p == [] || at + p in fs)
    ensures IsDir(fs, at + p)
  {
    assert p == [] ==> at + p == at;
    assert p[..|p|] == p;
  }

  lemma MkdirLast(fs: Fs, root: Path, at: Path, p: Path)
    requires Rooted(fs) && Home(fs, root, at) && AllNormal(p) && p != [] && Clear(fs, at, p[..|p| - 1]) && at + p !in fs
    ensures var up := WithDirs(fs, at, p[..|p| - 1]);
            at + p !in up && CreateNode(up, root + p, PRIVATE_DIR) == Effect(up[at + p := PRIVATE_DIR], true)
  {
    hide Walk, Locate, CreateNode, Lstat, Clear, WithDirs, Rooted;
    var up := p[..|p| - 1];
    assert IsDir(fs, at);
    WithDirsRooted(fs, at, up);
    WithDirsNodes(fs, at, up);
    HomeGrows(fs, WithDirs(fs, at, up), root, at);
    CreateBelow(WithDirs(fs, at, up), root, at, p, PRIVATE_DIR);
  }
}
