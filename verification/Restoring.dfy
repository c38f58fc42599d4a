/** Restore from the archive to the destination: what is extracted, as a tree, and what becomes of it. */
module Restoring {
  import opened Paths
  import opened Trees
  import opened FileSystem
  import opened Archives
  import opened Extraction
  import opened Containment
  import opened Exactness
  import opened Selection
  import opened Matcher
  import opened Choosing
  import opened Merging
  import opened Replacing

  /** A tree node by itself. */
  function Shallow(t: Tree): FileSystem.Node {
    match t
    case File(mode, data) => FileNode(mode, data)
    case Link(target) => LinkNode(target)
    case Dir(mode, _) => DirNode(mode)
  }

  /** The tree is what stands below `at`. */
  ghost predicate StandsBelow(x: Tree, fs: Fs, at: Path) {
    x.Dir? && forall p: Path :: p != [] ==>
      && (At(x, p).Node? <==> at + p in fs)
      && (At(x, p).Node? && at + p in fs ==> Shallow(At(x, p).node) == fs[at + p])
  }

  function NodesBelow(fs: Fs, at: Path): set<Path> {
    set q | q in fs && Under(at, q)
  }

  function NamesIn(fs: Fs, at: Path): set<string> {
    set q | q in fs && Under(at, q) && |q| == |at| + 1 :: q[|at|]
  }

  lemma NameIn(fs: Fs, at: Path, n: string)
    ensures n in NamesIn(fs, at) <==> at + [n] in fs
  {
    if at + [n] in fs {
      assert (at + [n])[..|at|] == at && (at + [n])[|at|] == n;
    }
    if n in NamesIn(fs, at) {
      var q :| q in fs && Under(at, q) && |q| == |at| + 1 && q[|at|] == n;
      assert q == at + [n];
    }
  }

  lemma FewerBelow(fs: Fs, at: Path, n: string)
    requires at + [n] in fs
    ensures NodesBelow(fs, at + [n]) < NodesBelow(fs, at)
  {
    var child := at + [n];
    assert child[..|at|] == at;
    assert child in NodesBelow(fs, at) && child !in NodesBelow(fs, child);
    forall q | q in NodesBelow(fs, child) ensures q in NodesBelow(fs, at) {
      assert q[..|at|] == q[..|child|][..|at|] == at;
    }
  }

  /** The tree of a file system's nodes from `at` down. */
  function TreeAt(fs: Fs, at: Path, node: FileSystem.Node): Tree
    decreases NodesBelow(fs, at)
  {
    match node
    case FileNode(mode, data) => File(mode, data)
    case LinkNode(target) => Link(target)
    case DirNode(mode) =>
      Dir(mode, map n | n in NamesIn(fs, at) ::
          (NameIn(fs, at, n); FewerBelow(fs, at, n); TreeAt(fs, at + [n], fs[at + [n]])))
  }

  lemma {:induction false} TreeAtFinds(fs: Fs, at: Path, node: FileSystem.Node, p: Path)
    requires Rooted(fs) && p != [] && (node.DirNode? || NodesBelow(fs, at) == {})
    ensures At(TreeAt(fs, at, node), p) == if at + p in fs then Trees.Node(TreeAt(fs, at + p, fs[at + p])) else Nothing
    decreases |p|
  {
    var n, rest := p[0], p[1..];
    var child := at + [n];
    assert p[..1] == [n] && child + rest == at + p;
    NameIn(fs, at, n);
    assert (at + p)[..|child|] == child;
    if child !in fs || !node.DirNode? {
      ChildFirst(fs, at, p);
    } else if rest != [] {
      NothingBelowLeaf(fs, child);
      TreeAtFinds(fs, child, fs[child], rest);
    } else {
      assert p == [n];
    }
  }

  /** What is below `at` has its first step below `at` too. */
  lemma ChildFirst(fs: Fs, at: Path, p: Path)
    requires Rooted(fs) && p != []
    ensures at + p in fs ==> at + [p[0]] in fs && NodesBelow(fs, at) != {}
  {
    if at + p in fs {
      assert (at + p)[..|at|] == at;
      assert at + p in NodesBelow(fs, at);
      assert (at + p)[..|at| + 1] == at + [p[0]];
      if |p| > 1 {
        RootedUp(fs, at + p, |at| + 1);
      } else {
        assert p == [p[0]];
      }
    }
  }

  lemma NothingBelowLeaf(fs: Fs, q: Path)
    requires Rooted(fs) && q in fs
    ensures fs[q].DirNode? || NodesBelow(fs, q) == {}
  {
    if r :| r in NodesBelow(fs, q) {
      RootedUp(fs, r, |q|);
    }
  }

  /** Every file system has such a tree below each of its directories. */
  lemma TreeStands(fs: Fs, at: Path)
    requires Rooted(fs)
    ensures StandsBelow(TreeAt(fs, at, PRIVATE_DIR), fs, at)
  {
    forall p: Path | p != []
      ensures At(TreeAt(fs, at, PRIVATE_DIR), p) == if at + p in fs then Trees.Node(TreeAt(fs, at + p, fs[at + p]))
              else Nothing
    {
      TreeAtFinds(fs, at, PRIVATE_DIR, p);
    }
  }

  /** The tree holds exactly the selected entries, and private directories on the way to them. */
  ghost predicate ExactlySelected(x: Tree, es: seq<TarEntry>, select: Selector) {
    x.Dir? && forall p: Path :: p != [] ==>
      && (At(x, p).Node? <==> Implied(Made(es, select), p))
      && (At(x, p).Node? ==> Shallow(At(x, p).node) == NodeAt(Made(es, select), p))
  }

  /** What a finished extraction left below its root is the tree of the selected entries. */
  lemma ExtractedTree(fs: Fs, root: Path, at: Path, base: Fs, fs': Fs, es: seq<TarEntry>, select: Selector)
    requires Rooted(fs') && Exact(base, at, Made(es, select), fs')
    ensures ExactlySelected(TreeAt(fs', at, PRIVATE_DIR), es, select)
  {
    hide TreeAt, Exact, Implied, Made;
    TreeStands(fs', at);
    forall p: Path | p != []
      ensures at + p in fs' <==> Implied(Made(es, select), p)
      ensures at + p in fs' ==> fs'[at + p] == NodeAt(Made(es, select), p)
    {
      InMade(base, at, Made(es, select), fs', p);
    }
  }

  function SelectorOf(m: SegmentMatch, f: RestoreFilter): Selector {
    (e: Entry) => RestoreChoice(m, f, Join(e.path))
  }

  /** After a finished extraction, its root still leads to the directory that holds the selected entries. */
  lemma ExtractionLeads(limits: Limits, fs: Fs, root: Path, a: Archive, select: Selector)
    requires Rooted(fs) && AllNormal(root) && ExtractResult(limits, fs, root, a, select).summary.Some?
    ensures var fs' := ExtractResult(limits, fs, root, a, select).fs;
            exists at :: Ready(fs', root, at) && ExactlySelected(TreeAt(fs', at, PRIVATE_DIR), a.entries, select)
  {
    hide PrepareDestination, Ready, Untouched, PreparedFrom, Rooted, ExtractRun, Exact, Made, TreeAt, ExactlySelected,
         FromEntries;
    var l, base := WithDefaults(limits).value, PrepareDestination(fs, root).fs;
    Preparation(fs, root);
    var at :| Ready(base, root, at) && Untouched(base, at) && PreparedFrom(fs, base, at);
    RunExact(l, root, select, base, at, a.entries);
    var s := ExtractRun(l, root, select, base, a.entries);
    assert Exact(base, at, Made(a.entries, select), s.fs) && Ready(s.fs, root, at);
    ReadyRooted(s.fs, root, at);
    ExtractedTree(fs, root, at, base, s.fs, a.entries, select);
  }

  lemma ReadyRooted(fs: Fs, root: Path, at: Path)
    requires Ready(fs, root, at)
    ensures Rooted(fs) && Walk(fs, [], root, MAX_LINKS) == Reached(at)
  {
  }

  /** Asked for, by path or pattern or because nothing in particular is, and not excluded. */
  lemma SelectorMeans(m: SegmentMatch, f: RestoreFilter, e: Entry)
    requires SelectorOf(m, f)(e) != Fault
    ensures SelectorOf(m, f)(e) == Yes <==>
            && (forall p :: p in f.excludes ==> MatchName(m, p, Join(e.path)) != Value(true))
            && (|| (f.includes == [] && f.paths == [])
                || (exists p :: p in f.paths && PathSelects(p, Join(e.path)))
                || exists p :: p in f.includes && MatchName(m, p, Join(e.path)) == Value(true))
  {
    hide MatchName, PathSelects, Join;
    RestoreMeans(m, f, Join(e.path));
  }

  /** Extract the selected entries next to the destination, and read back what stands there. */
  method ExtractSelected(vol: Volume, limits: Limits, root: Path, a: Archive, m: SegmentMatch, f: RestoreFilter)
    returns (ok: bool, x: Tree)
    requires Rooted(vol.nodes) && AllNormal(root)
    modifies vol
    ensures x.Dir?
    ensures ok <==> ExtractResult(limits, old(vol.nodes), root, a, SelectorOf(m, f)).summary.Some?
    ensures ok ==>
              ExactlySelected(x, a.entries, SelectorOf(m, f))
                && exists at :: Ready(vol.nodes, root, at) && StandsBelow(x, vol.nodes, at)
  {
    hide ExtractResult, ExactlySelected, Walk, TreeAt, StandsBelow, Rooted;
    ghost var fs := vol.nodes;
    var summary := ExtractTarSelected(vol, limits, root, a, SelectorOf(m, f));
    ok, x := summary.Some?, Dir(448, map[]);
    if ok {
      ExtractionLeads(limits, fs, root, a, SelectorOf(m, f));
      ghost var at :|
          Ready(vol.nodes, root, at) && ExactlySelected(TreeAt(vol.nodes, at, PRIVATE_DIR), a.entries,
                                                        SelectorOf(m, f));
      ReadyRooted(vol.nodes, root, at);
      var here := Walk(vol.nodes, [], root, MAX_LINKS);
      x := TreeAt(vol.nodes, here.path, PRIVATE_DIR);
      TreeStands(vol.nodes, at);
      TreeIsDir(vol.nodes, at);
    }
  }

  lemma TreeIsDir(fs: Fs, at: Path)
    ensures TreeAt(fs, at, PRIVATE_DIR).Dir?
  {
  }

  /**
    Restore. Into an existing destination a success leaves the policy merge of the old tree and exactly
    the selected entries, and at every state on the way the old tree is whole at the destination or at the
    backup path or that merge is in place; a new destination receives exactly the selected entries.
   */
  method Restore(vol: Volume, limits: Limits, root: Path, a: Archive, m: SegmentMatch, f: RestoreFilter,
                 p: Parent, policy: Policy, dest: string, incoming: string, stage: string, backup: string,
                   debris: seq<Tree>, linked: bool)
    returns (ok: bool, ghost merged: Tree, ghost x: Tree)
    requires Rooted(vol.nodes) && AllNormal(root)
    requires dest != incoming && dest != stage && dest != backup && incoming != stage && incoming != backup
             && stage != backup
    requires incoming !in p.entries && stage !in p.entries && backup !in p.entries
    modifies vol, p, p.disk
    ensures old(p.history) <= p.history && SameBut(p.entries, old(p.entries), {dest, incoming, stage, backup})
    ensures ExtractResult(limits, old(vol.nodes), root, a, SelectorOf(m, f)).summary.Some? ==>
              ExactlySelected(x, a.entries, SelectorOf(m, f))
    ensures ok ==> ExtractResult(limits, old(vol.nodes), root, a, SelectorOf(m, f)).summary.Some?
    ensures old(dest in p.entries) ==>
              && AllSafe(p.history, |old(p.history)|, dest, backup, old(p.entries[dest]), merged)
              && Safe(p.entries, dest, backup, old(p.entries[dest]), merged)
              && (merged == old(p.entries[dest])
                  || (old(p.entries[dest].Dir?) && x.Dir? && ExactlySelected(x, a.entries, SelectorOf(m, f))
                      && MergedAs(policy, old(p.entries[dest]), x, merged)))
    ensures ok && old(dest in p.entries) ==>
              && old(p.entries[dest].Dir?) && x.Dir? && MergedAs(policy, old(p.entries[dest]), x, merged)
              && dest in p.entries && p.entries[dest] == merged
    ensures !old(dest in p.entries) ==>
              forall i :: |old(p.history)| <= i < |p.history| && dest in p.history[i] ==>
                p.history[i][dest] == x && ExactlySelected(x, a.entries, SelectorOf(m, f))
    ensures ok && !old(dest in p.entries) ==> dest in p.entries && p.entries[dest] == x
    ensures !ok && !old(dest in p.entries) ==> dest !in p.entries
    ensures && old(p.disk.Reliable()) && ExtractResult(limits, old(vol.nodes), root, a, SelectorOf(m, f)).summary.Some?
            && (old(dest in p.entries) ==>
                  && old(p.entries[dest].Dir? && !HasLink(p.entries[dest])) && !linked
                  && Mergeable(policy, old(p.entries[dest]), x)) ==>
              ok
  {
    hide ExtractResult, ExactlySelected, StandsBelow, Ready, MergedAs, HasLink, AllSafe, Safe, Rooted, Mergeable;
    var extracted, tree := ExtractSelected(vol, limits, root, a, m, f);
    x, merged := tree, tree;
    if dest in p.entries {
      ok, merged := RestoreInto(p, policy, dest, incoming, stage, backup, tree, extracted, debris, linked);
    } else {
      ok := RestoreFresh(p, dest, incoming, tree, extracted, debris);
    }
  }
}
