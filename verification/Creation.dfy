/** Creating an archive: the walk, what it decides, and what it writes. */
module Creation {
  import opened Paths
  import opened Links
  import opened Trees
  import opened Archives
  import Merging

  /** The select closure's answer; Stop stands for its error. */
  datatype Decision = Include | Exclude | Prune | Stop

  type Chooser = (Path, Tree) -> Decision

  datatype Visit = Visit(path: Path, node: Tree)

  datatype Preview = Preview(includedEntries: nat, excludedEntries: nat, includedBytes: nat, excludedBytes: nat)

  function Size(t: Tree): nat {
    if t.File? then |t.data| else 0
  }

  /** The visit closure. */
  function Count(choose: Chooser, p: Preview, v: Visit): Preview {
    if choose(v.path, v.node) == Include then
      p.(includedEntries := p.includedEntries + 1, includedBytes := p.includedBytes + Size(v.node))
    else
      p.(excludedEntries := p.excludedEntries + 1, excludedBytes := p.excludedBytes + Size(v.node))
  }

  function Counted(choose: Chooser, visits: seq<Visit>): Preview {
    if visits == [] then Preview(0, 0, 0, 0)
      else Count(choose, Counted(choose, visits[..|visits| - 1]), visits[|visits| - 1])
  }

  const LINK_MODE: nat := 511

  /** writeDirEntry, writeSymlinkEntry, writeRegularEntry: the entry for a node. */
  function EntryFor(v: Visit): TarEntry {
    match v.node
    case File(mode, data) => TarEntry(Join(v.path), FileKind, |data|, mode, "", data)
    case Link(target) => TarEntry(Join(v.path), LinkKind, 0, LINK_MODE, target, [])
    case Dir(mode, _) => TarEntry(Join(v.path) + "/", DirKind, 0, mode, "", [])
  }

  function Written(choose: Chooser, visits: seq<Visit>): seq<TarEntry> {
    if visits == [] then []
    else
      var v, front := visits[|visits| - 1], Written(choose, visits[..|visits| - 1]);
      if choose(v.path, v.node) == Include then front + [EntryFor(v)] else front
  }

  /** The callback fails here: the selection errs, or a link to be written is not portable. */
  predicate Fails(choose: Chooser, v: Visit) {
    || choose(v.path, v.node) == Stop
    || (choose(v.path, v.node) == Include && v.node.Link? && (v.path == [] || !PortableLink(v.path, v.node.target)))
  }

  lemma OneVisit(choose: Chooser, visits: seq<Visit>, v: Visit)
    ensures Counted(choose, visits + [v]) == Count(choose, Counted(choose, visits), v)
    ensures Written(choose, visits + [v]) == Written(choose, visits) + if choose(v.path, v.node) == Include then
              [EntryFor(v)] else []
  {
    hide Count, EntryFor;
    var all := visits + [v];
    assert all[..|all| - 1] == visits && all[|visits|] == v;
  }

  // What is visited

  /** From the node `t` at `path`, `rest` leads to `node`, and nothing on the way is pruned. */
  predicate Reached(choose: Chooser, path: Path, t: Tree, rest: Path, node: Tree)
    decreases |rest|
  {
    if rest == [] then node == t
    else
      && t.Dir? && choose(path, t) != Prune && rest[0] in t.entries
      && Reached(choose, path + [rest[0]], t.entries[rest[0]], rest[1..], node)
  }

  predicate Visits(choose: Chooser, path: Path, t: Tree, v: Visit) {
    |path| <= |v.path| && path == v.path[..|path|] && Reached(choose, path, t, v.path[|path|..], v.node)
  }

  lemma VisitsStep(choose: Chooser, path: Path, t: Tree, v: Visit)
    ensures Visits(choose, path, t, v) <==>
            || v == Visit(path, t)
            || (t.Dir? && choose(path, t) != Prune
                && exists n :: n in t.entries && Visits(choose, path + [n], t.entries[n], v))
  {
    if Visits(choose, path, t, v) && v.path != path {
      var n := v.path[|path|];
      VisitsChild(choose, path, t, n, v);
    }
    if t.Dir? && choose(path, t) != Prune {
      forall n | n in t.entries && Visits(choose, path + [n], t.entries[n], v) ensures Visits(choose, path, t, v) {
        VisitsChild(choose, path, t, n, v);
      }
    }
  }

  lemma VisitsChild(choose: Chooser, path: Path, t: Tree, n: string, v: Visit)
    requires t.Dir? && n in t.entries && choose(path, t) != Prune
    requires |path| < |v.path| && v.path[|path|] == n
    ensures Visits(choose, path + [n], t.entries[n], v) <==> Visits(choose, path, t, v)
  {
    var k := |path| + 1;
    assert v.path[..k] == v.path[..|path|] + [n];
    assert v.path[|path|..][1..] == v.path[k..];
    assert path + [n] == v.path[..k] <==> path == v.path[..|path|] by {
      assert v.path[..k][..|path|] == v.path[..|path|] && (path + [n])[..|path|] == path;
    }
  }

  /** Parents before children, and nothing twice. */
  ghost predicate Ordered(w: seq<Visit>) {
    forall i, j :: 0 <= i < j < |w| ==> !(w[j].path <= w[i].path)
  }

  /** The visits below `path`: all of them, in order, and none that fails. */
  ghost predicate Complete(choose: Chooser, path: Path, t: Tree, w: seq<Visit>) {
    && Ordered(w)
    && forall v :: v in w <==> Visits(choose, path, t, v)
  }

  ghost predicate SomeFailure(choose: Chooser, path: Path, t: Tree) {
    exists v :: Visits(choose, path, t, v) && Fails(choose, v)
  }

  class Archiver {
    var entries: seq<TarEntry>
    var preview: Preview
    ghost var visits: seq<Visit>

    constructor ()
      ensures entries == [] && preview == Preview(0, 0, 0, 0) && visits == []
    {
      entries, preview, visits := [], Preview(0, 0, 0, 0), [];
    }

    ghost predicate Valid(choose: Chooser)
      reads this
    {
      entries == Written(choose, visits) && preview == Counted(choose, visits)
    }

    /** The callback of the walk. */
    method Enter(choose: Chooser, path: Path, t: Tree) returns (ok: bool, descend: bool)
      requires Valid(choose)
      modifies this
      ensures ok <==> !Fails(choose, Visit(path, t))
      ensures ok ==> Valid(choose) && visits == old(visits) + [Visit(path, t)]
      ensures ok ==> (descend <==> t.Dir? && choose(path, t) != Prune)
    {
      hide PortableLink, Written, Counted, EntryFor, Size;
      OneVisit(choose, visits, Visit(path, t));
      var decision := choose(path, t);
      if decision == Stop { return false, false; }
      var v := Visit(path, t);
      if decision == Include {
        preview := preview.(includedEntries := preview.includedEntries + 1,
                            includedBytes := preview.includedBytes + Size(t));
      } else {
        preview := preview.(excludedEntries := preview.excludedEntries + 1,
                            excludedBytes := preview.excludedBytes + Size(t));
      }
      visits := visits + [v];
      if decision == Prune && t.Dir? { return true, false; }
      if decision == Include {
        if t.Link? && (path == [] || !PortableLink(path, t.target)) { return false, false; }
        entries := entries + [EntryFor(v)];
      }
      return true, t.Dir?;
    }

    /** filepath.WalkDir from one node: the callback, then the entries of a directory. */
    method WalkNode(choose: Chooser, path: Path, t: Tree) returns (ok: bool, ghost w: seq<Visit>)
      requires Valid(choose)
      modifies this
      ensures ok <==> !SomeFailure(choose, path, t)
      ensures ok ==> Valid(choose) && visits == old(visits) + w && Complete(choose, path, t, w)
      decreases t, 1
    {
      hide Complete, Fails, Written, Counted;
      var descend;
      ok, descend := Enter(choose, path, t);
      w := [Visit(path, t)];
      if !ok {
        FailsHere(choose, path, t);
      } else if !descend {
        JustHere(choose, path, t);
      } else {
        ghost var below;
        ok, below := WalkEntries(choose, path, t);
        w := w + below;
        Descended(choose, path, t, below, ok);
      }
    }

    method WalkEntries(choose: Chooser, path: Path, t: Tree) returns (ok: bool, ghost w: seq<Visit>)
      requires Valid(choose) && t.Dir?
      modifies this
      ensures ok <==> !FailureIn(choose, path, t, t.entries.Keys)
      ensures ok ==> Valid(choose) && visits == old(visits) + w && CompleteIn(choose, path, t, t.entries.Keys, w)
      decreases t, 0
    {
      hide Complete, CompleteIn, Fails, Written, Counted;
      var names := Merging.ReadDir(t.entries);
      w := [];
      ghost var done: set<string> := {};
      NoneYet(choose, path, t);
      for i := 0 to |names|
        invariant Valid(choose) && visits == old(visits) + w
        invariant forall n :: n in done <==> n in names[..i]
        invariant done <= t.entries.Keys
        invariant CompleteIn(choose, path, t, done, w) && !FailureIn(choose, path, t, done)
      {
        var n := names[i];
        assert n in names && n in t.entries;
        assert n !in names[..i];
        ghost var more;
        ok, more := WalkNode(choose, path + [n], t.entries[n]);
        if !ok {
          assert FailureIn(choose, path, t, t.entries.Keys);
          return;
        }
        OneMore(choose, path, t, done, n, w, more);
        w, done := w + more, done + {n};
        assert names[..i + 1] == names[..i] + [n];
      }
      assert names[..|names|] == names;
      assert done == t.entries.Keys;
      ok := true;
    }
  }

  /** Complete for the entries with these names. */
  ghost predicate CompleteIn(choose: Chooser, path: Path, t: Tree, names: set<string>, w: seq<Visit>)
    requires t.Dir? && names <= t.entries.Keys
  {
    && Ordered(w)
    && forall v :: v in w <==> exists n :: n in names && Visits(choose, path + [n], t.entries[n], v)
  }

  ghost predicate FailureIn(choose: Chooser, path: Path, t: Tree, names: set<string>)
    requires t.Dir? && names <= t.entries.Keys
  {
    exists n :: n in names && SomeFailure(choose, path + [n], t.entries[n])
  }

  lemma NoneYet(choose: Chooser, path: Path, t: Tree)
    requires t.Dir?
    ensures CompleteIn(choose, path, t, {}, []) && !FailureIn(choose, path, t, {})
  {
  }

  lemma FailsHere(choose: Chooser, path: Path, t: Tree)
    requires Fails(choose, Visit(path, t))
    ensures SomeFailure(choose, path, t)
  {
    VisitsStep(choose, path, t, Visit(path, t));
  }

  lemma JustHere(choose: Chooser, path: Path, t: Tree)
    requires !Fails(choose, Visit(path, t)) && !(t.Dir? && choose(path, t) != Prune)
    ensures Complete(choose, path, t, [Visit(path, t)]) && !SomeFailure(choose, path, t)
  {
    hide Fails, Visits;
    forall v ensures Visits(choose, path, t, v) <==> v == Visit(path, t) {
      VisitsStep(choose, path, t, v);
    }
  }

  lemma Descended(choose: Chooser, path: Path, t: Tree, below: seq<Visit>, ok: bool)
    requires !Fails(choose, Visit(path, t)) && t.Dir? && choose(path, t) != Prune
    requires ok <==> !FailureIn(choose, path, t, t.entries.Keys)
    requires ok ==> CompleteIn(choose, path, t, t.entries.Keys, below)
    ensures ok <==> !SomeFailure(choose, path, t)
    ensures ok ==> Complete(choose, path, t, [Visit(path, t)] + below)
  {
    hide Fails, Visits;
    forall v
      ensures Visits(choose, path, t, v) <==>
                v == Visit(path, t) || exists n :: n in t.entries && Visits(choose, path + [n], t.entries[n], v) {
      VisitsStep(choose, path, t, v);
    }
    if !ok {
      var n :| n in t.entries.Keys && SomeFailure(choose, path + [n], t.entries[n]);
      var v :| Visits(choose, path + [n], t.entries[n], v) && Fails(choose, v);
      assert Visits(choose, path, t, v);
    } else {
      var w := [Visit(path, t)] + below;
      forall i, j | 0 <= i < j < |w| ensures !(w[j].path <= w[i].path) {
        assert w[j] == below[j - 1] && below[j - 1] in below;
        var n :| n in t.entries && Visits(choose, path + [n], t.entries[n], w[j]);
        VisitsLonger(choose, path + [n], t.entries[n], w[j]);
        if i > 0 {
          assert w[i] == below[i - 1];
        }
      }
      assert forall v :: v in w <==> v == Visit(path, t) || v in below;
    }
  }

  lemma VisitsLonger(choose: Chooser, path: Path, t: Tree, v: Visit)
    requires Visits(choose, path, t, v)
    ensures |path| <= |v.path| && path == v.path[..|path|]
  {
  }

  lemma OneMore(choose: Chooser, path: Path, t: Tree, done: set<string>, n: string, w: seq<Visit>, more: seq<Visit>)
    requires t.Dir? && done <= t.entries.Keys && n in t.entries && n !in done
    requires CompleteIn(choose, path, t, done, w) && !FailureIn(choose, path, t, done)
    requires Complete(choose, path + [n], t.entries[n], more) && !SomeFailure(choose, path + [n], t.entries[n])
    ensures CompleteIn(choose, path, t, done + {n}, w + more) && !FailureIn(choose, path, t, done + {n})
  {
    hide Visits, SomeFailure;
    var all := w + more;
    forall i, j | 0 <= i < j < |all| ensures !(all[j].path <= all[i].path) {
      if j < |w| {
        assert all[i] == w[i] && all[j] == w[j];
      } else if i < |w| {
        assert all[i] in w && all[j] in more;
        var m :| m in done && Visits(choose, path + [m], t.entries[m], all[i]);
        VisitsLonger(choose, path + [m], t.entries[m], all[i]);
        VisitsLonger(choose, path + [n], t.entries[n], all[j]);
        assert all[i].path[|path|] == m && all[j].path[|path|] == n;
      } else {
        assert all[i] == more[i - |w|] && all[j] == more[j - |w|];
      }
    }
    assert forall v :: v in all <==> v in w || v in more;
  }

  /** What is archived of a root: its contents, or the root itself under its base name. */
  function Listed(root: Tree, base: string): Tree {
    if root.Dir? then root else Dir(0, map[base := root])
  }

  /** CreateTarWithOptions */
  method CreateTar(choose: Chooser, root: Tree, base: string) returns (ok: bool, a: Archiver, ghost w: seq<Visit>)
    ensures fresh(a)
    ensures var t := Listed(root, base);
            && (ok <==> !FailureIn(choose, [], t, t.entries.Keys))
            && (ok ==>
                CompleteIn(choose, [], t, t.entries.Keys, w) && a.entries == Written(choose, w)
                  && a.preview == Counted(choose, w))
  {
    a := new Archiver();
    assert a.Valid(choose);
    hide Complete, CompleteIn, Written, Counted, SomeFailure;
    if root.Dir? {
      ok, w := a.WalkEntries(choose, [], root);
    } else {
      ok, w := a.WalkNode(choose, [base], root);
      var t := Listed(root, base);
      assert [] + [base] == [base] && t.entries.Keys == {base} && t.entries[base] == root;
      if ok {
        NoneYet(choose, [], t);
        OneMore(choose, [], t, {}, base, [], w);
        assert [] + w == w && {} + {base} == {base};
      }
    }
    assert ok ==> [] + w == w;
  }
}
