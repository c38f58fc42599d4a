/** Directory trees, their leaves, and what it means for one to keep another. */
module Trees {
  import opened Bytes
  import opened Paths

  /** A regular file, a symlink by its target, or a directory; modes are permission bits. */
  datatype Tree = File(mode: nat, data: Bytes) | Link(target: string) | Dir(mode: nat, entries: map<string, Tree>)

  type Listing = map<string, Tree>

  /** The files and links of a tree, with their multiplicity. */
  ghost function Leaves(t: Tree): multiset<Tree>
    decreases t, 1
  {
    if t.Dir? then LeavesAt(t, t.entries.Keys) else multiset{t}
  }

  ghost function LeavesAt(t: Tree, names: set<string>): multiset<Tree>
    requires t.Dir? && names <= t.entries.Keys
    decreases t, 0, |names|
  {
    if names == {} then multiset{}
    else
      var k :| k in names;
      Leaves(t.entries[k]) + LeavesAt(t, names - {k})
  }

  ghost function LeavesIn(l: Listing): multiset<Tree> {
    Leaves(Dir(0, l))
  }

  lemma {:induction false} LeavesPick(t: Tree, names: set<string>, k: string)
    requires t.Dir? && names <= t.entries.Keys && k in names
    ensures LeavesAt(t, names) == Leaves(t.entries[k]) + LeavesAt(t, names - {k})
    decreases |names|
  {
    var c :| c in names && LeavesAt(t, names) == Leaves(t.entries[c]) + LeavesAt(t, names - {c});
    if c != k {
      LeavesPick(t, names - {c}, k);
      LeavesPick(t, names - {k}, c);
      assert names - {c} - {k} == names - {k} - {c};
    }
  }

  lemma {:induction false} LeavesAgree(t: Tree, u: Tree, names: set<string>)
    requires t.Dir? && u.Dir? && names <= t.entries.Keys && names <= u.entries.Keys
    requires forall n :: n in names ==> t.entries[n] == u.entries[n]
    ensures LeavesAt(t, names) == LeavesAt(u, names)
    decreases |names|
  {
    if names != {} {
      var k :| k in names;
      LeavesPick(t, names, k);
      LeavesPick(u, names, k);
      LeavesAgree(t, u, names - {k});
    }
  }

  lemma LeavesOfDir(mode: nat, l: Listing)
    ensures Leaves(Dir(mode, l)) == LeavesIn(l)
  {
    LeavesAgree(Dir(mode, l), Dir(0, l), l.Keys);
  }

  /** Setting one entry replaces its leaves and no others. */
  lemma LeavesPut(l: Listing, k: string, v: Tree)
    ensures LeavesIn(l[k := v]) == Leaves(v) + LeavesIn(l - {k})
  {
    var t, u := Dir(0, l[k := v]), Dir(0, l - {k});
    LeavesPick(t, t.entries.Keys, k);
    assert t.entries.Keys - {k} == u.entries.Keys;
    LeavesAgree(t, u, u.entries.Keys);
  }

  lemma LeavesTake(l: Listing, k: string)
    requires k in l
    ensures LeavesIn(l) == Leaves(l[k]) + LeavesIn(l - {k})
  {
    LeavesPut(l, k, l[k]);
    assert l[k := l[k]] == l;
  }

  /** Every file and link of `a` is in `b` at the same path with the same content; directories stay directories. */
  ghost predicate Keeps(a: Tree, b: Tree)
    decreases a
  {
    if a.Dir? then b.Dir? && b.mode == a.mode && forall n :: n in a.entries ==>
        n in b.entries && Keeps(a.entries[n], b.entries[n])
    else a == b
  }

  lemma {:induction false} KeepsSelf(a: Tree)
    ensures Keeps(a, a)
    decreases a
  {
    if a.Dir? {
      forall n | n in a.entries ensures Keeps(a.entries[n], a.entries[n]) {
        KeepsSelf(a.entries[n]);
      }
    }
  }

  lemma {:induction false} KeepsTrans(a: Tree, b: Tree, c: Tree)
    requires Keeps(a, b) && Keeps(b, c)
    ensures Keeps(a, c)
    decreases a
  {
    if a.Dir? {
      forall n | n in a.entries ensures n in c.entries && Keeps(a.entries[n], c.entries[n]) {
        KeepsTrans(a.entries[n], b.entries[n], c.entries[n]);
      }
    }
  }

  datatype Found = Nothing | Node(node: Tree)

  /** The node at a path, without following links. */
  function At(t: Tree, path: Path): Found
    decreases |path|
  {
    if path == [] then Node(t)
    else if t.Dir? && path[0] in t.entries then At(t.entries[path[0]], path[1..])
    else Nothing
  }

  /** Keeping is what it says: each file and link is found where it was. */
  lemma {:induction false} KeepsPaths(a: Tree, b: Tree, path: Path)
    requires Keeps(a, b) && At(a, path).Node? && !At(a, path).node.Dir?
    ensures At(b, path) == At(a, path)
    decreases |path|
  {
    if path != [] {
      KeepsPaths(a.entries[path[0]], b.entries[path[0]], path[1..]);
    }
  }

  lemma {:induction false} LeavesAtMeans(t: Tree, names: set<string>, x: Tree)
    requires t.Dir? && names <= t.entries.Keys
    ensures x in LeavesAt(t, names) <==> exists n :: n in names && x in Leaves(t.entries[n])
    decreases |names|
  {
    hide Leaves;
    if names != {} {
      var k :| k in names && LeavesAt(t, names) == Leaves(t.entries[k]) + LeavesAt(t, names - {k});
      LeavesAtMeans(t, names - {k}, x);
    }
  }

  /** A leaf is found at some path... */
  lemma {:induction false} LeafFound(t: Tree, x: Tree) returns (p: Path)
    requires x in Leaves(t)
    ensures !x.Dir? && At(t, p) == Node(x)
    decreases t
  {
    p := [];
    if t.Dir? {
      hide Leaves;
      assert x in LeavesAt(t, t.entries.Keys) by { LeavesOfEntries(t); }
      LeavesAtMeans(t, t.entries.Keys, x);
      var n :| n in t.entries && x in Leaves(t.entries[n]);
      var rest := LeafFound(t.entries[n], x);
      p := [n] + rest;
      assert p[1..] == rest;
    }
  }

  lemma LeavesOfEntries(t: Tree)
    requires t.Dir?
    ensures Leaves(t) == LeavesAt(t, t.entries.Keys)
  {
    hide LeavesAt;
  }

  /** ... and every file and link found is a leaf. */
  lemma {:induction false} FoundIsLeaf(t: Tree, p: Path)
    requires At(t, p).Node? && !At(t, p).node.Dir?
    ensures At(t, p).node in Leaves(t)
    decreases |p|
  {
    if p != [] {
      hide Leaves;
      FoundIsLeaf(t.entries[p[0]], p[1..]);
      LeavesAtMeans(t, t.entries.Keys, At(t, p).node);
      LeavesOfEntries(t);
    }
  }

  /** The leaves are the files and links found at some path. */
  lemma LeavesMeans(t: Tree, x: Tree)
    ensures x in Leaves(t) <==> !x.Dir? && exists p: Path :: At(t, p) == Node(x)
  {
    hide Leaves;
    if x in Leaves(t) {
      var p := LeafFound(t, x);
    }
    if p: Path :| !x.Dir? && At(t, p) == Node(x) {
      FoundIsLeaf(t, p);
    }
  }
}
