/** Selective extraction into a file system whose calls follow links. */
module Extraction {
  import opened Wrappers
  import opened Bytes
  import opened Paths
  import opened Links
  import opened FileSystem
  import opened Archives

  datatype Choice = Yes | No | Fault

  type Selector = Entry -> Choice

  function EverySelector(): Selector {
    (e: Entry) => Yes
  }

  predicate NoChildren(fs: Fs, d: Path) {
    forall q :: q in fs ==> !(|q| == |d| + 1 && q[..|d|] == d)
  }

  /** prepareDestination: a new directory, or an empty real one. */
  function PrepareDestination(fs: Fs, root: Path): Effect {
    match Lstat(fs, root)
    case Absent => MkdirAll(fs, root)
    case StatError => Effect(fs, false)
    case Present(node) =>
      if !node.DirNode? then Effect(fs, false)
      else
        match Walk(fs, [], root, MAX_LINKS)
        case Reached(at) =>
          if !NoChildren(fs, at) then Effect(fs, false)
          else Effect(if at == [] then fs else fs[at := PRIVATE_DIR], true)
        case _ => Effect(fs, false)
  }

  /** secureJoin: no component that exists is a link. */
  predicate SafeJoin(fs: Fs, root: Path, path: Path) {
    forall k :: 0 < k <= |path| ==> NotThroughLink(Lstat(fs, root + path[..k]))
  }

  predicate NotThroughLink(s: Stat) {
    match s
    case Present(node) => !node.LinkNode?
    case Absent => true
    case StatError => false
  }

  function Content(e: TarEntry): Bytes {
    if Whole(e) then e.payload[..e.size] else e.payload
  }

  /** The node an entry stands for; directories are made private. */
  function NodeOf(e: TarEntry): Node {
    match e.kind
    case FileKind => FileNode(e.mode % 512, Content(e))
    case LinkKind => LinkNode(e.link)
    case _ => PRIVATE_DIR
  }

  /** What extractRegularFile copies without an error: a whole payload, no longer than it was told. */
  predicate Copies(e: TarEntry, maxBytes: int) {
    Whole(e) && e.size <= maxBytes
  }

  /** extractDir, extractSymlink, extractRegularFile: make the node for an entry. */
  function Materialise(fs: Fs, root: Path, e: TarEntry, path: Path, maxBytes: int): Effect
    requires path != []
  {
    if e.kind.DirKind? then MkdirAll(fs, root + path)
    else if e.kind.LinkKind? && !LinkBelow(root, path, e.link) then Effect(fs, false)
    else
      var up := MkdirAll(fs, root + Parent(path));
      if !up.ok then up
      else
        var made := CreateNode(up.fs, root + path, NodeOf(e));
        if made.ok && e.kind.FileKind? && !Copies(e, maxBytes) then Effect(RemoveNode(made.fs, root + path), false)
        else made
  }

  /** The loop's state; `made` records what each selected entry stands for. */
  datatype Extracting = Extracting(fs: Fs, tally: Tally, seen: map<Path, Kind>, made: map<Path, Node>, selected: nat,
                                   ok: bool)

  function ExtractStep(l: Limits, root: Path, select: Selector, s: Extracting, e: TarEntry): Extracting {
    if !s.ok then s
    else
      match Admit(l, s.tally, s.seen, e)
      case Rejected => s.(ok := false)
      case Admitted(entry, tally) =>
        var t := s.(tally := tally, seen := s.seen[entry.path := entry.kind]);
        var choice := select(entry);
        if choice == Fault || !SafeJoin(s.fs, root, entry.path) then t.(ok := false)
        else if choice == No then t.(ok := e.kind.FileKind? ==> Whole(e))
        else
          var m := Materialise(s.fs, root, e, entry.path, e.size);
          t.(fs := m.fs, ok := m.ok, selected := s.selected + 1, made := s.made[entry.path := NodeOf(e)])
  }

  function ExtractRun(l: Limits, root: Path, select: Selector, base: Fs, es: seq<TarEntry>): Extracting {
    if es == [] then Extracting(base, ZERO, map[], map[], 0, true)
    else ExtractStep(l, root, select, ExtractRun(l, root, select, base, es[..|es| - 1]), es[|es| - 1])
  }

  datatype Extracted = Extracted(fs: Fs, summary: Option<Tally>)

  function ExtractResult(limits: Limits, fs: Fs, root: Path, a: Archive, select: Selector): Extracted {
    match WithDefaults(limits)
    case None => Extracted(fs, None)
    case Some(l) =>
      var p := PrepareDestination(fs, root);
      if !p.ok then Extracted(p.fs, None)
      else
        var s := ExtractRun(l, root, select, p.fs, a.entries);
        Extracted(s.fs, if s.ok && !a.broken && s.selected > 0 then Some(s.tally) else None)
  }

  lemma {:induction false} ExtractStays(l: Limits, root: Path, select: Selector, base: Fs, es: seq<TarEntry>, n: nat)
    requires n <= |es| && !ExtractRun(l, root, select, base, es[..n]).ok
    ensures ExtractRun(l, root, select, base, es) == ExtractRun(l, root, select, base, es[..n])
    decreases |es| - n
  {
    if n == |es| {
      assert es[..n] == es;
    } else {
      assert es[..n + 1][..n] == es[..n];
      ExtractStays(l, root, select, base, es, n + 1);
    }
  }

  // The code, on a file system it changes

  class Volume {
    var nodes: Fs

    constructor (fs: Fs)
      ensures nodes == fs
    {
      nodes := fs;
    }

    method Create(p: Path, node: Node) returns (ok: bool)
      requires p != []
      modifies this
      ensures Effect(nodes, ok) == CreateNode(old(nodes), p, node)
    {
      var place := Locate(nodes, p);
      ok := place.Place? && place.path !in nodes;
      if ok {
        nodes := nodes[place.path := node];
      }
    }

    method Remove(p: Path)
      requires p != []
      modifies this
      ensures nodes == RemoveNode(old(nodes), p)
    {
      var place := Locate(nodes, p);
      if place.Place? {
        nodes := nodes - {place.path};
      }
    }

    method MakeDirs(p: Path) returns (ok: bool)
      modifies this
      ensures Effect(nodes, ok) == MkdirAll(old(nodes), p)
      decreases |p|
    {
      hide Walk, CreateNode, Lstat;
      var here := Walk(nodes, [], p, MAX_LINKS);
      if here.Reached? { return IsDir(nodes, here.path); }
      if p == [] { return false; }
      ok := MakeDirs(p[..|p| - 1]);
      if ok {
        var made := Create(p, PRIVATE_DIR);
        if !made {
          var there := Lstat(nodes, p);
          ok := there.Present? && there.node.DirNode?;
        }
      }
    }

    method Prepare(root: Path) returns (ok: bool)
      modifies this
      ensures Effect(nodes, ok) == PrepareDestination(old(nodes), root)
    {
      hide Walk, MkdirAll, Lstat;
      var stat := Lstat(nodes, root);
      if stat.Absent? {
        ok := MakeDirs(root);
        return;
      }
      if stat.StatError? || !stat.node.DirNode? { return false; }
      var here := Walk(nodes, [], root, MAX_LINKS);
      if !here.Reached? || !NoChildren(nodes, here.path) { return false; }
      if here.path != [] {
        nodes := nodes[here.path := PRIVATE_DIR];
      }
      return true;
    }

    /** The final containment test of the source never fails once every component is a plain name. */
    method SecureJoin(root: Path, segments: Path) returns (ok: bool, target: Path)
      requires AllNormal(segments) && segments != []
      ensures ok == SafeJoin(nodes, root, segments)
      ensures target == root + segments
    {
      hide Lstat;
      target := root + segments;
      var current := root;
      for i := 0 to |segments|
        invariant current == root + segments[..i]
        invariant forall k :: 0 < k <= i ==> NotThroughLink(Lstat(nodes, root + segments[..k]))
      {
        current := current + [segments[i]];
        assert current == root + segments[..i + 1];
        if !NotThroughLink(Lstat(nodes, current)) { return false, target; }
      }
      assert segments[..|segments|] == segments;
      var rel := Rel(root, current);
      RelUnder(root, segments);
      EscapesBySegment(segments);
      ok := rel != [] && !Escapes(rel);
    }

    method Write(root: Path, e: TarEntry, path: Path, maxBytes: int) returns (ok: bool)
      requires path != []
      modifies this
      ensures Effect(nodes, ok) == Materialise(old(nodes), root, e, path, maxBytes)
    {
      hide MkdirAll, CreateNode, RemoveNode, LinkBelow;
      if e.kind.DirKind? {
        ok := MakeDirs(root + path);
        return;
      }
      if e.kind.LinkKind? && !LinkBelow(root, path, e.link) { return false; }
      ok := MakeDirs(root + Parent(path));
      if ok {
        ok := Create(root + path, NodeOf(e));
        if ok && e.kind.FileKind? && !Copies(e, maxBytes) {
          Remove(root + path);
          ok := false;
        }
      }
    }
  }

  lemma {:induction false} RelUnder(root: Path, segs: Path)
    ensures Rel(root, root + segs) == segs
    decreases |root|
  {
    if root == [] {
      assert root + segs == segs && Ups(0) + segs == segs;
    } else {
      assert (root + segs)[1..] == root[1..] + segs;
      RelUnder(root[1..], segs);
    }
  }

  /** The loop's variables. */
  datatype Progress = Progress(tally: Tally, seen: map<Path, Kind>, selected: nat)

  function StateOf(fs: Fs, v: Progress, made: map<Path, Node>, ok: bool): Extracting {
    Extracting(fs, v.tally, v.seen, made, v.selected, ok)
  }

  /** One turn of the loop. */
  method ExtractEntry(vol: Volume, l: Limits, root: Path, select: Selector, v: Progress, ghost made: map<Path, Node>,
                      e: TarEntry)
    returns (ok: bool, v': Progress, ghost made': map<Path, Node>)
    modifies vol
    ensures ok == ExtractStep(l, root, select, StateOf(old(vol.nodes), v, made, true), e).ok
    ensures vol.nodes == ExtractStep(l, root, select, StateOf(old(vol.nodes), v, made, true), e).fs
    ensures ok ==>
              StateOf(vol.nodes, v', made', true) == ExtractStep(l, root, select,
                                                                 StateOf(old(vol.nodes), v, made, true), e)
  {
    hide Admit, SafeJoin, Materialise;
    ok, v', made' := false, v, made;
    var admission := CheckEntry(l, v.tally, v.seen, e);
    if admission.Rejected? { return; }
    var path := admission.entry.path;
    v' := v.(tally := admission.tally, seen := v.seen[path := admission.entry.kind]);
    var choice := select(admission.entry);
    if choice == Fault { return; }
    var safe, target := vol.SecureJoin(root, path);
    if !safe { return; }
    if choice == No {
      ok := e.kind.FileKind? ==> Whole(e);
    } else {
      v', made' := v'.(selected := v.selected + 1), made[path := NodeOf(e)];
      ok := vol.Write(root, e, path, e.size);
    }
  }

  method ExtractTarSelected(vol: Volume, limits: Limits, root: Path, a: Archive, select: Selector)
    returns (r: Option<Tally>)
    modifies vol
    ensures Extracted(vol.nodes, r) == ExtractResult(limits, old(vol.nodes), root, a, select)
  {
    hide ExtractStep, WithDefaults, PrepareDestination;
    var defaulted := WithDefaults(limits);
    if defaulted.None? { return None; }
    var l := defaulted.value;
    var prepared := vol.Prepare(root);
    if !prepared { return None; }
    ghost var base := vol.nodes;
    var v := Progress(ZERO, map[], 0);
    ghost var made: map<Path, Node> := map[];
    for i := 0 to |a.entries|
      invariant ExtractRun(l, root, select, base, a.entries[..i]) == StateOf(vol.nodes, v, made, true)
    {
      assert a.entries[..i + 1][..i] == a.entries[..i];
      var ok;
      ok, v, made := ExtractEntry(vol, l, root, select, v, made, a.entries[i]);
      if !ok {
        ExtractStays(l, root, select, base, a.entries, i + 1);
        return None;
      }
    }
    assert a.entries[..|a.entries|] == a.entries;
    return if a.broken || v.selected == 0 then None else Some(v.tally);
  }
}
