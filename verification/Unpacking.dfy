/** ExtractTar: extraction without a selection, which also restores directory modes. */
module Unpacking {
  import opened Paths
  import opened Links
  import opened FileSystem
  import opened Archives
  import opened Extraction

  /** directoryMetadata: the mode a directory entry asked for. */
  datatype DirMeta = DirMeta(path: Path, mode: nat)

  datatype Unpacked = Unpacked(fs: Fs, count: nat, total: int, dirs: seq<DirMeta>, ok: bool)

  function Min(a: int, b: int): int {
    if a < b then a else b
  }

  function UnpackStep(l: Limits, root: Path, s: Unpacked, e: TarEntry): Unpacked {
    if !s.ok then s
    else
      match EntryName(e.name)
      case BadName => s.(ok := false)
      case Name(path) =>
        if s.count + 1 > l.entries || |path| > l.depth || !SafeJoin(s.fs, root, path)
          || e.kind.OtherKind? then s.(ok := false)
        else
          var m := Materialise(s.fs, root, e, path, Min(l.entrySize, l.total - s.total));
          Unpacked(m.fs, s.count + 1, if m.ok then s.total + SizeOf(e) else s.total,
                   if m.ok && e.kind.DirKind? then s.dirs + [DirMeta(path, e.mode % 512)] else s.dirs, m.ok)
  }

  function UnpackRun(l: Limits, root: Path, base: Fs, es: seq<TarEntry>): Unpacked {
    if es == [] then Unpacked(base, 0, 0, [], true)
      else UnpackStep(l, root, UnpackRun(l, root, base, es[..|es| - 1]), es[|es| - 1])
  }

  // Directory metadata

  predicate Sorted(ds: seq<DirMeta>) {
    forall i, j :: 0 <= i < j < |ds| ==> |ds[i].path| >= |ds[j].path|
  }

  function Insert(d: DirMeta, ds: seq<DirMeta>): seq<DirMeta> {
    if ds == [] || |ds[0].path| < |d.path| then [d] + ds else [ds[0]] + Insert(d, ds[1..])
  }

  /** sort.SliceStable by depth, deepest first. */
  function DeepestFirst(ds: seq<DirMeta>): seq<DirMeta> {
    if ds == [] then [] else Insert(ds[|ds| - 1], DeepestFirst(ds[..|ds| - 1]))
  }

  /** Search permission for the owner. */
  predicate CanSearch(mode: nat) {
    mode / 64 % 2 == 1
  }

  predicate Searchable(fs: Fs, at: Path, q: Path) {
    forall k :: |at| < k < |q| && q[..k] in fs ==> fs[q[..k]].DirNode? && CanSearch(fs[q[..k]].mode)
  }

  /** os.Chmod on a directory: refused if a directory on the way below the root cannot be searched. */
  function Chmod(fs: Fs, root: Path, d: DirMeta): Effect {
    match Walk(fs, [], root, MAX_LINKS)
    case Reached(at) =>
      (match Walk(fs, [], root + d.path, MAX_LINKS)
       case Reached(q) =>
         if q in fs && fs[q].DirNode? && Searchable(fs, at, q) then Effect(fs[q := DirNode(d.mode)], true)
           else Effect(fs, false)
       case _ => Effect(fs, false))
    case _ => Effect(fs, false)
  }

  /** applyDirectoryMetadata, after sorting. */
  function ApplyModes(fs: Fs, root: Path, ds: seq<DirMeta>): Effect {
    if ds == [] then Effect(fs, true)
    else
      var first := Chmod(fs, root, ds[0]);
      if first.ok then ApplyModes(first.fs, root, ds[1..]) else first
  }

  function UnpackResult(limits: Limits, fs: Fs, root: Path, a: Archive): Effect {
    match WithDefaults(limits)
    case None => Effect(fs, false)
    case Some(l) =>
      var p := PrepareDestination(fs, root);
      if !p.ok then p
      else
        var s := UnpackRun(l, root, p.fs, a.entries);
        if !s.ok || a.broken then Effect(s.fs, false) else ApplyModes(s.fs, root, DeepestFirst(s.dirs))
  }

  lemma {:induction false} UnpackStays(l: Limits, root: Path, base: Fs, es: seq<TarEntry>, n: nat)
    requires n <= |es| && !UnpackRun(l, root, base, es[..n]).ok
    ensures UnpackRun(l, root, base, es) == UnpackRun(l, root, base, es[..n])
    decreases |es| - n
  {
    if n == |es| {
      assert es[..n] == es;
    } else {
      assert es[..n + 1][..n] == es[..n];
      UnpackStays(l, root, base, es, n + 1);
    }
  }

  /** One turn of the loop. */
  method UnpackEntry(vol: Volume, l: Limits, root: Path, count: nat, total: int, dirs: seq<DirMeta>, e: TarEntry)
    returns (ok: bool, count': nat, total': int, dirs': seq<DirMeta>)
    modifies vol
    ensures ok == UnpackStep(l, root, Unpacked(old(vol.nodes), count, total, dirs, true), e).ok
    ensures vol.nodes == UnpackStep(l, root, Unpacked(old(vol.nodes), count, total, dirs, true), e).fs
    ensures ok ==>
              Unpacked(vol.nodes, count', total', dirs', true) == UnpackStep(l, root,
                                                                             Unpacked(old(vol.nodes), count, total,
                                                                                      dirs, true), e)
  {
    hide SafeJoin, Materialise, EntryName, SizeOf;
    ok, count', total', dirs' := false, count, total, dirs;
    if count + 1 > l.entries { return; }
    var name := ValidateEntryName(e.name);
    if name.BadName? || |name.segments| > l.depth { return; }
    var safe, target := vol.SecureJoin(root, name.segments);
    if !safe || e.kind.OtherKind? { return; }
    ok := vol.Write(root, e, name.segments, Min(l.entrySize, l.total - total));
    count', total' := count + 1, total + SizeOf(e);
    if e.kind.DirKind? {
      dirs' := dirs + [DirMeta(name.segments, e.mode % 512)];
    }
  }

  method ExtractTar(vol: Volume, limits: Limits, root: Path, a: Archive) returns (ok: bool)
    modifies vol
    ensures Effect(vol.nodes, ok) == UnpackResult(limits, old(vol.nodes), root, a)
  {
    hide WithDefaults, PrepareDestination, UnpackStep, Chmod;
    var defaulted := WithDefaults(limits);
    if defaulted.None? { return false; }
    var l := defaulted.value;
    ok := vol.Prepare(root);
    if !ok { return; }
    ghost var base := vol.nodes;
    var count, total := 0, 0;
    var directories: seq<DirMeta> := [];
    for i := 0 to |a.entries|
      invariant UnpackRun(l, root, base, a.entries[..i]) == Unpacked(vol.nodes, count, total, directories, true)
    {
      assert a.entries[..i + 1][..i] == a.entries[..i];
      ok, count, total, directories := UnpackEntry(vol, l, root, count, total, directories, a.entries[i]);
      if !ok {
        UnpackStays(l, root, base, a.entries, i + 1);
        return;
      }
    }
    assert a.entries[..|a.entries|] == a.entries;
    if a.broken { return false; }
    ok := ApplyDirectoryMetadata(vol, root, directories);
  }

  method ApplyDirectoryMetadata(vol: Volume, root: Path, directories: seq<DirMeta>) returns (ok: bool)
    modifies vol
    ensures Effect(vol.nodes, ok) == ApplyModes(old(vol.nodes), root, DeepestFirst(directories))
  {
    hide Chmod;
    var ds := DeepestFirst(directories);
    for i := 0 to |ds|
      invariant ApplyModes(old(vol.nodes), root, ds) == ApplyModes(vol.nodes, root, ds[i..])
    {
      assert ds[i..][1..] == ds[i + 1..];
      var changed := Chmod(vol.nodes, root, ds[i]);
      vol.nodes := changed.fs;
      if !changed.ok { return false; }
    }
    return true;
  }
}
