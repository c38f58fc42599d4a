/** Runs of the extraction: what the file system holds after each, and when one succeeds. */
module Exactness {
  import opened Wrappers
  import opened Paths
  import opened Links
  import opened FileSystem
  import opened Archives
  import opened Extraction
  import opened Containment

  /** Some made entry is at `p` or below it. */
  ghost predicate Implied(made: map<Path, Node>, p: Path) {
    exists k :: k in made && p <= k
  }

  function NodeAt(made: map<Path, Node>, p: Path): Node {
    if p in made then made[p] else PRIVATE_DIR
  }

  /** `fs` is `base` with the made entries, and private directories on the way to them, below `at`; and nothing else. */
  ghost predicate Exact(base: Fs, at: Path, made: map<Path, Node>, fs: Fs) {
    && (forall q :: !Under(at, q) ==> (q in fs <==> q in base) && (q in fs && q in base ==> fs[q] == base[q]))
    && (forall p :: p != [] ==>
        (at + p in fs <==> Implied(made, p)) && (at + p in fs ==> fs[at + p] == NodeAt(made, p)))
  }

  lemma ExactStart(base: Fs, at: Path)
    requires Untouched(base, at)
    ensures Exact(base, at, map[], base)
  {
    forall p: Path | p != [] ensures at + p !in base {
      assert (at + p)[..|at|] == at && Under(at, at + p);
    }
  }

  lemma OnTheWayBelow(at: Path, path: Path, p: Path)
    ensures OnTheWay(at, path, at + p) <==> p != [] && p <= path
  {
    assert (at + p)[..|at|] == at;
    if |p| <= |path| {
      assert (at + path)[..|at + p|] == at + path[..|p|];
      assert at + path[..|p|] == at + p <==> path[..|p|] == p by {
        assert (at + path[..|p|])[|at|..] == path[..|p|] && (at + p)[|at|..] == p;
      }
    }
  }

  /** Adding `node` at `path`, and the directories missing on the way, adds it to what is made. */
  lemma ExactPut(base: Fs, at: Path, made: map<Path, Node>, fs: Fs, path: Path, node: Node, fs': Fs)
    requires Exact(base, at, made, fs) && path != [] && path !in made
    requires forall q :: q in fs' <==> q in fs || OnTheWay(at, path, q)
    requires forall q :: q in fs' ==> fs'[q] == if q == at + path then node else if q in fs then fs[q] else PRIVATE_DIR
    ensures Exact(base, at, made[path := node], fs')
  {
    hide OnTheWay;
    var more := made[path := node];
    forall q | !Under(at, q) ensures (q in fs' <==> q in base) && (q in fs' && q in base ==> fs'[q] == base[q]) {
      NotUnder(at, path, q);
    }
    forall p | p != []
      ensures (at + p in fs' <==> Implied(more, p)) && (at + p in fs' ==> fs'[at + p] == NodeAt(more, p)) {
      OnTheWayBelow(at, path, p);
      assert Implied(more, p) <==> Implied(made, p) || p <= path by {
        if p <= path {
          assert path in more;
        }
        if Implied(made, p) {
          var k :| k in made && p <= k;
          assert k in more;
        }
      }
      assert at + p == at + path <==> p == path by {
        assert (at + p)[|at|..] == p && (at + path)[|at|..] == path;
      }
    }
  }

  lemma NotUnder(at: Path, path: Path, q: Path)
    requires !Under(at, q) && path != []
    ensures !OnTheWay(at, path, q) && q != at + path
  {
    assert (at + path)[..|at|] == at;
  }

  lemma ExactDirs(base: Fs, at: Path, made: map<Path, Node>, fs: Fs, path: Path)
    requires Exact(base, at, made, fs) && path != [] && path !in made
    ensures Exact(base, at, made[path := PRIVATE_DIR], WithDirs(fs, at, path))
  {
    hide OnTheWay, Implied;
    WithDirsNodes(fs, at, path);
    ExactPut(base, at, made, fs, path, PRIVATE_DIR, WithDirs(fs, at, path));
  }

  lemma ExactLeaf(base: Fs, at: Path, made: map<Path, Node>, fs: Fs, path: Path, node: Node)
    requires Exact(base, at, made, fs) && path != [] && at + path !in fs
    ensures Exact(base, at, made[path := node], WithDirs(fs, at, Parent(path))[at + path := node])
  {
    hide OnTheWay;
    var up := WithDirs(fs, at, Parent(path));
    WithDirsNodes(fs, at, Parent(path));
    InMade(base, at, made, fs, path);
    forall q ensures q in up[at + path := node] <==> q in fs || OnTheWay(at, path, q) {
      WayStep(at, path, q);
    }
    ExactPut(base, at, made, fs, path, node, up[at + path := node]);
  }

  lemma InMade(base: Fs, at: Path, made: map<Path, Node>, fs: Fs, p: Path)
    requires Exact(base, at, made, fs) && p != []
    ensures p in made ==> at + p in fs && fs[at + p] == made[p]
    ensures p !in made && at + p in fs ==> fs[at + p] == PRIVATE_DIR
    ensures at + p in fs <==> Implied(made, p)
  {
    assert p in made ==> Implied(made, p);
  }

  /** No made file or link is on the way to `path`. */
  ghost predicate WayClear(made: map<Path, Node>, path: Path) {
    forall k :: 0 < k < |path| && path[..k] in made ==> made[path[..k]].DirNode?
  }

  lemma ExactWay(base: Fs, at: Path, made: map<Path, Node>, fs: Fs, path: Path)
    requires Exact(base, at, made, fs) && path != []
    ensures Clear(fs, at, Parent(path)) <==> WayClear(made, path)
  {
    hide Exact, Implied;
    forall k | 0 < k < |path|
      ensures (at + Parent(path)[..k] in fs ==> fs[at + Parent(path)[..k]].DirNode?) <==>
                (path[..k] in made ==> made[path[..k]].DirNode?)
    {
      assert Parent(path)[..k] == path[..k];
      InMade(base, at, made, fs, path[..k]);
    }
  }

  /** Every made link passed the relative check. */
  ghost predicate MadePortable(made: map<Path, Node>) {
    forall p :: p in made && made[p].LinkNode? ==> p != [] && AllNormal(p) && PortableLink(p, made[p].target)
  }

  /** What the loop keeps while it succeeds. */
  ghost predicate Going(root: Path, base: Fs, at: Path, s: Extracting) {
    s.ok && Ready(s.fs, root, at) && Exact(base, at, s.made, s.fs) && s.made.Keys <= s.seen.Keys
    && MadePortable(s.made)
  }

  /** Whether an admitted entry can be dealt with after those made so far. */
  ghost predicate Workable(made: map<Path, Node>, e: TarEntry, choice: Choice) {
    && choice != Fault && WayClear(made, PathOf(e)) && (e.kind.FileKind? ==> Whole(e))
    && (choice == Yes && !e.kind.DirKind? ==> !Implied(made, PathOf(e)))
  }

  /** One turn of the loop: when it succeeds, and what it leaves behind if it does. */
  lemma StepExact(l: Limits, root: Path, select: Selector, base: Fs, at: Path, s: Extracting, e: TarEntry)
    requires AllNormal(root) && Going(root, base, at, s)
    ensures var t := ExtractStep(l, root, select, s, e);
            var choice := select(EntryOf(e));
            && (t.ok <==> Admit(l, s.tally, s.seen, e).Admitted? && Workable(s.made, e, choice))
            && (t.ok ==> Going(root, base, at, t))
            && (t.ok ==> t.tally == Admit(l, s.tally, s.seen, e).tally && t.seen == s.seen[PathOf(e) := e.kind])
            && (t.ok ==> t.made == if choice == Yes then s.made[PathOf(e) := NodeOf(e)] else s.made)
            && (t.ok ==> t.selected == s.selected + if choice == Yes then 1 else 0)
  {
    hide Admit, SafeJoin, Materialise, Exact, Ready, PathOf, NodeOf, Clear, Implied, Whole, WayClear;
    var r := Admit(l, s.tally, s.seen, e);
    AdmitMeans(l, s.tally, s.seen, e);
    if r.Admitted? {
      var path := PathOf(e);
      InMade(base, at, s.made, s.fs, path);
      ExactWay(base, at, s.made, s.fs, path);
      SafeJoinMeans(s.fs, root, at, path);
      assert SafeJoin(s.fs, root, path) <==> WayClear(s.made, path);
      if SafeJoin(s.fs, root, path) && select(EntryOf(e)) == Yes {
        WriteExact(l, root, base, at, s, e);
        AdmitLink(l, s.tally, s.seen, e);
        MadeLink(s.made, e);
      }
    }
  }

  /** Writing one admitted, selected entry. */
  lemma WriteExact(l: Limits, root: Path, base: Fs, at: Path, s: Extracting, e: TarEntry)
    requires AllNormal(root) && Going(root, base, at, s) && Admit(l, s.tally, s.seen, e).Admitted?
             && SafeJoin(s.fs, root, PathOf(e))
    ensures var path := PathOf(e);
            path != [] && path !in s.made
            && var m := Materialise(s.fs, root, e, path, e.size);
            && (m.ok <==> (e.kind.FileKind? ==> Whole(e)) && (!e.kind.DirKind? ==> !Implied(s.made, path)))
            && (m.ok ==> Ready(m.fs, root, at) && Exact(base, at, s.made[path := NodeOf(e)], m.fs))
            && (!m.ok ==> m.fs == WithDirs(s.fs, at, Parent(path)) && Clear(s.fs, at, Parent(path)))
  {
    hide Admit, SafeJoin, Materialise, Exact, Ready, PathOf, Clear, Implied, Whole, WithDirs;
    var path := PathOf(e);
    AdmitMeans(l, s.tally, s.seen, e);
    AdmitLink(l, s.tally, s.seen, e);
    InMade(base, at, s.made, s.fs, path);
    SafeJoinMeans(s.fs, root, at, path);
    if e.kind.LinkKind? {
      PortableIsBelow(root, path, e.link);
    }
    MaterialiseBelow(s.fs, root, at, e, path, e.size);
    ClearSnoc(s.fs, at, path);
    if e.kind.DirKind? {
      ReadyDirs(s.fs, root, at, path);
      ExactDirs(base, at, s.made, s.fs, path);
    } else if at + path !in s.fs {
      ReadyDirs(s.fs, root, at, Parent(path));
      WithDirsAbsent(s.fs, at, path);
      AddLeaf(WithDirs(s.fs, at, Parent(path)), root, at, path, NodeOf(e));
      ExactLeaf(base, at, s.made, s.fs, path, NodeOf(e));
    }
  }

  lemma AdmitLink(l: Limits, t: Tally, seen: map<Path, Kind>, e: TarEntry)
    requires Admit(l, t, seen, e).Admitted? && PathOf(e) != []
    ensures e.kind.LinkKind? ==> PortableLink(PathOf(e), e.link)
  {
    hide PortableLink;
  }

  lemma MadeLink(made: map<Path, Node>, e: TarEntry)
    requires MadePortable(made) && PathOf(e) != []
    requires e.kind.LinkKind? ==> PortableLink(PathOf(e), e.link)
    ensures MadePortable(made[PathOf(e) := NodeOf(e)])
  {
    hide PortableLink;
    var more := made[PathOf(e) := NodeOf(e)];
    forall p | p in more && more[p].LinkNode? ensures p != [] && AllNormal(p) && PortableLink(p, more[p].target) {
      if p != PathOf(e) {
        assert p in made;
      }
    }
  }

  lemma ReadyDirs(fs: Fs, root: Path, at: Path, p: Path)
    requires Ready(fs, root, at) && Clear(fs, at, p)
    ensures var w := WithDirs(fs, at, p); Ready(w, root, at) && IsDir(w, at + p) && Clear(w, at, p)
  {
    hide Walk, WithDirs, Clear, Rooted;
    WithDirsRooted(fs, at, p);
    HomeGrows(fs, WithDirs(fs, at, p), root, at);
  }

  lemma WithDirsAbsent(fs: Fs, at: Path, path: Path)
    requires path != [] && at + path !in fs
    ensures at + path !in WithDirs(fs, at, Parent(path))
  {
    WithDirsNodes(fs, at, Parent(path));
  }

  // Whole runs

  /** What the selected entries stand for. */
  function Made(es: seq<TarEntry>, select: Selector): map<Path, Node> {
    if es == [] then map[]
    else
      var e, front := es[|es| - 1], Made(es[..|es| - 1], select);
      if select(EntryOf(e)) == Yes then front[PathOf(e) := NodeOf(e)] else front
  }

  ghost predicate Selected(es: seq<TarEntry>, select: Selector, p: Path, node: Node) {
    exists i :: 0 <= i < |es| && PathOf(es[i]) == p && NodeOf(es[i]) == node && select(EntryOf(es[i])) == Yes
  }

  /** On the way to a selected entry. */
  ghost predicate OnSelectedWay(es: seq<TarEntry>, select: Selector, p: Path) {
    p != [] && exists i :: 0 <= i < |es| && p <= PathOf(es[i]) && select(EntryOf(es[i])) == Yes
  }

  /** What a selected entry stands for, or a private directory on the way to one; and nothing else. */
  ghost predicate FromEntries(made: map<Path, Node>, es: seq<TarEntry>, select: Selector) {
    forall p :: p in made ==>
        Selected(es, select, p, made[p]) || (made[p] == PRIVATE_DIR && OnSelectedWay(es, select, p))
  }

  /** Beyond what `made` has, nothing but private directories on the way to `path`. */
  ghost predicate AtMostDirs(more: map<Path, Node>, made: map<Path, Node>, path: Path) {
    forall p :: p in more ==> (p in made && more[p] == made[p]) || (more[p] == PRIVATE_DIR && p != [] && p <= path)
  }

  lemma SelectedMore(es: seq<TarEntry>, e: TarEntry, select: Selector, p: Path, node: Node)
    ensures Selected(es, select, p, node) ==> Selected(es + [e], select, p, node)
    ensures OnSelectedWay(es, select, p) ==> OnSelectedWay(es + [e], select, p)
    ensures select(EntryOf(e)) == Yes ==> Selected(es + [e], select, PathOf(e), NodeOf(e))
    ensures select(EntryOf(e)) == Yes && p != [] && p <= PathOf(e) ==> OnSelectedWay(es + [e], select, p)
  {
    hide PathOf, NodeOf, EntryOf;
    var all := es + [e];
    assert all[|es|] == e;
    if Selected(es, select, p, node) {
      var i :| 0 <= i < |es| && PathOf(es[i]) == p && NodeOf(es[i]) == node && select(EntryOf(es[i])) == Yes;
      assert all[i] == es[i];
    }
    if OnSelectedWay(es, select, p) {
      var i :| 0 <= i < |es| && p <= PathOf(es[i]) && select(EntryOf(es[i])) == Yes;
      assert all[i] == es[i];
    }
  }

  lemma FromMore(made: map<Path, Node>, es: seq<TarEntry>, e: TarEntry, select: Selector, more: map<Path, Node>)
    requires FromEntries(made, es, select)
    requires || more == made
             || (select(EntryOf(e)) == Yes && (AtMostDirs(more, made, PathOf(e))
               || more == made[PathOf(e) := NodeOf(e)]))
    ensures FromEntries(more, es + [e], select)
  {
    hide PathOf, NodeOf, EntryOf, Selected, OnSelectedWay;
    forall p | p in more
      ensures Selected(es + [e], select, p, more[p]) || (more[p] == PRIVATE_DIR && OnSelectedWay(es + [e], select, p))
    {
      SelectedMore(es, e, select, p, more[p]);
    }
  }

  /** A turn that fails leaves at most directories on the way to its entry. */
  lemma StepStops(l: Limits, root: Path, select: Selector, base: Fs, at: Path, s: Extracting, e: TarEntry)
    requires AllNormal(root) && Going(root, base, at, s) && !ExtractStep(l, root, select, s, e).ok
    ensures var t := ExtractStep(l, root, select, s, e);
            exists more ::
                Exact(base, at, more, t.fs) && (more == s.made
                  || (select(EntryOf(e)) == Yes && AtMostDirs(more, s.made, PathOf(e))))
  {
    hide Admit, SafeJoin, Materialise, Exact, Rooted, Home, PathOf, NodeOf, Clear, Implied, Whole;
    var r := Admit(l, s.tally, s.seen, e);
    var t := ExtractStep(l, root, select, s, e);
    AdmitMeans(l, s.tally, s.seen, e);
    if t.fs == s.fs {
      assert Exact(base, at, s.made, t.fs);
    } else {
      WriteExact(l, root, base, at, s, e);
      var up := Parent(PathOf(e));
      assert up <= PathOf(e);
      SomethingMissing(s.fs, at, up);
      InMade(base, at, s.made, s.fs, up);
      ExactDirs(base, at, s.made, s.fs, up);
      assert Exact(base, at, s.made[up := PRIVATE_DIR], t.fs);
    }
  }

  lemma SomethingMissing(fs: Fs, at: Path, p: Path)
    requires WithDirs(fs, at, p) != fs && Rooted(fs)
    ensures p != [] && at + p !in fs
  {
    hide WithDirs, Rooted;
    if p == [] || at + p in fs {
      WithDirsPresent(fs, at, p);
    }
  }

  /** After every run, finished or stopped, the destination holds selected entries and private directories only. */
  lemma {:induction false} RunExact(l: Limits, root: Path, select: Selector, base: Fs, at: Path, es: seq<TarEntry>)
    requires AllNormal(root) && Ready(base, root, at) && Untouched(base, at)
    ensures var s := ExtractRun(l, root, select, base, es);
            && (s.ok ==> Going(root, base, at, s) && s.made == Made(es, select))
            && exists made ::
                 && Exact(base, at, made, s.fs) && FromEntries(made, es, select) && MadePortable(made)
                 && (s.ok ==> made == s.made)
    decreases |es|
  {
    var s := ExtractRun(l, root, select, base, es);
    if es == [] {
      ExactStart(base, at);
      assert FromEntries(s.made, es, select);
    } else {
      hide ExtractStep, Exact, Ready, PathOf, NodeOf, EntryOf, FromEntries, MadePortable, AtMostDirs;
      var front, e := es[..|es| - 1], es[|es| - 1];
      assert front + [e] == es;
      RunExact(l, root, select, base, at, front);
      var t := ExtractRun(l, root, select, base, front);
      var made :|
          && Exact(base, at, made, t.fs) && FromEntries(made, front, select) && MadePortable(made)
          && (t.ok ==> made == t.made);
      if !t.ok {
        StoppedStays(l, root, select, t, e);
        FromMore(made, front, e, select, made);
      } else {
        StepExact(l, root, select, base, at, t, e);
        if s.ok {
          FromMore(made, front, e, select, s.made);
        } else {
          StepStops(l, root, select, base, at, t, e);
          var more :|
              Exact(base, at, more, s.fs) && (more == t.made
                || (select(EntryOf(e)) == Yes && AtMostDirs(more, t.made, PathOf(e))));
          FromMore(made, front, e, select, more);
          DirsAddNoLinks(more, t.made, PathOf(e));
        }
      }
    }
  }

  lemma DirsAddNoLinks(more: map<Path, Node>, made: map<Path, Node>, path: Path)
    requires MadePortable(made)
    ensures AtMostDirs(more, made, path) ==> MadePortable(more)
  {
    hide PortableLink;
  }

  lemma StoppedStays(l: Limits, root: Path, select: Selector, s: Extracting, e: TarEntry)
    requires !s.ok
    ensures ExtractStep(l, root, select, s, e) == s
  {
  }

  /** What a run in a prepared destination leaves, whether it finished or not. */
  ghost predicate StaysBelow(fs: Fs, base: Fs, root: Path, at: Path, made: map<Path, Node>, fs': Fs, es: seq<TarEntry>,
                             select: Selector) {
    && Ready(base, root, at) && Untouched(base, at) && PreparedFrom(fs, base, at)
    && Exact(base, at, made, fs') && FromEntries(made, es, select) && MadePortable(made)
  }

  /**
    Extraction stays under its root. If the destination cannot be prepared, at most private directories
    on the way to it were added. Otherwise the root leads to an empty directory, links and all; nothing
    but its mode and private directories on the way to it changes outside; below it every node is at the
    very path its entry names, for every archive, selection and stopping point, the only others being
    private directories on the way to selected entries, and every link is portable;
      and a run that succeeds has made exactly the
    selected entries and the directories they need.
   */
  lemma ExtractionStaysBelow(limits: Limits, fs: Fs, root: Path, a: Archive, select: Selector)
    requires Rooted(fs) && AllNormal(root)
    ensures var p, r := PrepareDestination(fs, root), ExtractResult(limits, fs, root, a, select);
            && (WithDefaults(limits).None? ==> r == Extracted(fs, None))
            && (WithDefaults(limits).Some? && !p.ok ==> r.summary.None? && PartWay(fs, r.fs, root))
            && (WithDefaults(limits).Some? && p.ok ==>
                  exists at, made :: StaysBelow(fs, p.fs, root, at, made, r.fs, a.entries, select)
                                     && (r.summary.Some? ==> made == Made(a.entries, select)))
  {
    hide PrepareDestination, WithDefaults, Ready, Untouched, Exact, FromEntries, ExtractRun, PreparedFrom, Rooted, Made,
         Going, PartWay, MadePortable;
    var p, r := PrepareDestination(fs, root), ExtractResult(limits, fs, root, a, select);
    if WithDefaults(limits).Some? {
      if p.ok {
        var l := WithDefaults(limits).value;
        Preparation(fs, root);
        var at :| Ready(p.fs, root, at) && Untouched(p.fs, at) && PreparedFrom(fs, p.fs, at);
        RunExact(l, root, select, p.fs, at, a.entries);
        var s := ExtractRun(l, root, select, p.fs, a.entries);
        var made :|
            && Exact(p.fs, at, made, s.fs) && FromEntries(made, a.entries, select) && MadePortable(made)
            && (s.ok ==> made == s.made);
        assert r.fs == s.fs && (r.summary.Some? ==> s.ok);
        assert StaysBelow(fs, p.fs, root, at, made, r.fs, a.entries, select);
      } else {
        PreparationFails(fs, root);
      }
    }
  }

  /** No link that extraction leaves below its root, whenever it stops, is absolute or leads out of any root. */
  lemma ExtractedLinksStay(limits: Limits, fs: Fs, root: Path, a: Archive, select: Selector)
    requires Rooted(fs) && AllNormal(root) && PrepareDestination(fs, root).ok && WithDefaults(limits).Some?
    ensures var base, r := PrepareDestination(fs, root).fs, ExtractResult(limits, fs, root, a, select);
            exists at ::
              && Ready(base, root, at) && Untouched(base, at)
              && forall p, top, target ::
                   p != [] && at + p in r.fs && r.fs[at + p] == LinkNode(target) && AllNormal(top) ==>
                     LeadsBelow(top, p, target)
  {
    hide PrepareDestination, WithDefaults, Ready, Untouched, Exact, FromEntries, PreparedFrom, Rooted, Made,
         ExtractResult, LeadsBelow;
    var base, r := PrepareDestination(fs, root).fs, ExtractResult(limits, fs, root, a, select);
    ExtractionStaysBelow(limits, fs, root, a, select);
    var at, made :| StaysBelow(fs, base, root, at, made, r.fs, a.entries, select);
    forall p, top, target | p != [] && at + p in r.fs && r.fs[at + p] == LinkNode(target) && AllNormal(top)
      ensures LeadsBelow(top, p, target)
    {
      InMade(base, at, made, r.fs, p);
      AcceptedLeadsBelow(top, p, target);
    }
  }

  /** Every entry so far has been seen, and every selected one is made. */
  ghost predicate AllMade(seen: map<Path, Kind>, made: map<Path, Node>, es: seq<TarEntry>, select: Selector) {
    forall i :: 0 <= i < |es| ==>
      && PathOf(es[i]) != [] && PathOf(es[i]) in seen
      && (es[i].kind.FileKind? ==> Whole(es[i]))
      && (select(EntryOf(es[i])) == Yes ==> PathOf(es[i]) in made && made[PathOf(es[i])] == NodeOf(es[i]))
  }

  lemma AllMadeMore(seen: map<Path, Kind>, made: map<Path, Node>, es: seq<TarEntry>, select: Selector, e: TarEntry)
    requires AllMade(seen, made, es, select) && PathOf(e) != [] && PathOf(e) !in seen
    requires e.kind.FileKind? ==> Whole(e)
    ensures AllMade(seen[PathOf(e) := e.kind], if select(EntryOf(e)) == Yes then made[PathOf(e) := NodeOf(e)] else made,
                    es + [e], select)
  {
    hide PathOf, EntryOf, NodeOf, Whole;
    var all := es + [e];
    assert all[|es|] == e && forall i :: 0 <= i < |es| ==> all[i] == es[i];
  }

  lemma TurnMade(l: Limits, root: Path, select: Selector, base: Fs, at: Path, s: Extracting, es: seq<TarEntry>,
                 e: TarEntry)
    requires AllNormal(root) && Going(root, base, at, s) && AllMade(s.seen, s.made, es, select)
    requires ExtractStep(l, root, select, s, e).ok
    ensures var t := ExtractStep(l, root, select, s, e); AllMade(t.seen, t.made, es + [e], select)
  {
    hide ExtractStep, PathOf, NodeOf, EntryOf, Going, Admit, AllMade, Fits, Whole, SizeOf;
    StepExact(l, root, select, base, at, s, e);
    AdmitMeans(l, s.tally, s.seen, e);
    AllMadeMore(s.seen, s.made, es, select, e);
  }

  lemma RunGoes(l: Limits, root: Path, select: Selector, base: Fs, at: Path, es: seq<TarEntry>)
    requires AllNormal(root) && Ready(base, root, at) && Untouched(base, at) && ExtractRun(l, root, select, base, es).ok
    ensures Going(root, base, at, ExtractRun(l, root, select, base, es))
  {
    hide Ready, Untouched, Going, ExtractRun, Exact, FromEntries, MadePortable;
    RunExact(l, root, select, base, at, es);
  }

  /** Every selected entry of a finished run is made. */
  lemma {:induction false} SelectedMade(l: Limits, root: Path, select: Selector, base: Fs, at: Path, es: seq<TarEntry>)
    requires AllNormal(root) && Ready(base, root, at) && Untouched(base, at) && ExtractRun(l, root, select, base, es).ok
    ensures var s := ExtractRun(l, root, select, base, es); AllMade(s.seen, s.made, es, select)
    decreases |es|
  {
    hide ExtractStep, Exact, Ready, Untouched, Going;
    if es != [] {
      hide AllMade;
      var front, e := es[..|es| - 1], es[|es| - 1];
      assert front + [e] == es;
      var s := ExtractRun(l, root, select, base, front);
      if !s.ok {
        StoppedStays(l, root, select, s, e);
      }
      SelectedMade(l, root, select, base, at, front);
      RunGoes(l, root, select, base, at, front);
      TurnMade(l, root, select, base, at, s, front, e);
    }
  }

  /** What is written for each selected entry: content and permission bits, target, or a private directory. */
  lemma SelectedWritten(limits: Limits, fs: Fs, root: Path, a: Archive, select: Selector)
    requires Rooted(fs) && AllNormal(root) && ExtractResult(limits, fs, root, a, select).summary.Some?
    ensures var r := ExtractResult(limits, fs, root, a, select);
            exists at ::
              && Ready(PrepareDestination(fs, root).fs, root, at)
              && forall i :: 0 <= i < |a.entries| && select(EntryOf(a.entries[i])) == Yes ==>
                   var e := a.entries[i];
                   && at + PathOf(e) in r.fs
                   && (e.kind.FileKind? ==>
                         0 <= e.size <= |e.payload| && r.fs[at + PathOf(e)] == FileNode(e.mode % 512,
                                                                                        e.payload[..e.size]))
                   && (e.kind.LinkKind? ==> r.fs[at + PathOf(e)] == LinkNode(e.link))
                   && (e.kind.DirKind? ==> r.fs[at + PathOf(e)] == DirNode(448))
  {
    hide PrepareDestination, WithDefaults, Ready, Untouched, Exact, FromEntries, ExtractRun, PreparedFrom, Rooted, Made,
         Going, PartWay, MadePortable, PathOf, EntryOf;
    var l, base, r := WithDefaults(limits).value, PrepareDestination(fs, root).fs,
      ExtractResult(limits, fs, root, a, select);
    ExtractionStaysBelow(limits, fs, root, a, select);
    var at, made :| StaysBelow(fs, base, root, at, made, r.fs, a.entries, select) && made == Made(a.entries, select);
    SelectedMade(l, root, select, base, at, a.entries);
    RunExact(l, root, select, base, at, a.entries);
    forall i | 0 <= i < |a.entries| && select(EntryOf(a.entries[i])) == Yes
      ensures at + PathOf(a.entries[i]) in r.fs && r.fs[at + PathOf(a.entries[i])] == NodeOf(a.entries[i])
    {
      InMade(base, at, made, r.fs, PathOf(a.entries[i]));
    }
  }
}
