/** What ExtractTar accepts, and exactly how that differs from what the other two readers accept. */
module Readers {
  import opened Paths
  import opened Links
  import opened FileSystem
  import opened Archives
  import opened Extraction
  import opened Containment
  import opened Exactness
  import opened Agreement
  import opened Unpacking
  import opened DirectoryModes

  /** An entry ExtractTar can write on its own. */
  predicate Unpackable(l: Limits, root: Path, e: TarEntry) {
    && EntryName(e.name).Name? && |PathOf(e)| <= l.depth
    && match e.kind
       case FileKind => 0 <= e.size <= l.entrySize && Whole(e)
       case DirKind => true
       case LinkKind => PathOf(e) != [] && LinkBelow(root, PathOf(e), e.link)
       case OtherKind => false
  }

  /**
    Two entries it can write one after the other: the same path twice for directories only, and
    only directories above others.
   */
  ghost predicate Coexist(e: TarEntry, later: TarEntry) {
    && (PathOf(e) == PathOf(later) ==> e.kind.DirKind? && later.kind.DirKind?)
    && (StrictlyBelow(PathOf(e), PathOf(later)) ==> e.kind.DirKind?)
    && (StrictlyBelow(PathOf(later), PathOf(e)) ==> later.kind.DirKind?)
  }

  ghost predicate CoexistsWithAll(es: seq<TarEntry>, e: TarEntry) {
    forall i :: 0 <= i < |es| ==> Coexist(es[i], e)
  }

  ghost predicate AllCoexist(es: seq<TarEntry>) {
    forall i, j :: 0 <= i < j < |es| ==> Coexist(es[i], es[j])
  }

  ghost predicate AllUnpackable(l: Limits, root: Path, es: seq<TarEntry>) {
    forall i :: 0 <= i < |es| ==> Unpackable(l, root, es[i])
  }

  ghost predicate Unpacks(l: Limits, root: Path, es: seq<TarEntry>) {
    |es| <= l.entries && TotalSize(es) <= l.total && AllUnpackable(l, root, es) && AllCoexist(es)
  }

  lemma CoexistSnoc(es: seq<TarEntry>, e: TarEntry)
    ensures AllCoexist(es + [e]) <==> AllCoexist(es) && CoexistsWithAll(es, e)
  {
    hide Coexist;
    var all := es + [e];
    assert all[|es|] == e && forall i :: 0 <= i < |es| ==> all[i] == es[i];
    if AllCoexist(all) {
      forall i | 0 <= i < |es| ensures Coexist(es[i], e) {
        assert Coexist(all[i], all[|es|]);
      }
      forall i, j | 0 <= i < j < |es| ensures Coexist(es[i], es[j]) {
        assert Coexist(all[i], all[j]);
      }
    }
  }

  lemma UnpackableSnoc(l: Limits, root: Path, es: seq<TarEntry>, e: TarEntry)
    ensures AllUnpackable(l, root, es + [e]) <==> AllUnpackable(l, root, es) && Unpackable(l, root, e)
  {
    hide Unpackable;
    var all := es + [e];
    assert all[|es|] == e && forall i :: 0 <= i < |es| ==> all[i] == es[i];
    if AllUnpackable(l, root, all) {
      forall i | 0 <= i < |es| ensures Unpackable(l, root, es[i]) {
        assert Unpackable(l, root, all[i]);
      }
    }
  }

  lemma UnpacksSnoc(l: Limits, root: Path, es: seq<TarEntry>, e: TarEntry)
    ensures Unpacks(l, root, es + [e]) <==>
            && Unpacks(l, root, es) && |es| + 1 <= l.entries && TotalSize(es) + SizeOf(e) <= l.total
            && Unpackable(l, root, e) && CoexistsWithAll(es, e)
    ensures TotalSize(es + [e]) == TotalSize(es) + SizeOf(e)
  {
    hide Unpackable, AllUnpackable, AllCoexist, CoexistsWithAll, SizeOf;
    CoexistSnoc(es, e);
    UnpackableSnoc(l, root, es, e);
    var all := es + [e];
    assert all[..|all| - 1] == es && all[|es|] == e;
    if Unpackable(l, root, e) {
      UnpackableSize(l, root, e);
    }
  }

  lemma UnpackableSize(l: Limits, root: Path, e: TarEntry)
    requires Unpackable(l, root, e)
    ensures SizeOf(e) >= 0
  {
    hide LinkBelow;
  }

  /** Everything so far is made at its path, directories as directories. */
  ghost predicate MadeFor(made: map<Path, Node>, es: seq<TarEntry>) {
    && (forall i :: 0 <= i < |es| ==> PathOf(es[i]) in made && (made[PathOf(es[i])].DirNode? <==> es[i].kind.DirKind?))
    && forall p :: p in made ==> exists i :: 0 <= i < |es| && PathOf(es[i]) == p
  }

  lemma MadeForMore(made: map<Path, Node>, es: seq<TarEntry>, e: TarEntry)
    requires MadeFor(made, es) && !e.kind.OtherKind? && CoexistsWithAll(es, e)
    ensures MadeFor(made[PathOf(e) := NodeOf(e)], es + [e])
  {
    hide PathOf, StrictlyBelow;
    var more, all := made[PathOf(e) := NodeOf(e)], es + [e];
    assert all[|es|] == e && forall i :: 0 <= i < |es| ==> all[i] == es[i];
    forall i | 0 <= i < |all|
      ensures PathOf(all[i]) in more && (more[PathOf(all[i])].DirNode? <==> all[i].kind.DirKind?) {
      if i < |es| {
        assert Coexist(es[i], e);
      }
    }
    forall p | p in more ensures exists i :: 0 <= i < |all| && PathOf(all[i]) == p {
      if p in made {
        var i :| 0 <= i < |es| && PathOf(es[i]) == p;
        assert all[i] == es[i];
      }
    }
  }

  /** What the file system allows, entry by entry. */
  lemma CoexistMeans(made: map<Path, Node>, es: seq<TarEntry>, e: TarEntry)
    requires MadeFor(made, es) && PathOf(e) != [] && forall i :: 0 <= i < |es| ==> PathOf(es[i]) != []
    ensures CoexistsWithAll(es, e) <==>
            && WayClear(made, PathOf(e))
            && if e.kind.DirKind? then PathOf(e) in made ==> made[PathOf(e)].DirNode? else !Implied(made, PathOf(e))
  {
    hide PathOf;
    var path := PathOf(e);
    if CoexistsWithAll(es, e) {
      forall k | 0 < k < |path| && path[..k] in made ensures made[path[..k]].DirNode? {
        var i :| 0 <= i < |es| && PathOf(es[i]) == path[..k];
        assert Coexist(es[i], e) && StrictlyBelow(PathOf(es[i]), path);
      }
      if path in made {
        var i :| 0 <= i < |es| && PathOf(es[i]) == path;
        assert Coexist(es[i], e);
      }
      if Implied(made, path) {
        var q :| q in made && path <= q;
        var i :| 0 <= i < |es| && PathOf(es[i]) == q;
        assert Coexist(es[i], e);
        assert q[..|path|] == path && (|q| == |path| ==> q == path);
        assert q != path ==> StrictlyBelow(path, q);
      }
    } else {
      var i :| 0 <= i < |es| && !Coexist(es[i], e);
      var q := PathOf(es[i]);
      assert q in made;
      assert q == path || StrictlyBelow(path, q) ==> path <= q;
      assert StrictlyBelow(q, path) ==> path[..|q|] in made;
    }
  }

  /** What one turn asks of the entry. */
  ghost predicate TurnOk(l: Limits, root: Path, made: map<Path, Node>, s: Unpacked, e: TarEntry) {
    && s.count + 1 <= l.entries && EntryName(e.name).Name? && |PathOf(e)| <= l.depth && !e.kind.OtherKind?
      && PathOf(e) != []
    && WayClear(made, PathOf(e))
    && (if e.kind.DirKind? then PathOf(e) in made ==> made[PathOf(e)].DirNode? else !Implied(made, PathOf(e)))
    && (e.kind.LinkKind? ==> LinkBelow(root, PathOf(e), e.link))
    && (e.kind.FileKind? ==> Copies(e, Min(l.entrySize, l.total - s.total)))
  }

  lemma UnpackStepWhen(l: Limits, root: Path, base: Fs, at: Path, made: map<Path, Node>, s: Unpacked, e: TarEntry)
    requires Unwinding(root, base, at, made, s)
    ensures UnpackStep(l, root, s, e).ok <==> TurnOk(l, root, made, s, e)
  {
    hide SafeJoin, Materialise, Exact, Ready, EntryName, LinkBelow, Implied, WayClear, NodeOf, Clear, Copies;
    var path := PathOf(e);
    if EntryName(e.name).Name? && !e.kind.OtherKind? {
      SafeJoinMeans(s.fs, root, at, path);
      ExactWay(base, at, made, s.fs, path);
      InMade(base, at, made, s.fs, path);
      ImpliedSelf(made, path);
      if SafeJoin(s.fs, root, path) {
        WriteAny(base, root, at, made, s.fs, e, path, Min(l.entrySize, l.total - s.total));
      }
    }
  }

  /** One turn of the loop, by the entries before it. */
  lemma TurnUnpacks(l: Limits, root: Path, made: map<Path, Node>, s: Unpacked, es: seq<TarEntry>, e: TarEntry)
    requires Positive(l) && MadeFor(made, es) && Unpacks(l, root, es) && s.count == |es| && s.total == TotalSize(es)
    ensures TurnOk(l, root, made, s, e) <==> Unpacks(l, root, es + [e])
  {
    hide EntryName, LinkBelow, Implied, WayClear, CoexistsWithAll, AllUnpackable, AllCoexist, TotalSize;
    UnpacksSnoc(l, root, es, e);
    NamesNotEmpty(l, root, es);
    if PathOf(e) != [] {
      CoexistMeans(made, es, e);
    }
  }

  lemma ImpliedSelf(made: map<Path, Node>, p: Path)
    ensures p in made ==> Implied(made, p)
  {
  }

  lemma NamesNotEmpty(l: Limits, root: Path, es: seq<TarEntry>)
    requires AllUnpackable(l, root, es)
    ensures forall i :: 0 <= i < |es| ==> PathOf(es[i]) != []
  {
    hide LinkBelow;
    forall i | 0 <= i < |es| ensures PathOf(es[i]) != [] {
      assert Unpackable(l, root, es[i]);
    }
  }

  /** ExtractTar's loop accepts exactly these archives. */
  lemma {:induction false} UnpackAccepts(l: Limits, root: Path, base: Fs, at: Path, es: seq<TarEntry>)
    requires Positive(l) && Ready(base, root, at) && Untouched(base, at)
    ensures UnpackRun(l, root, base, es).ok <==> Unpacks(l, root, es)
    ensures UnpackRun(l, root, base, es).ok ==> MadeFor(Made(es, EverySelector()), es)
    decreases |es|
  {
    if es == [] {
      assert AllUnpackable(l, root, es) && AllCoexist(es);
    } else {
      hide UnpackStep, Unpacks, Unwinding, Ready, Untouched, MadeFor, PathOf, NodeOf, EntryOf, Exact, TotalSize,
           Coexist, CoexistsWithAll, SizeOf, Unpackable, TurnOk;
      var front, e := es[..|es| - 1], es[|es| - 1];
      assert front + [e] == es;
      UnpackAccepts(l, root, base, at, front);
      UnpackRunExact(l, root, base, at, front);
      UnpacksSnoc(l, root, front, e);
      var s := UnpackRun(l, root, base, front);
      if s.ok {
        var made := Made(front, EverySelector());
        UnpackStepWhen(l, root, base, at, made, s, e);
        TurnUnpacks(l, root, made, s, front, e);
        if Unpacks(l, root, es) {
          KindKnown(l, root, e);
          MadeForMore(made, front, e);
        }
      } else {
        UnpackStopped(l, root, s, e);
      }
    }
  }

  lemma KindKnown(l: Limits, root: Path, e: TarEntry)
    requires Unpackable(l, root, e)
    ensures !e.kind.OtherKind?
  {
  }

  // The difference

  ghost predicate LinksPortable(es: seq<TarEntry>) {
    forall i :: 0 <= i < |es| && es[i].kind.LinkKind? && PathOf(es[i]) != [] ==> PortableLink(PathOf(es[i]), es[i].link)
  }

  ghost predicate PathsDistinct(es: seq<TarEntry>) {
    forall i, j :: 0 <= i < j < |es| ==> PathOf(es[i]) != PathOf(es[j])
  }

  lemma FitsUnpackable(l: Limits, root: Path, e: TarEntry)
    requires AllNormal(root)
    ensures Fits(l, e) <==>
              Unpackable(l, root, e) && (e.kind.LinkKind? && PathOf(e) != [] ==> PortableLink(PathOf(e), e.link))
  {
    hide PortableLink, LinkBelow;
    if EntryName(e.name).Name? && PortableLink(PathOf(e), e.link) {
      PortableIsBelow(root, PathOf(e), e.link);
    }
  }

  lemma AgreeCoexist(e: TarEntry, later: TarEntry)
    ensures Agree(e, later) && NotAbove(e, later) <==> Coexist(e, later) && PathOf(e) != PathOf(later)
  {
    hide PathOf;
  }

  /** The selective form extracts whole exactly what ExtractTar extracts with portable links and no path twice. */
  lemma TheDifference(l: Limits, root: Path, es: seq<TarEntry>)
    requires AllNormal(root)
    ensures Acceptable(l, es) && NoLateParent(es) <==> Unpacks(l, root, es) && LinksPortable(es) && PathsDistinct(es)
  {
    hide PathOf, Fits, Unpackable, Agree, NotAbove, Coexist, PortableLink;
    forall i | 0 <= i < |es|
      ensures Fits(l, es[i]) <==>
              Unpackable(l, root, es[i]) && (es[i].kind.LinkKind? && PathOf(es[i]) != [] ==>
                  PortableLink(PathOf(es[i]), es[i].link))
    {
      FitsUnpackable(l, root, es[i]);
    }
    forall i, j | 0 <= i < j < |es|
      ensures Agree(es[i], es[j]) && NotAbove(es[i], es[j]) <==> Coexist(es[i], es[j]) && PathOf(es[i]) != PathOf(es[j])
    {
      AgreeCoexist(es[i], es[j]);
    }
  }

  /**
    ExtractTar, stated by the entries: it accepts exactly archives within the limits whose entries can be
    written one by one and coexist. The scan accepts with it exactly when, besides, links are portable and
    no path occurs twice; what only the scan accepts has a file or link after an entry below it.
   */
  lemma ExtractTarAccepts(limits: Limits, fs: Fs, root: Path, a: Archive)
    requires Rooted(fs) && AllNormal(root) && PrepareDestination(fs, root).ok && WithDefaults(limits).Some?
    ensures UnpackResult(limits, fs, root, a).ok <==> !a.broken && Unpacks(WithDefaults(limits).value, root, a.entries)
    ensures ScanResult(limits, a).Some? && NoLateParent(a.entries) <==>
            UnpackResult(limits, fs, root, a).ok && LinksPortable(a.entries) && PathsDistinct(a.entries)
  {
    hide PrepareDestination, WithDefaults, Ready, Untouched, PreparedFrom, Rooted, UnpackRun, UnpackResult, ScanRun,
         Unpacks, Acceptable, NoLateParent, LinksPortable, PathsDistinct, Exact, WithTheirModes, FromEntries, Summary,
         Seen;
    var l, base := WithDefaults(limits).value, PrepareDestination(fs, root).fs;
    Preparation(fs, root);
    var at :| Ready(base, root, at) && Untouched(base, at) && PreparedFrom(fs, base, at);
    UnpackAccepts(l, root, base, at, a.entries);
    UnpackingStaysBelow(limits, fs, root, a);
    TheDifference(l, root, a.entries);
    ScanAccepts(l, a.entries);
  }

  /** Both differences occur: a directory given twice... */
  lemma DirectoryTwice(l: Limits, root: Path, e: TarEntry)
    requires Positive(l) && l.entries >= 2 && e.kind.DirKind? && EntryName(e.name).Name? && |PathOf(e)| <= l.depth
    ensures Unpacks(l, root, [e, e]) && !Acceptable(l, [e, e])
  {
    hide EntryName;
    var es := [e, e];
    assert es[..1] == [e] && [e][..0] == [];
    assert TotalSize([e]) == 0 && TotalSize(es) == 0;
    assert es[0] == e && es[1] == e;
    assert !Agree(es[0], es[1]);
  }

  /** ... and a link that leaves the root and returns by spelling its name. */
  lemma RootSpelled(l: Limits, root: string, file: string, rest: string, e: TarEntry)
    requires Positive(l) && Normal(file) && Normal(root) && '\0' !in root && '\\' !in root
    requires Normal(rest) && '\0' !in rest && '\\' !in rest
    requires e.kind.LinkKind? && EntryName(e.name) == Name([file]) && e.link == UP + "/" + (root + "/" + rest)
    ensures Unpacks(l, [root], [e]) && !Acceptable(l, [e])
  {
    hide EntryName, LinkBelow, PortableLink;
    SpellingTheRoot(root, file, rest);
    var es := [e];
    assert es[..0] == [] && es[0] == e;
    assert TotalSize(es) == 0;
    assert Unpackable(l, [root], es[0]) && !Fits(l, es[0]);
  }

  // In the numbers the caller gives

  /** The scan succeeds exactly on these archives; a zero limit stands for the number beside it. */
  lemma ScanTarAccepts(limits: Limits, a: Archive)
    ensures ScanResult(limits, a).Some? <==>
            && 0 <= limits.entries && 0 <= limits.entrySize && 0 <= limits.total && 0 <= limits.depth
            && !a.broken
            && |a.entries| <= (if limits.entries == 0 then 100_000 else limits.entries)
            && TotalSize(a.entries) <= (if limits.total == 0 then 16 * 1024 * 1024 * 1024 else limits.total)
            && (forall i :: 0 <= i < |a.entries| ==>
                  && EntryName(a.entries[i].name).Name?
                  && |PathOf(a.entries[i])| <= (if limits.depth == 0 then 64 else limits.depth)
                  && match a.entries[i].kind
                     case FileKind =>
                       && 0 <= a.entries[i].size <= |a.entries[i].payload|
                       && a.entries[i].size <=
                            (if limits.entrySize == 0 then 4 * 1024 * 1024 * 1024 else limits.entrySize)
                     case DirKind => true
                     case LinkKind => PortableLink(PathOf(a.entries[i]), a.entries[i].link)
                     case OtherKind => false)
            && (forall i, j :: 0 <= i < j < |a.entries| ==>
                  && PathOf(a.entries[i]) != PathOf(a.entries[j])
                  && (StrictlyBelow(PathOf(a.entries[i]), PathOf(a.entries[j])) ==> a.entries[i].kind == DirKind))
  {
    hide PathOf, EntryName, PortableLink, TotalSize, StrictlyBelow, ScanRun, Summary, Seen;
    if WithDefaults(limits).Some? {
      ScanAccepts(WithDefaults(limits).value, a.entries);
    }
  }

  /** What a turn of the selective loop has checked, written or not. */
  lemma {:induction false} SelectiveWithin(l: Limits, root: Path, select: Selector, base: Fs, es: seq<TarEntry>)
    requires Positive(l)
    ensures var s := ExtractRun(l, root, select, base, es);
            s.ok ==>
              && s.tally.entries == |es| <= l.entries && s.tally.bytes == TotalSize(es) <= l.total
              && forall i :: 0 <= i < |es| ==>
                   |PathOf(es[i])| <= l.depth && (es[i].kind.FileKind? ==> 0 <= es[i].size <= l.entrySize)
    decreases |es|
  {
    if es != [] {
      hide PathOf, ExtractStep, SizeOf;
      var front, e := es[..|es| - 1], es[|es| - 1];
      SelectiveWithin(l, root, select, base, front);
      if ExtractRun(l, root, select, base, es).ok {
        TurnWithin(l, root, select, ExtractRun(l, root, select, base, front), e);
      }
      assert forall i :: 0 <= i < |es| - 1 ==> es[i] == front[i];
    }
  }

  lemma TurnWithin(l: Limits, root: Path, select: Selector, s: Extracting, e: TarEntry)
    requires ExtractStep(l, root, select, s, e).ok
    ensures var t := ExtractStep(l, root, select, s, e);
            && s.ok && t.tally.entries == s.tally.entries + 1 <= l.entries
            && t.tally.bytes == s.tally.bytes + SizeOf(e) && (t.tally.bytes <= l.total || SizeOf(e) == 0)
            && |PathOf(e)| <= l.depth && (e.kind.FileKind? ==> 0 <= e.size <= l.entrySize)
  {
    hide SafeJoin, Materialise, PortableLink, NodeOf;
  }

  /** Whichever reader succeeds, it has kept the limits it was given. */
  lemma GivenLimitsHold(limits: Limits, fs: Fs, root: Path, a: Archive, select: Selector)
    requires Rooted(fs) && AllNormal(root)
    requires || ScanResult(limits, a).Some? || ExtractResult(limits, fs, root, a, select).summary.Some?
             || UnpackResult(limits, fs, root, a).ok
    ensures 0 <= limits.entries && 0 <= limits.entrySize && 0 <= limits.total && 0 <= limits.depth
    ensures |a.entries| <= if limits.entries == 0 then 100_000 else limits.entries
    ensures TotalSize(a.entries) <= if limits.total == 0 then 16 * 1024 * 1024 * 1024 else limits.total
    ensures forall i :: 0 <= i < |a.entries| ==>
              && |PathOf(a.entries[i])| <= (if limits.depth == 0 then 64 else limits.depth)
              && (a.entries[i].kind.FileKind? ==>
                    0 <= a.entries[i].size <=
                      if limits.entrySize == 0 then 4 * 1024 * 1024 * 1024 else limits.entrySize)
  {
    hide PathOf, TotalSize, StrictlyBelow, ExtractRun, UnpackRun, PrepareDestination, Rooted, ApplyModes, DeepestFirst,
         ScanResult, Unpackable, AllCoexist, LinkBelow, PortableLink, EntryName, LinksPortable, PathsDistinct,
           NoLateParent;
    if ScanResult(limits, a).Some? {
      ScanTarAccepts(limits, a);
    } else if ExtractResult(limits, fs, root, a, select).summary.Some? {
      SelectiveWithin(WithDefaults(limits).value, root, select, PrepareDestination(fs, root).fs, a.entries);
    } else {
      var l := WithDefaults(limits).value;
      ExtractTarAccepts(limits, fs, root, a);
      forall i | 0 <= i < |a.entries| ensures Unpackable(l, root, a.entries[i]) {
      }
      UnpackableWithin(l, root, a.entries);
    }
  }

  lemma UnpackableWithin(l: Limits, root: Path, es: seq<TarEntry>)
    requires AllUnpackable(l, root, es)
    ensures forall i :: 0 <= i < |es| ==>
              |PathOf(es[i])| <= l.depth && (es[i].kind.FileKind? ==> 0 <= es[i].size <= l.entrySize)
  {
    hide LinkBelow, PathOf, EntryName;
    forall i | 0 <= i < |es|
      ensures |PathOf(es[i])| <= l.depth && (es[i].kind.FileKind? ==> 0 <= es[i].size <= l.entrySize)
    {
      assert Unpackable(l, root, es[i]);
    }
  }
}
