/** Archives as sequences of entries, the policy both readers share, and the scan. */
module Archives {
  import opened Wrappers
  import opened Bytes
  import opened Paths
  import opened Links

  datatype Kind = FileKind | DirKind | LinkKind | OtherKind

  /** A tar entry: the declared size, and the payload the stream still holds for it. */
  datatype TarEntry = TarEntry(name: string, kind: Kind, size: int, mode: nat, link: string, payload: Bytes)

  /** The stream of entries; `broken` if reading a further header fails instead of reporting the end. */
  datatype Archive = Archive(entries: seq<TarEntry>, broken: bool)

  datatype Limits = Limits(entries: int, entrySize: int, total: int, depth: int)

  const DEFAULTS: Limits := Limits(100_000, 0x1_0000_0000, 0x4_0000_0000, 64)

  function OrDefault(n: int, d: int): int {
    if n == 0 then d else n
  }

  /** withDefaults: negative limits are an error, zero ones stand for the defaults. */
  function WithDefaults(l: Limits): (r: Option<Limits>)
    ensures r.Some? <==> l.entries >= 0 && l.entrySize >= 0 && l.total >= 0 && l.depth >= 0
    ensures r.Some? ==> Positive(r.value)
    ensures r.Some? ==> r.value.entries == if l.entries == 0 then 100_000 else l.entries
    ensures r.Some? ==> r.value.entrySize == if l.entrySize == 0 then 4 * 1024 * 1024 * 1024 else l.entrySize
    ensures r.Some? ==> r.value.total == if l.total == 0 then 16 * 1024 * 1024 * 1024 else l.total
    ensures r.Some? ==> r.value.depth == if l.depth == 0 then 64 else l.depth
  {
    if l.entries < 0 || l.entrySize < 0 || l.total < 0 || l.depth < 0 then None
    else Some(Limits(OrDefault(l.entries, DEFAULTS.entries), OrDefault(l.entrySize, DEFAULTS.entrySize),
                     OrDefault(l.total, DEFAULTS.total), OrDefault(l.depth, DEFAULTS.depth)))
  }

  predicate Positive(l: Limits) {
    l.entries > 0 && l.entrySize > 0 && l.total > 0 && l.depth > 0
  }

  /** The entry as callers see it; its path by segments, which determine the text and are determined by it. */
  datatype Entry = Entry(path: Path, kind: Kind, size: int, mode: nat, link: string)

  datatype Tally = Tally(entries: nat, files: nat, dirs: nat, links: nat, bytes: int)

  const ZERO: Tally := Tally(0, 0, 0, 0, 0)

  predicate Whole(e: TarEntry) {
    0 <= e.size <= |e.payload|
  }

  datatype Admission = Admitted(entry: Entry, tally: Tally) | Rejected

  /** The checks that extraction and scanning make alike. */
  function Admit(l: Limits, t: Tally, seen: map<Path, Kind>, e: TarEntry): (r: Admission)
    ensures r.Admitted? ==> r.entry.path != [] && AllNormal(r.entry.path) && r.entry.path !in seen
  {
    if t.entries + 1 > l.entries then Rejected
    else
      match EntryName(e.name)
      case BadName => Rejected
      case Name(path) =>
        if |path| > l.depth || path in seen then Rejected
        else
          match e.kind
          case FileKind =>
            if e.size < 0 || e.size > l.entrySize || t.bytes > l.total - e.size then Rejected
            else Admitted(Entry(path, FileKind, e.size, e.mode % 512, ""),
                          t.(entries := t.entries + 1, files := t.files + 1, bytes := t.bytes + e.size))
          case DirKind =>
            Admitted(Entry(path, DirKind, 0, e.mode % 512, ""), t.(entries := t.entries + 1, dirs := t.dirs + 1))
          case LinkKind =>
            if !PortableLink(path, e.link) then Rejected
            else Admitted(Entry(path, LinkKind, 0, e.mode % 512, e.link),
                          t.(entries := t.entries + 1, links := t.links + 1))
          case OtherKind => Rejected
  }

  datatype Scanning = Scanning(tally: Tally, seen: map<Path, Kind>) | ScanFailed

  predicate ParentsAreDirs(seen: map<Path, Kind>, path: Path) {
    forall k :: 0 < k < |path| && path[..k] in seen ==> seen[path[..k]] == DirKind
  }

  function ScanStep(l: Limits, s: Scanning, e: TarEntry): Scanning {
    if s.ScanFailed? then s
    else
      match Admit(l, s.tally, s.seen, e)
      case Rejected => ScanFailed
      case Admitted(entry, tally) =>
        if ParentsAreDirs(s.seen, entry.path) && (e.kind.FileKind? ==> Whole(e)) then
            Scanning(tally, s.seen[entry.path := e.kind])
        else ScanFailed
  }

  function ScanRun(l: Limits, es: seq<TarEntry>): Scanning {
    if es == [] then Scanning(ZERO, map[]) else ScanStep(l, ScanRun(l, es[..|es| - 1]), es[|es| - 1])
  }

  function ScanResult(limits: Limits, a: Archive): Option<Tally> {
    match WithDefaults(limits)
    case None => None
    case Some(l) =>
      match ScanRun(l, a.entries)
      case ScanFailed => None
      case Scanning(tally, _) => if a.broken then None else Some(tally)
  }

  /** A failed scan stays failed. */
  lemma {:induction false} ScanStays(l: Limits, es: seq<TarEntry>, n: nat)
    requires n <= |es| && ScanRun(l, es[..n]).ScanFailed?
    ensures ScanRun(l, es).ScanFailed?
    decreases |es| - n
  {
    if n == |es| {
      assert es[..n] == es;
    } else {
      assert es[..n + 1][..n] == es[..n];
      ScanStays(l, es, n + 1);
    }
  }

  /** The checks of Admit, in the order the source makes them. */
  method CheckEntry(l: Limits, t: Tally, seen: map<Path, Kind>, e: TarEntry) returns (r: Admission)
    ensures r == Admit(l, t, seen, e)
  {
    hide EntryName, PortableLink;
    var entries := t.entries + 1;
    if entries > l.entries { return Rejected; }
    var name := ValidateEntryName(e.name);
    if name.BadName? { return Rejected; }
    var path := name.segments;
    if |path| > l.depth { return Rejected; }
    if path in seen { return Rejected; }
    var entry := Entry(path, e.kind, 0, e.mode % 512, "");
    match e.kind
    case FileKind =>
      if e.size < 0 || e.size > l.entrySize { return Rejected; }
      if t.bytes > l.total - e.size { return Rejected; }
      r := Admitted(entry.(size := e.size), t.(entries := entries, files := t.files + 1, bytes := t.bytes + e.size));
    case DirKind =>
      r := Admitted(entry, t.(entries := entries, dirs := t.dirs + 1));
    case LinkKind =>
      if !PortableLink(path, e.link) { return Rejected; }
      r := Admitted(entry.(link := e.link), t.(entries := entries, links := t.links + 1));
    case OtherKind =>
      r := Rejected;
  }

  /** The climb over the parents of a name. */
  method CheckParents(seen: map<Path, Kind>, path: Path) returns (ok: bool)
    ensures ok == ParentsAreDirs(seen, path)
  {
    var k := |path| - 1;
    while k > 0
      invariant path != [] ==> 0 <= k < |path|
      invariant forall j :: 0 <= k < j < |path| && path[..j] in seen ==> seen[path[..j]] == DirKind
    {
      if path[..k] in seen && seen[path[..k]] != DirKind { return false; }
      k := k - 1;
    }
    return true;
  }

  /** Shown each entry; an answer of false stops the scan. */
  type Visitor = Entry -> bool

  ghost predicate AllVisited(visit: Visitor, es: seq<TarEntry>) {
    forall i :: 0 <= i < |es| ==> visit(EntryOf(es[i]))
  }

  /** ScanTar: reads the whole stream, writes nothing. */
  method ScanTar(limits: Limits, a: Archive, visit: Visitor) returns (r: Option<Tally>)
    ensures r == if AllVisited(visit, a.entries) then ScanResult(limits, a) else None
  {
    hide Admit, ParentsAreDirs, WithDefaults, EntryOf, Whole, SizeOf, Fits;
    var defaulted := WithDefaults(limits);
    if defaulted.None? { return None; }
    var l := defaulted.value;
    var seen: map<Path, Kind> := map[];
    var tally := ZERO;
    for i := 0 to |a.entries|
      invariant ScanRun(l, a.entries[..i]) == Scanning(tally, seen)
      invariant forall j :: 0 <= j < i ==> visit(EntryOf(a.entries[j]))
    {
      var e := a.entries[i];
      assert a.entries[..i + 1][..i] == a.entries[..i];
      assert ScanRun(l, a.entries[..i + 1]) == ScanStep(l, Scanning(tally, seen), e);
      if ScanRun(l, a.entries[..i + 1]).ScanFailed? {
        ScanStays(l, a.entries, i + 1);
      }
      var admission := CheckEntry(l, tally, seen, e);
      if admission.Rejected? { return None; }
      var parents := CheckParents(seen, admission.entry.path);
      if !parents { return None; }
      if e.kind.FileKind? && !Whole(e) { return None; }
      AdmitMeans(l, tally, seen, e);
      if !visit(admission.entry) { return None; }
      tally, seen := admission.tally, seen[admission.entry.path := e.kind];
    }
    assert a.entries[..|a.entries|] == a.entries;
    return if a.broken then None else Some(tally);
  }

  // What a scan accepts

  function PathOf(e: TarEntry): Path {
    match EntryName(e.name)
    case Name(path) => path
    case BadName => []
  }

  function SizeOf(e: TarEntry): int {
    if e.kind.FileKind? then e.size else 0
  }

  function TotalSize(es: seq<TarEntry>): int {
    if es == [] then 0 else TotalSize(es[..|es| - 1]) + SizeOf(es[|es| - 1])
  }

  function CountKind(es: seq<TarEntry>, k: Kind): nat {
    if es == [] then 0 else CountKind(es[..|es| - 1], k) + if es[|es| - 1].kind == k then 1 else 0
  }

  function OfKind(es: seq<TarEntry>, k: Kind): set<nat> {
    set i: nat | i < |es| && es[i].kind == k
  }

  lemma OfKindLast(es: seq<TarEntry>, k: Kind)
    requires es != []
    ensures var n := |es| - 1; OfKind(es, k) == OfKind(es[..n], k) + (if es[n].kind == k then {n} else {})
    ensures |es| - 1 !in OfKind(es[..|es| - 1], k)
  {
  }

  /** Counting is what it says. */
  lemma {:induction false} CountMeans(es: seq<TarEntry>, k: Kind)
    ensures CountKind(es, k) == |OfKind(es, k)|
    decreases |es|
  {
    if es != [] {
      hide OfKind;
      CountMeans(es[..|es| - 1], k);
      OfKindLast(es, k);
    } else {
      assert OfKind(es, k) == {};
    }
  }

  function Summary(es: seq<TarEntry>): Tally {
    Tally(|es|, CountKind(es, FileKind), CountKind(es, DirKind), CountKind(es, LinkKind), TotalSize(es))
  }

  /** An entry acceptable on its own. */
  predicate Fits(l: Limits, e: TarEntry) {
    && EntryName(e.name).Name? && |PathOf(e)| <= l.depth
    && match e.kind
       case FileKind => 0 <= e.size <= l.entrySize && Whole(e)
       case DirKind => true
       case LinkKind => PortableLink(PathOf(e), e.link)
       case OtherKind => false
  }

  /** The entry a caller is shown. */
  function EntryOf(e: TarEntry): Entry {
    Entry(PathOf(e), e.kind, SizeOf(e), e.mode % 512, if e.kind.LinkKind? then e.link else "")
  }

  predicate StrictlyBelow(p: Path, q: Path) {
    0 < |p| < |q| && q[..|p|] == p
  }

  /** Entries acceptable beside each other. */
  ghost predicate Agree(e: TarEntry, later: TarEntry) {
    PathOf(e) != PathOf(later) && (StrictlyBelow(PathOf(e), PathOf(later)) ==> e.kind.DirKind?)
  }

  ghost predicate AgreesWithAll(es: seq<TarEntry>, e: TarEntry) {
    forall i :: 0 <= i < |es| ==> Agree(es[i], e)
  }

  ghost predicate Pairwise(es: seq<TarEntry>) {
    forall i, j :: 0 <= i < j < |es| ==> Agree(es[i], es[j])
  }

  ghost predicate AllFit(l: Limits, es: seq<TarEntry>) {
    forall i :: 0 <= i < |es| ==> Fits(l, es[i])
  }

  ghost predicate Acceptable(l: Limits, es: seq<TarEntry>) {
    |es| <= l.entries && TotalSize(es) <= l.total && AllFit(l, es) && Pairwise(es)
  }

  /** The table of what was seen holds exactly the entries so far. */
  ghost predicate Seen(seen: map<Path, Kind>, es: seq<TarEntry>) {
    && (forall i :: 0 <= i < |es| ==> PathOf(es[i]) in seen && seen[PathOf(es[i])] == es[i].kind)
    && forall p :: p in seen ==> exists i :: 0 <= i < |es| && PathOf(es[i]) == p
  }

  lemma SeenMore(seen: map<Path, Kind>, es: seq<TarEntry>, e: TarEntry)
    requires Seen(seen, es) && PathOf(e) !in seen
    ensures Seen(seen[PathOf(e) := e.kind], es + [e])
  {
    hide PathOf;
    var more, all := seen[PathOf(e) := e.kind], es + [e];
    forall p | p in more ensures exists i :: 0 <= i < |all| && PathOf(all[i]) == p {
      if p in seen {
        var i :| 0 <= i < |es| && PathOf(es[i]) == p;
        assert all[i] == es[i];
      } else {
        assert all[|es|] == e;
      }
    }
  }

  /** The two tests against the table are the test against each earlier entry. */
  lemma TableMeans(seen: map<Path, Kind>, es: seq<TarEntry>, e: TarEntry)
    requires Seen(seen, es) && PathOf(e) != [] && forall i :: 0 <= i < |es| ==> PathOf(es[i]) != []
    ensures PathOf(e) !in seen && ParentsAreDirs(seen, PathOf(e)) <==> AgreesWithAll(es, e)
  {
    hide PathOf;
    var path := PathOf(e);
    if path !in seen && ParentsAreDirs(seen, path) {
      forall i | 0 <= i < |es| ensures Agree(es[i], e) {
        var p := PathOf(es[i]);
        assert StrictlyBelow(p, path) ==> path[..|p|] in seen;
      }
    }
    if AgreesWithAll(es, e) {
      forall k | 0 < k < |path| && path[..k] in seen ensures seen[path[..k]] == DirKind {
        var i :| 0 <= i < |es| && PathOf(es[i]) == path[..k];
        assert Agree(es[i], e);
        assert StrictlyBelow(PathOf(es[i]), path);
      }
    }
  }

  lemma PairwiseSnoc(es: seq<TarEntry>, e: TarEntry)
    ensures Pairwise(es + [e]) <==> Pairwise(es) && AgreesWithAll(es, e)
  {
    hide Agree;
    var all := es + [e];
    assert all[|es|] == e && forall i :: 0 <= i < |es| ==> all[i] == es[i];
    if Pairwise(all) {
      forall i | 0 <= i < |es| ensures Agree(es[i], e) {
        assert Agree(all[i], all[|es|]);
      }
      forall i, j | 0 <= i < j < |es| ensures Agree(es[i], es[j]) {
        assert Agree(all[i], all[j]);
      }
    }
  }

  lemma AllFitSnoc(l: Limits, es: seq<TarEntry>, e: TarEntry)
    ensures AllFit(l, es + [e]) <==> AllFit(l, es) && Fits(l, e)
  {
    hide Fits;
    var all := es + [e];
    assert all[|es|] == e && forall i :: 0 <= i < |es| ==> all[i] == es[i];
    if AllFit(l, all) {
      forall i | 0 <= i < |es| ensures Fits(l, es[i]) {
        assert Fits(l, all[i]);
      }
    }
  }

  lemma AcceptableSnoc(l: Limits, es: seq<TarEntry>, e: TarEntry)
    ensures Acceptable(l, es + [e]) <==>
            Acceptable(l, es) && |es| + 1 <= l.entries && TotalSize(es) + SizeOf(e) <= l.total && Fits(l, e)
              && AgreesWithAll(es, e)
  {
    hide Fits, SizeOf, AllFit, Pairwise, AgreesWithAll;
    PairwiseSnoc(es, e);
    AllFitSnoc(l, es, e);
    var all := es + [e];
    assert all[..|all| - 1] == es && all[|es|] == e;
    if Fits(l, e) {
      FitsSize(l, e);
    }
  }

  lemma FitsSize(l: Limits, e: TarEntry)
    requires Fits(l, e)
    ensures SizeOf(e) >= 0 && PathOf(e) != []
  {
  }

  /** What Admit asks, entry by entry. */
  lemma AdmitMeans(l: Limits, t: Tally, seen: map<Path, Kind>, e: TarEntry)
    ensures Admit(l, t, seen, e).Admitted? && (e.kind.FileKind? ==> Whole(e)) <==>
            t.entries + 1 <= l.entries && Fits(l, e) && PathOf(e) !in seen
              && (e.kind.FileKind? ==> t.bytes + e.size <= l.total)
    ensures var r := Admit(l, t, seen, e);
            r.Admitted? ==> r.entry == EntryOf(e) && PathOf(e) != [] && AllNormal(PathOf(e)) && PathOf(e) !in seen
                            && r.tally == Tally(t.entries + 1, t.files + (if e.kind.FileKind? then 1 else 0),
                                                t.dirs + (if e.kind.DirKind? then 1 else 0),
                                                t.links + (if e.kind.LinkKind? then 1 else 0), t.bytes + SizeOf(e))
  {
    hide EntryName, PortableLink;
    assert EntryName(e.name).Name? ==> AllNormal(PathOf(e)) && PathOf(e) != [];
  }

  lemma SummarySnoc(es: seq<TarEntry>, e: TarEntry)
    ensures var t := Summary(es);
            Summary(es + [e]) == Tally(t.entries + 1, t.files + (if e.kind.FileKind? then 1 else 0),
                                       t.dirs + (if e.kind.DirKind? then 1 else 0),
                                       t.links + (if e.kind.LinkKind? then 1 else 0), t.bytes + SizeOf(e))
  {
    hide SizeOf;
    var all := es + [e];
    assert all[..|all| - 1] == es && all[|es|] == e;
  }

  /** One step of the scan, against the entries it has accepted so far. */
  lemma AcceptStep(l: Limits, s: Scanning, es: seq<TarEntry>, e: TarEntry)
    requires Positive(l) && s.Scanning? && Acceptable(l, es) && s.tally == Summary(es) && Seen(s.seen, es)
    ensures ScanStep(l, s, e).Scanning? <==> Acceptable(l, es + [e])
    ensures ScanStep(l, s, e).Scanning? ==>
              ScanStep(l, s, e).tally == Summary(es + [e]) && Seen(ScanStep(l, s, e).seen, es + [e])
  {
    hide Fits, Admit, PathOf, Agree, ParentsAreDirs, Seen, TotalSize, CountKind, Whole, Pairwise;
    AcceptableSnoc(l, es, e);
    AdmitMeans(l, s.tally, s.seen, e);
    SummarySnoc(es, e);
    forall i | 0 <= i < |es| ensures PathOf(es[i]) != [] {
      FitsSize(l, es[i]);
    }
    if Fits(l, e) {
      FitsSize(l, e);
      TableMeans(s.seen, es, e);
    }
    if PathOf(e) !in s.seen {
      SeenMore(s.seen, es, e);
    }
  }

  /** A scan succeeds exactly on acceptable entries, and reports what they add up to. */
  lemma {:induction false} ScanAccepts(l: Limits, es: seq<TarEntry>)
    requires Positive(l)
    ensures ScanRun(l, es).Scanning? <==> Acceptable(l, es)
    ensures ScanRun(l, es).Scanning? ==> ScanRun(l, es).tally == Summary(es) && Seen(ScanRun(l, es).seen, es)
    decreases |es|
  {
    if es == [] {
      assert Acceptable(l, es);
    } else {
      hide Fits, PathOf, AgreesWithAll, SizeOf, Seen, ScanStep, Acceptable;
      var front, e := es[..|es| - 1], es[|es| - 1];
      assert es == front + [e];
      ScanAccepts(l, front);
      if ScanRun(l, front).Scanning? {
        AcceptStep(l, ScanRun(l, front), front, e);
      } else {
        FailedStays(l, e);
        AcceptableSnoc(l, front, e);
      }
    }
  }

  lemma FailedStays(l: Limits, e: TarEntry)
    ensures ScanStep(l, ScanFailed, e).ScanFailed?
  {
  }
}
