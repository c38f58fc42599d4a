/** Which entries the application selects, when protecting and when restoring. */
module Choosing {
  import opened Paths
  import opened Selection
  import opened Matcher
  import opened Trees
  import Creation
  import Extraction

  const VCS_PATTERNS: seq<string> := ["**/.git/**", "**/.hg/**", "**/.svn/**"]
  const CACHE_PATTERNS: seq<string> := ["**/.cache/**", "**/__pycache__/**", "**/node_modules/**"]
  const PROBE: string := "validation/path"

  // Text prefixes are path prefixes

  lemma {:induction false} JoinConcat(p: Path, q: Path)
    requires p != [] && q != []
    ensures Join(p + q) == Join(p) + "/" + Join(q)
    decreases |p|
  {
    if |p| == 1 {
      assert p + q == [p[0]] + q && (p + q)[1..] == q;
    } else {
      assert (p + q)[1..] == p[1..] + q;
      JoinConcat(p[1..], q);
      assert Join(p + q) == p[0] + "/" + (Join(p[1..]) + "/" + Join(q));
    }
  }

  /** A name equals a text or is followed by a slash in it exactly when its segments start the text's. */
  lemma PrefixBySegments(p: Path, s: string)
    requires AllNormal(p) && p != []
    ensures Join(p) == s || Join(p) + "/" <= s <==> p <= Split(s)
  {
    hide Split, Join;
    JoinSplit(s);
    SplitJoin(p);
    var segs := Split(s);
    if p <= segs {
      var rest := segs[|p|..];
      assert p + rest == segs;
      if rest == [] {
        assert p == segs;
      } else {
        JoinConcat(p, rest);
        assert s == Join(p) + "/" + Join(rest);
      }
    }
    if Join(p) + "/" <= s {
      var u := s[|Join(p)| + 1..];
      assert s == Join(p) + "/" + u;
      SplitConcat(Join(p), u);
    }
  }

  // Protecting

  function ExcludePatterns(excludes: seq<string>, vcs: bool, cache: bool): seq<string> {
    excludes + (if vcs then VCS_PATTERNS else []) + if cache then CACHE_PATTERNS else []
  }

  /** The pattern up to its first meta character, without a trailing slash. */
  function Literal(pattern: string): string {
    TrimSlash(UpToMeta(pattern))
  }

  function UpToMeta(pattern: string): string {
    if pattern == "" || pattern[0] in "*?[" then "" else [pattern[0]] + UpToMeta(pattern[1..])
  }

  function TrimSlash(s: string): string {
    if s != "" && s[|s| - 1] == '/' then s[..|s| - 1] else s
  }

  predicate CouldContain(pattern: string, dir: string) {
    Literal(pattern) == dir || dir + "/" <= Literal(pattern) || STARS + "/" <= pattern
  }

  /** couldContain: the directory is on the way into the pattern's literal part, or the pattern may start anywhere. */
  lemma CouldContainMeans(pattern: string, dir: Path)
    requires AllNormal(dir) && dir != []
    ensures CouldContain(pattern, Join(dir)) <==> dir <= Split(Literal(pattern)) || STARS + "/" <= pattern
  {
    hide Literal;
    PrefixBySegments(dir, Literal(pattern));
  }

  lemma MetaStep(pattern: string, i: nat)
    requires i < |pattern| && pattern[i] !in "*?["
    ensures pattern[..i] + UpToMeta(pattern[i..]) == pattern[..i + 1] + UpToMeta(pattern[i + 1..])
  {
    assert pattern[i..][1..] == pattern[i + 1..] && pattern[i..][0] == pattern[i];
    assert pattern[..i + 1] == pattern[..i] + [pattern[i]];
  }

  lemma MetaEnd(pattern: string, i: nat)
    requires i <= |pattern| && (i < |pattern| ==> pattern[i] in "*?[")
    ensures pattern[..i] + UpToMeta(pattern[i..]) == pattern[..i]
  {
  }

  method FindLiteral(pattern: string) returns (literal: string)
    ensures literal == Literal(pattern)
  {
    hide UpToMeta;
    var i := 0;
    assert pattern[..0] + UpToMeta(pattern[0..]) == UpToMeta(pattern) by {
      assert pattern[0..] == pattern;
    }
    while i < |pattern| && pattern[i] !in "*?["
      invariant i <= |pattern|
      invariant UpToMeta(pattern) == pattern[..i] + UpToMeta(pattern[i..])
    {
      MetaStep(pattern, i);
      i := i + 1;
    }
    MetaEnd(pattern, i);
    return TrimSlash(pattern[..i]);
  }

  method TestContain(pattern: string, dir: string) returns (could: bool)
    ensures could == CouldContain(pattern, dir)
  {
    hide Literal;
    var literal := FindLiteral(pattern);
    return literal == dir || dir + "/" <= literal || STARS + "/" <= pattern;
  }

  /** The first pattern to match or to fail decides. */
  function AnyMatch(m: SegmentMatch, ps: seq<string>, name: string): Outcome {
    if ps == [] then Value(false)
    else
      var r := MatchName(m, ps[0], name);
      if r == Value(false) then AnyMatch(m, ps[1..], name) else r
  }

  function IncludeMatch(m: SegmentMatch, ps: seq<string>, name: string, dir: bool): Creation.Decision {
    if ps == [] then Creation.Exclude
    else
      match MatchName(m, ps[0], name)
      case Bad => Creation.Stop
      case Value(matched) =>
        if matched || (dir && CouldContain(ps[0], name)) then Creation.Include else IncludeMatch(m, ps[1..], name, dir)
  }

  function Decide(m: SegmentMatch, patterns: seq<string>, includes: seq<string>, name: string,
                  dir: bool): Creation.Decision {
    match AnyMatch(m, patterns, name)
    case Bad => Creation.Stop
    case Value(matched) =>
      if matched then (if dir then Creation.Prune else Creation.Exclude)
      else if includes == [] then Creation.Include
      else IncludeMatch(m, includes, name, dir)
  }

  /** The select closure. */
  method Select(m: SegmentMatch, patterns: seq<string>, includes: seq<string>, name: string, dir: bool)
    returns (d: Creation.Decision)
    ensures d == Decide(m, patterns, includes, name, dir)
  {
    hide MatchName, CouldContain, Literal;
    for i := 0 to |patterns|
      invariant AnyMatch(m, patterns, name) == AnyMatch(m, patterns[i..], name)
    {
      assert patterns[i..][1..] == patterns[i + 1..];
      var r := Match(m, patterns[i], name);
      if r.Bad? { return Creation.Stop; }
      if r.matched { return if dir then Creation.Prune else Creation.Exclude; }
    }
    if |includes| == 0 { return Creation.Include; }
    for i := 0 to |includes|
      invariant IncludeMatch(m, includes, name, dir) == IncludeMatch(m, includes[i..], name, dir)
    {
      assert includes[i..][1..] == includes[i + 1..];
      var r := Match(m, includes[i], name);
      if r.Bad? { return Creation.Stop; }
      if r.matched { return Creation.Include; }
      if dir {
        var could := TestContain(includes[i], name);
        if could { return Creation.Include; }
      }
    }
    return Creation.Exclude;
  }

  /** Every pattern is tried against a fixed name before the walk. */
  method CreateSelectionOptions(m: SegmentMatch, includes: seq<string>, excludes: seq<string>, vcs: bool, cache: bool)
    returns (ok: bool, patterns: seq<string>)
    ensures patterns == ExcludePatterns(excludes, vcs, cache)
    ensures ok <==> forall p :: p in includes + patterns ==> MatchName(m, p, PROBE).Value?
  {
    hide MatchName;
    patterns := excludes;
    if vcs { patterns := patterns + VCS_PATTERNS; }
    if cache { patterns := patterns + CACHE_PATTERNS; }
    var all := includes + patterns;
    for i := 0 to |all|
      invariant forall p :: p in all[..i] ==> MatchName(m, p, PROBE).Value?
    {
      assert all[..i + 1] == all[..i] + [all[i]];
      var r := Match(m, all[i], PROBE);
      if r.Bad? { return false, patterns; }
    }
    assert all[..|all|] == all;
    return true, patterns;
  }

  ghost predicate SomeMatch(m: SegmentMatch, ps: seq<string>, name: string) {
    exists p :: p in ps && MatchName(m, p, name) == Value(true)
  }

  ghost predicate NoErrors(m: SegmentMatch, ps: seq<string>, name: string) {
    forall p :: p in ps ==> MatchName(m, p, name).Value?
  }

  lemma {:induction false} AnyMatchMeans(m: SegmentMatch, ps: seq<string>, name: string)
    ensures NoErrors(m, ps, name) ==> AnyMatch(m, ps, name) == Value(SomeMatch(m, ps, name))
    ensures AnyMatch(m, ps, name).Bad? ==> !NoErrors(m, ps, name)
    ensures AnyMatch(m, ps, name) == Value(true) ==> SomeMatch(m, ps, name)
    ensures AnyMatch(m, ps, name) == Value(false) ==> !SomeMatch(m, ps, name)
  {
    hide MatchName;
    if ps != [] {
      AnyMatchMeans(m, ps[1..], name);
      assert ps == [ps[0]] + ps[1..];
    }
  }

  lemma {:induction false} IncludeMatchMeans(m: SegmentMatch, ps: seq<string>, name: string, dir: bool)
    ensures NoErrors(m, ps, name) ==> IncludeMatch(m, ps, name, dir) != Creation.Stop
    ensures IncludeMatch(m, ps, name, dir) != Creation.Stop ==>
              IncludeMatch(m, ps, name, dir) ==
              if SomeMatch(m, ps, name) || (dir && exists p :: p in ps && CouldContain(p, name)) then Creation.Include
              else Creation.Exclude
  {
    hide MatchName, CouldContain;
    if ps != [] {
      IncludeMatchMeans(m, ps[1..], name, dir);
      assert ps == [ps[0]] + ps[1..];
    }
  }

  /** Whenever the decision is no error, the order of the patterns does not matter. */
  lemma DecideMeans(m: SegmentMatch, patterns: seq<string>, includes: seq<string>, name: string, dir: bool)
    ensures NoErrors(m, patterns + includes, name) ==> Decide(m, patterns, includes, name, dir) != Creation.Stop
    ensures Decide(m, patterns, includes, name, dir) != Creation.Stop ==>
              Decide(m, patterns, includes, name, dir) ==
              if SomeMatch(m, patterns, name) then (if dir then Creation.Prune else Creation.Exclude)
              else if includes == [] || SomeMatch(m, includes, name)
                      || (dir && exists p :: p in includes && CouldContain(p, name))
              then Creation.Include
              else Creation.Exclude
  {
    hide MatchName, CouldContain, SomeMatch;
    AnyMatchMeans(m, patterns, name);
    if includes != [] {
      IncludeMatchMeans(m, includes, name, dir);
    }
  }

  function FilterOf(m: SegmentMatch, patterns: seq<string>, includes: seq<string>): Creation.Chooser {
    (p: Path, t: Tree) => Decide(m, patterns, includes, Join(p), t.Dir?)
  }

  predicate EndsInStars(pattern: string) {
    var p := Split(pattern); p[|p| - 1] == STARS
  }

  /** A pattern ending in a double star that matches a directory matches what is below it. */
  lemma StarsReachBelow(m: SegmentMatch, pattern: string, dir: Path, below: Path)
    requires EndsInStars(pattern) && AllNormal(dir + below) && dir != []
    requires MatchName(m, pattern, Join(dir)) == Value(true)
    ensures MatchName(m, pattern, Join(dir + below)) == Value(true)
  {
    hide Selection.Visit, Join;
    assert AllNormal(dir) by {
      forall i | 0 <= i < |dir| ensures Normal(dir[i]) {
        assert (dir + below)[i] == dir[i];
      }
    }
    MatchCleanName(m, pattern, dir);
    MatchCleanName(m, pattern, dir + below);
    VisitBelow(m, Split(pattern), dir, below, 0, 0);
  }

  /**
    For exclude patterns that end in a double star, such as the built-in ones, pruning a directory
    leaves out nothing its pattern would not have left out anyway.
   */
  lemma PruningIsRedundant(m: SegmentMatch, patterns: seq<string>, includes: seq<string>, dir: Path, below: Path,
                           isDir: bool)
    requires AllNormal(dir + below) && dir != []
    requires forall p :: p in patterns ==> EndsInStars(p)
    requires Decide(m, patterns, includes, Join(dir), true) == Creation.Prune
    ensures Decide(m, patterns, includes, Join(dir + below), isDir) in {Creation.Prune, Creation.Exclude, Creation.Stop}
    ensures SomeMatch(m, patterns, Join(dir + below))
  {
    hide MatchName, CouldContain, Join, EndsInStars;
    PruneMatches(m, patterns, includes, Join(dir));
    var p :| p in patterns && MatchName(m, p, Join(dir)) == Value(true);
    StarsReachBelow(m, p, dir, below);
    assert SomeMatch(m, patterns, Join(dir + below));
    DecideMeans(m, patterns, includes, Join(dir + below), isDir);
  }

  lemma PruneMatches(m: SegmentMatch, patterns: seq<string>, includes: seq<string>, name: string)
    requires Decide(m, patterns, includes, name, true) == Creation.Prune
    ensures SomeMatch(m, patterns, name)
  {
    hide MatchName, CouldContain, SomeMatch;
    AnyMatchMeans(m, patterns, name);
    NeverPruned(m, includes, name, true);
  }

  lemma {:induction false} NeverPruned(m: SegmentMatch, ps: seq<string>, name: string, dir: bool)
    ensures IncludeMatch(m, ps, name, dir) != Creation.Prune
  {
    hide MatchName, CouldContain;
    if ps != [] {
      NeverPruned(m, ps[1..], name, dir);
    }
  }

  lemma BuiltInsEndInStars()
    ensures forall p :: p in VCS_PATTERNS + CACHE_PATTERNS ==> EndsInStars(p)
  {
    hide Split;
    StarsLast("**/.git");
    StarsLast("**/.hg");
    StarsLast("**/.svn");
    StarsLast("**/.cache");
    StarsLast("**/__pycache__");
    StarsLast("**/node_modules");
    assert "**/.git" + "/" + STARS == "**/.git/**" && "**/.hg" + "/" + STARS == "**/.hg/**"
      && "**/.svn" + "/" + STARS == "**/.svn/**";
    assert "**/.cache" + "/" + STARS == "**/.cache/**" && "**/__pycache__" + "/" + STARS == "**/__pycache__/**";
    assert "**/node_modules" + "/" + STARS == "**/node_modules/**";
  }

  lemma StarsLast(s: string)
    ensures EndsInStars(s + "/" + STARS)
  {
    SplitConcat(s, STARS);
    SplitOne(STARS);
  }

  // Restoring

  datatype RestoreFilter = RestoreFilter(paths: seq<string>, includes: seq<string>, excludes: seq<string>)

  /** A requested path selects the entry it names and everything below it. */
  predicate PathSelects(p: string, name: string) {
    var clean := TrimSlash(CleanString(p));
    name == clean || clean + "/" <= name
  }

  predicate AnyPathSelects(ps: seq<string>, name: string) {
    exists p :: p in ps && PathSelects(p, name)
  }

  function Chosen(m: SegmentMatch, f: RestoreFilter, name: string): bool {
    (f.includes == [] && f.paths == []) || AnyPathSelects(f.paths, name)
      || exists p :: p in f.includes && MatchName(m, p, name) == Value(true)
  }

  function RestoreChoice(m: SegmentMatch, f: RestoreFilter, name: string): Extraction.Choice {
    if exists p :: p in f.includes && MatchName(m, p, name).Bad? then Extraction.Fault
    else
      match AnyMatch(m, f.excludes, name)
      case Bad => Extraction.Fault
      case Value(matched) => if matched || !Chosen(m, f, name) then Extraction.No else Extraction.Yes
  }

  /** restoreEntrySelector */
  method RestoreSelect(m: SegmentMatch, f: RestoreFilter, name: string) returns (c: Extraction.Choice)
    ensures c == RestoreChoice(m, f, name)
  {
    hide MatchName, PathSelects;
    var selected := |f.includes| == 0 && |f.paths| == 0;
    for i := 0 to |f.paths|
      invariant selected <==> (f.includes == [] && f.paths == []) || AnyPathSelects(f.paths[..i], name)
    {
      assert f.paths[..i + 1] == f.paths[..i] + [f.paths[i]];
      if PathSelects(f.paths[i], name) { selected := true; }
    }
    assert f.paths[..|f.paths|] == f.paths;
    ghost var byPath := selected;
    for i := 0 to |f.includes|
      invariant forall p :: p in f.includes[..i] ==> MatchName(m, p, name).Value?
      invariant selected <==> byPath || exists p :: p in f.includes[..i] && MatchName(m, p, name) == Value(true)
    {
      assert f.includes[..i + 1] == f.includes[..i] + [f.includes[i]];
      var r := Match(m, f.includes[i], name);
      if r.Bad? { return Extraction.Fault; }
      if r.matched { selected := true; }
    }
    assert f.includes[..|f.includes|] == f.includes;
    assert selected == Chosen(m, f, name);
    for i := 0 to |f.excludes|
      invariant AnyMatch(m, f.excludes, name) == AnyMatch(m, f.excludes[i..], name)
    {
      assert f.excludes[i..][1..] == f.excludes[i + 1..];
      var r := Match(m, f.excludes[i], name);
      if r.Bad? { return Extraction.Fault; }
      if r.matched { return Extraction.No; }
    }
    return if selected then Extraction.Yes else Extraction.No;
  }

  /** Whenever the choice is no error, an entry is restored exactly when it is asked for and no exclude matches it. */
  lemma RestoreMeans(m: SegmentMatch, f: RestoreFilter, name: string)
    ensures NoErrors(m, f.includes + f.excludes, name) ==> RestoreChoice(m, f, name) != Extraction.Fault
    ensures RestoreChoice(m, f, name) != Extraction.Fault ==>
              RestoreChoice(m, f, name) ==
              if !SomeMatch(m, f.excludes, name)
                 && (f.includes == f.paths == [] || AnyPathSelects(f.paths, name) || SomeMatch(m, f.includes, name))
              then Extraction.Yes else Extraction.No
  {
    hide MatchName, AnyPathSelects, AnyMatch;
    AnyMatchMeans(m, f.excludes, name);
  }

  /** A requested path selects an entry exactly when its cleaned segments start the entry's. */
  lemma PathSelectsMeans(p: string, entry: Path)
    requires AllNormal(entry) && entry != []
    ensures PathSelects(p, Join(entry)) <==> Split(TrimSlash(CleanString(p))) <= entry
  {
    hide Split, Join, CleanString, TrimSlash;
    var clean := TrimSlash(CleanString(p));
    var segs := Split(clean);
    JoinSplit(clean);
    SplitJoin(entry);
    if segs <= entry {
      var rest := entry[|segs|..];
      assert segs + rest == entry;
      if rest == [] {
        assert segs == entry;
      } else {
        JoinConcat(segs, rest);
        assert Join(entry) == clean + "/" + Join(rest);
      }
    }
    if clean + "/" <= Join(entry) {
      var u := Join(entry)[|clean| + 1..];
      assert Join(entry) == clean + "/" + u;
      SplitConcat(clean, u);
    }
  }

  /** What is requested brings along all that is below it... */
  lemma PathSelectsBelow(p: string, entry: Path, below: Path)
    requires AllNormal(entry + below) && entry != [] && PathSelects(p, Join(entry))
    ensures PathSelects(p, Join(entry + below))
  {
    hide Split, Join, PathSelects;
    assert AllNormal(entry) by {
      forall i | 0 <= i < |entry| ensures Normal(entry[i]) {
        assert (entry + below)[i] == entry[i];
      }
    }
    PathSelectsMeans(p, entry);
    PathSelectsMeans(p, entry + below);
  }

  /** ... but a path that cleans to the current directory requests nothing. */
  lemma HereSelectsNothing(p: string, entry: Path)
    requires AllNormal(entry) && entry != [] && CleanString(p) == HERE
    ensures !PathSelects(p, Join(entry))
  {
    hide Join, CleanString;
    PathSelectsMeans(p, entry);
    SplitOne(HERE);
    assert Normal(entry[0]);
  }

  // What the built-in excludes match

  /** path.Match for a pattern segment without meta characters. */
  ghost predicate Plainly(m: SegmentMatch, segment: string) {
    forall s :: m(segment, s) == if s == segment then Selection.Fits else Selection.Differs
  }

  lemma {:induction false} ScanForName(m: SegmentMatch, x: string, n: Path, j: nat)
    requires Plainly(m, x) && x != STARS && j <= |n|
    ensures Selection.Scan(m, [STARS, x, STARS], n, 1, j) == Value(x in n[j..])
    decreases |n| - j
  {
    var p := [STARS, x, STARS];
    assert Collapse(p, 1) == 1 && Collapse(p, 2) == 2;
    if j < |n| {
      assert n[j..] == [n[j]] + n[j + 1..];
      if n[j] != x {
        ScanForName(m, x, n, j + 1);
      } else {
        assert Selection.Visit(m, p, n, 2, j + 1) == Value(true);
      }
    }
  }

  /** A name between double stars matches exactly the paths it occurs in. */
  lemma NameBetweenStars(m: SegmentMatch, x: string, n: Path)
    requires Plainly(m, x) && Normal(x) && x != STARS && '\\' !in x && AllNormal(n) && n != []
    ensures MatchName(m, STARS + "/" + x + "/" + STARS, Join(n)) == Value(x in n)
  {
    var pattern, p := STARS + "/" + x + "/" + STARS, [STARS, x, STARS];
    SplitOne(STARS);
    SplitOne(x);
    SplitConcat(x, STARS);
    SplitConcat(STARS, x + "/" + STARS);
    assert pattern == STARS + "/" + (x + "/" + STARS);
    assert Split(pattern) == p;
    MatchCleanName(m, pattern, n);
    assert Collapse(p, 0) == 0;
    ScanForName(m, x, n, 0);
    assert n[0..] == n;
  }

  /** Excluded is what a given exclude matches, and what lies at or below one of the built-in names asked for. */
  lemma BuiltInsMatch(m: SegmentMatch, excludes: seq<string>, vcs: bool, cache: bool, n: Path)
    requires forall x :: x in {".git", ".hg", ".svn", ".cache", "__pycache__", "node_modules"} ==> Plainly(m, x)
    requires AllNormal(n) && n != []
    ensures SomeMatch(m, ExcludePatterns(excludes, vcs, cache), Join(n)) <==>
            || (exists p :: p in excludes && MatchName(m, p, Join(n)) == Value(true))
            || (vcs && (".git" in n || ".hg" in n || ".svn" in n))
            || (cache && (".cache" in n || "__pycache__" in n || "node_modules" in n))
  {
    hide MatchName, Join, SomeMatch, Plainly;
    VcsMatch(m, n);
    CacheMatch(m, n);
    var v, c := (if vcs then VCS_PATTERNS else []), (if cache then CACHE_PATTERNS else []);
    assert ExcludePatterns(excludes, vcs, cache) == excludes + (v + c);
    hide VCS_PATTERNS, CACHE_PATTERNS;
    EitherMatches(m, v, c, Join(n));
    EitherMatches(m, excludes, v + c, Join(n));
    NoneMatches(m, Join(n));
    assert SomeMatch(m, excludes, Join(n)) <==> exists p :: p in excludes && MatchName(m, p, Join(n)) == Value(true)
      by {
      MatchesSome(m, excludes, Join(n));
    }
  }

  lemma VcsMatch(m: SegmentMatch, n: Path)
    requires Plainly(m, ".git") && Plainly(m, ".hg") && Plainly(m, ".svn") && AllNormal(n) && n != []
    ensures SomeMatch(m, VCS_PATTERNS, Join(n)) <==> ".git" in n || ".hg" in n || ".svn" in n
  {
    hide MatchName, Join, SomeMatch, Plainly;
    NamesMatch(m, ".git", ".hg", ".svn", n);
    assert STARS + "/" + ".git" + "/" + STARS == VCS_PATTERNS[0];
    assert STARS + "/" + ".hg" + "/" + STARS == VCS_PATTERNS[1];
    assert STARS + "/" + ".svn" + "/" + STARS == VCS_PATTERNS[2];
  }

  lemma CacheMatch(m: SegmentMatch, n: Path)
    requires Plainly(m, ".cache") && Plainly(m, "__pycache__") && Plainly(m, "node_modules") && AllNormal(n) && n != []
    ensures SomeMatch(m, CACHE_PATTERNS, Join(n)) <==> ".cache" in n || "__pycache__" in n || "node_modules" in n
  {
    hide MatchName, Join, SomeMatch, Plainly;
    CacheNames();
    hide CACHE_PATTERNS, Normal;
    NamesMatch(m, ".cache", "__pycache__", "node_modules", n);
  }

  lemma CacheNames()
    ensures forall s :: s in {".cache", "__pycache__", "node_modules"} ==> Normal(s) && s != STARS && '\\' !in s
    ensures CACHE_PATTERNS == [STARS + "/" + ".cache" + "/" + STARS, STARS + "/" + "__pycache__" + "/" + STARS,
                               STARS + "/" + "node_modules" + "/" + STARS]
  {
    CacheName(".cache", "**/.cache/**");
    CacheName("__pycache__", "**/__pycache__/**");
    CacheName("node_modules", "**/node_modules/**");
  }

  lemma CacheName(x: string, pattern: string)
    requires x in {".cache", "__pycache__", "node_modules"} && pattern == "**/" + x + "/**"
    ensures Normal(x) && x != STARS && '\\' !in x && pattern == STARS + "/" + x + "/" + STARS
  {
  }

  lemma NamesMatch(m: SegmentMatch, x: string, y: string, z: string, n: Path)
    requires forall s :: s in {x, y, z} ==> Plainly(m, s) && Normal(s) && s != STARS && '\\' !in s
    requires AllNormal(n) && n != []
    ensures var a, b, c := STARS + "/" + x + "/" + STARS, STARS + "/" + y + "/" + STARS, STARS + "/" + z + "/" + STARS;
            SomeMatch(m, [a, b, c], Join(n)) <==> x in n || y in n || z in n
  {
    hide MatchName, Join, Plainly;
    assert x in {x, y, z} && y in {x, y, z} && z in {x, y, z};
    NameBetweenStars(m, x, n);
    NameBetweenStars(m, y, n);
    NameBetweenStars(m, z, n);
    var ps := [STARS + "/" + x + "/" + STARS, STARS + "/" + y + "/" + STARS, STARS + "/" + z + "/" + STARS];
    assert ps[0] in ps && ps[1] in ps && ps[2] in ps;
  }

  lemma EitherMatches(m: SegmentMatch, a: seq<string>, b: seq<string>, name: string)
    ensures SomeMatch(m, a + b, name) <==> SomeMatch(m, a, name) || SomeMatch(m, b, name)
  {
    hide MatchName;
  }

  lemma MatchesSome(m: SegmentMatch, ps: seq<string>, name: string)
    ensures SomeMatch(m, ps, name) <==> exists p :: p in ps && MatchName(m, p, name) == Value(true)
  {
    hide MatchName;
  }

  lemma NoneMatches(m: SegmentMatch, name: string)
    ensures !SomeMatch(m, [], name)
  {
  }

  /** The literal part ends at the first meta character, and one slash before it is dropped. */
  lemma {:induction false} LiteralMeans(pattern: string)
    ensures exists k :: 0 <= k <= |pattern|
              && (forall i :: 0 <= i < k ==> pattern[i] != '*' && pattern[i] != '?' && pattern[i] != '[')
              && (k == |pattern| || pattern[k] == '*' || pattern[k] == '?' || pattern[k] == '[')
              && Literal(pattern) == if k > 0 && pattern[k - 1] == '/' then pattern[..k - 1] else pattern[..k]
  {
    hide TrimSlash;
    MetaPrefix(pattern);
    var k := |UpToMeta(pattern)|;
    assert pattern[..k] == UpToMeta(pattern);
    assert TrimSlash(pattern[..k]) == if k > 0 && pattern[k - 1] == '/' then pattern[..k - 1] else pattern[..k] by {
      TrimOne(pattern, k);
    }
  }

  lemma TrimOne(s: string, k: nat)
    requires k <= |s|
    ensures TrimSlash(s[..k]) == if k > 0 && s[k - 1] == '/' then s[..k - 1] else s[..k]
  {
  }

  lemma {:induction false} MetaPrefix(s: string)
    ensures UpToMeta(s) <= s
    ensures forall i :: 0 <= i < |UpToMeta(s)| ==> s[i] != '*' && s[i] != '?' && s[i] != '['
    ensures var k := |UpToMeta(s)|; k == |s| || s[k] == '*' || s[k] == '?' || s[k] == '['
  {
    if s != "" && s[0] !in "*?[" {
      MetaPrefix(s[1..]);
      assert '*' in "*?[" && '?' in "*?[" && '[' in "*?[";
    }
  }
}
