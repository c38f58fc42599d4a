/** The conflict merge of a restored tree into an existing one, under the three policies. */
module Merging {
  import opened Paths
  import opened Trees

  datatype Policy = Fail | Skip | Rename | Overwrite

  // Meaning of skip and overwrite

  /** One entry present on both sides. */
  function Combine(p: Policy, d: Tree, s: Tree): Tree
    decreases d, 1
  {
    if d.Dir? && s.Dir? then Merge(p, d, s) else if p == Overwrite then s else d
  }

  /** Skip keeps the destination's side of every conflict, overwrite the source's. */
  function Merge(p: Policy, d: Tree, s: Tree): (r: Tree)
    requires d.Dir? && s.Dir?
    ensures r.Dir? && r.mode == d.mode
    decreases d, 0
  {
    Dir(d.mode, map n | n in d.entries.Keys + s.entries.Keys ::
          if n !in s.entries then d.entries[n]
          else if n !in d.entries then s.entries[n]
          else Combine(p, d.entries[n], s.entries[n]))
  }

  lemma MergeAt(p: Policy, d: Tree, s: Tree, n: string)
    requires d.Dir? && s.Dir?
    ensures n in Merge(p, d, s).entries <==> n in d.entries || n in s.entries
    ensures n in d.entries && n !in s.entries ==> Merge(p, d, s).entries[n] == d.entries[n]
    ensures n !in d.entries && n in s.entries ==> Merge(p, d, s).entries[n] == s.entries[n]
    ensures n in d.entries && n in s.entries ==> Merge(p, d, s).entries[n] == Combine(p, d.entries[n], s.entries[n])
  {
  }

  /** The side that wins a conflict is found unchanged: the source when overwriting, the destination when skipping. */
  lemma {:induction false} WinnerFound(p: Policy, d: Tree, s: Tree, path: Path)
    requires d.Dir? && s.Dir? && p in {Skip, Overwrite}
    requires var side := if p == Overwrite then s else d; At(side, path).Node? && !At(side, path).node.Dir?
    ensures At(Merge(p, d, s), path) == At(if p == Overwrite then s else d, path)
    decreases |path|
  {
    if path != [] {
      var n := path[0];
      MergeAt(p, d, s, n);
      if n in d.entries && n in s.entries && d.entries[n].Dir? && s.entries[n].Dir? {
        WinnerFound(p, d.entries[n], s.entries[n], path[1..]);
      }
    }
  }

  /** What has no counterpart on the other side is found as well. */
  lemma {:induction false} LonerFound(p: Policy, d: Tree, s: Tree, path: Path, k: nat)
    requires d.Dir? && s.Dir? && k < |path|
    requires At(d, path[..k]).Node? && At(d, path[..k]).node.Dir? && At(s, path[..k]).Node?
             && At(s, path[..k]).node.Dir?
    requires At(d, path[..k + 1]) == Nothing || At(s, path[..k + 1]) == Nothing
    ensures At(Merge(p, d, s), path) == if At(s, path[..k + 1]) == Nothing then At(d, path) else At(s, path)
    decreases |path|
  {
    var n := path[0];
    MergeAt(p, d, s, n);
    assert path[..k + 1][1..] == path[1..][..k] && path[..k + 1][0] == n;
    if k > 0 {
      assert path[..k][1..] == path[1..][..k - 1] && path[..k][0] == n;
      LonerFound(p, d.entries[n], s.entries[n], path[1..], k - 1);
    } else {
      assert path[..1][1..] == [];
    }
  }

  /** Equal up to the modes of directories. */
  ghost predicate SameShape(a: Tree, b: Tree)
    decreases a
  {
    if a.Dir? && b.Dir? then
      a.entries.Keys == b.entries.Keys && forall n :: n in a.entries ==> SameShape(a.entries[n], b.entries[n])
    else a == b
  }

  lemma {:induction false} SameShapeSelf(a: Tree)
    ensures SameShape(a, a)
    decreases a
  {
    if a.Dir? {
      forall n | n in a.entries ensures SameShape(a.entries[n], a.entries[n]) {
        SameShapeSelf(a.entries[n]);
      }
    }
  }

  /** Skipping restores into a tree as overwriting would restore the tree into what was restored. */
  lemma {:induction false} SkipIsOverwriteSwapped(d: Tree, s: Tree)
    requires d.Dir? && s.Dir?
    ensures SameShape(Merge(Skip, d, s), Merge(Overwrite, s, d))
    decreases d
  {
    var a, b := Merge(Skip, d, s), Merge(Overwrite, s, d);
    forall n | n in a.entries ensures n in b.entries && SameShape(a.entries[n], b.entries[n]) {
      MergeAt(Skip, d, s, n);
      MergeAt(Overwrite, s, d, n);
      if n in d.entries && n in s.entries && d.entries[n].Dir? && s.entries[n].Dir? {
        SkipIsOverwriteSwapped(d.entries[n], s.entries[n]);
      } else {
        SameShapeSelf(a.entries[n]);
      }
    }
  }

  /** Restoring the same tree again over the result changes nothing. */
  lemma {:induction false} OverwriteAgain(d: Tree, s: Tree)
    requires d.Dir? && s.Dir?
    ensures Merge(Overwrite, Merge(Overwrite, d, s), s) == Merge(Overwrite, d, s)
    decreases d
  {
    var r := Merge(Overwrite, d, s);
    var again := Merge(Overwrite, r, s);
    forall n | n in r.entries ensures again.entries[n] == r.entries[n] {
      MergeAt(Overwrite, d, s, n);
      MergeAt(Overwrite, r, s, n);
      if n in s.entries && s.entries[n].Dir? {
        if n in d.entries && d.entries[n].Dir? {
          OverwriteAgain(d.entries[n], s.entries[n]);
        } else {
          OverwriteSelf(s.entries[n]);
        }
      }
    }
    assert again.entries == r.entries;
  }

  lemma {:induction false} OverwriteSelf(s: Tree)
    requires s.Dir?
    ensures Merge(Overwrite, s, s) == s
    decreases s
  {
    forall n | n in s.entries && s.entries[n].Dir?
      ensures Merge(Overwrite, s.entries[n], s.entries[n]) == s.entries[n] {
      OverwriteSelf(s.entries[n]);
    }
    assert Merge(Overwrite, s, s).entries == s.entries;
  }

  // Meaning of rename

  function Digits(n: nat): string {
    if n < 10 then [('0' as int + n) as char] else Digits(n / 10) + [('0' as int + n % 10) as char]
  }

  const ATTEMPTS: nat := 10000

  function Candidate(name: string, i: nat): string {
    name + ".restored-" + Digits(i)
  }

  /** The names a source entry may end up under. */
  predicate NameFor(name: string, m: string) {
    m == name || exists i :: 1 <= i <= ATTEMPTS && m == Candidate(name, i)
  }

  lemma DigitsAreDigits(n: nat)
    ensures Digits(n) != "" && forall i :: 0 <= i < |Digits(n)| ==> Digits(n)[i] != '-'
  {
  }

  /** The number a decimal text stands for. */
  function Decimal(s: string): int {
    if s == "" then 0 else 10 * Decimal(s[..|s| - 1]) + (s[|s| - 1] as int - '0' as int)
  }

  /** Digits writes the number it is given. */
  lemma {:induction false} DigitsRead(n: nat)
    ensures Decimal(Digits(n)) == n
  {
    if n >= 10 {
      DigitsRead(n / 10);
      assert Digits(n)[..|Digits(n)| - 1] == Digits(n / 10);
    } else {
      assert Digits(n)[..0] == "";
    }
  }

  /** Different numbers make different candidates. */
  lemma CandidatesDiffer(n: string, i: nat, j: nat)
    ensures Candidate(n, i) == Candidate(n, j) ==> i == j
  {
    hide Digits;
    DigitsRead(i);
    DigitsRead(j);
    var k := |n + ".restored-"|;
    assert Candidate(n, i)[k..] == Digits(i) && Candidate(n, j)[k..] == Digits(j);
  }

  /** A candidate is one of one name only. */
  lemma CandidateOfOne(a: string, i: nat, b: string, j: nat)
    requires Candidate(a, i) == Candidate(b, j)
    ensures a == b
  {
    hide Digits;
    DigitsAreDigits(i);
    DigitsAreDigits(j);
    var c, d := Candidate(a, i), Candidate(b, j);
    var x, y := |c| - |Digits(i)|, |d| - |Digits(j)|;
    assert c[x - 1] == '-' && d[y - 1] == '-';
    assert forall t :: x <= t < |c| ==> c[t] == Digits(i)[t - x];
    assert forall t :: y <= t < |d| ==> d[t] == Digits(j)[t - y];
    assert a == c[..|a|] && b == d[..|b|];
  }

  /** All of `s` is in `d`, every entry at its own name or at a ".restored-i" of it, and its own name is taken. */
  ghost predicate Placed(s: Tree, d: Tree)
    decreases s
  {
    if s.Dir? then
      && d.Dir?
      && forall n :: n in s.entries ==>
           n in d.entries && exists m :: NameFor(n, m) && m in d.entries && Placed(s.entries[n], d.entries[m])
    else s == d
  }

  /** Each file and link of the source is found again, every name on its way its own or a candidate of it. */
  lemma {:induction false} PlacedPaths(s: Tree, d: Tree, p: Path) returns (q: Path)
    requires Placed(s, d) && At(s, p).Node? && !At(s, p).node.Dir?
    ensures |q| == |p| && (forall i :: 0 <= i < |p| ==> NameFor(p[i], q[i])) && At(d, q) == At(s, p)
    decreases |p|
  {
    q := [];
    if p != [] {
      var m :| NameFor(p[0], m) && m in d.entries && Placed(s.entries[p[0]], d.entries[m]);
      var rest := PlacedPaths(s.entries[p[0]], d.entries[m], p[1..]);
      q := [m] + rest;
      assert q[1..] == rest;
      forall i | 0 <= i < |p| ensures NameFor(p[i], q[i]) {
        assert i > 0 ==> p[i] == p[1..][i - 1] && q[i] == rest[i - 1];
      }
    }
  }

  lemma {:induction false} PlacedSelf(t: Tree)
    ensures Placed(t, t)
    decreases t
  {
    if t.Dir? {
      forall n | n in t.entries
        ensures exists m :: NameFor(n, m) && m in t.entries && Placed(t.entries[n], t.entries[m]) {
        PlacedSelf(t.entries[n]);
        assert NameFor(n, n);
      }
    }
  }

  lemma {:induction false} PlacedStays(s: Tree, d: Tree, e: Tree)
    requires Placed(s, d) && Keeps(d, e)
    ensures Placed(s, e)
    decreases s
  {
    if s.Dir? {
      forall n | n in s.entries
        ensures n in e.entries && exists m :: NameFor(n, m) && m in e.entries && Placed(s.entries[n], e.entries[m])
      {
        var m :| NameFor(n, m) && m in d.entries && Placed(s.entries[n], d.entries[m]);
        PlacedStays(s.entries[n], d.entries[m], e.entries[m]);
      }
    }
  }

  // What a merge may hold

  /** The names a source entry may be put under. */
  predicate NameGiven(p: Policy, n: string, m: string) {
    m == n || (p == Rename && NameFor(n, m))
  }

  /**
    The merge holds nothing but the two trees: every name in it is one of the destination, or stands for
    one source entry and for that one alone, and likewise in every directory that was merged.
   */
  ghost predicate NothingElse(p: Policy, d: Tree, s: Tree, r: Tree)
    decreases r, 1
  {
    d.Dir? && s.Dir? && r.Dir? && exists from: map<string, string> :: Sources(p, d, s, r, from)
  }

  /** `from` names the source entry behind each name the destination did not have. */
  ghost predicate Sources(p: Policy, d: Tree, s: Tree, r: Tree, from: map<string, string>)
    requires d.Dir? && s.Dir? && r.Dir?
    decreases r, 0
  {
    && (forall m :: m in from ==>
          m !in d.entries && m in r.entries && from[m] in s.entries && NameGiven(p, from[m], m))
    && (forall m, k :: m in from && k in from && from[m] == from[k] ==> m == k)
    && (forall m :: m in r.entries ==> Accounted(p, d, s, from, m, r.entries[m]))
  }

  /** The old entry of the name, or the source entry put there, itself or grown. */
  ghost predicate Accounted(p: Policy, d: Tree, s: Tree, from: map<string, string>, m: string, u: Tree)
    requires d.Dir? && s.Dir?
    decreases u, 3
  {
    if m in d.entries then Grown(p, d.entries[m], s, m, u)
    else
      && m in from && from[m] in s.entries
      && if from[m] == m then u == s.entries[m] else Grown(p, s.entries[from[m]], s, m, u)
  }

  /** What stood under `m` is still there, or the source's directory of that name was merged into it, or replaced it. */
  ghost predicate Grown(p: Policy, t: Tree, s: Tree, m: string, u: Tree)
    requires s.Dir?
    decreases u, 2
  {
    || u == t
    || (m in s.entries && t.Dir? && u.Dir? && u.mode == t.mode && NothingElse(p, t, s.entries[m], u))
    || (p == Overwrite && m in s.entries && u == s.entries[m])
  }

  lemma NothingYet(p: Policy, d: Tree, s: Tree)
    requires d.Dir? && s.Dir?
    ensures Sources(p, d, s, d, map[]) && NothingElse(p, d, s, d)
  {
    assert Sources(p, d, s, d, map[]);
  }

  // mergeTrees

  /** File system calls; the script says which of the next ones fail. */
  class Disk {
    var script: seq<bool>

    constructor (script: seq<bool>)
      ensures this.script == script
    {
      this.script := script;
    }

    ghost predicate Reliable()
      reads this
    {
      true !in script
    }

    method Call() returns (ok: bool)
      modifies this
      ensures old(Reliable()) ==> Reliable() && ok
    {
      ok := true;
      if script != [] {
        ok := !script[0];
        script := script[1..];
      }
    }
  }

  /** os.ReadDir, in some order: nothing below depends on which. */
  method ReadDir(l: Listing) returns (names: seq<string>)
    ensures forall n :: n in names <==> n in l
    ensures forall i, j :: 0 <= i < j < |names| ==> names[i] != names[j]
  {
    names := [];
    var rest := l.Keys;
    while rest != {}
      invariant forall n :: n in names <==> n in l && n !in rest
      invariant rest <= l.Keys
      invariant forall i, j :: 0 <= i < j < |names| ==> names[i] != names[j]
      decreases |rest|
    {
      var n :| n in rest;
      names := names + [n];
      rest := rest - {n};
    }
  }

  /** A free candidate name, the first one unless a lookup failed and was passed over. */
  method FreeName(disk: Disk, l: Listing, name: string) returns (found: bool, m: string)
    modifies disk
    ensures old(disk.Reliable()) ==> disk.Reliable()
    ensures found ==> m !in l && exists i :: 1 <= i <= ATTEMPTS && m == Candidate(name, i)
                                             && (old(disk.Reliable()) ==> forall j :: 1 <= j < i ==>
                                                 Candidate(name, j) in l)
    ensures (forall i :: 1 <= i <= ATTEMPTS ==> Candidate(name, i) in l) ==> !found
    ensures old(disk.Reliable()) && !found ==> forall i :: 1 <= i <= ATTEMPTS ==> Candidate(name, i) in l
  {
    m := "";
    for i := 1 to ATTEMPTS + 1
      invariant old(disk.Reliable()) ==> disk.Reliable()
      invariant old(disk.Reliable()) ==> forall j :: 1 <= j < i ==> Candidate(name, j) in l
    {
      m := Candidate(name, i);
      var looked := disk.Call();
      if looked && m !in l { return true, m; }
    }
    return false, "";
  }

  predicate Taken(names: set<string>, n: string) {
    forall i :: 1 <= i <= ATTEMPTS ==> Candidate(n, i) in names
  }

  /** The first `k` candidates of a name, as many as there are numbers. */
  lemma {:induction false} CandidatesMany(names: set<string>, n: string, k: nat)
    requires forall i :: 1 <= i <= k ==> Candidate(n, i) in names
    ensures |names| >= k
  {
    if k > 0 {
      hide Candidate;
      forall i | 1 <= i <= k - 1 ensures Candidate(n, i) in names - {Candidate(n, k)} {
        CandidatesDiffer(n, i, k);
      }
      CandidatesMany(names - {Candidate(n, k)}, n, k - 1);
    }
  }

  /**
    No two directories that may be merged with each other, those of the two sides or a source directory
    and one that was put under its name, hold ten thousand names together.
   */
  ghost predicate Roomy(d: Tree, s: Tree)
    decreases s
  {
    d.Dir? && s.Dir? ==>
      && |d.entries.Keys + s.entries.Keys| < 10000
      && (forall n :: n in s.entries && n in d.entries ==> Roomy(d.entries[n], s.entries[n]))
      && (forall n, k :: n in s.entries && k in s.entries && k != n && k + ".restored-" <= n ==>
            Roomy(s.entries[k], s.entries[n]))
  }

  lemma TakenMany(names: set<string>)
    ensures forall n :: Taken(names, n) ==> |names| >= 10000
  {
    hide Candidate;
    forall n | Taken(names, n) ensures |names| >= 10000 {
      CandidatesMany(names, n, 10000);
    }
  }

  /** Then there is always a free name. */
  lemma {:induction false} RoomyNotCrowded(d: Tree, s: Tree)
    requires Roomy(d, s)
    ensures !CrowdedIn(d, s)
    decreases s
  {
    if d.Dir? && s.Dir? {
      hide Candidate;
      var names := d.entries.Keys + s.entries.Keys;
      TakenMany(names);
      forall n | n in s.entries && n in d.entries ensures !CrowdedIn(d.entries[n], s.entries[n]) {
        RoomyNotCrowded(d.entries[n], s.entries[n]);
      }
      forall n, k | n in s.entries && k in s.entries && k != n && NameFor(k, n)
        ensures !CrowdedIn(s.entries[k], s.entries[n])
      {
        CandidatePrefix(k, n);
        RoomyNotCrowded(s.entries[k], s.entries[n]);
      }
    }
  }

  lemma CandidatePrefix(k: string, n: string)
    requires NameFor(k, n) && k != n
    ensures k + ".restored-" <= n
  {
    hide Digits;
  }

  /** When its turn comes, the source entry `n` may find its name taken: by the destination or a renamed entry. */
  ghost predicate Met(d: Listing, s: Listing, n: string) {
    n in s && (n in d || exists k :: k in s && k != n && NameFor(k, n))
  }

  /**
    Renaming cannot go through: somewhere an entry that finds its name taken also finds all its ten
    thousand candidates among the names of the two sides.
   */
  ghost predicate CrowdedIn(d: Tree, s: Tree)
    decreases s
  {
    d.Dir? && s.Dir? &&
    (|| (exists n :: Met(d.entries, s.entries, n) && Taken(d.entries.Keys + s.entries.Keys, n))
     || (exists n :: n in s.entries && n in d.entries && CrowdedIn(d.entries[n], s.entries[n]))
     || (exists n, k :: n in s.entries && k in s.entries && k != n && NameFor(k, n)
                        && CrowdedIn(s.entries[k], s.entries[n])))
  }

  /** A source entry after its turn: gone, or a directory emptied of files and links. */
  ghost predicate Spent(l: Listing, n: string) {
    n in l ==> l[n].Dir? && Leaves(l[n]) == multiset{}
  }

  lemma MoveConserves(s: Listing, d: Listing, n: string, m: string)
    requires n in s && m !in d
    ensures LeavesIn(s - {n}) + LeavesIn(d[m := s[n]]) == LeavesIn(s) + LeavesIn(d)
  {
    LeavesTake(s, n);
    LeavesPut(d, m, s[n]);
    assert d - {m} == d;
  }

  lemma InnerConserves(s: Listing, d: Listing, n: string, t: Tree, u: Tree)
    requires n in s && n in d && Leaves(t) + Leaves(u) == Leaves(s[n]) + Leaves(d[n])
    ensures LeavesIn(s[n := t]) + LeavesIn(d[n := u]) == LeavesIn(s) + LeavesIn(d)
  {
    hide Leaves, LeavesIn;
    LeavesTake(s, n);
    LeavesTake(d, n);
    LeavesPut(s, n, t);
    LeavesPut(d, n, u);
    Exchange(Leaves(t), Leaves(u), Leaves(s[n]), Leaves(d[n]), LeavesIn(s - {n}), LeavesIn(d - {n}));
  }

  lemma Exchange(t: multiset<Tree>, u: multiset<Tree>, a: multiset<Tree>, c: multiset<Tree>, b: multiset<Tree>,
                 e: multiset<Tree>)
    requires t + u == a + c
    ensures (t + b) + (u + e) == (a + b) + (c + e)
  {
    assert (t + b) + (u + e) == (t + u) + (b + e);
    assert (a + b) + (c + e) == (a + c) + (b + e);
  }

  lemma RemoveConserves(s: Listing, n: string)
    requires n in s && Leaves(s[n]) == multiset{}
    ensures LeavesIn(s - {n}) == LeavesIn(s)
  {
    LeavesTake(s, n);
  }

  lemma PutKeeps(d: Listing, n: string, t: Tree)
    requires n in d ==> Keeps(d[n], t)
    ensures Keeps(Dir(0, d), Dir(0, d[n := t]))
  {
    forall k | k in d && k != n ensures Keeps(d[k], d[n := t][k]) {
      KeepsSelf(d[k]);
    }
  }

  /** The source entry `t` is placed under `n` in the listing. */
  ghost predicate PlacedAt(t: Tree, l: Listing, n: string) {
    n in l && exists m :: NameFor(n, m) && m in l && Placed(t, l[m])
  }

  lemma PlacedAtStays(t: Tree, l: Listing, l': Listing, n: string)
    requires PlacedAt(t, l, n) && Keeps(Dir(0, l), Dir(0, l'))
    ensures PlacedAt(t, l', n)
  {
    var m :| NameFor(n, m) && m in l && Placed(t, l[m]);
    PlacedStays(t, l[m], l'[m]);
  }

  /** What one turn may make of the destination's side. */
  ghost predicate EntryStep(p: Policy, n: string, t: Tree, d: Listing, d': Listing) {
    || d' == d
    || (n !in d && d' == d[n := t])
    || (n in d && n in d' && d' == d[n := d'[n]]
        && d[n].Dir? && d'[n].Dir? && d'[n].mode == d[n].mode && NothingElse(p, d[n], t, d'[n]))
    || (p == Overwrite && n in d && (d' == d - {n} || d' == d[n := t]))
    || (p == Rename && n in d && exists m :: NameFor(n, m) && m !in d && d' == d[m := t])
  }

  /** Where the destination's side stands after the entries in `done`: the others are as they were or as they came. */
  ghost predicate Tracked(p: Policy, src: Tree, dst: Tree, done: set<string>, d: Listing, from: map<string, string>)
    requires src.Dir? && dst.Dir?
  {
    && Sources(p, dst, src, Dir(0, d), from)
    && (forall m :: m in from ==> from[m] in done)
    && (forall m :: m in d && m !in done ==>
          if m in dst.entries then d[m] == dst.entries[m] else m in from && d[m] == src.entries[from[m]])
  }

  lemma TrackedStep(p: Policy, src: Tree, dst: Tree, done: set<string>, d: Listing, from: map<string, string>,
                    n: string, d': Listing) returns (from': map<string, string>)
    requires src.Dir? && dst.Dir? && Tracked(p, src, dst, done, d, from) && dst.entries.Keys <= d.Keys
    requires n in src.entries && n !in done && EntryStep(p, n, src.entries[n], d, d')
    ensures Tracked(p, src, dst, done + {n}, d', from')
    ensures NothingElse(p, dst, src, Dir(dst.mode, d'))
  {
    hide NameFor, NothingElse, Tracked;
    from' := from;
    if n !in d && d' == d[n := src.entries[n]] {
      from' := from[n := n];
      TrackedPut(p, src, dst, done, d, from, n, n);
    } else if p == Rename && n in d && exists m :: NameFor(n, m) && m !in d && d' == d[m := src.entries[n]] {
      var m :| NameFor(n, m) && m !in d && d' == d[m := src.entries[n]];
      from' := from[m := n];
      TrackedPut(p, src, dst, done, d, from, n, m);
    } else if d' == d {
      TrackedSame(p, src, dst, done, d, from, n);
    } else if d' == d - {n} {
      TrackedDrop(p, src, dst, done, d, from, n);
    } else {
      TrackedGrow(p, src, dst, done, d, from, n, d'[n]);
    }
    TrackedSources(p, src, dst, done + {n}, d', from');
    SourcesSuffice(p, dst, src, d', from');
  }

  lemma TrackedSources(p: Policy, src: Tree, dst: Tree, done: set<string>, d: Listing, from: map<string, string>)
    requires src.Dir? && dst.Dir? && Tracked(p, src, dst, done, d, from)
    ensures Sources(p, dst, src, Dir(0, d), from)
  {
  }

  /** A source entry is put under a free name. */
  lemma TrackedPut(p: Policy, src: Tree, dst: Tree, done: set<string>, d: Listing, from: map<string, string>,
                   n: string, m: string)
    requires src.Dir? && dst.Dir? && Tracked(p, src, dst, done, d, from) && dst.entries.Keys <= d.Keys
    requires n in src.entries && n !in done && m !in d && NameGiven(p, n, m)
    ensures Tracked(p, src, dst, done + {n}, d[m := src.entries[n]], from[m := n])
  {
    hide NameGiven, Grown, Accounted;
    SourcesPut(p, src, dst, done, d, from, n, m);
    hide Sources;
  }

  lemma SourcesPut(p: Policy, src: Tree, dst: Tree, done: set<string>, d: Listing, from: map<string, string>,
                   n: string, m: string)
    requires src.Dir? && dst.Dir? && dst.entries.Keys <= d.Keys && Sources(p, dst, src, Dir(0, d), from)
    requires forall k :: k in from ==> from[k] in done
    requires n in src.entries && n !in done && m !in d && NameGiven(p, n, m)
    ensures Sources(p, dst, src, Dir(0, d[m := src.entries[n]]), from[m := n])
    ensures m !in from
  {
    hide NameGiven, Grown, Accounted;
    var from', d' := from[m := n], d[m := src.entries[n]];
    assert m !in Dir(0, d).entries;
    forall k | k in d' ensures Accounted(p, dst, src, from', k, d'[k]) {
      AccountedPut(p, dst, src, from, n, m, k, d'[k]);
    }
  }

  lemma AccountedPut(p: Policy, d: Tree, s: Tree, from: map<string, string>, n: string, m: string, k: string, u: Tree)
    requires d.Dir? && s.Dir? && n in s.entries && m !in d.entries
    requires if k == m then u == s.entries[n] else Accounted(p, d, s, from, k, u)
    ensures Accounted(p, d, s, from[m := n], k, u)
  {
    hide NothingElse;
  }

  /** What stands under the name grows by the source entry of that name. */
  lemma TrackedGrow(p: Policy, src: Tree, dst: Tree, done: set<string>, d: Listing, from: map<string, string>,
                    n: string, u: Tree)
    requires src.Dir? && dst.Dir? && Tracked(p, src, dst, done, d, from)
    requires n in src.entries && n !in done && n in d && Grown(p, d[n], src, n, u)
    ensures Tracked(p, src, dst, done + {n}, d[n := u], from)
  {
    hide NameGiven, Grown, Accounted;
    AccountedGrow(p, src, dst, done, d, from, n, u);
    forall k | k in d && k != n ensures Accounted(p, dst, src, from, k, d[n := u][k]) {
    }
  }

  lemma AccountedGrow(p: Policy, src: Tree, dst: Tree, done: set<string>, d: Listing, from: map<string, string>,
                      n: string, u: Tree)
    requires src.Dir? && dst.Dir? && Tracked(p, src, dst, done, d, from)
    requires n in src.entries && n !in done && n in d && Grown(p, d[n], src, n, u)
    ensures Accounted(p, dst, src, from, n, u)
  {
    hide NameGiven, Grown;
    assert Accounted(p, dst, src, from, n, d[n]);
    assert n !in dst.entries ==> from[n] != n;
  }

  /** Overwriting takes the old entry away first. */
  lemma TrackedDrop(p: Policy, src: Tree, dst: Tree, done: set<string>, d: Listing, from: map<string, string>,
                    n: string)
    requires src.Dir? && dst.Dir? && Tracked(p, src, dst, done, d, from) && p == Overwrite
    requires n in src.entries && n !in done && n in d
    ensures Tracked(p, src, dst, done + {n}, d - {n}, from)
  {
    hide Grown, Accounted;
    assert n !in from;
  }

  lemma TrackedSame(p: Policy, src: Tree, dst: Tree, done: set<string>, d: Listing, from: map<string, string>,
                    n: string)
    requires src.Dir? && dst.Dir? && Tracked(p, src, dst, done, d, from)
    ensures Tracked(p, src, dst, done + {n}, d, from)
  {
    hide NameGiven, Grown, Accounted;
  }

  lemma SourcesSuffice(p: Policy, dst: Tree, src: Tree, d: Listing, from: map<string, string>)
    requires src.Dir? && dst.Dir? && Sources(p, dst, src, Dir(0, d), from)
    ensures NothingElse(p, dst, src, Dir(dst.mode, d))
  {
    assert Sources(p, dst, src, Dir(dst.mode, d), from);
  }

  /** A turn that finds no candidate free has met them all in the two trees. */
  lemma CrowdedWhen(src: Tree, dst: Tree, done: set<string>, d: Listing, from: map<string, string>, n: string)
    requires src.Dir? && dst.Dir? && Tracked(Rename, src, dst, done, d, from)
    requires n in src.entries && n !in done && n in d && (Taken(d.Keys, n) || CrowdedIn(d[n], src.entries[n]))
    ensures CrowdedIn(dst, src)
  {
    hide CrowdedIn, Candidate, Grown;
    if n !in dst.entries {
      assert from[n] in src.entries && from[n] != n && NameFor(from[n], n);
    }
    assert Met(dst.entries, src.entries, n);
    if Taken(d.Keys, n) {
      forall i | 1 <= i <= ATTEMPTS ensures Candidate(n, i) in dst.entries.Keys + src.entries.Keys {
        var c := Candidate(n, i);
        assert c in d && Accounted(Rename, dst, src, from, c, d[c]);
        if c !in dst.entries && from[c] != c {
          var j :| 1 <= j <= ATTEMPTS && c == Candidate(from[c], j);
          CandidateOfOne(n, i, from[c], j);
        }
      }
      CrowdedHere(dst, src, n);
    } else {
      CrowdedInside(dst, src, n, if n in dst.entries then n else from[n]);
    }
  }

  lemma CrowdedHere(d: Tree, s: Tree, n: string)
    requires d.Dir? && s.Dir? && Met(d.entries, s.entries, n) && Taken(d.entries.Keys + s.entries.Keys, n)
    ensures CrowdedIn(d, s)
  {
  }

  lemma CrowdedInside(d: Tree, s: Tree, n: string, k: string)
    requires d.Dir? && s.Dir? && n in s.entries
    requires if k == n then n in d.entries && CrowdedIn(d.entries[n], s.entries[n])
             else k in s.entries && NameFor(k, n) && CrowdedIn(s.entries[k], s.entries[n])
    ensures CrowdedIn(d, s)
  {
  }

  /** The body of the loop in mergeTrees for one source entry. */
  method MergeEntry(disk: Disk, policy: Policy, n: string, t: Tree, s: Listing, d: Listing)
    returns (s': Listing, d': Listing, ok: bool)
    requires n in s && s[n] == t
    modifies disk
    ensures old(disk.Reliable()) ==> disk.Reliable()
    ensures s' - {n} == s - {n}
    ensures policy != Overwrite ==> LeavesIn(s') + LeavesIn(d') == LeavesIn(s) + LeavesIn(d)
    ensures policy != Overwrite ==> Keeps(Dir(0, d), Dir(0, d'))
    ensures ok && policy in {Skip, Overwrite} ==> d' == d[n := if n in d then Combine(policy, d[n], t) else t]
    ensures ok && policy == Rename ==> PlacedAt(t, d', n)
    ensures ok && policy in {Rename, Overwrite} ==> Spent(s', n) && (old(disk.Reliable()) ==> n !in s')
    ensures EntryStep(policy, n, t, d, d') && (ok ==> d.Keys <= d'.Keys)
    ensures old(disk.Reliable()) && ok && policy == Rename && n in d && !(t.Dir? && d[n].Dir?) ==>
              exists i ::
                  1 <= i <= ATTEMPTS && Candidate(n, i) !in d && (forall j :: 1 <= j < i ==> Candidate(n, j) in d)
                          && d' == d[Candidate(n, i) := t]
    ensures old(disk.Reliable()) && !ok ==>
              policy == Fail || (policy == Rename && n in d && (Taken(d.Keys, n) || CrowdedIn(d[n], t)))
    decreases t, 1
  {
    hide Placed, Keeps, CrowdedIn, Leaves, LeavesIn, NothingElse;
    s', d', ok := s, d, false;
    KeepsSelf(Dir(0, d));
    var seen := disk.Call();
    if seen { seen := disk.Call(); }
    if !seen { return; }
    if n !in d {
      ok := disk.Call();
      if ok {
        s', d' := s - {n}, d[n := t];
        MoveConserves(s, d, n, n);
        PutKeeps(d, n, t);
        PlacedSelf(t);
        assert NameFor(n, n);
      }
    } else if t.Dir? && d[n].Dir? {
      var t', u;
      t', u, ok := MergeTrees(disk, policy, t, d[n]);
      s', d' := s[n := t'], d[n := u];
      EntryMerged(policy, s, d, n, t', u, ok);
      if ok {
        var removed := disk.Call();
        if removed && t'.entries == map[] {
          s' := s - {n};
          EmptyDir(t');
          RemoveConserves(s[n := t'], n);
          assert s[n := t'] - {n} == s - {n};
        }
      }
    } else {
      match policy {
        case Skip => ok := true;
        case Overwrite =>
          ok := disk.Call();
          if ok {
            d' := d - {n};
            ok := disk.Call();
            if ok {
              s', d' := s - {n}, d'[n := t];
              assert d - {n} + map[n := t] == d[n := t];
            }
          }
        case Rename =>
          var found, m := FreeName(disk, d, n);
          if !found { return; }
          ok := disk.Call();
          if ok {
            s', d' := s - {n}, d[m := t];
            MoveConserves(s, d, n, m);
            PutKeeps(d, m, t);
            PlacedSelf(t);
            assert NameFor(n, m);
          }
        case Fail =>
      }
    }
  }

  lemma EmptyDir(t: Tree)
    requires t.Dir? && t.entries == map[]
    ensures Leaves(t) == multiset{}
  {
  }

  /** From the two sides of a merged subdirectory to the two sides of the directory. */
  lemma EntryMerged(policy: Policy, s: Listing, d: Listing, n: string, t': Tree, u: Tree, ok: bool)
    requires n in s && n in d && s[n].Dir? && d[n].Dir? && t'.Dir? && u.Dir?
    requires policy != Overwrite ==> Leaves(t') + Leaves(u) == Leaves(s[n]) + Leaves(d[n]) && Keeps(d[n], u)
    requires ok && policy == Rename ==> Placed(s[n], u)
    ensures policy != Overwrite ==> LeavesIn(s[n := t']) + LeavesIn(d[n := u]) == LeavesIn(s) + LeavesIn(d)
    ensures policy != Overwrite ==> Keeps(Dir(0, d), Dir(0, d[n := u]))
    ensures ok && policy == Rename ==> PlacedAt(s[n], d[n := u], n)
  {
    hide Placed, Keeps, Leaves, LeavesIn;
    if policy != Overwrite {
      InnerConserves(s, d, n, t', u);
      PutKeeps(d, n, u);
    }
    assert NameFor(n, n);
  }

  /** Skip and overwrite after the entries in `done` had their turn. */
  function PartMerge(p: Policy, d: Listing, s: Listing, done: set<string>): Listing {
    map n | n in d.Keys + (s.Keys * done) ::
      if n !in s || n !in done then d[n] else if n !in d then s[n] else Combine(p, d[n], s[n])
  }

  /**
    mergeTrees, for any order of the directory listing and any failing call.  Short of overwriting,
    files and links are conserved and the old destination is kept at every exit; a merge that
    succeeds computes the skip or overwrite merge, or places every source entry.
   */
  method MergeTrees(disk: Disk, policy: Policy, src: Tree, dst: Tree) returns (src': Tree, dst': Tree, ok: bool)
    requires src.Dir? && dst.Dir?
    modifies disk
    ensures old(disk.Reliable()) ==> disk.Reliable()
    ensures src'.Dir? && dst'.Dir? && src'.mode == src.mode && dst'.mode == dst.mode
    ensures policy != Overwrite ==> Leaves(src') + Leaves(dst') == Leaves(src) + Leaves(dst)
    ensures policy != Overwrite ==> Keeps(dst, dst')
    ensures ok && policy in {Skip, Overwrite} ==> dst' == Merge(policy, dst, src)
    ensures ok && policy == Rename ==> Placed(src, dst')
    ensures ok && policy in {Rename, Overwrite} ==>
              Leaves(src') == multiset{} && (old(disk.Reliable()) ==> src'.entries == map[])
    ensures NothingElse(policy, dst, src, dst')
    ensures old(disk.Reliable()) && !ok ==> policy == Fail || (policy == Rename && CrowdedIn(dst, src))
    ensures old(disk.Reliable()) && policy == Rename && Roomy(dst, src) ==> ok
    decreases src, 0
  {
    hide Keeps, Leaves, Turned, Tracked, EntryStep, NothingElse, CrowdedIn, Roomy;
    NothingYet(policy, dst, src);
    src', dst', ok := src, dst, false;
    KeepsSelf(dst);
    var listed := disk.Call();
    if !listed { return; }
    var names := ReadDir(src.entries);
    var s, d := src.entries, dst.entries;
    ghost var done: set<string> := {};
    ghost var clean := old(disk.Reliable());
    ghost var from: map<string, string> := map[];
    TurnedStart(policy, src, dst, clean);
    TrackedStart(policy, src, dst);
    for i := 0 to |names|
      invariant clean ==> disk.Reliable()
      invariant forall n :: n in done <==> n in names[..i]
      invariant Turned(policy, src, dst, done, s, d, clean)
      invariant Tracked(policy, src, dst, done, d, from) && dst.entries.Keys <= d.Keys
      invariant NothingElse(policy, dst, src, Dir(dst.mode, d))
    {
      var n := names[i];
      assert n in src.entries && n !in done;
      TurnedEntry(policy, src, dst, done, s, d, clean, n);
      var s1, d1;
      s1, d1, ok := MergeEntry(disk, policy, n, src.entries[n], s, d);
      ghost var from1 := TrackedStep(policy, src, dst, done, d, from, n, d1);
      if !ok {
        if clean && policy == Rename {
          CrowdedWhen(src, dst, done, d, from, n);
          if Roomy(dst, src) { RoomyNotCrowded(dst, src); }
        }
        src', dst' := Dir(src.mode, s1), Dir(dst.mode, d1);
        Stopped(policy, src, dst, done, s, d, clean, s1, d1);
        return;
      }
      TurnedStep(policy, src, dst, done, s, d, clean, n, s1, d1);
      s, d, done, from := s1, d1, done + {n}, from1;
      assert names[..i + 1] == names[..i] + [n];
    }
    ok := true;
    src', dst' := Dir(src.mode, s), Dir(dst.mode, d);
    assert names[..|names|] == names && done == src.entries.Keys;
    Finished(policy, src, dst, s, d, clean);
  }

  /** Where a merge stands after the source entries in `done`; `clean` when no call has failed. */
  ghost predicate Turned(policy: Policy, src: Tree, dst: Tree, done: set<string>, s: Listing, d: Listing, clean: bool)
    requires src.Dir? && dst.Dir?
  {
    && s.Keys <= src.entries.Keys
    && (forall n :: n in src.entries && n !in done ==> n in s && s[n] == src.entries[n])
    && (policy != Overwrite ==> LeavesIn(s) + LeavesIn(d) == Leaves(src) + Leaves(dst))
    && (policy != Overwrite ==> Keeps(Dir(0, dst.entries), Dir(0, d)))
    && (policy in {Skip, Overwrite} ==> d == PartMerge(policy, dst.entries, src.entries, done))
    && (policy == Rename ==> forall n :: n in done ==> n in src.entries && PlacedAt(src.entries[n], d, n))
    && (policy in {Rename, Overwrite} ==> forall n :: n in done ==> Spent(s, n) && (clean ==> n !in s))
  }

  lemma TurnedStart(policy: Policy, src: Tree, dst: Tree, clean: bool)
    requires src.Dir? && dst.Dir?
    ensures Turned(policy, src, dst, {}, src.entries, dst.entries, clean)
  {
    hide Placed, Leaves, LeavesIn, Combine, Keeps;
    DirListing(src, src.entries);
    DirListing(dst, dst.entries);
    KeepsSelf(Dir(0, dst.entries));
    assert PartMerge(policy, dst.entries, src.entries, {}) == dst.entries;
  }

  lemma TrackedStart(p: Policy, src: Tree, dst: Tree)
    requires src.Dir? && dst.Dir?
    ensures Tracked(p, src, dst, {}, dst.entries, map[]) && NothingElse(p, dst, src, Dir(dst.mode, dst.entries))
  {
    NothingYet(p, dst, src);
    assert Dir(dst.mode, dst.entries) == dst;
    assert forall m :: m in dst.entries ==> Grown(p, dst.entries[m], src, m, dst.entries[m]);
  }

  lemma TurnedEntry(policy: Policy, src: Tree, dst: Tree, done: set<string>, s: Listing, d: Listing, clean: bool,
                    n: string)
    requires src.Dir? && dst.Dir? && Turned(policy, src, dst, done, s, d, clean) && n in src.entries && n !in done
    ensures n in s && s[n] == src.entries[n]
  {
  }

  lemma TurnedStep(policy: Policy, src: Tree, dst: Tree, done: set<string>, s: Listing, d: Listing, clean: bool,
                   n: string, s': Listing, d': Listing)
    requires src.Dir? && dst.Dir? && Turned(policy, src, dst, done, s, d, clean) && n in src.entries && n !in done
    requires s' - {n} == s - {n}
    requires policy != Overwrite ==> LeavesIn(s') + LeavesIn(d') == LeavesIn(s) + LeavesIn(d)
    requires policy != Overwrite ==> Keeps(Dir(0, d), Dir(0, d'))
    requires policy in {Skip, Overwrite} ==>
               d' == d[n := if n in d then Combine(policy, d[n], src.entries[n]) else src.entries[n]]
    requires policy == Rename ==> PlacedAt(src.entries[n], d', n)
    requires policy in {Rename, Overwrite} ==> Spent(s', n) && (clean ==> n !in s')
    ensures Turned(policy, src, dst, done + {n}, s', d', clean)
  {
    hide Placed, Leaves, LeavesIn, Combine, Keeps, PlacedAt;
    OthersUntouched(s, s', n);
    if policy != Overwrite {
      KeepsTrans(Dir(0, dst.entries), Dir(0, d), Dir(0, d'));
    }
    if policy == Rename {
      forall k | k in done ensures PlacedAt(src.entries[k], d', k) {
        PlacedAtStays(src.entries[k], d, d', k);
      }
    }
    if policy in {Skip, Overwrite} {
      PartStep(policy, dst.entries, src.entries, done, n, d, d');
    }
  }

  lemma Stopped(policy: Policy, src: Tree, dst: Tree, done: set<string>, s: Listing, d: Listing, clean: bool,
                s': Listing, d': Listing)
    requires src.Dir? && dst.Dir? && Turned(policy, src, dst, done, s, d, clean)
    requires policy != Overwrite ==> LeavesIn(s') + LeavesIn(d') == LeavesIn(s) + LeavesIn(d)
    requires policy != Overwrite ==> Keeps(Dir(0, d), Dir(0, d'))
    ensures policy != Overwrite ==> Leaves(Dir(src.mode, s')) + Leaves(Dir(dst.mode, d')) == Leaves(src) + Leaves(dst)
    ensures policy != Overwrite ==> Keeps(dst, Dir(dst.mode, d'))
  {
    hide Placed, Leaves, LeavesIn, PartMerge, Keeps;
    Wrap(policy, src, dst, s', d');
    if policy != Overwrite {
      KeepsTrans(Dir(0, dst.entries), Dir(0, d), Dir(0, d'));
    }
  }

  lemma Finished(policy: Policy, src: Tree, dst: Tree, s: Listing, d: Listing, clean: bool)
    requires src.Dir? && dst.Dir? && Turned(policy, src, dst, src.entries.Keys, s, d, clean)
    ensures policy != Overwrite ==> Leaves(Dir(src.mode, s)) + Leaves(Dir(dst.mode, d)) == Leaves(src) + Leaves(dst)
    ensures policy != Overwrite ==> Keeps(dst, Dir(dst.mode, d))
    ensures policy in {Skip, Overwrite} ==> Dir(dst.mode, d) == Merge(policy, dst, src)
    ensures policy == Rename ==> Placed(src, Dir(dst.mode, d))
    ensures policy in {Rename, Overwrite} ==> Leaves(Dir(src.mode, s)) == multiset{} && (clean ==> s == map[])
  {
    hide Placed, Leaves, LeavesIn, PartMerge, Keeps, Merge, PlacedAt, Spent;
    Wrap(policy, src, dst, s, d);
    if policy in {Skip, Overwrite} {
      PartWhole(policy, dst, src);
    }
    if policy == Rename {
      AllPlaced(src, dst.mode, d);
    }
    if policy in {Rename, Overwrite} {
      AllSpent(s);
      DirListing(Dir(src.mode, s), s);
      if clean {
        assert s.Keys == {};
      }
    }
  }

  lemma DirListing(t: Tree, l: Listing)
    requires t.Dir? && t.entries == l
    ensures Leaves(t) == LeavesIn(l)
  {
    LeavesOfDir(t.mode, l);
  }

  lemma OthersUntouched(s: Listing, s': Listing, n: string)
    requires s' - {n} == s - {n}
    ensures forall k :: k != n ==> (k in s' <==> k in s) && (k in s ==> s'[k] == s[k])
  {
    forall k | k != n ensures (k in s' <==> k in s) && (k in s ==> s'[k] == s[k]) {
      assert k in s' - {n} <==> k in s';
      assert k in s - {n} <==> k in s;
      if k in s {
        assert (s' - {n})[k] == s'[k] && (s - {n})[k] == s[k];
      }
    }
  }

  lemma Wrap(policy: Policy, src: Tree, dst: Tree, s: Listing, d: Listing)
    requires src.Dir? && dst.Dir?
    ensures Leaves(Dir(src.mode, s)) + Leaves(Dir(dst.mode, d)) == LeavesIn(s) + LeavesIn(d)
    ensures Keeps(Dir(0, dst.entries), Dir(0, d)) ==> Keeps(dst, Dir(dst.mode, d))
  {
    LeavesOfDir(src.mode, s);
    LeavesOfDir(dst.mode, d);
  }

  lemma PartStep(p: Policy, d: Listing, s: Listing, done: set<string>, n: string, before: Listing, after: Listing)
    requires before == PartMerge(p, d, s, done) && n in s && n !in done
    requires after == before[n := if n in before then Combine(p, before[n], s[n]) else s[n]]
    ensures after == PartMerge(p, d, s, done + {n})
  {
    hide Combine;
    var whole := PartMerge(p, d, s, done + {n});
    assert after.Keys == whole.Keys;
    forall k | k in whole ensures after[k] == whole[k] {}
  }

  lemma PartWhole(p: Policy, d: Tree, s: Tree)
    requires d.Dir? && s.Dir?
    ensures Dir(d.mode, PartMerge(p, d.entries, s.entries, s.entries.Keys)) == Merge(p, d, s)
  {
    hide Combine;
    var part, whole := PartMerge(p, d.entries, s.entries, s.entries.Keys), Merge(p, d, s).entries;
    assert part.Keys == whole.Keys;
    forall n | n in whole ensures part[n] == whole[n] {
      MergeAt(p, d, s, n);
    }
  }

  lemma AllPlaced(src: Tree, mode: nat, d: Listing)
    requires src.Dir? && forall n :: n in src.entries ==> PlacedAt(src.entries[n], d, n)
    ensures Placed(src, Dir(mode, d))
  {
  }

  lemma {:induction false} AllSpent(s: Listing)
    requires forall n :: n in s ==> Spent(s, n)
    ensures LeavesIn(s) == multiset{}
    decreases |s|
  {
    if s == map[] {
      EmptyDir(Dir(0, s));
    } else {
      hide Leaves, LeavesIn;
      var n :| n in s;
      assert Spent(s, n);
      LeavesTake(s, n);
      forall k | k in s - {n} ensures Spent(s - {n}, k) {
        assert Spent(s, k);
      }
      AllSpent(s - {n});
    }
  }
}
