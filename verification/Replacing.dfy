/**
  Restoring into an existing destination: copy, merge, and the swap with its rollback.  The parent
  directory keeps a history of every state it was in, so a statement about the history is one
  about a run stopped anywhere.
 */
module Replacing {
  import opened Paths
  import opened Trees
  import opened Merging

  /** 0700, the mode os.MkdirTemp gives. */
  const PRIVATE: nat := 448

  /** Two listings agree on every name outside `names`. */
  ghost predicate SameBut(a: Listing, b: Listing, names: set<string>) {
    forall k :: k !in names ==> (k in a <==> k in b) && (k in a ==> a[k] == b[k])
  }

  class Parent {
    var entries: Listing
    const disk: Disk
    ghost var history: seq<Listing>

    constructor (entries: Listing, disk: Disk)
      ensures this.entries == entries && this.disk == disk && history == [entries]
    {
      this.entries, this.disk := entries, disk;
      history := [entries];
    }

    method Set(l: Listing)
      modifies this
      ensures entries == l && history == old(history) + [l]
    {
      entries := l;
      history := history + [l];
    }

    method MkdirTemp(name: string) returns (ok: bool)
      requires name !in entries
      modifies this, disk
      ensures old(disk.Reliable()) ==> disk.Reliable() && ok
      ensures ok ==> entries == old(entries)[name := Dir(PRIVATE, map[])] && history == old(history) + [entries]
      ensures !ok ==> entries == old(entries) && history == old(history)
    {
      ok := disk.Call();
      if ok { Set(entries[name := Dir(PRIVATE, map[])]); }
    }

    /** os.Remove of an empty directory. */
    method Remove(name: string) returns (ok: bool)
      requires name in entries && entries[name] == Dir(PRIVATE, map[])
      modifies this, disk
      ensures old(disk.Reliable()) ==> disk.Reliable() && ok
      ensures ok ==> entries == old(entries) - {name} && history == old(history) + [entries]
      ensures !ok ==> entries == old(entries) && history == old(history)
    {
      ok := disk.Call();
      if ok { Set(entries - {name}); }
    }

    /** os.Rename onto a free name is one step. */
    method Rename(a: string, b: string) returns (ok: bool)
      requires a in entries && b !in entries
      modifies this, disk
      ensures old(disk.Reliable()) ==> disk.Reliable() && ok
      ensures ok ==> entries == (old(entries) - {a})[b := old(entries)[a]] && history == old(history) + [entries]
      ensures !ok ==> entries == old(entries) && history == old(history)
    {
      ok := disk.Call();
      if ok { Set((entries - {a})[b := entries[a]]); }
    }

    /** os.RemoveAll passes through whatever debris and may stop on it; other names are untouched. */
    method RemoveAll(name: string, debris: seq<Tree>) returns (ok: bool)
      modifies this, disk
      ensures old(disk.Reliable()) ==> disk.Reliable() && ok
      ensures SameBut(entries, old(entries), {name})
      ensures ok ==> name !in entries
      ensures old(history) <= history
      ensures forall i :: |old(history)| <= i < |history| ==> SameBut(history[i], old(entries), {name})
    {
      if name in entries {
        for i := 0 to |debris|
          invariant old(disk.Reliable()) ==> disk.Reliable()
          invariant old(history) <= history
          invariant SameBut(entries, old(entries), {name})
          invariant forall k :: |old(history)| <= k < |history| ==> SameBut(history[k], old(entries), {name})
        {
          Set(entries[name := debris[i]]);
        }
      }
      ok := disk.Call();
      if ok {
        Set(entries - {name});
      }
    }
  }

  /** The old tree is whole at the destination or at the backup, or the new one is at the destination. */
  predicate Safe(l: Listing, final: string, backup: string, before: Tree, after: Tree) {
    || (final in l && l[final] == before)
    || (backup in l && l[backup] == before)
    || (final in l && l[final] == after)
  }

  /** Every state from `since` on is safe. */
  ghost predicate AllSafe(history: seq<Listing>, since: nat, final: string, backup: string, before: Tree, after: Tree) {
    forall i :: since <= i < |history| ==> Safe(history[i], final, backup, before, after)
  }

  datatype Swap = Swapped | Unchanged | Stranded | BackupLeft

  /** The backup name is reserved by making a directory and removing it again. */
  method Reserve(p: Parent, backup: string) returns (ok: bool)
    requires backup !in p.entries
    modifies p, p.disk
    ensures old(p.disk.Reliable()) ==> p.disk.Reliable() && ok
    ensures SameBut(p.entries, old(p.entries), {backup}) && (ok ==> p.entries == old(p.entries))
    ensures old(p.history) <= p.history
    ensures forall i :: |old(p.history)| <= i < |p.history| ==> SameBut(p.history[i], old(p.entries), {backup})
  {
    ok := p.MkdirTemp(backup);
    if ok {
      ghost var made := p.entries;
      ok := p.Remove(backup);
      assert ok ==> made - {backup} == old(p.entries);
    }
  }

  /** How things stand after a swap. */
  ghost predicate After(swap: Swap, l: Listing, staged: string, final: string, backup: string, before: Tree,
                        after: Tree) {
    match swap
    case Swapped => final in l && l[final] == after && staged !in l && backup !in l
    case Unchanged => final in l && l[final] == before && staged in l && l[staged] == after
    case Stranded => backup in l && l[backup] == before && final !in l && staged in l && l[staged] == after
    case BackupLeft => final in l && l[final] == after && staged !in l
  }

  /** The two renames, with the rollback of the first, and the removal of the backup. */
  method SwapIn(p: Parent, staged: string, final: string, backup: string, debris: seq<Tree>, ghost before: Tree,
                ghost after: Tree)
    returns (swap: Swap)
    requires final in p.entries && staged in p.entries && backup !in p.entries
    requires staged != final && staged != backup && final != backup
    requires before == p.entries[final] && after == p.entries[staged]
    modifies p, p.disk
    ensures old(p.disk.Reliable()) ==> p.disk.Reliable() && swap == Swapped
    ensures old(p.history) <= p.history && AllSafe(p.history, |old(p.history)|, final, backup, before, after)
    ensures SameBut(p.entries, old(p.entries), {final, staged, backup})
    ensures After(swap, p.entries, staged, final, backup, before, after)
  {
    var ok := p.Rename(final, backup);
    if !ok { return Unchanged; }
    ok := p.Rename(staged, final);
    if !ok {
      ok := p.Rename(backup, final);
      return if ok then Unchanged else Stranded;
    }
    ok := p.RemoveAll(backup, debris);
    return if ok then Swapped else BackupLeft;
  }

  lemma SafeUnchanged(h: seq<Listing>, since: nat, l: Listing, final: string, backup: string, before: Tree, after: Tree)
    requires final != backup && final in l && l[final] == before
    requires forall i :: since <= i < |h| ==> SameBut(h[i], l, {backup})
    ensures AllSafe(h, since, final, backup, before, after)
  {
  }

  lemma SafeJoined(h: seq<Listing>, mid: nat, since: nat, h': seq<Listing>, final: string, backup: string, before: Tree,
                   after: Tree)
    requires since <= mid == |h| && h <= h'
    requires AllSafe(h, since, final, backup, before, after) && AllSafe(h', mid, final, backup, before, after)
    ensures AllSafe(h', since, final, backup, before, after)
  {
    hide Safe;
    forall i | since <= i < |h'| ensures Safe(h'[i], final, backup, before, after) {
      if i < mid {
        assert h'[i] == h[i];
      }
    }
  }

  /**
    ReplaceDirectory.  `sameParent` and `linked` are what its tests of the two paths find: a common parent,
    a symlink among the destination's components.  Only a failed rollback strands the old tree at the
    backup path; every state on the way is safe.
   */
  method ReplaceDirectory(p: Parent, staged: string, final: string, backup: string, debris: seq<Tree>, sameParent: bool,
                          linked: bool)
    returns (swap: Swap)
    requires final in p.entries && staged in p.entries && backup !in p.entries
    requires staged != final && staged != backup && final != backup
    modifies p, p.disk
    ensures old(p.disk.Reliable()) ==>
              p.disk.Reliable() && (old(p.entries[final].Dir?) && sameParent && !linked ==> swap == Swapped)
    ensures !sameParent || linked ==> swap == Unchanged && p.entries == old(p.entries)
    ensures old(p.history) <= p.history
    ensures AllSafe(p.history, |old(p.history)|, final, backup, old(p.entries[final]), old(p.entries[staged]))
    ensures SameBut(p.entries, old(p.entries), {final, staged, backup})
    ensures After(swap, p.entries, staged, final, backup, old(p.entries[final]), old(p.entries[staged]))
  {
    ghost var before, after, start, since := p.entries[final], p.entries[staged], p.entries, |p.history|;
    if !sameParent { return Unchanged; }
    var ok := p.disk.Call();
    if !ok || linked { return Unchanged; }
    ok := p.disk.Call();
    if !ok || !p.entries[final].Dir? { return Unchanged; }
    ok := Reserve(p, backup);
    SafeUnchanged(p.history, since, start, final, backup, before, after);
    if !ok { return Unchanged; }
    hide AllSafe;
    ghost var reserved := p.history;
    swap := SwapIn(p, staged, final, backup, debris, before, after);
    SafeJoined(reserved, |reserved|, since, p.history, final, backup, before, after);
  }

  ghost predicate HasLink(t: Tree)
    decreases t
  {
    t.Link? || (t.Dir? && exists n :: n in t.entries && HasLink(t.entries[n]))
  }

  lemma {:induction false} LinkFound(t: Tree) returns (p: Path)
    requires HasLink(t)
    ensures At(t, p).Node? && At(t, p).node.Link?
    decreases t
  {
    p := [];
    if t.Dir? {
      var n :| n in t.entries && HasLink(t.entries[n]);
      var rest := LinkFound(t.entries[n]);
      p := [n] + rest;
      assert p[1..] == rest;
    }
  }

  lemma {:induction false} FoundIsLink(t: Tree, p: Path)
    requires At(t, p).Node? && At(t, p).node.Link?
    ensures HasLink(t)
    decreases |p|
  {
    if p != [] {
      FoundIsLink(t.entries[p[0]], p[1..]);
    }
  }

  /** A symlink at some path. */
  lemma HasLinkMeans(t: Tree)
    ensures HasLink(t) <==> exists p: Path :: At(t, p).Node? && At(t, p).node.Link?
  {
    hide HasLink;
    if HasLink(t) {
      var p := LinkFound(t);
    }
    if p: Path :| At(t, p).Node? && At(t, p).node.Link? {
      FoundIsLink(t, p);
    }
  }

  /** copyExistingTree for one node; a symlink anywhere is refused. */
  method CopyNode(disk: Disk, t: Tree) returns (ok: bool, copy: Tree)
    modifies disk
    ensures old(disk.Reliable()) ==> disk.Reliable()
    ensures ok ==> copy == t && !HasLink(t)
    ensures old(disk.Reliable()) && !HasLink(t) ==> ok
    decreases t, 1
  {
    copy := t;
    ok := disk.Call();
    if !ok { return; }
    match t {
      case Link(_) => ok := false;
      case File(mode, data) => ok := disk.Call(); copy := File(mode, data);
      case Dir(mode, l) =>
        var l';
        ok, l' := CopyEntries(disk, t);
        copy := Dir(mode, l');
    }
  }

  /** copyExistingTree: the entries below a directory. */
  method CopyEntries(disk: Disk, t: Tree) returns (ok: bool, l: Listing)
    requires t.Dir?
    modifies disk
    ensures old(disk.Reliable()) ==> disk.Reliable()
    ensures ok ==> l == t.entries && !HasLink(t)
    ensures old(disk.Reliable()) && !HasLink(t) ==> ok
    decreases t, 0
  {
    var names := ReadDir(t.entries);
    l := map[];
    for i := 0 to |names|
      invariant old(disk.Reliable()) ==> disk.Reliable()
      invariant forall n :: n in l <==> n in names[..i]
      invariant forall n :: n in l ==> n in t.entries && l[n] == t.entries[n] && !HasLink(t.entries[n])
    {
      var n := names[i];
      assert n in names && n in t.entries;
      var copied, c := CopyNode(disk, t.entries[n]);
      if !copied { return false, l; }
      l := l[n := c];
      assert names[..i + 1] == names[..i] + [n];
    }
    assert names[..|names|] == names;
    assert l.Keys == t.entries.Keys;
    ok := true;
  }

  /** What a successful restore into an existing tree makes of it; the new root is private. */
  ghost predicate MergedAs(policy: Policy, before: Tree, extracted: Tree, after: Tree)
    requires before.Dir? && extracted.Dir?
  {
    && after.Dir? && after.mode == PRIVATE
    && (policy in {Skip, Overwrite} ==> after.entries == Merge(policy, before, extracted).entries)
    && (policy != Overwrite ==>
        Keeps(Dir(PRIVATE, before.entries), after) && Leaves(after) <= Leaves(before) + Leaves(extracted))
    && (policy == Rename ==> Placed(extracted, after) && Leaves(after) == Leaves(before) + Leaves(extracted))
    && NothingElse(policy, before, extracted, after)
  }

  /** Policies under which a merge of these trees always finds a place for everything. */
  ghost predicate Mergeable(policy: Policy, before: Tree, extracted: Tree) {
    policy in {Skip, Overwrite} || (policy == Rename && !CrowdedIn(before, extracted))
  }

  /** The stage for a merge: a copy of the destination with the extracted tree merged into it. */
  method BuildStage(disk: Disk, policy: Policy, before: Tree, extracted: Tree)
    returns (ok: bool, left: Tree, stage: Tree)
    requires before.Dir? && extracted.Dir?
    modifies disk
    ensures old(disk.Reliable()) ==> disk.Reliable()
    ensures ok ==> !HasLink(before) && (policy != Fail ==> MergedAs(policy, before, extracted, stage))
    ensures old(disk.Reliable()) && !HasLink(before) && Mergeable(policy, before, extracted) ==> ok
  {
    hide Leaves, Keeps, Placed, HasLink, Merge, NothingElse, CrowdedIn;
    left, stage := extracted, Dir(PRIVATE, map[]);
    var l;
    ok, l := CopyEntries(disk, before);
    stage := Dir(PRIVATE, l);
    if !ok { return; }
    var copy := stage;
    left, stage, ok := MergeTrees(disk, policy, extracted, copy);
    LeavesOfDir(PRIVATE, l);
    LeavesOfDir(before.mode, l);
    assert before == Dir(before.mode, l);
    MergeIgnoresMode(policy, before, copy, extracted);
    NothingElseIgnoresMode(policy, before, copy, extracted, stage);
    CrowdedIgnoresMode(before, copy, extracted);
    if policy != Overwrite {
      SumParts(Leaves(left), Leaves(stage), Leaves(extracted), Leaves(before));
    }
  }

  lemma SumParts(a: multiset<Tree>, b: multiset<Tree>, c: multiset<Tree>, d: multiset<Tree>)
    requires a + b == c + d
    ensures b <= d + c && (a == multiset{} ==> b == d + c)
  {
    assert a + b == d + c;
    assert b <= a + b;
  }

  lemma MergeIgnoresMode(p: Policy, a: Tree, b: Tree, s: Tree)
    requires a.Dir? && b.Dir? && s.Dir? && a.entries == b.entries
    ensures Merge(p, a, s).entries == Merge(p, b, s).entries
  {
    hide Combine;
    forall n | n in Merge(p, a, s).entries
      ensures n in Merge(p, b, s).entries && Merge(p, a, s).entries[n] == Merge(p, b, s).entries[n] {
      MergeAt(p, a, s, n);
      MergeAt(p, b, s, n);
    }
    assert Merge(p, a, s).entries.Keys == Merge(p, b, s).entries.Keys;
  }

  lemma NothingElseIgnoresMode(p: Policy, a: Tree, b: Tree, s: Tree, r: Tree)
    requires a.Dir? && b.Dir? && s.Dir? && r.Dir? && a.entries == b.entries && NothingElse(p, b, s, r)
    ensures NothingElse(p, a, s, r)
  {
    var from :| Sources(p, b, s, r, from);
    forall m | m in r.entries ensures Accounted(p, a, s, from, m, r.entries[m]) {
      assert Accounted(p, b, s, from, m, r.entries[m]);
    }
    assert Sources(p, a, s, r, from);
  }

  lemma CrowdedIgnoresMode(a: Tree, b: Tree, s: Tree)
    requires a.Dir? && b.Dir? && a.entries == b.entries
    ensures CrowdedIn(a, s) <==> CrowdedIn(b, s)
  {
  }

  /** Deferred removal of a temporary directory: it touches neither the destination nor the backup. */
  method Discard(p: Parent, name: string, debris: seq<Tree>, ghost since: nat, ghost final: string,
                 ghost backup: string,
                 ghost before: Tree, ghost after: Tree)
    requires name != final && name != backup && since <= |p.history|
    requires AllSafe(p.history, since, final, backup, before, after) && Safe(p.entries, final, backup, before, after)
    modifies p, p.disk
    ensures old(p.disk.Reliable()) ==> p.disk.Reliable() && name !in p.entries
    ensures SameBut(p.entries, old(p.entries), {name})
    ensures old(p.history) <= p.history
    ensures AllSafe(p.history, since, final, backup, before, after) && Safe(p.entries, final, backup, before, after)
  {
    var removed := p.RemoveAll(name, debris);
  }

  /** Short of ten thousand names in two directories that meet, a merge finds a place for everything. */
  lemma RoomyMergeable(policy: Policy, before: Tree, extracted: Tree)
    requires policy != Fail && (policy == Rename ==> Roomy(before, extracted))
    ensures Mergeable(policy, before, extracted)
  {
    hide CrowdedIn, Roomy;
    if policy == Rename {
      RoomyNotCrowded(before, extracted);
    }
  }

  lemma PolicyGiven(policy: Policy, before: Tree, extracted: Tree)
    ensures Mergeable(policy, before, extracted) ==> policy != Fail
  {
    hide CrowdedIn;
  }

  /** Restore up to the swap: extract, copy, merge; the destination is only read. */
  method Prepare(p: Parent, policy: Policy, dest: string, incoming: string, stage: string, extracted: Tree,
                 extractOk: bool)
    returns (ready: bool)
    requires dest != incoming && dest != stage && incoming != stage && extracted.Dir?
    requires dest in p.entries && incoming !in p.entries && stage !in p.entries
    modifies p, p.disk
    ensures old(p.disk.Reliable()) ==> p.disk.Reliable()
    ensures old(p.history) <= p.history
    ensures forall i :: |old(p.history)| <= i < |p.history| ==>
              dest in p.history[i] && p.history[i][dest] == old(p.entries[dest])
    ensures SameBut(p.entries, old(p.entries), {incoming, stage})
    ensures ready ==>
              && policy != Fail && old(p.entries[dest].Dir? && !HasLink(p.entries[dest])) && extractOk
              && stage in p.entries && MergedAs(policy, old(p.entries[dest]), extracted, p.entries[stage])
    ensures && old(p.disk.Reliable() && p.entries[dest].Dir? && !HasLink(p.entries[dest]))
            && extractOk && Mergeable(policy, old(p.entries[dest]), extracted) ==>
              ready
  {
    hide MergedAs, HasLink, Mergeable;
    PolicyGiven(policy, p.entries[dest], extracted);
    ready := false;
    var before := p.entries[dest];
    var ok := p.disk.Call();
    if !ok || !before.Dir? || policy == Fail { return; }
    ok := p.MkdirTemp(incoming);
    if !ok { return; }
    p.Set(p.entries[incoming := extracted]);
    if !extractOk { return; }
    ok := p.MkdirTemp(stage);
    if !ok { return; }
    var left, staged;
    ready, left, staged := BuildStage(p.disk, policy, before, extracted);
    p.Set(p.entries[incoming := left][stage := staged]);
  }

  lemma SafePrepared(h: seq<Listing>, since: nat, dest: string, backup: string, before: Tree, after: Tree)
    requires forall i :: since <= i < |h| ==> dest in h[i] && h[i][dest] == before
    ensures AllSafe(h, since, dest, backup, before, after)
  {
  }

  /**
    Restore into a destination that exists.  At every state on the way, whatever fails and wherever
    the run stops, the old tree is whole at the destination or at the backup path or the complete
    merged tree is at the destination; success leaves the merged tree there.
   */
  method RestoreInto(p: Parent, policy: Policy, dest: string, incoming: string, stage: string, backup: string,
                     extracted: Tree, extractOk: bool, debris: seq<Tree>, linked: bool) returns (ok: bool,
                       ghost merged: Tree)
    requires dest != incoming && dest != stage && dest != backup && incoming != stage && incoming != backup
             && stage != backup
    requires extracted.Dir? && dest in p.entries && incoming !in p.entries && stage !in p.entries
             && backup !in p.entries
    modifies p, p.disk
    ensures old(p.history) <= p.history
    ensures AllSafe(p.history, |old(p.history)|, dest, backup, old(p.entries[dest]), merged)
    ensures Safe(p.entries, dest, backup, old(p.entries[dest]), merged)
    ensures merged == old(p.entries[dest]) || (old(p.entries[dest].Dir?)
            && MergedAs(policy, old(p.entries[dest]), extracted, merged))
    ensures SameBut(p.entries, old(p.entries), {dest, incoming, stage, backup})
    ensures ok ==>
              && policy != Fail && old(p.entries[dest].Dir? && !HasLink(p.entries[dest]))
              && dest in p.entries && p.entries[dest] == merged && stage !in p.entries && backup !in p.entries
              && MergedAs(policy, old(p.entries[dest]), extracted, merged)
    ensures old(p.disk.Reliable()) && !ok ==> dest in p.entries && p.entries[dest] == old(p.entries[dest])
    ensures old(p.disk.Reliable()) ==> incoming !in p.entries && stage !in p.entries && backup !in p.entries
    ensures && old(p.disk.Reliable() && p.entries[dest].Dir? && !HasLink(p.entries[dest]))
            && extractOk && !linked && Mergeable(policy, old(p.entries[dest]), extracted) ==>
              ok
    ensures ok || merged != old(p.entries[dest]) ==> extractOk
  {
    hide MergedAs, HasLink, Mergeable;
    ghost var before, since := p.entries[dest], |p.history|;
    merged, ok := before, false;
    var ready := Prepare(p, policy, dest, incoming, stage, extracted, extractOk);
    if ready {
      merged := p.entries[stage];
      ghost var prepared := p.history;
      SafePrepared(p.history, since, dest, backup, before, merged);
      var swap := ReplaceDirectory(p, stage, dest, backup, debris, true, linked);
      SafeJoined(prepared, |prepared|, since, p.history, dest, backup, before, merged);
      ok := swap == Swapped;
    } else {
      SafePrepared(p.history, since, dest, backup, before, merged);
    }
    if !ok {
      Discard(p, stage, debris, since, dest, backup, before, merged);
    }
    Discard(p, incoming, debris, since, dest, backup, before, merged);
  }

  /** Restore to a path that does not exist: the extracted tree appears there whole or not at all. */
  method RestoreFresh(p: Parent, dest: string, incoming: string, extracted: Tree, extractOk: bool, debris: seq<Tree>)
    returns (ok: bool)
    requires dest != incoming && extracted.Dir? && dest !in p.entries && incoming !in p.entries
    modifies p, p.disk
    ensures old(p.history) <= p.history
    ensures forall i :: |old(p.history)| <= i < |p.history| && dest in p.history[i] ==>
              p.history[i][dest] == extracted && extractOk
    ensures SameBut(p.entries, old(p.entries), {dest, incoming})
    ensures ok ==> extractOk && dest in p.entries && p.entries[dest] == extracted && incoming !in p.entries
    ensures !ok ==> dest !in p.entries
    ensures old(p.disk.Reliable()) ==> incoming !in p.entries && (extractOk ==> ok)
  {
    ok := false;
    var made := p.MkdirTemp(incoming);
    if !made { return; }
    p.Set(p.entries[incoming := extracted]);
    if extractOk {
      ok := p.Rename(incoming, dest);
    }
    if !ok {
      var removed := p.RemoveAll(incoming, debris);
    }
  }
}
