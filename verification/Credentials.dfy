/**
  The keychain credential store: an index record and one record per credential in a backend whose
  calls may fail, kept in agreement by rollback.
 */
module Credentials {
  import opened Bytes

  const INDEX: string := "__credential_index_v1__"
  const KIND_PASSWORD: string := "password"
  const KIND_RAW_KEY: string := "raw-key"
  const MAX_INDEX_SIZE: nat := 0x10_0000
  const MAX_ENTRIES: nat := 1024

  datatype Descriptor = Descriptor(name: string, kind: string, fingerprint: string)

  /** What a keychain item decodes to; JSON and base64 are taken as faithful. */
  datatype Item = Index(list: seq<Descriptor>) | Secret(kind: string, secret: Bytes) | Foreign(text: string)

  type Items = map<string, Item>

  predicate Alnum(c: char) {
    'A' <= c <= 'Z' || 'a' <= c <= 'z' || '0' <= c <= '9'
  }

  /** ^[A-Za-z0-9][A-Za-z0-9._-]{0,63}$ */
  predicate ValidName(name: string) {
    && 1 <= |name| <= 64
    && Alnum(name[0])
    && forall i :: 1 <= i < |name| ==> Alnum(name[i]) || name[i] in "._-"
  }

  /** No credential can be named like the index. */
  lemma IndexIsNoName()
    ensures !ValidName(INDEX)
  {
    assert INDEX[0] == '_';
  }

  // Names in order

  predicate Less(a: string, b: string) {
    if b == "" then false
    else if a == "" then true
    else a[0] < b[0] || (a[0] == b[0] && Less(a[1..], b[1..]))
  }

  lemma {:induction false} LessTotal(a: string, b: string)
    ensures a == b || Less(a, b) || Less(b, a)
    ensures !(Less(a, b) && Less(b, a)) && !Less(a, a)
  {
    if a != "" && b != "" {
      LessTotal(a[1..], b[1..]);
      assert a == [a[0]] + a[1..] && b == [b[0]] + b[1..];
    }
    LessIrreflexive(a);
  }

  lemma {:induction false} LessIrreflexive(a: string)
    ensures !Less(a, a)
  {
    if a != "" {
      LessIrreflexive(a[1..]);
    }
  }

  lemma {:induction false} LessTrans(a: string, b: string, c: string)
    requires Less(a, b) && Less(b, c)
    ensures Less(a, c)
  {
    if a != "" {
      if a[0] == b[0] && b[0] == c[0] {
        LessTrans(a[1..], b[1..], c[1..]);
      }
    }
  }

  /** Names are ordered by the first character that differs, and a proper prefix comes first. */
  lemma {:induction false} LessMeans(a: string, b: string)
    ensures Less(a, b) <==>
            exists k :: 0 <= k <= |a| && k < |b| && a[..k] == b[..k] && (k == |a| || a[k] < b[k])
  {
    if a == "" && b != "" {
      assert a[..0] == b[..0];
    } else if a != "" && b != "" {
      LessMeans(a[1..], b[1..]);
      if Less(a, b) {
        if a[0] < b[0] {
          assert a[..0] == b[..0];
        } else {
          var k :| 0 <= k <= |a[1..]| && k < |b[1..]| && a[1..][..k] == b[1..][..k]
                   && (k == |a[1..]| || a[1..][k] < b[1..][k]);
          assert a[..k + 1] == [a[0]] + a[1..][..k] && b[..k + 1] == [b[0]] + b[1..][..k];
        }
      }
      if k :| 0 <= k <= |a| && k < |b| && a[..k] == b[..k] && (k == |a| || a[k] < b[k]) {
        if k > 0 {
          assert a[..k][0] == b[..k][0];
          assert a[1..][..k - 1] == a[..k][1..] && b[1..][..k - 1] == b[..k][1..];
        }
      }
    }
  }

  predicate Sorted(l: seq<Descriptor>) {
    forall i, j :: 0 <= i < j < |l| ==> Less(l[i].name, l[j].name)
  }

  /** A strictly sorted list is determined by its elements. */
  lemma {:induction false} SortedUnique(a: seq<Descriptor>, b: seq<Descriptor>)
    requires Sorted(a) && Sorted(b) && forall d :: d in a <==> d in b
    ensures a == b
  {
    assert b != [] ==> b[0] in b;
    if a != [] {
      assert a[0] in a && a[0] in b;
      assert b[0] in b && b[0] in a;
      var i :| 0 <= i < |b| && b[i] == a[0];
      var j :| 0 <= j < |a| && a[j] == b[0];
      LessTotal(a[0].name, b[0].name);
      assert i == 0 && j == 0;
      forall d ensures d in a[1..] <==> d in b[1..] {
        LessIrreflexive(a[0].name);
        assert d in a <==> d == a[0] || d in a[1..];
        assert d in b <==> d == b[0] || d in b[1..];
        assert a[0] !in a[1..];
        assert b[0] !in b[1..];
      }
      SortedUnique(a[1..], b[1..]);
    }
  }

  // The index and the records agree

  predicate IndexReadable(items: Items) {
    INDEX !in items || items[INDEX].Index?
  }

  function Listed(items: Items): seq<Descriptor>
    requires IndexReadable(items)
  {
    if INDEX in items then items[INDEX].list else []
  }

  predicate Names(l: seq<Descriptor>, name: string) {
    exists d :: d in l && d.name == name
  }

  /** The index is strictly sorted and names exactly the stored records, with their kinds. */
  ghost predicate Consistent(items: Items) {
    && IndexReadable(items)
    && Sorted(Listed(items))
    && (forall d :: d in Listed(items) ==>
          ValidName(d.name) && d.name in items && items[d.name].Secret? && items[d.name].kind == d.kind)
    && (forall n :: n in items && n != INDEX ==> Names(Listed(items), n))
  }

  /** The credentials held: everything but the index. */
  function Held(items: Items): Items {
    items - {INDEX}
  }

  datatype Fetched = Found(item: Item) | NotFound | Failed

  class Backend {
    var items: Items
    /** Which of the next calls fail, without effect. */
    var script: seq<bool>

    constructor (items: Items, script: seq<bool>)
      ensures this.items == items && this.script == script
    {
      this.items, this.script := items, script;
    }

    ghost predicate Reliable()
      reads this
    {
      true !in script
    }

    method Faulty() returns (failed: bool)
      modifies this`script
      ensures old(Reliable()) ==> Reliable() && !failed
    {
      failed := script != [] && script[0];
      script := if script == [] then [] else script[1..];
    }

    method Get(user: string) returns (r: Fetched)
      modifies this`script
      ensures r.Found? ==> user in items && r.item == items[user]
      ensures r.NotFound? ==> user !in items
      ensures old(Reliable()) ==> Reliable() && !r.Failed?
    {
      var failed := Faulty();
      r := if failed then Failed else if user in items then Found(items[user]) else NotFound;
    }

    method Set(user: string, item: Item) returns (ok: bool)
      modifies this
      ensures items == if ok then old(items)[user := item] else old(items)
      ensures old(Reliable()) ==> Reliable() && ok
    {
      var failed := Faulty();
      ok := !failed;
      if ok { items := items[user := item]; }
    }

    method Delete(user: string) returns (ok: bool)
      modifies this
      ensures ok ==> user in old(items)
      ensures items == if ok then old(items) - {user} else old(items)
      ensures old(Reliable()) && user in old(items) ==> ok
      ensures old(Reliable()) ==> Reliable()
    {
      var failed := Faulty();
      ok := !failed && user in items;
      if ok { items := items - {user}; }
    }
  }

  // Index updates

  /** One step of sorting by name. */
  function Insert(l: seq<Descriptor>, d: Descriptor): seq<Descriptor> {
    if l == [] || Less(d.name, l[0].name) then [d] + l else [l[0]] + Insert(l[1..], d)
  }

  /** sort.Slice by name. */
  function SortByName(l: seq<Descriptor>): seq<Descriptor> {
    if l == [] then [] else Insert(SortByName(l[..|l| - 1]), l[|l| - 1])
  }

  lemma {:induction false} InsertElements(l: seq<Descriptor>, d: Descriptor)
    ensures |Insert(l, d)| == |l| + 1 && (forall e :: e in Insert(l, d) <==> e == d || e in l)
  {
    if l != [] && !Less(d.name, l[0].name) {
      InsertElements(l[1..], d);
      assert forall e :: e in l <==> e == l[0] || e in l[1..];
    }
  }

  lemma {:induction false} InsertSorted(l: seq<Descriptor>, d: Descriptor)
    requires Sorted(l) && !Names(l, d.name)
    ensures Sorted(Insert(l, d))
  {
    if l != [] {
      assert l[0] in l;
      LessTotal(d.name, l[0].name);
      if Less(d.name, l[0].name) {
        forall j | 0 <= j < |l| ensures Less(d.name, l[j].name) {
          if j > 0 {
            LessTrans(d.name, l[0].name, l[j].name);
          }
        }
      } else {
        assert forall e :: e in l[1..] ==> e in l;
        InsertSorted(l[1..], d);
        InsertElements(l[1..], d);
        var r := Insert(l[1..], d);
        forall j | 0 <= j < |r| ensures Less(l[0].name, r[j].name) {
          assert r[j] in r;
          if r[j] != d {
            var k :| 0 <= k < |l[1..]| && l[1..][k] == r[j];
          }
        }
      }
    }
  }

  predicate DistinctNames(l: seq<Descriptor>) {
    forall i, j :: 0 <= i < j < |l| ==> l[i].name != l[j].name
  }

  lemma {:induction false} SortByNameSorts(l: seq<Descriptor>)
    ensures |SortByName(l)| == |l| && (forall e :: e in SortByName(l) <==> e in l)
    ensures DistinctNames(l) ==> Sorted(SortByName(l))
  {
    if l != [] {
      var front, d := l[..|l| - 1], l[|l| - 1];
      SortByNameSorts(front);
      InsertElements(SortByName(front), d);
      assert forall e :: e in l <==> e == d || e in front;
      if DistinctNames(l) {
        InsertSorted(SortByName(front), d);
      }
    }
  }

  lemma SortedDistinct(l: seq<Descriptor>)
    requires Sorted(l)
    ensures DistinctNames(l)
  {
    forall i, j | 0 <= i < j < |l| ensures l[i].name != l[j].name {
      LessIrreflexive(l[i].name);
    }
  }

  function Replace(l: seq<Descriptor>, d: Descriptor): seq<Descriptor> {
    seq(|l|, i requires 0 <= i < |l| => if l[i].name == d.name then d else l[i])
  }

  /** The list Put writes back. */
  function Updated(l: seq<Descriptor>, d: Descriptor): seq<Descriptor> {
    SortByName(if Names(l, d.name) then Replace(l, d) else l + [d])
  }

  /** The list Delete writes back. */
  function Without(l: seq<Descriptor>, name: string): seq<Descriptor> {
    if l == [] then []
    else
      var k := |l| - 1;
      if l[k].name != name then Without(l[..k], name) + [l[k]] else Without(l[..k], name)
  }

  /** Put's list is the sorted list with d as the one entry of its name. */
  lemma UpdatedMeans(l: seq<Descriptor>, d: Descriptor)
    requires Sorted(l)
    ensures Sorted(Updated(l, d))
    ensures forall e :: e in Updated(l, d) <==> e == d || (e in l && e.name != d.name)
    ensures |Updated(l, d)| == |l| + (if Names(l, d.name) then 0 else 1)
  {
    SortedDistinct(l);
    if Names(l, d.name) {
      var r := Replace(l, d);
      SortByNameSorts(r);
      var w :| w in l && w.name == d.name;
      var i :| 0 <= i < |l| && l[i] == w;
      assert r[i] == d;
      forall e ensures e in r <==> e == d || (e in l && e.name != d.name) {
        if e in l && e.name != d.name {
          var j :| 0 <= j < |l| && l[j] == e;
          assert r[j] == e;
        }
      }
    } else {
      SortByNameSorts(l + [d]);
      forall j | 0 <= j < |l| ensures l[j].name != d.name {
        assert l[j] in l;
      }
    }
  }

  lemma {:induction false} WithoutElements(l: seq<Descriptor>, name: string)
    ensures forall e :: e in Without(l, name) <==> e in l && e.name != name
    ensures |Without(l, name)| <= |l|
  {
    if l != [] {
      var k := |l| - 1;
      WithoutElements(l[..k], name);
      assert l == l[..k] + [l[k]];
    }
  }

  lemma SortedSnoc(l: seq<Descriptor>, d: Descriptor)
    requires Sorted(l) && forall e :: e in l ==> Less(e.name, d.name)
    ensures Sorted(l + [d])
  {
    hide Less;
  }

  lemma {:induction false} WithoutSorted(l: seq<Descriptor>, name: string)
    requires Sorted(l)
    ensures Sorted(Without(l, name))
  {
    hide Less, Sorted;
    if l != [] {
      var front, d := l[..|l| - 1], l[|l| - 1];
      assert l == front + [d];
      SortedFront(front, d);
      WithoutSorted(front, name);
      WithoutElements(front, name);
      if d.name != name {
        SortedSnoc(Without(front, name), d);
      }
    }
  }

  lemma SortedFront(l: seq<Descriptor>, d: Descriptor)
    requires Sorted(l + [d])
    ensures Sorted(l) && forall e :: e in l ==> Less(e.name, d.name)
  {
    hide Less;
    var all := l + [d];
    assert all[|l|] == d && forall i :: 0 <= i < |l| ==> all[i] == l[i];
  }

  lemma WithoutMeans(l: seq<Descriptor>, name: string)
    ensures forall e :: e in Without(l, name) <==> e in l && e.name != name
    ensures Sorted(l) ==> Sorted(Without(l, name))
    ensures |Without(l, name)| <= |l|
  {
    hide Sorted, Without;
    WithoutElements(l, name);
    if Sorted(l) {
      WithoutSorted(l, name);
    }
  }

  function Stored(items: Items, d: Descriptor, secret: Bytes): Items
    requires IndexReadable(items)
  {
    items[d.name := Secret(d.kind, secret)][INDEX := Index(Updated(Listed(items), d))]
  }

  function Removed(items: Items, name: string): Items
    requires IndexReadable(items)
  {
    (items - {name})[INDEX := Index(Without(Listed(items), name))]
  }

  /** Storing a credential is a map update that keeps index and records in agreement. */
  lemma StoredConsistent(items: Items, d: Descriptor, secret: Bytes)
    requires Consistent(items) && ValidName(d.name)
    ensures Consistent(Stored(items, d, secret))
    ensures Held(Stored(items, d, secret)) == Held(items)[d.name := Secret(d.kind, secret)]
  {
    IndexIsNoName();
    hide Updated, Sorted, ValidName;
    var l, after := Listed(items), Stored(items, d, secret);
    UpdatedMeans(l, d);
    var l' := Updated(l, d);
    assert Listed(after) == l';
    forall n | n in after && n != INDEX ensures Names(l', n) {
      if n == d.name {
        assert d in l';
      } else {
        assert n in items;
        var e :| e in l && e.name == n;
        assert e in l';
      }
    }
  }

  lemma RemovedConsistent(items: Items, name: string)
    requires Consistent(items) && ValidName(name)
    ensures Consistent(Removed(items, name))
    ensures Held(Removed(items, name)) == Held(items) - {name}
  {
    IndexIsNoName();
    hide Without, Sorted, ValidName;
    var l, after := Listed(items), Removed(items, name);
    WithoutMeans(l, name);
    var l' := Without(l, name);
    assert Listed(after) == l';
    forall n | n in after && n != INDEX ensures Names(l', n) {
      assert n in items && n != name;
      var e :| e in l && e.name == n;
      assert e in l';
    }
  }
}
