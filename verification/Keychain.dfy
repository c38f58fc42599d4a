/** The store's operations over a fallible backend, and whole sessions of them. */
module Keychain {
  import opened Bytes
  import opened Credentials

  datatype Outcome = Done | Rejected | BackendError | Unreadable | IndexFailed(rolledBack: bool)

  datatype Listing = Entries(list: seq<Descriptor>) | ListFailed(outcome: Outcome)

  datatype SecretResult = Got(kind: string, secret: Bytes) | GetFailed(outcome: Outcome)

  /** The index is small enough for listLocked to read. */
  predicate WithinLimits(size: seq<Descriptor> -> nat, l: seq<Descriptor>) {
    size(l) <= MAX_INDEX_SIZE && |l| <= MAX_ENTRIES
  }

  class KeychainStore {
    const backend: Backend
    /** Length of the JSON text of an index. */
    const size: seq<Descriptor> -> nat

    constructor (backend: Backend, size: seq<Descriptor> -> nat)
      ensures this.backend == backend && this.size == size
    {
      this.backend, this.size := backend, size;
    }

    /** listLocked would read the index. */
    ghost predicate Readable()
      reads this, backend
    {
      IndexReadable(backend.items) && (INDEX in backend.items ==> WithinLimits(size, Listed(backend.items)))
    }

    method ListLocked() returns (r: Listing)
      modifies backend`script
      ensures r.Entries? ==> Readable() && r.list == Listed(backend.items)
      ensures r.ListFailed? ==> r.outcome in {BackendError, Unreadable}
      ensures old(backend.Reliable()) ==> backend.Reliable() && (r.Entries? <==> Readable())
    {
      var value := backend.Get(INDEX);
      match value {
        case NotFound => return Entries([]);
        case Failed => return ListFailed(BackendError);
        case Found(Index(list)) =>
          if size(list) > MAX_INDEX_SIZE || |list| > MAX_ENTRIES { return ListFailed(Unreadable); }
          return Entries(list);
        case Found(_) => return ListFailed(Unreadable);
      }
    }

    /**
      Put: record first, index second, rollback when the index cannot be written.  Unless the
      rollback itself fails the backend ends up updated or exactly as it was.
     */
    method Put(name: string, kind: string, secret: Bytes, fingerprint: string) returns (r: Outcome)
      modifies backend
      ensures r.Done? ==>
                && ValidName(name) && kind in {KIND_PASSWORD, KIND_RAW_KEY} && secret != [] && old(Readable())
                && backend.items == Stored(old(backend.items), Descriptor(name, kind, fingerprint), secret)
      ensures r != Done && r != IndexFailed(false) ==> backend.items == old(backend.items)
      ensures r == IndexFailed(false) ==>
                INDEX != name && backend.items == old(backend.items)[name := Secret(kind, secret)]
      ensures old(backend.Reliable() && Readable()) && ValidName(name) && kind in {KIND_PASSWORD, KIND_RAW_KEY}
              && secret != [] ==>
                r.Done?
      ensures !old(Readable()) ==> r in {Rejected, BackendError, Unreadable}
      ensures old(backend.Reliable()) ==> backend.Reliable()
    {
      IndexIsNoName();
      if !ValidName(name) || (kind != KIND_PASSWORD && kind != KIND_RAW_KEY) || secret == [] { return Rejected; }
      var listing := ListLocked();
      if listing.ListFailed? { return listing.outcome; }
      var d := Descriptor(name, kind, fingerprint);
      var list := UpsertSorted(listing.list, d);
      var previous := backend.Get(name);
      if previous.Failed? { return BackendError; }
      ghost var before := backend.items;
      var ok := backend.Set(name, Secret(kind, secret));
      if !ok { return BackendError; }
      ok := backend.Set(INDEX, Index(list));
      if ok { return Done; }
      var undone;
      if previous.NotFound? {
        undone := backend.Delete(name);
        assert undone ==> backend.items == before;
      } else {
        undone := backend.Set(name, previous.item);
        assert undone ==> backend.items == before;
      }
      return IndexFailed(undone);
    }

    /** Delete, with the same order and rollback. */
    method Delete(name: string) returns (r: Outcome)
      modifies backend
      ensures r.Done? ==>
                && ValidName(name) && old(Readable()) && name in old(backend.items)
                && backend.items == Removed(old(backend.items), name)
      ensures r != Done && r != IndexFailed(false) ==> backend.items == old(backend.items)
      ensures r == IndexFailed(false) ==> backend.items == old(backend.items) - {name}
      ensures old(backend.Reliable() && Readable()) && ValidName(name) && name in old(backend.items) ==> r.Done?
      ensures !old(Readable()) ==> r in {Rejected, BackendError, Unreadable}
      ensures old(backend.Reliable()) ==> backend.Reliable()
    {
      IndexIsNoName();
      if !ValidName(name) { return Rejected; }
      var listing := ListLocked();
      if listing.ListFailed? { return listing.outcome; }
      var out := FilterOut(listing.list, name);
      var previous := backend.Get(name);
      if !previous.Found? { return BackendError; }
      ghost var before := backend.items;
      var ok := backend.Delete(name);
      if !ok { return BackendError; }
      ok := backend.Set(INDEX, Index(out));
      if ok { return Done; }
      var undone := backend.Set(name, previous.item);
      assert undone ==> backend.items == before;
      return IndexFailed(undone);
    }

    method List() returns (r: Listing)
      modifies backend`script
      ensures r.Entries? ==> Readable() && r.list == Listed(backend.items)
      ensures old(backend.Reliable()) ==> backend.Reliable() && (r.Entries? <==> Readable())
    {
      r := ListLocked();
    }

    method Get(name: string) returns (r: SecretResult)
      modifies backend`script
      ensures r.Got? ==> ValidName(name) && name in backend.items && backend.items[name] == Secret(r.kind, r.secret)
      ensures old(backend.Reliable()) && ValidName(name) && name in backend.items && backend.items[name].Secret? ==>
                r.Got?
      ensures old(backend.Reliable()) ==> backend.Reliable()
    {
      if !ValidName(name) { return GetFailed(Rejected); }
      var value := backend.Get(name);
      match value {
        case Found(Secret(kind, secret)) => return Got(kind, secret);
        case Found(_) => return GetFailed(Unreadable);
        case NotFound => return GetFailed(BackendError);
        case Failed => return GetFailed(BackendError);
      }
    }
  }

  /** The loop of Put over the old list, and the sort. */
  method UpsertSorted(list: seq<Descriptor>, d: Descriptor) returns (r: seq<Descriptor>)
    ensures r == Updated(list, d)
  {
    r := list;
    var found := false;
    for i := 0 to |list|
      invariant |r| == |list|
      invariant forall j :: 0 <= j < i ==> r[j] == if list[j].name == d.name then d else list[j]
      invariant forall j :: i <= j < |list| ==> r[j] == list[j]
      invariant found <==> exists j :: 0 <= j < i && list[j].name == d.name
    {
      if r[i].name == d.name {
        r := r[i := d];
        found := true;
      }
    }
    if found {
      var j :| 0 <= j < |list| && list[j].name == d.name;
      assert list[j] in list && Names(list, d.name);
      assert r == Replace(list, d);
    } else {
      assert !Names(list, d.name);
      r := list + [d];
    }
    r := SortByName(r);
  }

  method FilterOut(list: seq<Descriptor>, name: string) returns (out: seq<Descriptor>)
    ensures out == Without(list, name)
  {
    out := [];
    for i := 0 to |list|
      invariant out == Without(list[..i], name)
    {
      assert list[..i + 1][..i] == list[..i];
      if list[i].name != name {
        out := out + [list[i]];
      }
    }
    assert list[..|list|] == list;
  }

  // Sessions

  datatype Request = PutOf(name: string, kind: string, secret: Bytes, fingerprint: string) | DeleteOf(name: string)

  /** The map after the requests whose `done` flag is set. */
  function Replay(m: Items, requests: seq<Request>, done: seq<bool>): Items
    requires |done| <= |requests|
  {
    if done == [] then m
    else
      var k := |done| - 1;
      var before := Replay(m, requests, done[..k]);
      if !done[k] then before
      else
        match requests[k]
        case PutOf(name, kind, secret, _) => before[name := Secret(kind, secret)]
        case DeleteOf(name) => before - {name}
  }

  /**
    Any sequence of Put and Delete calls under any pattern of backend failures: unless a rollback
    fails, index and records agree at the end and what is held is the map the successful calls make.
   */
  method Session(store: KeychainStore, requests: seq<Request>) returns (done: seq<bool>, broken: bool)
    requires Consistent(store.backend.items)
    modifies store.backend
    ensures |done| <= |requests|
    ensures !broken ==>
              && |done| == |requests|
              && Consistent(store.backend.items)
              && Held(store.backend.items) == Replay(old(Held(store.backend.items)), requests, done)
  {
    hide Consistent, Held, Stored, Removed;
    done := [];
    ghost var start := Held(store.backend.items);
    for i := 0 to |requests|
      invariant |done| == i
      invariant Consistent(store.backend.items)
      invariant Held(store.backend.items) == Replay(start, requests, done)
    {
      ghost var items := store.backend.items;
      ConsistentReadable(items);
      var r;
      match requests[i] {
        case PutOf(name, kind, secret, fingerprint) =>
          r := store.Put(name, kind, secret, fingerprint);
          if r.Done? {
            StoredConsistent(items, Descriptor(name, kind, fingerprint), secret);
          }
        case DeleteOf(name) =>
          r := store.Delete(name);
          if r.Done? {
            RemovedConsistent(items, name);
          }
      }
      if r == IndexFailed(false) { return done, true; }
      assert (done + [r.Done?])[..i] == done;
      done := done + [r.Done?];
    }
    broken := false;
  }

  lemma ConsistentReadable(items: Items)
    requires Consistent(items)
    ensures IndexReadable(items)
  {
  }

  /** The index stays readable exactly while the new list keeps the limits, which Put does not look at. */
  lemma PutReadableExactly(size: seq<Descriptor> -> nat, items: Items, d: Descriptor, secret: Bytes)
    requires Consistent(items) && ValidName(d.name)
    ensures var after := Stored(items, d, secret);
            && IndexReadable(after) && INDEX in after
            && |Listed(after)| == |Listed(items)| + (if Names(Listed(items), d.name) then 0 else 1)
            && (WithinLimits(size, Listed(after)) <==>
                  |Listed(items)| + (if Names(Listed(items), d.name) then 0 else 1) <= MAX_ENTRIES
                  && size(Listed(after)) <= MAX_INDEX_SIZE)
  {
    UpdatedMeans(Listed(items), d);
    IndexIsNoName();
  }

  /** A store whose index cannot be read refuses every call and never changes again. */
  method Stuck(store: KeychainStore, requests: seq<Request>) returns (outcomes: seq<Outcome>)
    requires !store.Readable()
    modifies store.backend
    ensures !store.Readable() && store.backend.items == old(store.backend.items)
    ensures |outcomes| == |requests| && forall i :: 0 <= i < |outcomes| ==>
              outcomes[i] in {Rejected, BackendError, Unreadable}
  {
    outcomes := [];
    for i := 0 to |requests|
      invariant !store.Readable() && store.backend.items == old(store.backend.items)
      invariant |outcomes| == i && forall j :: 0 <= j < i ==> outcomes[j] in {Rejected, BackendError, Unreadable}
    {
      var r;
      match requests[i] {
        case PutOf(name, kind, secret, fingerprint) => r := store.Put(name, kind, secret, fingerprint);
        case DeleteOf(name) => r := store.Delete(name);
      }
      outcomes := outcomes + [r];
    }
  }

  /**
    From a store that holds 1024 names and can be read, a Put of a new name that succeeds leaves one
    that cannot: whatever is put or deleted afterwards is refused and changes nothing.
   */
  method OneTooMany(store: KeychainStore, name: string, kind: string, secret: Bytes, fingerprint: string,
                    later: seq<Request>)
    returns (r: Outcome, outcomes: seq<Outcome>)
    requires Consistent(store.backend.items) && store.Readable()
    requires |Listed(store.backend.items)| == 1024 && !Names(Listed(store.backend.items), name)
    modifies store.backend
    ensures |outcomes| == |later|
    ensures && old(store.backend.Reliable()) && ValidName(name)
            && kind in {KIND_PASSWORD, KIND_RAW_KEY} && secret != [] ==>
              r.Done?
    ensures r.Done? ==>
              && !store.Readable()
              && store.backend.items == Stored(old(store.backend.items), Descriptor(name, kind, fingerprint), secret)
              && forall i :: 0 <= i < |outcomes| ==> outcomes[i] in {Rejected, BackendError, Unreadable}
  {
    hide Stored, Consistent;
    ghost var items := store.backend.items;
    r := store.Put(name, kind, secret, fingerprint);
    outcomes := seq(|later|, i => Rejected);
    if r.Done? {
      PutReadableExactly(store.size, items, Descriptor(name, kind, fingerprint), secret);
      outcomes := Stuck(store, later);
    }
  }
}
