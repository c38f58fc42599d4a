/** Rekey: the recipient table is rewritten, the payload is copied, the meaning stays. */
module Rekeying {
  import opened Wrappers
  import opened Bytes
  import opened Records
  import opened Envelope
  import opened Recipients
  import opened Wrapping
  import opened Container

  datatype Request = Request(auth: Credentials, additions: Additions, remove: set<string>, replaceSymmetric: bool,
                             entropy: Entropy)

  predicate Keeps(q: Request, s: Stanza) {
    s.id !in q.remove && !(q.replaceSymmetric && s.typ in {PASSWORD, RAW_KEY})
  }

  /** The stanzas of the old table that stay, in order. */
  function Kept(q: Request, rs: seq<Stanza>): (r: seq<Stanza>)
    ensures forall s :: s in r <==> s in rs && Keeps(q, s)
    ensures forall s :: s in r <==>
              s in rs && s.id !in q.remove && !(q.replaceSymmetric && (s.typ == "password" || s.typ == "raw-key"))
    ensures |r| <= |rs|
  {
    if rs == [] then []
    else
      var k := |rs| - 1;
      if Keeps(q, rs[k]) then Kept(q, rs[..k]) + [rs[k]] else Kept(q, rs[..k])
  }

  /** Each stanza stays or goes by itself, and those that stay keep their order. */
  lemma {:induction false} KeptInOrder(q: Request, a: seq<Stanza>, b: seq<Stanza>)
    ensures Kept(q, a + b) == Kept(q, a) + Kept(q, b)
    decreases |b|
  {
    if b == [] {
      assert a + b == a;
    } else {
      var k := |b| - 1;
      assert (a + b)[..|a + b| - 1] == a + b[..k];
      KeptInOrder(q, a, b[..k]);
    }
  }

  predicate AddsSomething(a: Additions) {
    a.password != [] || a.rawKey != [] || a.publicKeys != []
  }

  /** No two stanzas share a nonempty id. */
  predicate DistinctIds(rs: seq<Stanza>) {
    forall i, j :: 0 <= i < j < |rs| && rs[i].id != "" ==> rs[i].id != rs[j].id
  }

  /** The stanzas wrapRecipients adds for a request. */
  ghost predicate Adds(p: Primitives, w: World, id: Bytes, k: Bytes, a: Additions, added: seq<Stanza>) {
    if !AddsSomething(a) then added == []
    else
      && TableAccepted(added) && (HasPassword(added) <==> a.password != [])
      && (forall s :: s in added ==> Genuine(p, w, id, k, s))
      && (a.password != [] ==> Serves(p, w, id, k, added, ByPassword(a.password)))
      && (a.rawKey != [] ==> Serves(p, w, id, k, added, ByRawKey(a.rawKey)))
      && (forall q :: q in a.publicKeys ==> Serves(p, w, id, k, added, ByIdentity(q.key)))
  }

  function WithTable(p: Primitives, container: Bytes, table: seq<Stanza>): Bytes
    requires ReadHeader(p.text, container).HeaderRead?
  {
    var read := ReadHeader(p.text, container);
    p.text.HeaderBytes(read.header.(recipients := table)) + read.rest
  }

  /** One successful container-level Rekey from (w, container) to (w', container'). */
  ghost predicate RekeyStep(p: Primitives, w: World, container: Bytes, q: Request, added: seq<Stanza>, w': World,
                            container': Bytes) {
    && ReadHeader(p.text, container).HeaderRead?
    && var h := ReadHeader(p.text, container).header;
       var id := p.text.Fixed(h.payloadId, 32).value;
       var found := Unwrap(p, w, h.recipients, id, q.auth);
       var table := Kept(q, h.recipients) + added;
       && found.Found?
       && Grows(w, w', id, found.key, q.entropy)
       && Adds(p, w', id, found.key, q.additions, added)
       && 1 <= |table| <= MAX_RECIPIENTS && DistinctIds(table)
       && |p.text.marshal(h.(recipients := table))| <= MAX_HEADER_SIZE
       && container' == WithTable(p, container, table)
  }

  // What a call makes of its request

  /** The stanzas added for a request, once the content key is found. */
  function Added(p: Primitives, id: Bytes, k: Bytes, q: Request): seq<Stanza>
    requires q.entropy.Sized(q.additions)
  {
    if AddsSomething(q.additions) then WrappedStanzas(p, id, k, q.additions, DEFAULT_ARGON2, q.entropy) else []
  }

  function AddedWorld(w: World, id: Bytes, k: Bytes, q: Request): World
    requires q.entropy.Sized(q.additions)
  {
    if AddsSomething(q.additions) then WrappedWorld(w, id, k, q.additions, DEFAULT_ARGON2, q.entropy) else w
  }

  /** No table a container may have: empty, too long, or one id twice. */
  predicate Inadmissible(table: seq<Stanza>) {
    table == [] || |table| > MAX_RECIPIENTS || !DistinctIds(table)
  }

  datatype Rekeyed = Refused | Rekeyed(world: World, container: Bytes, added: seq<Stanza>)

  /**
    Rekey on a reader and a writer that never fault: the request is refused because the header cannot be
    read, the key is not found, the additions cannot be wrapped, or the new table or header is inadmissible.
   */
  function RekeyResult(p: Primitives, w: World, container: Bytes, q: Request): Rekeyed
    requires q.entropy.Sized(q.additions)
  {
    var read := ReadHeader(p.text, container);
    if read.HeaderError? then Refused
    else
      var h := read.header;
      var id := p.text.Fixed(h.payloadId, 32).value;
      var found := Unwrap(p, w, h.recipients, id, q.auth);
      if !found.Found? || (AddsSomething(q.additions) && !Wrappable(p, q.additions, DEFAULT_ARGON2)) then Refused
      else
        var added := Added(p, id, found.key, q);
        var table := Kept(q, h.recipients) + added;
        if Inadmissible(table) || |p.text.marshal(h.(recipients := table))| > MAX_HEADER_SIZE then Refused
        else Rekeyed(AddedWorld(w, id, found.key, q), WithTable(p, container, table), added)
  }

  /** The outcome once the header is read and the key found... */
  lemma ResultFound(p: Primitives, w: World, container: Bytes, q: Request, h: Header, rest: Bytes, id: Bytes, k: Bytes)
    requires q.entropy.Sized(q.additions) && ReadHeader(p.text, container) == HeaderRead(h, rest)
    requires p.text.Fixed(h.payloadId, 32) == Some(id) && Unwrap(p, w, h.recipients, id, q.auth) == Found(k)
    ensures var added := Added(p, id, k, q);
            var table := Kept(q, h.recipients) + added;
            RekeyResult(p, w, container, q) ==
              if (AddsSomething(q.additions) && !Wrappable(p, q.additions, DEFAULT_ARGON2)) || Inadmissible(table)
                 || |p.text.marshal(h.(recipients := table))| > MAX_HEADER_SIZE then Refused
              else Rekeyed(AddedWorld(w, id, k, q), p.text.HeaderBytes(h.(recipients := table)) + rest, added)
    ensures forall w' :: Grows(w, w', id, k, q.entropy) ==> Attempted(p, w, container, q, w')
  {
    hide ReadHeader, Unwrap, Added, AddedWorld, Wrappable, Inadmissible, Grows;
  }

  /** ... and without a key. */
  lemma ResultUnfound(p: Primitives, w: World, container: Bytes, q: Request)
    requires q.entropy.Sized(q.additions)
    requires var read := ReadHeader(p.text, container);
             read.HeaderRead? ==>
               p.text.Fixed(read.header.payloadId, 32).Some?
               && !Unwrap(p, w, read.header.recipients, p.text.Fixed(read.header.payloadId, 32).value, q.auth).Found?
    ensures RekeyResult(p, w, container, q) == Refused
  {
    hide ReadHeader, Unwrap, Added, AddedWorld, Wrappable, Inadmissible;
  }

  lemma ResultStep(p: Primitives, w: World, container: Bytes, q: Request, h: Header, rest: Bytes, id: Bytes, k: Bytes)
    requires q.entropy.Sized(q.additions) && ReadHeader(p.text, container) == HeaderRead(h, rest)
    requires p.text.Fixed(h.payloadId, 32) == Some(id) && Unwrap(p, w, h.recipients, id, q.auth) == Found(k)
    requires RekeyResult(p, w, container, q).Rekeyed?
    requires var w' := AddedWorld(w, id, k, q);
             Grows(w, w', id, k, q.entropy) && Adds(p, w', id, k, q.additions, Added(p, id, k, q))
    ensures var r := RekeyResult(p, w, container, q);
            RekeyStep(p, w, container, q, r.added, r.world, r.container)
  {
    hide ReadHeader, Unwrap, Added, AddedWorld, Wrappable, Grows, Adds, DistinctIds;
  }

  /** What a call has done to the world, however it ended: nothing, or some wraps of the key it found. */
  ghost predicate Attempted(p: Primitives, w: World, container: Bytes, q: Request, w': World) {
    var read := ReadHeader(p.text, container);
    || w' == w
    || (read.HeaderRead?
        && var id := p.text.Fixed(read.header.payloadId, 32).value;
           var found := Unwrap(p, w, read.header.recipients, id, q.auth);
           found.Found? && Grows(w, w', id, found.key, q.entropy))
  }

  lemma AttemptedNothing(p: Primitives, w: World, container: Bytes, q: Request)
    ensures Attempted(p, w, container, q, w)
  {
  }

  lemma StepAttempted(p: Primitives, w: World, container: Bytes, q: Request, added: seq<Stanza>, w': World,
                      container': Bytes)
    requires RekeyStep(p, w, container, q, added, w', container')
    ensures Attempted(p, w, container, q, w')
  {
  }

  // When the new table is accepted

  lemma {:induction false} KeptAccepted(q: Request, rs: seq<Stanza>)
    requires TableAccepted(rs)
    ensures TableAccepted(Kept(q, rs))
    ensures HasPassword(Kept(q, rs)) <==> exists s :: s in rs && s.typ == PASSWORD && Keeps(q, s)
  {
    hide TableAccepted;
    TableEmpty();
    if rs != [] {
      var k := |rs| - 1;
      assert rs == rs[..k] + [rs[k]];
      TableSnoc(rs[..k], rs[k]);
      KeptAccepted(q, rs[..k]);
      TableSnoc(Kept(q, rs[..k]), rs[k]);
    }
  }

  /** Two accepted tables without shared ids combine into an accepted one unless both hold a password. */
  lemma {:induction false} TablesCombine(a: seq<Stanza>, b: seq<Stanza>)
    requires TableAccepted(a) && TableAccepted(b) && DistinctIds(a + b)
    ensures TableAccepted(a + b) <==> !(HasPassword(a) && HasPassword(b))
  {
    hide TableAccepted;
    if b == [] {
      assert a + b == a;
    } else {
      var k := |b| - 1;
      var front, s := b[..k], b[k];
      assert b == front + [s] && a + b == (a + front) + [s];
      TableSnoc(front, s);
      TableSnoc(a + front, s);
      DistinctFront(a, b);
      DistinctFromLast(a + front, s);
      TablesCombine(a, front);
      assert HasPassword(b) <==> HasPassword(front) || s.typ == PASSWORD
        by { assert forall t :: t in b <==> t in front || t == s; }
      assert HasPassword(a + front) <==> HasPassword(a) || HasPassword(front)
        by { assert forall t :: t in a + front <==> t in a || t in front; }
    }
  }

  lemma DistinctFromLast(rs: seq<Stanza>, s: Stanza)
    requires DistinctIds(rs + [s])
    ensures s.id != "" ==> s.id !in KeyIds(rs)
  {
    var all := rs + [s];
    forall t | t in rs && t.id != "" ensures t.id != s.id {
      var i :| 0 <= i < |rs| && rs[i] == t;
      assert all[i] == t && all[|rs|] == s;
    }
  }

  lemma DistinctFront(a: seq<Stanza>, b: seq<Stanza>)
    requires b != [] && DistinctIds(a + b)
    ensures DistinctIds(a + b[..|b| - 1])
  {
    var all, front := a + b, a + b[..|b| - 1];
    assert front == all[..|all| - 1];
  }

  /** The request would leave an old password stanza beside a new one. */
  predicate DoublesPassword(q: Request, h: Header) {
    q.additions.password != [] && exists s :: s in h.recipients && s.typ == PASSWORD && Keeps(q, s)
  }

  /**
    A rekeyed container is readable exactly when it does not end up with two password stanzas; then
    it carries the same authenticated fields and the same payload bytes under the new table.
   */
  lemma RekeyedReads(p: Primitives, w: World, container: Bytes, q: Request, added: seq<Stanza>, w': World,
                     container': Bytes)
    requires p.Lawful() && RekeyStep(p, w, container, q, added, w', container')
    ensures var read, read' := ReadHeader(p.text, container), ReadHeader(p.text, container');
            var table := Kept(q, read.header.recipients) + added;
            && (read'.HeaderRead? <==> !DoublesPassword(q, read.header))
            && (read'.HeaderRead? ==> read' == HeaderRead(read.header.(recipients := table), read.rest)
                                      && Frozen(read'.header) == Frozen(read.header))
  {
    hide ReadHeader, Unwrap, Grows, Genuine, Serves, TableAccepted;
    var read := ReadHeader(p.text, container);
    var h := read.header;
    var table := Kept(q, h.recipients) + added;
    HeaderCanonical(p.text, container);
    KeptAccepted(q, h.recipients);
    TableEmpty();
    TablesCombine(Kept(q, h.recipients), added);
    var h' := h.(recipients := table);
    if TableAccepted(table) {
      HeaderRoundTrip(p.text, h', read.rest);
    } else {
      HeaderRefused(p.text, h', read.rest);
    }
  }

  /** A header that fails the checks is not read back. */
  lemma HeaderRefused(t: Text, h: Header, rest: Bytes)
    requires t.Lawful() && !HeaderAccepted(t, h) && |t.marshal(h)| <= MAX_HEADER_SIZE
    ensures ReadHeader(t, t.HeaderBytes(h) + rest).HeaderError?
  {
    hide HeaderAccepted, Uint, Be32;
    var data := t.marshal(h);
    var stream := t.HeaderBytes(h) + rest;
    UintBe32(|data|);
    assert stream[8..12] == Be32(|data|);
    assert stream[12..12 + |data|] == data;
  }

  // What a rekey keeps

  /** A request as the application makes it: a new symmetric credential replaces the old ones. */
  predicate ApplicationRequest(q: Request) {
    q.additions.password != [] || q.additions.rawKey != [] ==> q.replaceSymmetric
  }

  lemma GrowsKeepsRecorded(p: Primitives, w: World, w': World, g: Origin, entropy: Entropy)
    requires Recorded(p, w, g) && Grows(w, w', g.id, g.contentKey, entropy) && Fresh(w, entropy)
    ensures Recorded(p, w', g)
  {
    hide Channel.Entries, Honest;
    GrowsHonest(w, w', g.id, g.contentKey, entropy);
    forall e | e in w.seals ensures e in w'.seals {
      var i :| 0 <= i < |w.seals| && w.seals[i] == e;
      assert w'.seals[i] == e;
    }
  }

  /** One readable rekey of a sound container is a sound container of the same origin. */
  lemma RekeyKeepsSound(p: Primitives, w: World, g: Origin, container: Bytes, q: Request, added: seq<Stanza>, w': World,
                        container': Bytes)
    requires p.Lawful() && Sound(p, w, g, container)
    requires RekeyStep(p, w, container, q, added, w', container') && Fresh(w, q.entropy)
    requires !DoublesPassword(q, ReadHeader(p.text, container).header)
    ensures Sound(p, w', g, container')
    ensures Adds(p, w', g.id, g.contentKey, q.additions, added)
    ensures w.seals <= w'.seals && w.boxes <= w'.boxes
  {
    hide ReadHeader, Unwrap, Recorded, Genuine, TableAccepted, Honest, Serves, Channel.Payload, DistinctIds;
    var h := ReadHeader(p.text, container).header;
    RecordedFacts(p, w, g, h);
    OnlyTheKey(p, w, g.id, g.contentKey, h.recipients, q.auth);
    RekeyedReads(p, w, container, q, added, w', container');
    GrowsKeepsRecorded(p, w, w', g, q.entropy);
    forall s | s in Kept(q, h.recipients) ensures Genuine(p, w', g.id, g.contentKey, s) {
      GrowsKeepsGenuine(p, w, w', g.id, g.contentKey, s);
    }
  }

  lemma ApplicationNeverDoubles(q: Request, h: Header)
    requires ApplicationRequest(q)
    ensures !DoublesPassword(q, h)
  {
  }

  /** A kept stanza is in the new table, for the same holder. */
  lemma KeptStays(p: Primitives, w: World, g: Origin, container: Bytes, q: Request, added: seq<Stanza>, w': World,
                  container': Bytes, s: Stanza, opener: Opener)
    requires p.Lawful() && RekeyStep(p, w, container, q, added, w', container')
    requires ReadHeader(p.text, container').HeaderRead?
    requires s in ReadHeader(p.text, container).header.recipients && Keeps(q, s)
    requires WrappedFor(p, w, g.id, g.contentKey, s, opener)
    ensures s in ReadHeader(p.text, container').header.recipients && WrappedFor(p, w', g.id, g.contentKey, s, opener)
  {
    hide ReadHeader, Unwrap, WrappedFor, TableAccepted, DistinctIds;
    RekeyedReads(p, w, container, q, added, w', container');
    GrowsKeepsOpener(p, w, w', g.id, g.contentKey, s, opener);
  }

  /** An opener asked for is served by one of the added stanzas. */
  lemma AddedServes(p: Primitives, w: World, g: Origin, container: Bytes, q: Request, added: seq<Stanza>, w': World,
                    container': Bytes, opener: Opener)
    requires p.Lawful() && Sound(p, w, g, container) && RekeyStep(p, w, container, q, added, w', container')
    requires Fresh(w, q.entropy) && ReadHeader(p.text, container').HeaderRead? && Requested(q.additions, opener)
    ensures Serves(p, w', g.id, g.contentKey, added, opener)
    ensures forall s :: s in added ==> s in ReadHeader(p.text, container').header.recipients
  {
    hide ReadHeader, Unwrap, Sound, Serves, TableAccepted, DistinctIds, Genuine, Grows;
    RekeyedReads(p, w, container, q, added, w', container');
    RekeyKeepsSound(p, w, g, container, q, added, w', container');
  }

  /** After a rekey the holders of every kept stanza and of every addition are served. */
  lemma RekeyServes(p: Primitives, w: World, g: Origin, container: Bytes, q: Request, added: seq<Stanza>, w': World,
                    container': Bytes, opener: Opener)
    requires p.Lawful() && Sound(p, w, g, container)
    requires RekeyStep(p, w, container, q, added, w', container') && Fresh(w, q.entropy)
    requires !DoublesPassword(q, ReadHeader(p.text, container).header)
    requires || (exists s :: s in ReadHeader(p.text, container).header.recipients && Keeps(q, s)
                             && WrappedFor(p, w, g.id, g.contentKey, s, opener))
             || Requested(q.additions, opener)
    ensures Sound(p, w', g, container')
    ensures Serves(p, w', g.id, g.contentKey, ReadHeader(p.text, container').header.recipients, opener)
  {
    hide ReadHeader, Unwrap, Sound, RekeyStep, WrappedFor, Requested;
    StepReads(p, w, container, q, added, w', container');
    RekeyKeepsSound(p, w, g, container, q, added, w', container');
    RekeyedReads(p, w, container, q, added, w', container');
    if s :| s in ReadHeader(p.text, container).header.recipients && Keeps(q, s) && WrappedFor(p, w, g.id, g.contentKey,
      s, opener) {
      KeptStays(p, w, g, container, q, added, w', container', s, opener);
    } else {
      AddedServes(p, w, g, container, q, added, w', container', opener);
    }
  }

  lemma StepReads(p: Primitives, w: World, container: Bytes, q: Request, added: seq<Stanza>, w': World,
                  container': Bytes)
    requires RekeyStep(p, w, container, q, added, w', container')
    ensures ReadHeader(p.text, container).HeaderRead?
  {
  }

  /** Rekeying any container at all, sound or not, and however the call ends, leaves every origin recorded. */
  lemma AnyRekeyKeepsRecorded(p: Primitives, w: World, g: Origin, container: Bytes, q: Request, w': World)
    requires Recorded(p, w, g) && Attempted(p, w, container, q, w') && Fresh(w, q.entropy)
    ensures Recorded(p, w', g)
  {
    hide ReadHeader, Unwrap, Recorded, Honest, TableAccepted, Grows;
    if w' == w { return; }
    HeaderCanonical(p.text, container);
    var h := ReadHeader(p.text, container).header;
    var id := p.text.Fixed(h.payloadId, 32).value;
    var k := Unwrap(p, w, h.recipients, id, q.auth).key;
    FoundKeySize(p, w, id, h.recipients, q.auth);
    if id == g.id {
      RecordedHonest(p, w, g);
      HonestUnwraps(p, w, g.id, g.contentKey, h.recipients, q.auth);
      GrowsKeepsRecorded(p, w, w', g, q.entropy);
    } else {
      GrowsIsFor(w, w', id, k, q.entropy);
      OthersKeepRecorded(p, w, w', g, id, k, q.entropy);
    }
  }

  // Who is served no longer

  /**
    The table after a rekey: what was added, and of the old table exactly the stanzas whose id was not to be
    removed, symmetric ones only if they were not to be replaced.
   */
  lemma TableAfter(p: Primitives, w: World, container: Bytes, q: Request, added: seq<Stanza>, w': World,
                   container': Bytes)
    requires p.Lawful() && RekeyStep(p, w, container, q, added, w', container')
    ensures ReadHeader(p.text, container).HeaderRead?
    ensures ReadHeader(p.text, container').HeaderRead? ==>
              forall s :: s in ReadHeader(p.text, container').header.recipients <==>
                || s in added
                || (s in ReadHeader(p.text, container).header.recipients && s.id !in q.remove
                    && (q.replaceSymmetric ==> s.typ == "x25519"))
  {
    hide ReadHeader, Unwrap, Grows, Adds, DistinctIds;
    RekeyedReads(p, w, container, q, added, w', container');
    HeaderCanonical(p.text, container);
    KnownTypes(p.text, ReadHeader(p.text, container).header);
  }

  lemma KnownTypes(t: Text, h: Header)
    requires HeaderAccepted(t, h)
    ensures forall s :: s in h.recipients ==> s.typ in {"password", "raw-key", "x25519"}
  {
    forall s | s in h.recipients ensures s.typ in {"password", "raw-key", "x25519"} {
      var i :| 0 <= i < |h.recipients| && h.recipients[i] == s;
    }
  }
}
