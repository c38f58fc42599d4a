/** Who a rekey locks out. */
module Revoking {
  import opened Wrappers
  import opened Bytes
  import opened Records
  import opened Decoding
  import opened Authenticity
  import opened Envelope
  import opened Recipients
  import opened Wrapping
  import opened Container
  import opened Rekeying
  import opened Operations

  /** No key was derived with the drawn salts before. */
  ghost predicate NewSalts(w: World, entropy: Entropy) {
    forall e :: e in w.seals ==>
      && (e.key.Argon2id? ==> e.key.argonSalt != entropy.passwordSalt)
      && (e.key.Derived? && e.key.info == RAW_WRAP ==> e.key.salt != entropy.rawSalt)
  }

  /** The keys new seals are made under. */
  lemma NewSealRequested(id: Bytes, k: Bytes, q: Request, e: Sealed)
    requires e in SymmetricSeals(id, k, q.additions, DEFAULT_ARGON2, q.entropy)
    ensures e.key.Argon2id? ==> Requested(q.additions, ByPassword(e.key.password))
    ensures e.key.Derived? ==> e.key.info == RAW_WRAP && Requested(q.additions, ByRawKey(e.key.secret))
  {
    hide RecipientAad;
  }

  /** The recipients new boxes are made for. */
  lemma NewBoxRequested(id: Bytes, k: Bytes, q: Request, b: Box)
    requires q.entropy.Sized(q.additions)
    requires b in KeyBoxes(id, k, q.additions.publicKeys, q.entropy.ageCiphers)
    ensures Requested(q.additions, ByIdentity(b.recipient))
  {
    var i :| 0 <= i < |q.additions.publicKeys| && b == KeyBoxes(id, k, q.additions.publicKeys, q.entropy.ageCiphers)[i];
    assert q.additions.publicKeys[i] in q.additions.publicKeys;
  }

  lemma AddedWorldHolds(w: World, id: Bytes, k: Bytes, q: Request)
    requires q.entropy.Sized(q.additions)
    ensures forall e :: e in AddedWorld(w, id, k, q).seals ==>
              e in w.seals || e in SymmetricSeals(id, k, q.additions, DEFAULT_ARGON2, q.entropy)
    ensures forall b :: b in AddedWorld(w, id, k, q).boxes ==>
              b in w.boxes || b in KeyBoxes(id, k, q.additions.publicKeys, q.entropy.ageCiphers)
  {
    hide SymmetricSeals, KeyBoxes;
  }

  /** What a call wraps, it wraps for those it was asked to: an old stanza opens for nobody else than before. */
  lemma KeptOpener(p: Primitives, w: World, id: Bytes, k: Bytes, q: Request, s: Stanza, opener: Opener)
    requires q.entropy.Sized(q.additions) && WrappedFor(p, AddedWorld(w, id, k, q), id, k, s, opener)
    requires !Requested(q.additions, opener)
    ensures WrappedFor(p, w, id, k, s, opener)
  {
    hide RecipientAad, AddedWorld, SymmetricSeals, KeyBoxes, Requested;
    var w' := AddedWorld(w, id, k, q);
    AddedWorldHolds(w, id, k, q);
    forall e | e in SymmetricSeals(id, k, q.additions, DEFAULT_ARGON2, q.entropy)
      ensures e.key.Argon2id? ==> Requested(q.additions, ByPassword(e.key.password))
      ensures e.key.Derived? ==> Requested(q.additions, ByRawKey(e.key.secret))
    {
      NewSealRequested(id, k, q, e);
    }
    forall b | b in KeyBoxes(id, k, q.additions.publicKeys, q.entropy.ageCiphers)
      ensures Requested(q.additions, ByIdentity(b.recipient))
    {
      NewBoxRequested(id, k, q, b);
    }
  }

  /** ... and a new stanza opens for those alone. */
  lemma AddedOpener(p: Primitives, w: World, id: Bytes, k: Bytes, q: Request, s: Stanza, opener: Opener)
    requires p.Lawful() && q.entropy.Sized(q.additions) && Fresh(w, q.entropy) && NewSalts(w, q.entropy)
    requires s in Added(p, id, k, q) && WrappedFor(p, AddedWorld(w, id, k, q), id, k, s, opener)
    ensures Requested(q.additions, opener)
  {
    hide RecipientAad, AddedWorld, SymmetricSeals, KeyBoxes, Requested, Added;
    var w' := AddedWorld(w, id, k, q);
    AddedWorldHolds(w, id, k, q);
    AddedDrawn(p, id, k, q, s);
    forall e | e in SymmetricSeals(id, k, q.additions, DEFAULT_ARGON2, q.entropy)
      ensures e.key.Argon2id? ==> Requested(q.additions, ByPassword(e.key.password))
      ensures e.key.Derived? ==> Requested(q.additions, ByRawKey(e.key.secret))
    {
      NewSealRequested(id, k, q, e);
    }
    forall b | b in KeyBoxes(id, k, q.additions.publicKeys, q.entropy.ageCiphers)
      ensures Requested(q.additions, ByIdentity(b.recipient))
    {
      NewBoxRequested(id, k, q, b);
    }
  }

  /** A new stanza shows the salt or ciphertext drawn for it. */
  lemma AddedDrawn(p: Primitives, id: Bytes, k: Bytes, q: Request, s: Stanza)
    requires p.Lawful() && q.entropy.Sized(q.additions) && s in Added(p, id, k, q)
    ensures s.typ == PASSWORD ==> p.text.Fixed(s.salt, 32) == Some(q.entropy.passwordSalt)
    ensures s.typ == RAW_KEY ==> p.text.Fixed(s.salt, 32) == Some(q.entropy.rawSalt)
    ensures s.typ == X25519 ==> p.text.unb64(s.wrapped).Some? && p.text.unb64(s.wrapped).value in q.entropy.ageCiphers
  {
    hide RecipientAad;
    var keys := q.additions.publicKeys;
    if s in KeyStanzas(p, keys, q.entropy.ageCiphers) {
      var i :| 0 <= i < |keys| && s == KeyStanzas(p, keys, q.entropy.ageCiphers)[i];
      assert q.entropy.ageCiphers[i] in q.entropy.ageCiphers;
    } else {
      assert s in SymmetricStanzas(p, id, k, q.additions, DEFAULT_ARGON2, q.entropy);
    }
  }

  /**
    Removal locks out: whoever holds nothing that was asked for, and of the old stanzas only such as have
    an id to be removed or a symmetric credential to be replaced, is refused by the rekeyed container.
   */
  lemma RemovedLockedOut(p: Primitives, w: World, g: Origin, container: Bytes, q: Request, o: Credentials)
    requires p.Lawful() && q.entropy.Sized(q.additions) && Fresh(w, q.entropy) && NewSalts(w, q.entropy)
    requires Sound(p, w, g, container) && CounterFits(OriginChannel(p, g), g.plain)
    requires var r := RekeyResult(p, w, container, q);
             r.Rekeyed? && RekeyStep(p, w, container, q, r.added, r.world, r.container)
    requires forall opener :: Requested(q.additions, opener) ==> !Holds(o, opener)
    requires forall s, opener ::
               && s in ReadHeader(p.text, container).header.recipients
                 && WrappedFor(p, w, g.id, g.contentKey, s, opener)
               && Holds(o, opener) ==>
                 s.id in q.remove || (q.replaceSymmetric && (s.typ == "password" || s.typ == "raw-key"))
    ensures var r := RekeyResult(p, w, container, q);
            Decrypt(p, r.world, r.container, o) == Rejected([])
  {
    hide ReadHeader, Unwrap, Recorded, Honest, Genuine, WrappedFor, Requested, Holds, RekeyStep, RekeyResult, Grows,
         Adds,
         Added, AddedWorld, NewSalts, Fresh, Decrypt, Serves, Channel.Payload;
    var r := RekeyResult(p, w, container, q);
    UnreadableRejected(p, r.world, r.container, o);
    if ReadHeader(p.text, r.container).HeaderRead? {
      RekeyedReads(p, w, container, q, r.added, r.world, r.container);
      RekeyKeepsSound(p, w, g, container, q, r.added, r.world, r.container);
      SoundDecryptsExactly(p, r.world, g, r.container, o);
      TableAfter(p, w, container, q, r.added, r.world, r.container);
      ResultOfOrigin(p, w, g, container, q);
      if opener :| Serves(p, r.world, g.id, g.contentKey, ReadHeader(p.text, r.container).header.recipients, opener)
                   && Holds(o, opener) {
        var s := ServingStanza(p, r.world, g, ReadHeader(p.text, r.container).header.recipients, opener);
        if s in r.added {
          AddedOpener(p, w, g.id, g.contentKey, q, s, opener);
        } else {
          KeptOpener(p, w, g.id, g.contentKey, q, s, opener);
        }
      }
    }
  }

  lemma ServingStanza(p: Primitives, w: World, g: Origin, stanzas: seq<Stanza>, opener: Opener) returns (s: Stanza)
    requires Serves(p, w, g.id, g.contentKey, stanzas, opener)
    ensures s in stanzas && WrappedFor(p, w, g.id, g.contentKey, s, opener)
  {
    hide WrappedFor;
    s :| s in stanzas && WrappedFor(p, w, g.id, g.contentKey, s, opener);
  }

  lemma UnreadableRejected(p: Primitives, w: World, container: Bytes, o: Credentials)
    ensures ReadHeader(p.text, container).HeaderError? ==> Decrypt(p, w, container, o) == Rejected([])
  {
    hide ReadHeader, Unwrap, Run, OpenMetadata;
  }

  /** A sound container is rekeyed with its origin's key. */
  lemma ResultOfOrigin(p: Primitives, w: World, g: Origin, container: Bytes, q: Request)
    requires p.Lawful() && q.entropy.Sized(q.additions) && Sound(p, w, g, container)
    requires RekeyResult(p, w, container, q).Rekeyed?
    ensures var r := RekeyResult(p, w, container, q);
            r.world == AddedWorld(w, g.id, g.contentKey, q) && r.added == Added(p, g.id, g.contentKey, q)
  {
    hide ReadHeader, Unwrap, Recorded, Honest, Genuine, Added, AddedWorld, Inadmissible, Wrappable, Channel.Payload;
    var h := ReadHeader(p.text, container).header;
    RecordedFacts(p, w, g, h);
    OnlyTheKey(p, w, g.id, g.contentKey, h.recipients, q.auth);
  }

  // The application's requests

  /** Nothing among the credentials is what an application request asks to be served. */
  predicate HoldsNothingAsked(o: Credentials, a: AppRequest) {
    && (forall i :: 0 <= i < |a.recipients| && a.recipients[i].Some? ==>
        Some(a.recipients[i].value.key) !in o.identities)
    && match a.replacement
       case Unchanged => true
       case NewPassword(password) => password == [] || o.password != password
       case NewRawKey(rawKey) => rawKey == [] || o.rawKey != rawKey
  }

  lemma AskedMeans(a: AppRequest, entropy: Entropy, opener: Opener)
    requires RequestOf(a, entropy).Some?
    ensures Requested(RequestOf(a, entropy).value.additions, opener) <==>
            match opener
            case ByPassword(password) => password != [] && a.replacement == NewPassword(password)
            case ByRawKey(rawKey) => rawKey != [] && a.replacement == NewRawKey(rawKey)
            case ByIdentity(key) => exists i :: 0 <= i < |a.recipients| && a.recipients[i].value.key == key
  {
    var q := RequestOf(a, entropy).value;
    if opener.ByIdentity? {
      if i :| 0 <= i < |a.recipients| && a.recipients[i].value.key == opener.key {
        assert q.additions.publicKeys[i] in q.additions.publicKeys && q.additions.publicKeys[i].key == opener.key;
      }
    }
  }

  /** Through the application: the ids to be removed are out, and symmetric credentials once there is a new one. */
  lemma AppRemovedLockedOut(p: Primitives, w: World, g: Origin, container: Bytes, a: AppRequest, entropy: Entropy,
                            o: Credentials)
    requires p.Lawful() && Drawn(a, entropy) && Fresh(w, entropy) && NewSalts(w, entropy)
    requires Sound(p, w, g, container) && CounterFits(OriginChannel(p, g), g.plain)
    requires var r := AppResult(p, w, container, a, entropy);
             r.Rekeyed? && RekeyStep(p, w, container, RequestOf(a, entropy).value, r.added, r.world, r.container)
    requires HoldsNothingAsked(o, a)
    requires forall s, opener ::
               && s in ReadHeader(p.text, container).header.recipients
                 && WrappedFor(p, w, g.id, g.contentKey, s, opener)
               && Holds(o, opener) ==>
                 s.id in a.remove || (!a.replacement.Unchanged? && (s.typ == "password" || s.typ == "raw-key"))
    ensures var r := AppResult(p, w, container, a, entropy);
            Decrypt(p, r.world, r.container, o) == Rejected([])
  {
    hide ReadHeader, Sound, WrappedFor, RekeyStep, RekeyResult, NewSalts, Fresh, Decrypt, CounterFits, Requested;
    var q := RequestOf(a, entropy).value;
    forall opener | Requested(q.additions, opener) ensures !Holds(o, opener) {
      AskedMeans(a, entropy, opener);
    }
    RemovedLockedOut(p, w, g, container, q, o);
  }

  /** Through the application: everyone asked for reads the original from the result. */
  lemma AppAskedRead(p: Primitives, w: World, g: Origin, container: Bytes, a: AppRequest, entropy: Entropy,
                     o: Credentials)
    requires p.Lawful() && Drawn(a, entropy) && Fresh(w, entropy)
    requires Sound(p, w, g, container) && CounterFits(OriginChannel(p, g), g.plain)
    requires var r := AppResult(p, w, container, a, entropy);
             r.Rekeyed? && RekeyStep(p, w, container, RequestOf(a, entropy).value, r.added, r.world, r.container)
    requires || (exists i :: 0 <= i < |a.recipients| && Some(a.recipients[i].value.key) in o.identities)
             || (o.password != [] && a.replacement == NewPassword(o.password))
             || (o.rawKey != [] && a.replacement == NewRawKey(o.rawKey))
    ensures var r := AppResult(p, w, container, a, entropy);
            Decrypt(p, r.world, r.container, o) == Decrypted(g.frozen.codec, g.metadata, g.plain)
  {
    hide ReadHeader, Sound, WrappedFor, RekeyStep, RekeyResult, Fresh, Decrypt, CounterFits, Requested, Serves;
    var q, r := RequestOf(a, entropy).value, AppResult(p, w, container, a, entropy);
    var opener := ByPassword(o.password);
    if i :| 0 <= i < |a.recipients| && Some(a.recipients[i].value.key) in o.identities {
      opener := ByIdentity(a.recipients[i].value.key);
    } else if o.rawKey != [] && a.replacement == NewRawKey(o.rawKey) {
      opener := ByRawKey(o.rawKey);
    }
    AskedMeans(a, entropy, opener);
    StepReads(p, w, container, q, r.added, r.world, r.container);
    ApplicationNeverDoubles(q, ReadHeader(p.text, container).header);
    RekeyServes(p, w, g, container, q, r.added, r.world, r.container, opener);
    SoundDecrypts(p, r.world, g, r.container, o, opener);
  }
}
