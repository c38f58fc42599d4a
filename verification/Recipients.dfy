/**
  Wrapping a content key for recipients and unwrapping it again.  The world records every seal and
  every age encryption ever made; opening succeeds on those alone.
 */
module Recipients {
  import opened Wrappers
  import opened Bytes
  import opened Records
  import opened Envelope

  const RAW_WRAP: string := "cypherstorm/v2/raw-wrap"

  datatype Box = Box(recipient: string, plain: Bytes, cipher: Bytes)

  datatype World = World(seals: seq<Sealed>, boxes: seq<Box>)

  datatype Primitives = Primitives(seal: Seal, text: Text, fingerprint: string -> string, validKey: string -> bool) {
    ghost predicate Lawful() {
      Records.Lawful(seal) && text.Lawful() && (forall k {:trigger fingerprint(k)} :: fingerprint(k) != "")
    }
  }

  datatype Public = Public(typ: string, key: string)

  /** What a caller brings to open a container; an identity file may fail to load. */
  datatype Credentials = Credentials(password: Bytes, rawKey: Bytes, identities: seq<Option<string>>)

  datatype Additions = Additions(password: Bytes, rawKey: Bytes, publicKeys: seq<Public>)

  /** Random draws: salts, nonces, and the ciphertexts the randomised age encryption comes up with. */
  datatype Entropy = Entropy(passwordSalt: Bytes, passwordNonce: Bytes, rawSalt: Bytes, rawNonce: Bytes,
                             ageCiphers: seq<Bytes>) {
    predicate Sized(additions: Additions) {
      |passwordSalt| == 32 && |passwordNonce| == 24 && |rawSalt| == 32 && |rawNonce| == 24
      && |ageCiphers| >= |additions.publicKeys|
    }
  }

  predicate ValidArgon2(p: Argon2Params) {
    && 1 <= p.time <= 10
    && 1 <= p.memoryKiB <= 256 * 1024
    && 1 <= p.parallelism <= 16
    && p.memoryKiB >= 8 * p.parallelism
  }

  function Ascii(s: string): Bytes {
    seq(|s|, i requires 0 <= i < |s| => s[i] as int % 256)
  }

  function RecipientAad(id: Bytes, typ: string): Bytes {
    id + Ascii(typ)
  }

  function AgeOpen(boxes: seq<Box>, recipient: string, cipher: Bytes): (r: Option<Bytes>)
    ensures r.Some? ==> Box(recipient, r.value, cipher) in boxes
    ensures r.None? ==> forall b :: b in boxes && b.recipient == recipient ==> b.cipher != cipher
  {
    if boxes == [] then None
    else if boxes[0].recipient == recipient && boxes[0].cipher == cipher then Some(boxes[0].plain)
    else AgeOpen(boxes[1..], recipient, cipher)
  }

  /** Keys that wrapRecipients seals content keys with. */
  predicate WrapKey(key: Key) {
    key.Argon2id? || key.info == RAW_WRAP
  }

  // Unwrapping

  datatype Attempt = Found(key: Bytes) | Skip | Broken

  function TryKey(p: Primitives, w: World, s: Stanza, id: Bytes, key: Key): Attempt {
    var nonce := p.text.Fixed(s.nonce, 24);
    var wrapped := p.text.unb64(s.wrapped);
    if nonce.None? || wrapped.None? then Broken
    else
      var plain := Open(p.seal, w.seals, key, nonce.value, wrapped.value, RecipientAad(id, s.typ));
      if plain.Some? && |plain.value| == 32 then Found(plain.value) else Skip
  }

  function TryIdentities(p: Primitives, w: World, s: Stanza, id: Bytes, identities: seq<Option<string>>): Attempt {
    if identities == [] then Skip
    else if identities[0].None? then TryIdentities(p, w, s, id, identities[1..])
    else
      var wrapped := p.text.unb64(s.wrapped);
      if wrapped.None? then Broken
      else
        var plain := AgeOpen(w.boxes, identities[0].value, wrapped.value);
        if plain.Some? && |plain.value| == 64 && plain.value[..32] == id then Found(plain.value[32..])
        else TryIdentities(p, w, s, id, identities[1..])
  }

  function TryStanza(p: Primitives, w: World, s: Stanza, id: Bytes, o: Credentials): Attempt {
    if s.typ == PASSWORD then
      if o.password == [] || s.argon2.None? then Skip
      else
        var salt, a := p.text.Fixed(s.salt, 32), s.argon2.value;
        if salt.None? || !ValidArgon2(a) then Broken
        else TryKey(p, w, s, id, Argon2id(o.password, a.time, a.memoryKiB, a.parallelism, salt.value))
    else if s.typ == RAW_KEY then
      if o.rawKey == [] then Skip
      else
        var salt := p.text.Fixed(s.salt, 32);
        if salt.None? then Broken else TryKey(p, w, s, id, Derived(o.rawKey, salt.value, RAW_WRAP))
    else if s.typ == X25519 then TryIdentities(p, w, s, id, o.identities)
    else Broken
  }

  /** The first stanza that does not skip decides. */
  function Unwrap(p: Primitives, w: World, stanzas: seq<Stanza>, id: Bytes, o: Credentials): Attempt {
    if stanzas == [] then Skip
    else
      var a := TryStanza(p, w, stanzas[0], id, o);
      if a.Skip? then Unwrap(p, w, stanzas[1..], id, o) else a
  }

  method UnwrapRecipients(p: Primitives, w: World, stanzas: seq<Stanza>, id: Bytes, o: Credentials) returns (a: Attempt)
    ensures a == Unwrap(p, w, stanzas, id, o)
  {
    var i := 0;
    while i < |stanzas|
      invariant i <= |stanzas|
      invariant Unwrap(p, w, stanzas, id, o) == Unwrap(p, w, stanzas[i..], id, o)
    {
      assert stanzas[i..][0] == stanzas[i] && stanzas[i..][1..] == stanzas[i + 1..];
      if stanzas[i].typ == X25519 {
        a := UnwrapX25519(p, w, stanzas[i], id, o.identities);
      } else {
        a := TryStanza(p, w, stanzas[i], id, o);
      }
      if !a.Skip? { return; }
      i := i + 1;
    }
    a := Skip;
  }

  method UnwrapX25519(p: Primitives, w: World, s: Stanza, id: Bytes, identities: seq<Option<string>>)
    returns (a: Attempt)
    ensures a == TryIdentities(p, w, s, id, identities)
  {
    var i := 0;
    while i < |identities|
      invariant i <= |identities|
      invariant TryIdentities(p, w, s, id, identities) == TryIdentities(p, w, s, id, identities[i..])
    {
      assert identities[i..][0] == identities[i] && identities[i..][1..] == identities[i + 1..];
      if identities[i].Some? {
        var wrapped := p.text.unb64(s.wrapped);
        if wrapped.None? { return Broken; }
        var plain := AgeOpen(w.boxes, identities[i].value, wrapped.value);
        if plain.Some? && |plain.value| == 64 && plain.value[..32] == id { return Found(plain.value[32..]); }
      }
      i := i + 1;
    }
    a := Skip;
  }

  // What a stanza made by wrapRecipients is

  datatype Opener = ByPassword(password: Bytes) | ByRawKey(rawKey: Bytes) | ByIdentity(key: string)

  predicate Holds(o: Credentials, opener: Opener) {
    match opener
    case ByPassword(password) => o.password == password
    case ByRawKey(rawKey) => o.rawKey == rawKey
    case ByIdentity(key) => Some(key) in o.identities
  }

  /** Who is asked for when wrapping. */
  predicate Requested(a: Additions, opener: Opener) {
    match opener
    case ByPassword(password) => password != [] && password == a.password
    case ByRawKey(rawKey) => rawKey != [] && rawKey == a.rawKey
    case ByIdentity(key) => exists q :: q in a.publicKeys && q.key == key
  }

  ghost predicate SealedAs(p: Primitives, w: World, id: Bytes, k: Bytes, s: Stanza, key: Key) {
    && p.text.Fixed(s.nonce, 24).Some?
    && var e := Sealed(key, p.text.Fixed(s.nonce, 24).value, RecipientAad(id, s.typ), k);
       e in w.seals && p.text.unb64(s.wrapped) == Some(p.seal(e))
  }

  ghost predicate BoxedAs(p: Primitives, w: World, plain: Bytes, s: Stanza, key: string) {
    exists b :: b in w.boxes && b.recipient == key && b.plain == plain && p.text.unb64(s.wrapped) == Some(b.cipher)
  }

  /** Stanza s carries content key k of payload id for the holder of `opener`. */
  ghost predicate WrappedFor(p: Primitives, w: World, id: Bytes, k: Bytes, s: Stanza, opener: Opener) {
    match opener
    case ByPassword(password) =>
      && s.typ == PASSWORD && password != []
      && s.argon2.Some? && ValidArgon2(s.argon2.value) && p.text.Fixed(s.salt, 32).Some?
      && var a := s.argon2.value;
         SealedAs(p, w, id, k, s, Argon2id(password, a.time, a.memoryKiB, a.parallelism,
                                           p.text.Fixed(s.salt, 32).value))
    case ByRawKey(rawKey) =>
      && s.typ == RAW_KEY && rawKey != [] && p.text.Fixed(s.salt, 32).Some?
      && SealedAs(p, w, id, k, s, Derived(rawKey, p.text.Fixed(s.salt, 32).value, RAW_WRAP))
    case ByIdentity(key) =>
      s.typ == X25519 && BoxedAs(p, w, id + k, s, key)
  }

  ghost predicate Genuine(p: Primitives, w: World, id: Bytes, k: Bytes, s: Stanza) {
    exists opener :: WrappedFor(p, w, id, k, s, opener)
  }

  /** Under this payload id nothing but k was ever wrapped, and age ciphertexts are not reused. */
  ghost predicate Honest(w: World, id: Bytes, k: Bytes) {
    && |id| == 32 && |k| == 32
    && (forall e ::
          && e in w.seals && WrapKey(e.key)
          && (e.aad == RecipientAad(id, PASSWORD) || e.aad == RecipientAad(id, RAW_KEY)) ==>
            e.plain == k)
    && (forall b :: b in w.boxes && |b.plain| == 64 && b.plain[..32] == id ==> b.plain == id + k)
    && (forall b, c :: b in w.boxes && c in w.boxes && b.recipient == c.recipient && b.cipher == c.cipher ==>
        b.plain == c.plain)
  }

  /** A genuine stanza never breaks off the search and never yields another key. */
  lemma GenuineYieldsKey(p: Primitives, w: World, id: Bytes, k: Bytes, s: Stanza, o: Credentials)
    requires Honest(w, id, k) && Genuine(p, w, id, k, s)
    ensures TryStanza(p, w, s, id, o) in {Found(k), Skip}
  {
    var opener :| WrappedFor(p, w, id, k, s, opener);
    if opener.ByIdentity? {
      IdentitiesYieldKey(p, w, id, k, s, o.identities);
    }
  }

  lemma {:induction false} IdentitiesYieldKey(p: Primitives, w: World, id: Bytes, k: Bytes, s: Stanza,
                                              identities: seq<Option<string>>)
    requires Honest(w, id, k) && p.text.unb64(s.wrapped).Some?
    ensures TryIdentities(p, w, s, id, identities) in {Found(k), Skip}
  {
    if identities != [] {
      IdentitiesYieldKey(p, w, id, k, s, identities[1..]);
      if identities[0].Some? {
        var plain := AgeOpen(w.boxes, identities[0].value, p.text.unb64(s.wrapped).value);
        if plain.Some? && |plain.value| == 64 && plain.value[..32] == id {
          assert plain.value == id + k;
          assert plain.value[32..] == k;
        }
      }
    }
  }

  /** Its holder opens it. */
  lemma HolderOpens(p: Primitives, w: World, id: Bytes, k: Bytes, s: Stanza, o: Credentials, opener: Opener)
    requires Honest(w, id, k) && WrappedFor(p, w, id, k, s, opener) && Holds(o, opener)
    ensures TryStanza(p, w, s, id, o) == Found(k)
  {
    if opener.ByIdentity? {
      IdentityOpens(p, w, id, k, s, o.identities, opener.key);
    }
  }

  lemma {:induction false} IdentityOpens(p: Primitives, w: World, id: Bytes, k: Bytes, s: Stanza,
                                         identities: seq<Option<string>>, key: string)
    requires Honest(w, id, k) && Some(key) in identities && BoxedAs(p, w, id + k, s, key)
    ensures TryIdentities(p, w, s, id, identities) == Found(k)
  {
    var cipher := p.text.unb64(s.wrapped).value;
    IdentitiesYieldKey(p, w, id, k, s, identities);
    if identities[0] == Some(key) {
      var plain := AgeOpen(w.boxes, key, cipher);
      assert plain.Some? && plain.value == id + k;
      assert (id + k)[..32] == id && (id + k)[32..] == k;
    } else {
      IdentityOpens(p, w, id, k, s, identities[1..], key);
      if identities[0].Some? {
        IdentitiesYieldKey(p, w, id, k, s, identities);
      }
    }
  }

  /** A table of genuine stanzas gives its content key to the holder of any of them, wherever it sits. */
  lemma {:induction false} AnyHolderUnwraps(p: Primitives, w: World, id: Bytes, k: Bytes, stanzas: seq<Stanza>,
                                            o: Credentials, i: nat, opener: Opener)
    requires Honest(w, id, k) && (forall s :: s in stanzas ==> Genuine(p, w, id, k, s))
    requires i < |stanzas| && WrappedFor(p, w, id, k, stanzas[i], opener) && Holds(o, opener)
    ensures Unwrap(p, w, stanzas, id, o) == Found(k)
  {
    if i == 0 {
      HolderOpens(p, w, id, k, stanzas[0], o, opener);
    } else {
      GenuineYieldsKey(p, w, id, k, stanzas[0], o);
      AnyHolderUnwraps(p, w, id, k, stanzas[1..], o, i - 1, opener);
    }
  }

  /** ... and no credential gets another key out of it. */
  lemma {:induction false} OnlyTheKey(p: Primitives, w: World, id: Bytes, k: Bytes, stanzas: seq<Stanza>,
                                      o: Credentials)
    requires Honest(w, id, k) && (forall s :: s in stanzas ==> Genuine(p, w, id, k, s))
    ensures Unwrap(p, w, stanzas, id, o) in {Found(k), Skip}
  {
    if stanzas != [] {
      GenuineYieldsKey(p, w, id, k, stanzas[0], o);
      OnlyTheKey(p, w, id, k, stanzas[1..], o);
    }
  }

  /** Under an honest payload id no stanza at all, genuine or not, yields another key. */
  lemma HonestYieldsKey(p: Primitives, w: World, id: Bytes, k: Bytes, s: Stanza, o: Credentials)
    requires Honest(w, id, k)
    ensures TryStanza(p, w, s, id, o) in {Found(k), Skip, Broken}
  {
    if s.typ == X25519 && p.text.unb64(s.wrapped).Some? {
      IdentitiesYieldKey(p, w, id, k, s, o.identities);
    } else if s.typ == X25519 {
      NothingToOpen(p, w, s, id, o.identities);
    }
  }

  lemma {:induction false} NothingToOpen(p: Primitives, w: World, s: Stanza, id: Bytes, identities: seq<Option<string>>)
    requires p.text.unb64(s.wrapped).None?
    ensures TryIdentities(p, w, s, id, identities) in {Skip, Broken}
  {
    if identities != [] {
      NothingToOpen(p, w, s, id, identities[1..]);
    }
  }

  lemma {:induction false} HonestUnwraps(p: Primitives, w: World, id: Bytes, k: Bytes, stanzas: seq<Stanza>,
                                         o: Credentials)
    requires Honest(w, id, k)
    ensures Unwrap(p, w, stanzas, id, o) in {Found(k), Skip, Broken}
  {
    hide Honest, TryStanza;
    if stanzas != [] {
      HonestYieldsKey(p, w, id, k, stanzas[0], o);
      HonestUnwraps(p, w, id, k, stanzas[1..], o);
    }
  }

  lemma {:induction false} FoundKeySize(p: Primitives, w: World, id: Bytes, stanzas: seq<Stanza>, o: Credentials)
    requires |id| == 32 && Unwrap(p, w, stanzas, id, o).Found?
    ensures |Unwrap(p, w, stanzas, id, o).key| == 32
  {
    if TryStanza(p, w, stanzas[0], id, o).Skip? {
      FoundKeySize(p, w, id, stanzas[1..], o);
    } else if stanzas[0].typ == X25519 {
      FoundIdentitySize(p, w, stanzas[0], id, o.identities);
    }
  }

  lemma {:induction false} FoundIdentitySize(p: Primitives, w: World, s: Stanza, id: Bytes,
                                             identities: seq<Option<string>>)
    requires TryIdentities(p, w, s, id, identities).Found?
    ensures |TryIdentities(p, w, s, id, identities).key| == 32
  {
    if identities[0].None? {
      FoundIdentitySize(p, w, s, id, identities[1..]);
    } else {
      var plain := AgeOpen(w.boxes, identities[0].value, p.text.unb64(s.wrapped).value);
      if !(plain.Some? && |plain.value| == 64 && plain.value[..32] == id) {
        FoundIdentitySize(p, w, s, id, identities[1..]);
      }
    }
  }

  /** Conversely, whoever gets the key out of a stanza is one it was wrapped for. */
  lemma OpenedIsWrapped(p: Primitives, w: World, id: Bytes, k: Bytes, s: Stanza, o: Credentials)
    returns (opener: Opener)
    requires Honest(w, id, k) && TryStanza(p, w, s, id, o) == Found(k)
    ensures WrappedFor(p, w, id, k, s, opener) && Holds(o, opener)
  {
    if s.typ == PASSWORD {
      opener := ByPassword(o.password);
    } else if s.typ == RAW_KEY {
      opener := ByRawKey(o.rawKey);
    } else {
      var key := IdentityFound(p, w, s, id, k, o.identities);
      opener := ByIdentity(key);
    }
  }

  lemma {:induction false} IdentityFound(p: Primitives, w: World, s: Stanza, id: Bytes, k: Bytes,
                                         identities: seq<Option<string>>)
    returns (key: string)
    requires Honest(w, id, k) && TryIdentities(p, w, s, id, identities) == Found(k)
    ensures Some(key) in identities && BoxedAs(p, w, id + k, s, key)
  {
    var wrapped := p.text.unb64(s.wrapped);
    if identities[0].Some? && AgeOpen(w.boxes, identities[0].value, wrapped.value).Some? {
      key := identities[0].value;
      var plain := AgeOpen(w.boxes, key, wrapped.value).value;
      var b := Box(key, plain, wrapped.value);
      assert b in w.boxes;
      if |plain| == 64 && plain[..32] == id {
        return;
      }
    }
    key := IdentityFound(p, w, s, id, k, identities[1..]);
  }

  /** The key comes out of a genuine table exactly for those who hold an opener it serves. */
  lemma {:induction false} ServedExactly(p: Primitives, w: World, id: Bytes, k: Bytes, stanzas: seq<Stanza>,
                                         o: Credentials)
    requires Honest(w, id, k) && (forall s :: s in stanzas ==> Genuine(p, w, id, k, s))
    ensures Unwrap(p, w, stanzas, id, o) == Found(k) <==>
            exists opener, i :: 0 <= i < |stanzas| && WrappedFor(p, w, id, k, stanzas[i], opener) && Holds(o, opener)
  {
    hide WrappedFor, Honest, TryStanza;
    if opener, i :| 0 <= i < |stanzas| && WrappedFor(p, w, id, k, stanzas[i], opener) && Holds(o, opener) {
      AnyHolderUnwraps(p, w, id, k, stanzas, o, i, opener);
    } else if stanzas != [] {
      GenuineYieldsKey(p, w, id, k, stanzas[0], o);
      if TryStanza(p, w, stanzas[0], id, o) == Found(k) {
        var opener := OpenedIsWrapped(p, w, id, k, stanzas[0], o);
      } else {
        ServedExactly(p, w, id, k, stanzas[1..], o);
      }
    }
  }
}
