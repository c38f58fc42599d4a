/** wrapRecipients: every stanza it makes opens for its recipient, and it wraps nothing but the content key. */
module Wrapping {
  import opened Wrappers
  import opened Bytes
  import opened Records
  import opened Envelope
  import opened Recipients

  /** The associated data of wraps for this payload id. */
  predicate WrapAad(id: Bytes, aad: Bytes) {
    aad == RecipientAad(id, PASSWORD) || aad == RecipientAad(id, RAW_KEY)
  }

  /** The world after wrapping k: seals of k under wrapping keys, boxes of id and k with the drawn ciphertexts. */
  ghost predicate Grows(w: World, w': World, id: Bytes, k: Bytes, entropy: Entropy) {
    && w.seals <= w'.seals && w.boxes <= w'.boxes
    && (forall e :: e in w'.seals ==> e in w.seals || (e.plain == k && WrapKey(e.key) && WrapAad(id, e.aad)))
    && (forall b :: b in w'.boxes ==> b in w.boxes || (b.plain == id + k && b.cipher in entropy.ageCiphers))
  }

  /** The drawn age ciphertexts have not been seen before. */
  ghost predicate Fresh(w: World, entropy: Entropy) {
    forall b :: b in w.boxes ==> b.cipher !in entropy.ageCiphers
  }

  lemma GrowsHonest(w: World, w': World, id: Bytes, k: Bytes, entropy: Entropy)
    requires Grows(w, w', id, k, entropy) && Fresh(w, entropy) && Honest(w, id, k)
    ensures Honest(w', id, k)
  {
  }

  lemma GrowsKeepsOpener(p: Primitives, w: World, w': World, id: Bytes, k: Bytes, s: Stanza, opener: Opener)
    requires w.seals <= w'.seals && w.boxes <= w'.boxes
    requires WrappedFor(p, w, id, k, s, opener)
    ensures WrappedFor(p, w', id, k, s, opener)
  {
    forall e | e in w.seals ensures e in w'.seals {
      var i :| 0 <= i < |w.seals| && w.seals[i] == e;
      assert w'.seals[i] == e;
    }
    forall b | b in w.boxes ensures b in w'.boxes {
      var i :| 0 <= i < |w.boxes| && w.boxes[i] == b;
      assert w'.boxes[i] == b;
    }
  }

  lemma GrowsKeepsGenuine(p: Primitives, w: World, w': World, id: Bytes, k: Bytes, s: Stanza)
    requires w.seals <= w'.seals && w.boxes <= w'.boxes
    requires Genuine(p, w, id, k, s)
    ensures Genuine(p, w', id, k, s)
  {
    var opener :| WrappedFor(p, w, id, k, s, opener);
    GrowsKeepsOpener(p, w, w', id, k, s, opener);
  }

  /** Some stanza of the table opens for `opener`. */
  ghost predicate Serves(p: Primitives, w: World, id: Bytes, k: Bytes, stanzas: seq<Stanza>, opener: Opener) {
    exists s :: s in stanzas && WrappedFor(p, w, id, k, s, opener)
  }

  function PasswordSeal(id: Bytes, k: Bytes, password: Bytes, a: Argon2Params, salt: Bytes, nonce: Bytes): Sealed {
    Sealed(Argon2id(password, a.time, a.memoryKiB, a.parallelism, salt), nonce, RecipientAad(id, PASSWORD), k)
  }

  function PasswordStanza(p: Primitives, id: Bytes, k: Bytes, password: Bytes, a: Argon2Params, salt: Bytes,
                          nonce: Bytes): Stanza {
    Stanza(PASSWORD, "", p.text.b64(salt), Some(a), p.text.b64(nonce),
           p.text.b64(p.seal(PasswordSeal(id, k, password, a, salt, nonce))))
  }

  function RawKeySeal(id: Bytes, k: Bytes, rawKey: Bytes, salt: Bytes, nonce: Bytes): Sealed {
    Sealed(Derived(rawKey, salt, RAW_WRAP), nonce, RecipientAad(id, RAW_KEY), k)
  }

  function RawKeyStanza(p: Primitives, id: Bytes, k: Bytes, rawKey: Bytes, salt: Bytes, nonce: Bytes): Stanza {
    Stanza(RAW_KEY, "", p.text.b64(salt), None, p.text.b64(nonce),
           p.text.b64(p.seal(RawKeySeal(id, k, rawKey, salt, nonce))))
  }

  function KeyStanza(p: Primitives, q: Public, cipher: Bytes): Stanza {
    Stanza(X25519, p.fingerprint(q.key), "", None, "", p.text.b64(cipher))
  }

  // What wrapping comes to

  function SymmetricStanzas(p: Primitives, id: Bytes, k: Bytes, additions: Additions, a: Argon2Params,
                            entropy: Entropy): seq<Stanza> {
    (if additions.password != [] then [AddedPassword(p, id, k, additions, a, entropy)] else [])
    + (if additions.rawKey != []
       then [RawKeyStanza(p, id, k, additions.rawKey, entropy.rawSalt, entropy.rawNonce)] else [])
  }

  function SymmetricSeals(id: Bytes, k: Bytes, additions: Additions, a: Argon2Params, entropy: Entropy): seq<Sealed> {
    (if additions.password != []
     then [PasswordSeal(id, k, additions.password, a, entropy.passwordSalt, entropy.passwordNonce)] else [])
    + (if additions.rawKey != []
       then [RawKeySeal(id, k, additions.rawKey, entropy.rawSalt, entropy.rawNonce)] else [])
  }

  function KeyStanzas(p: Primitives, keys: seq<Public>, ciphers: seq<Bytes>): seq<Stanza>
    requires |ciphers| >= |keys|
  {
    seq(|keys|, i requires 0 <= i < |keys| => KeyStanza(p, keys[i], ciphers[i]))
  }

  function KeyBoxes(id: Bytes, k: Bytes, keys: seq<Public>, ciphers: seq<Bytes>): seq<Box>
    requires |ciphers| >= |keys|
  {
    seq(|keys|, i requires 0 <= i < |keys| => Box(keys[i].key, id + k, ciphers[i]))
  }

  /** The stanzas wrapRecipients returns when it succeeds, symmetric ones first. */
  function WrappedStanzas(p: Primitives, id: Bytes, k: Bytes, additions: Additions, a: Argon2Params,
                          entropy: Entropy): seq<Stanza>
    requires entropy.Sized(additions)
  {
    SymmetricStanzas(p, id, k, additions, a, entropy) + KeyStanzas(p, additions.publicKeys, entropy.ageCiphers)
  }

  /** ... and the world it leaves. */
  function WrappedWorld(w: World, id: Bytes, k: Bytes, additions: Additions, a: Argon2Params, entropy: Entropy): World
    requires entropy.Sized(additions)
  {
    World(w.seals + SymmetricSeals(id, k, additions, a, entropy),
          w.boxes + KeyBoxes(id, k, additions.publicKeys, entropy.ageCiphers))
  }

  lemma KeysSnoc(p: Primitives, id: Bytes, k: Bytes, keys: seq<Public>, q: Public, ciphers: seq<Bytes>)
    requires |ciphers| > |keys|
    ensures KeyStanzas(p, keys + [q], ciphers) == KeyStanzas(p, keys, ciphers) + [KeyStanza(p, q, ciphers[|keys|])]
    ensures KeyBoxes(id, k, keys + [q], ciphers) ==
            KeyBoxes(id, k, keys, ciphers) + [Box(q.key, id + k, ciphers[|keys|])]
  {
    hide KeyStanza;
  }

  lemma PasswordAlone(p: Primitives, id: Bytes, k: Bytes, additions: Additions, a: Argon2Params, entropy: Entropy)
    requires PasswordOnly(additions) && entropy.Sized(additions)
    ensures WrappedStanzas(p, id, k, additions, a, entropy) == [AddedPassword(p, id, k, additions, a, entropy)]
  {
  }

  method WrapPassword(p: Primitives, w: World, id: Bytes, k: Bytes, password: Bytes, a: Argon2Params, salt: Bytes,
                      nonce: Bytes,
                      ghost entropy: Entropy)
    returns (s: Stanza, w': World)
    requires p.Lawful() && ValidArgon2(a) && password != [] && |salt| == 32 && |nonce| == 24
    ensures Grows(w, w', id, k, entropy)
    ensures s == PasswordStanza(p, id, k, password, a, salt, nonce) && WrappedFor(p, w', id, k, s, ByPassword(password))
    ensures w' == w.(seals := w.seals + [PasswordSeal(id, k, password, a, salt, nonce)])
  {
    var e := PasswordSeal(id, k, password, a, salt, nonce);
    w' := w.(seals := w.seals + [e]);
    s := PasswordStanza(p, id, k, password, a, salt, nonce);
    assert e in w'.seals;
  }

  method WrapRawKey(p: Primitives, w: World, id: Bytes, k: Bytes, rawKey: Bytes, salt: Bytes, nonce: Bytes,
                    ghost entropy: Entropy)
    returns (s: Stanza, w': World)
    requires p.Lawful() && |rawKey| == 32 && |salt| == 32 && |nonce| == 24
    ensures Grows(w, w', id, k, entropy)
    ensures s == RawKeyStanza(p, id, k, rawKey, salt, nonce) && WrappedFor(p, w', id, k, s, ByRawKey(rawKey))
    ensures w' == w.(seals := w.seals + [RawKeySeal(id, k, rawKey, salt, nonce)])
  {
    var e := RawKeySeal(id, k, rawKey, salt, nonce);
    w' := w.(seals := w.seals + [e]);
    s := RawKeyStanza(p, id, k, rawKey, salt, nonce);
    assert e in w'.seals;
  }

  function SymmetricCount(additions: Additions): nat {
    (if additions.password != [] then 1 else 0) + (if additions.rawKey != [] then 1 else 0)
  }

  function Fingerprints(p: Primitives, keys: seq<Public>): set<string> {
    set q | q in keys :: p.fingerprint(q.key)
  }

  /** The first `n` public keys parse and have different fingerprints. */
  predicate KeysUsable(p: Primitives, keys: seq<Public>, n: nat)
    requires n <= |keys|
  {
    forall i :: 0 <= i < n ==>
      keys[i].typ == X25519 && p.validKey(keys[i].key) && p.fingerprint(keys[i].key) !in Fingerprints(p, keys[..i])
  }

  predicate SymmetricUsable(additions: Additions, a: Argon2Params) {
    && (additions.password != [] ==> ValidArgon2(a))
    && |additions.rawKey| in {0, 32}
  }

  /** Exactly the additions wrapRecipients succeeds on. */
  predicate Wrappable(p: Primitives, additions: Additions, a: Argon2Params) {
    && SymmetricUsable(additions, a)
    && KeysUsable(p, additions.publicKeys, |additions.publicKeys|)
    && 1 <= SymmetricCount(additions) + |additions.publicKeys| <= MAX_RECIPIENTS
  }

  predicate PasswordOnly(additions: Additions) {
    additions.password != [] && additions.rawKey == [] && additions.publicKeys == []
  }

  function AddedPassword(p: Primitives, id: Bytes, k: Bytes, additions: Additions, a: Argon2Params,
                         entropy: Entropy): Stanza {
    PasswordStanza(p, id, k, additions.password, a, entropy.passwordSalt, entropy.passwordNonce)
  }

  /** The password and raw-key stanzas, in that order. */
  method WrapSymmetric(p: Primitives, w: World, id: Bytes, k: Bytes, additions: Additions, a: Argon2Params,
                       entropy: Entropy)
    returns (ok: bool, out: seq<Stanza>, w': World)
    requires p.Lawful() && entropy.Sized(additions)
    ensures Grows(w, w', id, k, entropy)
    ensures ok <==> SymmetricUsable(additions, a)
    ensures ok ==> out == SymmetricStanzas(p, id, k, additions, a, entropy)
    ensures ok ==> w' == w.(seals := w.seals + SymmetricSeals(id, k, additions, a, entropy))
    ensures TableAccepted(out) && KeyIds(out) == {}
    ensures ok ==> (HasPassword(out) <==> additions.password != [])
    ensures ok ==> forall s :: s in out ==> Genuine(p, w', id, k, s)
    ensures ok && additions.password != [] ==> Serves(p, w', id, k, out, ByPassword(additions.password))
    ensures ok && additions.rawKey != [] ==> Serves(p, w', id, k, out, ByRawKey(additions.rawKey))
  {
    hide WrappedFor, TableAccepted, PasswordSeal, PasswordStanza, RawKeySeal, RawKeyStanza;
    TableEmpty();
    ok, out, w' := false, [], w;
    if additions.password != [] {
      if !ValidArgon2(a) { return; }
      var s;
      s, w' := WrapPassword(p, w', id, k, additions.password, a, entropy.passwordSalt, entropy.passwordNonce, entropy);
      TableSnoc([], s);
      out := [s];
      assert [] + [s] == [s];
      assert s in out;
    }
    if additions.rawKey != [] {
      if |additions.rawKey| != 32 { return; }
      ghost var before, table := w', out;
      var s;
      s, w' := WrapRawKey(p, w', id, k, additions.rawKey, entropy.rawSalt, entropy.rawNonce, entropy);
      AppendStanza(p, before, w', id, k, out, s, ByRawKey(additions.rawKey));
      out := out + [s];
      if additions.password != [] {
        StillServes(p, before, w', id, k, table, out, ByPassword(additions.password));
      }
    }
    ok := true;
  }

  /** The X25519 stanzas, appended to the symmetric ones. */
  method WrapKeys(p: Primitives, w: World, id: Bytes, k: Bytes, keys: seq<Public>, base: seq<Stanza>, entropy: Entropy)
    returns (ok: bool, out: seq<Stanza>, w': World)
    requires p.Lawful() && |entropy.ageCiphers| >= |keys|
    requires TableAccepted(base) && KeyIds(base) == {} && (forall s :: s in base ==> Genuine(p, w, id, k, s))
    ensures Grows(w, w', id, k, entropy)
    ensures ok <==> KeysUsable(p, keys, |keys|)
    ensures ok ==> out == base + KeyStanzas(p, keys, entropy.ageCiphers)
    ensures ok ==> w' == w.(boxes := w.boxes + KeyBoxes(id, k, keys, entropy.ageCiphers))
    ensures TableAccepted(out) && (HasPassword(out) <==> HasPassword(base))
    ensures forall s :: s in out ==> Genuine(p, w', id, k, s)
    ensures ok ==> forall q :: q in keys ==> Serves(p, w', id, k, out, ByIdentity(q.key))
  {
    hide WrappedFor, TableAccepted, Genuine, HasPassword, Serves, KeyIds, KeyStanzas, KeyBoxes;
    ok, out, w' := false, base, w;
    KeysNone(p, id, k, entropy.ageCiphers);
    var seen: set<string> := {};
    for i := 0 to |keys|
      invariant !ok && KeysUsable(p, keys, i)
      invariant out == base + KeyStanzas(p, keys[..i], entropy.ageCiphers)
      invariant w' == w.(boxes := w.boxes + KeyBoxes(id, k, keys[..i], entropy.ageCiphers))
      invariant Grows(w, w', id, k, entropy)
      invariant TableAccepted(out) && seen == KeyIds(out) == Fingerprints(p, keys[..i])
      invariant HasPassword(out) <==> HasPassword(base)
      invariant forall s :: s in out ==> Genuine(p, w', id, k, s)
      invariant forall q :: q in keys[..i] ==> Serves(p, w', id, k, out, ByIdentity(q.key))
    {
      var q := keys[i];
      if q.typ != X25519 || !p.validKey(q.key) { return; }
      var fp := p.fingerprint(q.key);
      if fp in seen { return; }
      ghost var before, table := w', out;
      var s;
      s, w' := WrapX25519(p, w', id, k, q, entropy.ageCiphers[i]);
      KeysSnoc(p, id, k, keys[..i], q, entropy.ageCiphers);
      AppendStanza(p, before, w', id, k, out, s, ByIdentity(q.key));
      out := out + [s];
      seen := seen + {fp};
      assert keys[..i + 1] == keys[..i] + [q];
      forall q' | q' in keys[..i] ensures Serves(p, w', id, k, out, ByIdentity(q'.key)) {
        StillServes(p, before, w', id, k, table, out, ByIdentity(q'.key));
      }
    }
    assert keys[..|keys|] == keys;
    ok := true;
  }

  lemma KeysNone(p: Primitives, id: Bytes, k: Bytes, ciphers: seq<Bytes>)
    ensures KeyStanzas(p, [], ciphers) == [] && KeyBoxes(id, k, [], ciphers) == []
  {
  }

  /** wrapRecipients */
  method WrapRecipients(p: Primitives, w: World, id: Bytes, k: Bytes, additions: Additions, a: Argon2Params,
                        entropy: Entropy)
    returns (ok: bool, out: seq<Stanza>, w': World)
    requires p.Lawful() && entropy.Sized(additions)
    ensures Grows(w, w', id, k, entropy)
    ensures ok <==> Wrappable(p, additions, a)
    ensures ok ==> TableAccepted(out) && 1 <= |out| <= MAX_RECIPIENTS
    ensures ok ==> (HasPassword(out) <==> additions.password != [])
    ensures ok ==> forall s :: s in out ==> Genuine(p, w', id, k, s)
    ensures ok && additions.password != [] ==> Serves(p, w', id, k, out, ByPassword(additions.password))
    ensures ok && additions.rawKey != [] ==> Serves(p, w', id, k, out, ByRawKey(additions.rawKey))
    ensures ok ==> forall q :: q in additions.publicKeys ==> Serves(p, w', id, k, out, ByIdentity(q.key))
    ensures ok ==> out == WrappedStanzas(p, id, k, additions, a, entropy)
    ensures ok ==> w' == WrappedWorld(w, id, k, additions, a, entropy)
  {
    hide WrappedFor, TableAccepted, Genuine, HasPassword, Serves, KeysUsable, AddedPassword;
    var base, w1;
    ok, base, w1 := WrapSymmetric(p, w, id, k, additions, a, entropy);
    out, w' := base, w1;
    if !ok { return; }
    ok, out, w' := WrapKeys(p, w1, id, k, additions.publicKeys, base, entropy);
    if !ok { return; }
    if additions.password != [] {
      StillServes(p, w1, w', id, k, base, out, ByPassword(additions.password));
    }
    if additions.rawKey != [] {
      StillServes(p, w1, w', id, k, base, out, ByRawKey(additions.rawKey));
    }
    ok := 1 <= |out| <= MAX_RECIPIENTS;
  }

  method WrapX25519(p: Primitives, w: World, id: Bytes, k: Bytes, q: Public, cipher: Bytes)
    returns (s: Stanza, w': World)
    requires p.Lawful()
    ensures w' == w.(boxes := w.boxes + [Box(q.key, id + k, cipher)])
    ensures s == KeyStanza(p, q, cipher) && WrappedFor(p, w', id, k, s, ByIdentity(q.key))
  {
    w' := w.(boxes := w.boxes + [Box(q.key, id + k, cipher)]);
    s := KeyStanza(p, q, cipher);
    assert Box(q.key, id + k, cipher) in w'.boxes;
  }

  lemma StillServes(p: Primitives, w: World, w': World, id: Bytes, k: Bytes, table: seq<Stanza>, table': seq<Stanza>,
                    opener: Opener)
    requires w.seals <= w'.seals && w.boxes <= w'.boxes && table <= table'
    requires Serves(p, w, id, k, table, opener)
    ensures Serves(p, w', id, k, table', opener)
  {
    var i :| 0 <= i < |table| && WrappedFor(p, w, id, k, table[i], opener);
    GrowsKeepsOpener(p, w, w', id, k, table[i], opener);
    assert table'[i] == table[i];
  }

  /** One more genuine stanza keeps the table accepted and genuine. */
  lemma AppendStanza(p: Primitives, w: World, w': World, id: Bytes, k: Bytes, out: seq<Stanza>, s: Stanza,
                     opener: Opener)
    requires p.Lawful() && !opener.ByPassword?
    requires w.seals <= w'.seals && w.boxes <= w'.boxes
    requires TableAccepted(out) && (forall t :: t in out ==> Genuine(p, w, id, k, t))
    requires WrappedFor(p, w', id, k, s, opener)
    requires opener.ByIdentity? ==> s.id != "" && s.id !in KeyIds(out)
    ensures TableAccepted(out + [s])
    ensures KeyIds(out + [s]) == KeyIds(out) + (if opener.ByIdentity? then {s.id} else {})
    ensures HasPassword(out + [s]) <==> HasPassword(out)
    ensures forall t :: t in out + [s] ==> Genuine(p, w', id, k, t)
    ensures Serves(p, w', id, k, out + [s], opener)
  {
    hide TableAccepted;
    TableSnoc(out, s);
    forall t | t in out ensures Genuine(p, w', id, k, t) {
      GrowsKeepsGenuine(p, w, w', id, k, t);
    }
    assert s in out + [s];
    if HasPassword(out) {
      var t :| t in out && t.typ == PASSWORD;
      assert t in out + [s];
    }
    forall t | t in out ensures t in out + [s] {}
  }
}
