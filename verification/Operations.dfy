/** Encrypt, Decrypt and Rekey as methods over readers and writers, and the application's Rekey. */
module Operations {
  import opened Wrappers
  import opened Bytes
  import opened Io
  import opened Records
  import opened Decoding
  import opened Authenticity
  import Payload
  import opened Envelope
  import opened Recipients
  import opened Wrapping
  import opened Container
  import opened Rekeying

  datatype Options = Options(cipher: string, codec: string, recordSize: nat, argon2: Argon2Params, additions: Additions,
                             metadata: Metadata, publicHint: string)

  /** The random draws of one Encrypt call. */
  datatype Draw = Draw(contentKey: Bytes, payloadId: Bytes, noncePrefix: Bytes, metaNonce: Bytes, entropy: Entropy)

  predicate DrawSized(d: Draw, o: Options) {
    && |d.contentKey| == 32 && |d.payloadId| == 32 && |d.metaNonce| == 24
    && (NonceSize(o.cipher).Some? ==> |d.noncePrefix| == NonceSize(o.cipher).value - 8)
    && d.entropy.Sized(o.additions)
  }

  /** Nothing was sealed yet under the drawn keys or for the drawn payload id. */
  ghost predicate DrawFresh(w: World, d: Draw) {
    && (forall e :: e in w.seals ==>
          && e.key != Derived(d.contentKey, d.payloadId, PAYLOAD_INFO)
          && e.key != Derived(d.contentKey, d.payloadId, METADATA_INFO)
          && e.aad != RecipientAad(d.payloadId, PASSWORD) && e.aad != RecipientAad(d.payloadId, RAW_KEY))
    && (forall b :: b in w.boxes && |b.plain| == 64 ==> b.plain[..32] != d.payloadId)
    && (forall b, c :: b in w.boxes && c in w.boxes && b.recipient == c.recipient && b.cipher == c.cipher ==>
        b.plain == c.plain)
    && Fresh(w, d.entropy)
  }

  /** Sealing wraps, metadata and records in a fresh world leaves the origin recorded. */
  lemma FreshRecorded(p: Primitives, w: World, wrapped: World, g: Origin, entropy: Entropy, d: Draw)
    requires p.Lawful() && DrawFresh(w, d) && d.entropy == entropy
    requires g.id == d.payloadId && g.contentKey == d.contentKey && |g.id| == 32 && |g.contentKey| == 32
    requires Grows(w, wrapped, g.id, g.contentKey, entropy)
    requires 1 <= g.frozen.recordSize <= MAX_RECORD_SIZE && |p.text.marshalMeta(g.metadata)| <= MAX_METADATA_SIZE
    ensures Recorded(p, World(wrapped.seals + [MetadataEntry(p, g)] + OriginChannel(p, g).Entries(g.plain),
                              wrapped.boxes), g)
  {
    hide Channel.Entries;
    var ch := OriginChannel(p, g);
    EntriesKey(ch, g.plain);
    assert PAYLOAD_INFO != METADATA_INFO && PAYLOAD_INFO != RAW_WRAP && METADATA_INFO != RAW_WRAP by {
      assert PAYLOAD_INFO[15] != METADATA_INFO[15] && PAYLOAD_INFO[15] != RAW_WRAP[15]
        && METADATA_INFO[15] != RAW_WRAP[15];
    }
    var w' := World(wrapped.seals + [MetadataEntry(p, g)] + ch.Entries(g.plain), wrapped.boxes);
    forall e ensures e in w'.seals <==> e in wrapped.seals || e == MetadataEntry(p, g) || e in ch.Entries(g.plain) {}
  }

  lemma EntriesKey(ch: Channel, plain: Bytes)
    requires ch.recordSize > 0
    ensures forall e :: e in ch.Entries(plain) ==> e.key == ch.key
  {
    Payload.EntriesNonces(ch, plain);
  }

  /** The header an Encrypt call writes. */
  function HeaderFor(p: Primitives, g: Origin, stanzas: seq<Stanza>, publicHint: string): Header {
    var f := g.frozen;
    Header(f.version, f.payloadId, f.cipher, f.codec, f.recordSize, f.noncePrefix, p.text.b64(g.metaNonce),
           p.text.b64(p.seal(MetadataEntry(p, g))), stanzas, publicHint)
  }

  /** What Encrypt has written is a sound container. */
  lemma WrittenIsSound(p: Primitives, w: World, g: Origin, stanzas: seq<Stanza>, publicHint: string)
    requires p.Lawful() && Recorded(p, w, g)
    requires g.frozen.version == VERSION && NonceSize(g.frozen.cipher).Some? && KnownCodec(g.frozen.codec)
    requires g.frozen.payloadId == p.text.b64(g.id) && g.frozen.noncePrefix == p.text.b64(g.prefix)
    requires |g.id| == 32 && |g.metaNonce| == 24 && |g.prefix| == NonceSize(g.frozen.cipher).value - 8
    requires TableAccepted(stanzas) && 1 <= |stanzas| <= MAX_RECIPIENTS
    requires forall s :: s in stanzas ==> Genuine(p, w, g.id, g.contentKey, s)
    requires var h := HeaderFor(p, g, stanzas, publicHint); |p.text.marshal(h)| <= MAX_HEADER_SIZE
    ensures OriginChannel(p, g).recordSize > 0
    ensures var h := HeaderFor(p, g, stanzas, publicHint);
            var container := p.text.HeaderBytes(h) + OriginChannel(p, g).Payload(g.plain);
            Sound(p, w, g, container) && ReadHeader(p.text, container).header == h
  {
    hide Channel.Entries, Channel.Payload, ReadHeader, TableAccepted, Genuine, Honest;
    var h := HeaderFor(p, g, stanzas, publicHint);
    HeaderRoundTrip(p.text, h, OriginChannel(p, g).Payload(g.plain));
  }

  /** An adopted recipient table serves everyone the caller asked for. */
  ghost predicate ServesAll(p: Primitives, w: World, g: Origin, stanzas: seq<Stanza>, a: Additions) {
    && (a.password != [] ==> Serves(p, w, g.id, g.contentKey, stanzas, ByPassword(a.password)))
    && (a.rawKey != [] ==> Serves(p, w, g.id, g.contentKey, stanzas, ByRawKey(a.rawKey)))
    && (forall q :: q in a.publicKeys ==> Serves(p, w, g.id, g.contentKey, stanzas, ByIdentity(q.key)))
  }

  lemma GrownServesAll(p: Primitives, w: World, w': World, g: Origin, stanzas: seq<Stanza>, a: Additions)
    requires w.seals <= w'.seals && w.boxes == w'.boxes
    requires ServesAll(p, w, g, stanzas, a) && (forall s :: s in stanzas ==> Genuine(p, w, g.id, g.contentKey, s))
    ensures ServesAll(p, w', g, stanzas, a) && (forall s :: s in stanzas ==> Genuine(p, w', g.id, g.contentKey, s))
  {
    hide Serves, Genuine;
    forall opener: Opener | Serves(p, w, g.id, g.contentKey, stanzas, opener)
      ensures Serves(p, w', g.id, g.contentKey, stanzas, opener)
    {
      StillServes(p, w, w', g.id, g.contentKey, stanzas, stanzas, opener);
    }
    forall s | s in stanzas ensures Genuine(p, w', g.id, g.contentKey, s) {
      GrowsKeepsGenuine(p, w, w', g.id, g.contentKey, s);
    }
  }

  function EffectiveArgon2(o: Options): Argon2Params {
    if o.argon2 == Argon2Params(0, 0, 0) then DEFAULT_ARGON2 else o.argon2
  }

  /** The options Encrypt turns down before it has anything to write. */
  predicate Unacceptable(p: Primitives, o: Options) {
    || o.recordSize > MAX_RECORD_SIZE
    || !ValidArgon2(EffectiveArgon2(o))
    || NonceSize(o.cipher).None?
    || !KnownCodec(o.codec)
    || !Wrappable(p, o.additions, EffectiveArgon2(o))
    || |p.text.marshalMeta(o.metadata)| > MAX_METADATA_SIZE
    || |o.publicHint| > MAX_PUBLIC_HINT
  }

  /** What one Encrypt call fixes, by its options, draws and input. */
  function OriginFor(p: Primitives, o: Options, d: Draw, plain: Bytes): Origin {
    Origin(d.payloadId, d.contentKey, d.noncePrefix, d.metaNonce, FrozenFor(p, o, d), o.metadata, plain)
  }

  function TableFor(p: Primitives, o: Options, d: Draw): seq<Stanza>
    requires DrawSized(d, o)
  {
    WrappedStanzas(p, d.payloadId, d.contentKey, o.additions, EffectiveArgon2(o), d.entropy)
  }

  /** The header Encrypt writes; the plaintext has no part in it. */
  function CallHeader(p: Primitives, o: Options, d: Draw): Header
    requires DrawSized(d, o)
  {
    HeaderFor(p, OriginFor(p, o, d, []), TableFor(p, o, d), o.publicHint)
  }

  /** Exactly the calls Encrypt turns down before it writes anything. */
  predicate EncryptRefused(p: Primitives, o: Options, d: Draw)
    requires DrawSized(d, o)
  {
    Unacceptable(p, o) || |p.text.marshal(CallHeader(p, o, d))| > MAX_HEADER_SIZE
  }

  /** Exactly the calls within these bounds are accepted; zero stands for the default record size and parameters. */
  lemma CallAccepted(p: Primitives, o: Options, d: Draw)
    requires DrawSized(d, o)
    ensures !EncryptRefused(p, o, d) <==>
            && o.recordSize <= 16 * 1024 * 1024
            && (o.argon2 == Argon2Params(0, 0, 0)
                || (1 <= o.argon2.time <= 10 && 1 <= o.argon2.memoryKiB <= 256 * 1024 && 1 <= o.argon2.parallelism <= 16
                    && o.argon2.memoryKiB >= 8 * o.argon2.parallelism))
            && o.cipher in {"aes-256-gcm", "xchacha20poly1305"} && o.codec in {"gzip", "zstd", "lz4", "bzip2", "lzma"}
            && |p.text.marshalMeta(o.metadata)| <= 1024 * 1024 && |o.publicHint| <= 256
            && (|o.additions.rawKey| == 0 || |o.additions.rawKey| == 32)
            && 1 <= (if o.additions.password == [] then 0 else 1) + (if o.additions.rawKey == [] then 0 else 1)
                    + |o.additions.publicKeys| <= 64
            && (forall i :: 0 <= i < |o.additions.publicKeys| ==>
                  o.additions.publicKeys[i].typ == "x25519" && p.validKey(o.additions.publicKeys[i].key))
            && (forall i, j :: 0 <= i < j < |o.additions.publicKeys| ==>
                  p.fingerprint(o.additions.publicKeys[i].key) != p.fingerprint(o.additions.publicKeys[j].key))
            && |p.text.marshal(CallHeader(p, o, d))| <= 1024 * 1024
  {
    hide CallHeader, KeysUsable;
    KeysUsableMeans(p, o.additions.publicKeys);
  }

  lemma KeysUsableMeans(p: Primitives, keys: seq<Public>)
    ensures KeysUsable(p, keys, |keys|) <==>
            && (forall i :: 0 <= i < |keys| ==> keys[i].typ == "x25519" && p.validKey(keys[i].key))
            && (forall i, j :: 0 <= i < j < |keys| ==> p.fingerprint(keys[i].key) != p.fingerprint(keys[j].key))
  {
    if KeysUsable(p, keys, |keys|) {
      forall i, j | 0 <= i < j < |keys| ensures p.fingerprint(keys[i].key) != p.fingerprint(keys[j].key) {
        assert keys[i] in keys[..j];
      }
    }
  }

  /** The world once the key is wrapped and the metadata sealed. */
  function HeaderWorld(p: Primitives, w: World, o: Options, d: Draw): World
    requires DrawSized(d, o)
  {
    var wrapped := WrappedWorld(w, d.payloadId, d.contentKey, o.additions, EffectiveArgon2(o), d.entropy);
    wrapped.(seals := wrapped.seals + [MetadataEntry(p, OriginFor(p, o, d, []))])
  }

  /** What the part of Encrypt before the payload has settled. */
  ghost predicate Prepared(p: Primitives, w: World, o: Options, d: Draw, plain: Bytes, stanzas: seq<Stanza>) {
    var g := OriginFor(p, o, d, plain);
    && 1 <= g.frozen.recordSize <= MAX_RECORD_SIZE
    && NonceSize(o.cipher).Some? && KnownCodec(o.codec)
    && |p.text.marshal(HeaderFor(p, g, stanzas, o.publicHint))| <= MAX_HEADER_SIZE
    && TableAccepted(stanzas) && 1 <= |stanzas| <= MAX_RECIPIENTS
    && (forall s :: s in stanzas ==> Genuine(p, w, d.payloadId, d.contentKey, s))
    && ServesAll(p, w, g, stanzas, o.additions)
    && Recorded(p, World(w.seals + OriginChannel(p, g).Entries(plain), w.boxes), g)
  }

  function EffectiveRecordSize(o: Options): nat {
    if o.recordSize == 0 then DEFAULT_RECORD_SIZE else o.recordSize
  }

  function FrozenFor(p: Primitives, o: Options, d: Draw): Immutable {
    Immutable(VERSION, p.text.b64(d.payloadId), o.cipher, o.codec, EffectiveRecordSize(o), p.text.b64(d.noncePrefix))
  }

  lemma PreparedWhen(p: Primitives, w: World, wrapped: World, o: Options, d: Draw, plain: Bytes, stanzas: seq<Stanza>)
    requires p.Lawful() && DrawSized(d, o) && DrawFresh(w, d)
    requires var g := OriginFor(p, o, d, plain);
             && g.frozen.recordSize <= MAX_RECORD_SIZE && NonceSize(o.cipher).Some? && KnownCodec(o.codec)
             && |p.text.marshalMeta(o.metadata)| <= MAX_METADATA_SIZE
             && |p.text.marshal(HeaderFor(p, g, stanzas, o.publicHint))| <= MAX_HEADER_SIZE
             && TableAccepted(stanzas) && 1 <= |stanzas| <= MAX_RECIPIENTS
             && Grows(w, wrapped, g.id, g.contentKey, d.entropy)
             && (forall s :: s in stanzas ==> Genuine(p, wrapped, g.id, g.contentKey, s))
             && ServesAll(p, wrapped, g, stanzas, o.additions)
    ensures var e := MetadataEntry(p, OriginFor(p, o, d, []));
            Prepared(p, wrapped.(seals := wrapped.seals + [e]), o, d, plain, stanzas)
  {
    hide Recorded, TableAccepted, Genuine, Serves, ServesAll, Honest, Channel.Entries, Grows, DrawFresh, HeaderFor;
    var g := OriginFor(p, o, d, plain);
    var w' := wrapped.(seals := wrapped.seals + [MetadataEntry(p, g)]);
    GrownServesAll(p, wrapped, w', g, stanzas, o.additions);
    FreshRecorded(p, w, wrapped, g, d.entropy, d);
  }

  /** The part of Encrypt before the payload: checks, wrapping, metadata, header. */
  method Prepare(p: Primitives, w: World, o: Options, d: Draw, ghost plain: Bytes)
    returns (ok: bool, h: Header, w': World)
    requires p.Lawful() && DrawSized(d, o) && DrawFresh(w, d)
    ensures ok <==> !EncryptRefused(p, o, d)
    ensures ok ==> h == CallHeader(p, o, d) && w' == HeaderWorld(p, w, o, d)
    ensures ok ==> Prepared(p, w', o, d, plain, TableFor(p, o, d))
    ensures GrowsFor(w, w', d.payloadId, d.contentKey, d.entropy)
  {
    assert GrowsFor(w, w, d.payloadId, d.contentKey, d.entropy);
    hide Recorded, TableAccepted, Genuine, Serves, Honest, Channel.Entries, Grows, GrowsFor, Wrappable, ValidArgon2,
         KnownCodec, ServesAll, DrawFresh, WrappedStanzas, WrappedWorld, Prepared;
    ok, w' := false, w;
    h := Header(VERSION, "", "", "", 0, "", "", "", [], "");
    var recordSize := EffectiveRecordSize(o);
    var frozen := FrozenFor(p, o, d);
    ghost var g := OriginFor(p, o, d, plain);
    var argon2 := EffectiveArgon2(o);
    if recordSize > MAX_RECORD_SIZE || !ValidArgon2(argon2) || NonceSize(o.cipher).None?
      || !KnownCodec(o.codec) { return; }
    var wrappedOk, stanzas;
    wrappedOk, stanzas, w' := WrapRecipients(p, w, d.payloadId, d.contentKey, o.additions, argon2, d.entropy);
    GrowsIsFor(w, w', d.payloadId, d.contentKey, d.entropy);
    var metaData := p.text.marshalMeta(o.metadata);
    if !wrappedOk || |metaData| > MAX_METADATA_SIZE { return; }
    ghost var wrapped := w';
    var e := Sealed(Derived(d.contentKey, d.payloadId, METADATA_INFO), d.metaNonce, p.text.marshalFrozen(frozen),
                    metaData);
    GrowsForMore(w, w', d.payloadId, d.contentKey, d.entropy, [e]);
    w' := w'.(seals := w'.seals + [e]);
    h := Header(VERSION, frozen.payloadId, o.cipher, o.codec, recordSize, frozen.noncePrefix, p.text.b64(d.metaNonce),
                p.text.b64(p.seal(e)), stanzas, o.publicHint);
    assert h == CallHeader(p, o, d);
    if |o.publicHint| > MAX_PUBLIC_HINT || |p.text.marshal(h)| > MAX_HEADER_SIZE { return; }
    WrappedServesAll(p, wrapped, g, stanzas, o.additions);
    PreparedWhen(p, w, wrapped, o, d, plain, stanzas);
    ok := true;
  }

  lemma WrappedServesAll(p: Primitives, w: World, g: Origin, stanzas: seq<Stanza>, a: Additions)
    requires a.password != [] ==> Serves(p, w, g.id, g.contentKey, stanzas, ByPassword(a.password))
    requires a.rawKey != [] ==> Serves(p, w, g.id, g.contentKey, stanzas, ByRawKey(a.rawKey))
    requires forall q :: q in a.publicKeys ==> Serves(p, w, g.id, g.contentKey, stanzas, ByIdentity(q.key))
    ensures ServesAll(p, w, g, stanzas, a)
  {
    hide Serves;
  }

  /** Magic, length, header. */
  method WriteHeader(t: Text, out: Writer, h: Header) returns (ok: bool)
    modifies out
    ensures out.bounded == old(out.bounded) && (!out.bounded ==> ok)
    ensures ok ==> out.out == old(out.out) + t.HeaderBytes(h)
  {
    hide Be32;
    var encoded := t.marshal(h);
    ok := out.Write(MAGIC);
    if ok { ok := out.Write(Be32(|encoded|)); }
    if ok { ok := out.Write(encoded); }
  }

  /** Whoever was asked for reads what was given. */
  lemma RequestedRead(p: Primitives, w: World, o: Options, d: Draw, plain: Bytes, container: Bytes, opener: Opener,
                      cred: Credentials)
    requires p.Lawful() && Sound(p, w, OriginFor(p, o, d, plain), container)
    requires ServesAll(p, w, OriginFor(p, o, d, plain), ReadHeader(p.text, container).header.recipients, o.additions)
    requires Requested(o.additions, opener) && Holds(cred, opener)
    requires |Chunks(plain, if o.recordSize == 0 then 65536 else o.recordSize)| < TWO_TO_64
    ensures Decrypt(p, w, container, cred) == Decrypted(o.codec, o.metadata, plain)
  {
    hide ReadHeader, Serves, Sound, Decrypt, Holds;
    SoundSized(p, w, OriginFor(p, o, d, plain), container);
    SoundDecrypts(p, w, OriginFor(p, o, d, plain), container, cred, opener);
  }

  /**
    Encrypt.  On success the bytes written are a sound container of this call's origin, serving
    every requested recipient, however the reader splits the plaintext: each of them decrypts it to
    the codec and metadata asked for and the data given.  Without faults it succeeds exactly on calls
    that are not to be refused.
   */
  method Encrypt(p: Primitives, w: World, r: Reader, out: Writer, o: Options, d: Draw)
    returns (ok: bool, ghost w': World, ghost container: Bytes)
    requires p.Lawful() && DrawSized(d, o) && DrawFresh(w, d)
    modifies r, out
    ensures GrowsFor(w, w', d.payloadId, d.contentKey, d.entropy)
    ensures ok ==>
              var g := OriginFor(p, o, d, old(r.rest));
              && !EncryptRefused(p, o, d)
              && out.out == old(out.out) + container
              && container == p.text.HeaderBytes(CallHeader(p, o, d)) + OriginChannel(p, g).Payload(g.plain)
              && w' == World(HeaderWorld(p, w, o, d).seals + OriginChannel(p, g).Entries(g.plain),
                             HeaderWorld(p, w, o, d).boxes)
              && Sound(p, w', g, container)
              && ServesAll(p, w', g, ReadHeader(p.text, container).header.recipients, o.additions)
    ensures ok ==>
              && ReadHeader(p.text, container).HeaderRead?
              && var h := ReadHeader(p.text, container).header;
                 && h.cipher == o.cipher && h.codec == o.codec && h.publicHint == o.publicHint
                 && h.recordSize == if o.recordSize == 0 then 65536 else o.recordSize
    ensures ok && |Chunks(old(r.rest), if o.recordSize == 0 then 65536 else o.recordSize)| < TWO_TO_64 ==>
              forall opener, cred :: Requested(o.additions, opener) && Holds(cred, opener) ==>
                Decrypt(p, w', container, cred) == Decrypted(o.codec, o.metadata, old(r.rest))
    ensures old(r.Healthy()) && !old(out.bounded) ==> (ok <==> !EncryptRefused(p, o, d))
  {
    hide Recorded, TableAccepted, Genuine, Serves, ServesAll, Sound, Honest, Channel.Entries, Channel.Payload,
         ReadHeader, EncryptRefused, GrowsFor, TableFor, HeaderWorld, Decrypt, Requested, Holds;
    ghost var plain := r.rest;
    ghost var g, stanzas := OriginFor(p, o, d, plain), TableFor(p, o, d);
    var h, prepared;
    ok, h, prepared := Prepare(p, w, o, d, plain);
    w', container := prepared, [];
    if !ok { return; }
    ok := WriteHeader(p.text, out, h);
    if !ok { return; }
    var ch := ChannelOf(p, d.payloadId, d.contentKey, d.noncePrefix, FrozenFor(p, o, d));
    ghost var entries;
    ok, entries := Payload.EncryptPayload(ch, r, out);
    GrowsForMore(w, prepared, d.payloadId, d.contentKey, d.entropy, entries);
    w' := World(prepared.seals + entries, prepared.boxes);
    if ok {
      container := p.text.HeaderBytes(h) + ch.Payload(plain);
      GrownServesAll(p, prepared, w', g, stanzas, o.additions);
      WrittenIsSound(p, w', g, stanzas, o.publicHint);
      forall opener, cred | && Requested(o.additions, opener) && Holds(cred, opener)
                            && |Chunks(plain, if o.recordSize == 0 then 65536 else o.recordSize)| < TWO_TO_64
        ensures Decrypt(p, w', container, cred) == Decrypted(o.codec, o.metadata, plain)
      {
        RequestedRead(p, w', o, d, plain, container, opener, cred);
      }
      SoundReads(p, w', g, container);
    }
  }

  lemma SoundReads(p: Primitives, w: World, g: Origin, container: Bytes)
    requires Sound(p, w, g, container)
    ensures ReadHeader(p.text, container).HeaderRead?
  {
    hide Recorded, HeaderOf, Genuine, ReadHeader, Channel.Payload;
  }

  /**
    Decrypt.  Whatever the reader and the writer do, no more is written than the fault-free run
    would write; without faults the result is that run's.
   */
  method DecryptContainer(p: Primitives, w: World, r: Reader, out: Writer, o: Credentials)
    returns (faulted: bool, result: Option<(string, Metadata)>)
    modifies r, out
    ensures var d := Decrypt(p, w, old(r.rest), o);
            && old(out.out) <= out.out <= old(out.out) + d.out
            && (result.Some? ==>
                d == Decrypted(result.value.0, result.value.1, d.out) && out.out == old(out.out) + d.out)
            && (!faulted && result.None? ==> d.Rejected?)
    ensures old(r.Healthy()) && !old(out.bounded) ==> !faulted
    ensures faulted ==> result.None?
  {
    hide ReadHeader, Unwrap, Run, OpenMetadata, HeaderAccepted;
    ghost var container := r.rest;
    var fault, read := ReadHeaderFrom(p.text, r);
    if fault { return true, None; }
    if read.HeaderError? { return false, None; }
    HeaderCanonical(p.text, container);
    AcceptedFields(p.text, read.header);
    var h := read.header;
    var id := p.text.Fixed(h.payloadId, 32).value;
    var key := UnwrapRecipients(p, w, h.recipients, id, o);
    if !key.Found? { return false, None; }
    var prefix := p.text.Fixed(h.noncePrefix, NonceSize(h.cipher).value - 8);
    if prefix.None? { return false, None; }
    var ch := ChannelOf(p, id, key.key, prefix.value, Frozen(h));
    var verdict := Payload.DecryptPayload(ch, w.seals, r, out);
    if verdict in {ReadFailed, WriteFailed} { return true, None; }
    if verdict != Accepted { return false, None; }
    var metadata := OpenMetadata(p, w, h, id, key.key);
    if metadata.None? { return false, None; }
    return false, Some((h.codec, metadata.value));
  }

  lemma AcceptedFields(t: Text, h: Header)
    requires HeaderAccepted(t, h)
    ensures NonceSize(h.cipher).Some? && t.Fixed(h.payloadId, 32).Some?
  {
  }

  /** io.Copy: everything the reader still delivers goes to the writer. */
  method CopyAll(r: Reader, out: Writer) returns (ok: bool, copied: nat)
    modifies r, out
    ensures ok ==> out.out == old(out.out) + old(r.rest) && copied == |old(r.rest)|
    ensures old(r.Healthy()) && !old(out.bounded) ==> ok
  {
    ghost var start, data := out.out, r.rest;
    ghost var done: Bytes := [];
    copied := 0;
    while true
      invariant out.out == start + done && data == done + r.rest && copied == |done|
      invariant out.bounded == old(out.bounded) && (old(r.Healthy()) ==> r.Healthy())
      decreases |r.rest|, |r.plan|
    {
      var b, status := r.Read(32768);
      if b != [] {
        var wrote := out.Write(b);
        if !wrote { return false, copied; }
        copied := copied + |b|;
        done := done + b;
      }
      if status == EOF { return true, copied; }
      if status != Ok { return false, copied; }
    }
  }

  method FilterKept(q: Request, rs: seq<Stanza>) returns (kept: seq<Stanza>)
    ensures kept == Kept(q, rs)
  {
    kept := [];
    for i := 0 to |rs|
      invariant kept == Kept(q, rs[..i])
    {
      assert rs[..i + 1][..i] == rs[..i];
      if rs[i].id !in q.remove && !(q.replaceSymmetric && (rs[i].typ == PASSWORD || rs[i].typ == RAW_KEY)) {
        kept := kept + [rs[i]];
      }
    }
    assert rs[..|rs|] == rs;
  }

  method CheckIds(rs: seq<Stanza>) returns (ok: bool)
    ensures ok <==> DistinctIds(rs)
  {
    var seen: set<string> := {};
    for i := 0 to |rs|
      invariant forall a, b :: 0 <= a < b < i && rs[a].id != "" ==> rs[a].id != rs[b].id
      invariant forall a :: 0 <= a < i && rs[a].id != "" ==> rs[a].id in seen
      invariant forall id :: id in seen ==> id != "" && exists a :: 0 <= a < i && rs[a].id == id
    {
      if rs[i].id != "" {
        if rs[i].id in seen { return false; }
        seen := seen + {rs[i].id};
      }
    }
    return true;
  }

  /** The kept stanzas and the added ones, when they make an admissible table. */
  method NewTable(p: Primitives, w: World, id: Bytes, k: Bytes, rs: seq<Stanza>, q: Request)
    returns (ok: bool, table: seq<Stanza>, w': World)
    requires p.Lawful() && q.entropy.Sized(q.additions)
    ensures Grows(w, w', id, k, q.entropy)
    ensures ok <==>
            && (AddsSomething(q.additions) ==> Wrappable(p, q.additions, DEFAULT_ARGON2))
            && !Inadmissible(Kept(q, rs) + Added(p, id, k, q))
    ensures ok ==>
              && table == Kept(q, rs) + Added(p, id, k, q) && w' == AddedWorld(w, id, k, q)
              && Adds(p, w', id, k, q.additions, Added(p, id, k, q))
  {
    hide Genuine, Serves, TableAccepted, DistinctIds, Wrappable, WrappedStanzas, WrappedWorld;
    table := FilterKept(q, rs);
    ok, w' := false, w;
    assert table + [] == table;
    if q.additions.password != [] || q.additions.rawKey != [] || q.additions.publicKeys != [] {
      var wrapped, stanzas;
      wrapped, stanzas, w' := WrapRecipients(p, w, id, k, q.additions, DEFAULT_ARGON2, q.entropy);
      if !wrapped { return; }
      table := table + stanzas;
    }
    if |table| == 0 || |table| > MAX_RECIPIENTS { return; }
    ok := CheckIds(table);
  }

  /**
    Rekey.  Without faults it succeeds exactly on requests that are not to be refused; a success is
    the specified step, and however the call ends it has wrapped nothing but the key it found.
   */
  method Rekey(p: Primitives, w: World, r: Reader, out: Writer, q: Request)
    returns (ok: bool, copied: nat, w': World)
    requires p.Lawful() && q.entropy.Sized(q.additions)
    modifies r, out
    ensures Attempted(p, w, old(r.rest), q, w')
    ensures var result := RekeyResult(p, w, old(r.rest), q);
            ok ==>
              && result.Rekeyed? && w' == result.world && out.out == old(out.out) + result.container
              && RekeyStep(p, w, old(r.rest), q, result.added, w', result.container)
              && copied == |ReadHeader(p.text, old(r.rest)).rest|
    ensures var before, after := ReadHeader(p.text, old(r.rest)), RekeyResult(p, w, old(r.rest), q);
            ok && ReadHeader(p.text, after.container).HeaderRead? ==>
              && before.HeaderRead?
              && forall s :: s in ReadHeader(p.text, after.container).header.recipients <==>
                   || s in after.added
                   || (s in before.header.recipients && s.id !in q.remove && (q.replaceSymmetric ==> s.typ == "x25519"))
    ensures old(r.Healthy()) && !old(out.bounded) ==> (ok <==> RekeyResult(p, w, old(r.rest), q).Rekeyed?)
  {
    hide ReadHeader, Unwrap, HeaderAccepted, Adds, DistinctIds, Grows, Wrappable, Inadmissible, Added, AddedWorld,
         RekeyResult, RekeyStep, Attempted;
    assert Attempted(p, w, r.rest, q, w) by { AttemptedNothing(p, w, r.rest, q); }
    ghost var container := r.rest;
    ok, copied, w' := false, 0, w;
    var fault, read := ReadHeaderFrom(p.text, r);
    if fault { return; }
    if read.HeaderError? {
      ResultUnfound(p, w, container, q);
      return;
    }
    HeaderCanonical(p.text, container);
    AcceptedFields(p.text, read.header);
    var h := read.header;
    var id := p.text.Fixed(h.payloadId, 32).value;
    var key := UnwrapRecipients(p, w, h.recipients, id, q.auth);
    if !key.Found? {
      ResultUnfound(p, w, container, q);
      return;
    }
    ResultFound(p, w, container, q, h, read.rest, id, key.key);
    var fits, table;
    fits, table, w' := NewTable(p, w, id, key.key, h.recipients, q);
    if !fits { return; }
    var header := h.(recipients := table);
    var encoded := p.text.marshal(header);
    if |encoded| > MAX_HEADER_SIZE { return; }
    ResultStep(p, w, container, q, h, read.rest, id, key.key);
    ghost var result := RekeyResult(p, w, container, q);
    TableAfter(p, w, container, q, result.added, result.world, result.container);
    var wrote := WriteHeader(p.text, out, header);
    if !wrote { return; }
    ok, copied := CopyAll(r, out);
  }

  // The application

  datatype NewCredential = Unchanged | NewPassword(password: Bytes) | NewRawKey(rawKey: Bytes)

  datatype AppRequest = AppRequest(auth: Credentials, replacement: NewCredential, recipients: seq<Option<Public>>,
                                   remove: set<string>)

  /** The credentials the finished output is verified with. */
  function VerifyWith(a: AppRequest): Credentials {
    match a.replacement
    case Unchanged => a.auth
    case NewPassword(password) => Credentials(password, [], a.auth.identities)
    case NewRawKey(rawKey) => Credentials([], rawKey, a.auth.identities)
  }

  /** The request the application makes of its own, unless a recipient file does not load. */
  function RequestOf(a: AppRequest, entropy: Entropy): (r: Option<Request>)
    ensures r.Some? ==> ApplicationRequest(r.value) && |r.value.additions.publicKeys| == |a.recipients|
    ensures r.Some? ==> r.value.entropy == entropy
  {
    if exists i :: 0 <= i < |a.recipients| && a.recipients[i].None? then None
    else
      var keys := seq(|a.recipients|, i requires 0 <= i < |a.recipients| => a.recipients[i].value);
      Some(Request(a.auth, match a.replacement
                           case Unchanged => Additions([], [], keys)
                           case NewPassword(password) => Additions(password, [], keys)
                           case NewRawKey(rawKey) => Additions([], rawKey, keys),
                   a.remove, !a.replacement.Unchanged?, entropy))
  }

  lemma RequestBuilt(a: AppRequest, entropy: Entropy, keys: seq<Public>)
    requires |keys| == |a.recipients| && forall j :: 0 <= j < |keys| ==> a.recipients[j] == Some(keys[j])
    ensures RequestOf(a, entropy).Some? && RequestOf(a, entropy).value.additions.publicKeys == keys
  {
    var given := seq(|a.recipients|,
                     i requires 0 <= i < |a.recipients| && a.recipients[i].Some? => a.recipients[i].value);
    assert keys == given;
    assert RequestOf(a, entropy).value.additions.publicKeys == keys;
  }

  /** Who may ask: enough randomness for everyone to be added. */
  predicate Drawn(a: AppRequest, entropy: Entropy) {
    |entropy.ageCiphers| >= |a.recipients| && entropy.Sized(Additions([], [], []))
  }

  function AppResult(p: Primitives, w: World, container: Bytes, a: AppRequest, entropy: Entropy): Rekeyed
    requires Drawn(a, entropy)
  {
    match RequestOf(a, entropy)
    case None => Refused
    case Some(q) => RekeyResult(p, w, container, q)
  }

  /** The table an application request makes of a container's. */
  function AppTable(p: Primitives, w: World, container: Bytes, a: AppRequest, entropy: Entropy): seq<Stanza>
    requires Drawn(a, entropy) && AppResult(p, w, container, a, entropy).Rekeyed?
  {
    Kept(RequestOf(a, entropy).value, ReadHeader(p.text, container).header.recipients)
      + AppResult(p, w, container, a, entropy).added
  }

  predicate NeverFaults(check: seq<Piece>) {
    forall i :: 0 <= i < |check| ==> !check[i].fault
  }

  /** Someone the new table serves is among the credentials. */
  ghost predicate Verifies(p: Primitives, w: World, g: Origin, table: seq<Stanza>, o: Credentials) {
    exists opener :: Serves(p, w, g.id, g.contentKey, table, opener) && Holds(o, opener)
  }

  lemma SoundSized(p: Primitives, w: World, g: Origin, container: Bytes)
    requires Sound(p, w, g, container)
    ensures OriginChannel(p, g).recordSize > 0
  {
    hide Channel.Entries, Honest, HeaderOf, Genuine, ReadHeader;
  }

  /**
    A finished application rekey of a sound container decrypts exactly if its verification
    credentials open the new table.
   */
  lemma RekeyedVerifies(p: Primitives, w: World, g: Origin, container: Bytes, q: Request, added: seq<Stanza>, w': World,
                        container': Bytes, o: Credentials)
    requires p.Lawful() && Sound(p, w, g, container) && CounterFits(OriginChannel(p, g), g.plain)
    requires RekeyStep(p, w, container, q, added, w', container') && Fresh(w, q.entropy) && ApplicationRequest(q)
    ensures Decrypt(p, w', container', o).Decrypted? <==>
            Verifies(p, w', g, Kept(q, ReadHeader(p.text, container).header.recipients) + added, o)
  {
    hide Sound, RekeyStep, Decrypt, ReadHeader, Serves, Holds;
    StepReads(p, w, container, q, added, w', container');
    ApplicationNeverDoubles(q, ReadHeader(p.text, container).header);
    RekeyKeepsSound(p, w, g, container, q, added, w', container');
    RekeyedReads(p, w, container, q, added, w', container');
    SoundDecryptsExactly(p, w', g, container', o);
  }

  /**
    The application's Rekey: the output is published only after it decrypts in full, and what is
    published comes from a request that replaces symmetric credentials whenever it adds one.  Without
    faults it is published exactly when the recipients load, the request is not refused and the result
    decrypts with the verification credentials; on a sound container `g`, when these open its table.
   */
  method AppRekey(p: Primitives, w: World, input: Reader, tmp: Writer, check: seq<Piece>, a: AppRequest,
                  entropy: Entropy, ghost g: Origin)
    returns (published: Option<Bytes>, w': World)
    requires p.Lawful() && tmp.out == []
    requires Drawn(a, entropy)
    modifies input, tmp
    ensures var q := RequestOf(a, entropy);
            if q.None? then w' == w else Attempted(p, w, old(input.rest), q.value, w')
    ensures var result := AppResult(p, w, old(input.rest), a, entropy);
            published.Some? ==>
              && result.Rekeyed? && w' == result.world && published.value == result.container
              && RekeyStep(p, w, old(input.rest), RequestOf(a, entropy).value, result.added, w', published.value)
              && Decrypt(p, w', published.value, VerifyWith(a)).Decrypted?
    ensures published.Some? ==>
              match a.replacement
              case Unchanged => Decrypt(p, w', published.value, a.auth).Decrypted?
              case NewPassword(password) =>
                Decrypt(p, w', published.value, Credentials(password, [], a.auth.identities)).Decrypted?
              case NewRawKey(rawKey) =>
                Decrypt(p, w', published.value, Credentials([], rawKey, a.auth.identities)).Decrypted?
    ensures var result := AppResult(p, w, old(input.rest), a, entropy);
            old(input.Healthy()) && !old(tmp.bounded) && NeverFaults(check) ==>
              (published.Some? <==>
                 result.Rekeyed? && Decrypt(p, result.world, result.container, VerifyWith(a)).Decrypted?)
    ensures var result := AppResult(p, w, old(input.rest), a, entropy);
            && old(input.Healthy()) && !old(tmp.bounded) && NeverFaults(check)
            && Sound(p, w, g, old(input.rest)) && CounterFits(OriginChannel(p, g), g.plain) && Fresh(w, entropy) ==>
              (published.Some? <==>
                 result.Rekeyed?
                 && Verifies(p, result.world, g, AppTable(p, w, old(input.rest), a, entropy), VerifyWith(a)))
  {
    hide RekeyStep, Decrypt, Sound, Verifies, CounterFits, Fresh, RekeyResult, Attempted;
    ghost var container := input.rest;
    var additions := Additions([], [], []);
    var replaceSymmetric := false;
    match a.replacement {
      case Unchanged =>
      case NewPassword(password) => additions := additions.(password := password); replaceSymmetric := true;
      case NewRawKey(rawKey) => additions := additions.(rawKey := rawKey); replaceSymmetric := true;
    }
    ghost var symmetric := additions;
    published, w' := None, w;
    for i := 0 to |a.recipients|
      invariant published.None? && |additions.publicKeys| == i
      invariant additions.(publicKeys := []) == symmetric
      invariant forall j :: 0 <= j < i ==> a.recipients[j] == Some(additions.publicKeys[j])
    {
      if a.recipients[i].None? { return; }
      additions := additions.(publicKeys := additions.publicKeys + [a.recipients[i].value]);
    }
    var request := Request(a.auth, additions, a.remove, replaceSymmetric, entropy);
    RequestBuilt(a, entropy, additions.publicKeys);
    var ok, copied;
    ok, copied, w' := Rekey(p, w, input, tmp, request);
    if !ok { return; }
    ghost var result := AppResult(p, w, container, a, entropy);
    assert tmp.out == result.container;
    if Sound(p, w, g, container) {
      SoundSized(p, w, g, container);
      if CounterFits(OriginChannel(p, g), g.plain) && Fresh(w, entropy) {
        RekeyedVerifies(p, w, g, container, request, result.added, w', result.container, VerifyWith(a));
      }
    }
    var again := new Reader(tmp.out, check);
    var sink := new Writer();
    var faulted, verified := DecryptContainer(p, w', again, sink, VerifyWith(a));
    if verified.Some? {
      published := Some(tmp.out);
    }
  }

  // The password that locks everyone out

  /** Adding a password beside one that is kept. */
  predicate SecondPassword(q: Request, h: Header) {
    PasswordOnly(q.additions) && DoublesPassword(q, h)
  }

  /** In a sound container the owner of a kept password meets the conditions below. */
  lemma KeptPasswordUnlocks(p: Primitives, w: World, g: Origin, container: Bytes, q: Request, s: Stanza)
    requires p.Lawful() && Sound(p, w, g, container) && PasswordOnly(q.additions) && Keeps(q, s)
    requires s in ReadHeader(p.text, container).header.recipients
             && WrappedFor(p, w, g.id, g.contentKey, s, ByPassword(q.auth.password))
    ensures var h := ReadHeader(p.text, container).header;
            && p.text.Fixed(h.payloadId, 32) == Some(g.id) && SecondPassword(q, h)
            && Unwrap(p, w, h.recipients, g.id, q.auth) == Found(g.contentKey)
  {
    hide ReadHeader, Recorded, Genuine, Honest, Unwrap, Keeps, Channel.Payload;
    var h := ReadHeader(p.text, container).header;
    RecordedFacts(p, w, g, h);
    var i :| 0 <= i < |h.recipients| && h.recipients[i] == s;
    AnyHolderUnwraps(p, w, g.id, g.contentKey, h.recipients, q.auth, i, ByPassword(q.auth.password));
  }

  /**
    Rekeying with a second password: a container whose password stanza is kept and unlocked, within
    the limits on table and header.  Nothing refuses the request, so Rekey succeeds, and what it
    writes cannot be read by anyone.
   */
  method SecondPasswordLocksOut(p: Primitives, w: World, r: Reader, out: Writer, q: Request)
    returns (ok: bool, copied: nat, w': World, ghost container': Bytes)
    requires p.Lawful() && q.entropy.Sized(q.additions) && r.Healthy() && !out.bounded
    requires var read := ReadHeader(p.text, r.rest);
             && read.HeaderRead? && p.text.Fixed(read.header.payloadId, 32).Some?
             && var id := p.text.Fixed(read.header.payloadId, 32).value;
                var found := Unwrap(p, w, read.header.recipients, id, q.auth);
             && found.Found? && SecondPassword(q, read.header)
             && var added := AddedPassword(p, id, found.key, q.additions, DEFAULT_ARGON2, q.entropy);
                var table := Kept(q, read.header.recipients) + [added];
             && |table| <= MAX_RECIPIENTS && DistinctIds(table)
             && |p.text.marshal(read.header.(recipients := table))| <= MAX_HEADER_SIZE
    modifies r, out
    ensures ok && out.out == old(out.out) + container'
    ensures ReadHeader(p.text, container').HeaderError?
    ensures forall o, v :: Decrypt(p, v, container', o).Rejected?
  {
    hide Unwrap, DistinctIds, RekeyStep, AddedPassword, ReadHeader, DoublesPassword, Run, OpenMetadata, WrappedStanzas,
         AddedWorld, Attempted;
    ghost var container, result := r.rest, RekeyResult(p, w, r.rest, q);
    PasswordAccepted(p, w, r.rest, q);
    ok, copied, w' := Rekey(p, w, r, out, q);
    container' := result.container;
    RekeyedReads(p, w, container, q, result.added, w', container');
  }

  /** Nothing refuses such a request. */
  lemma PasswordAccepted(p: Primitives, w: World, container: Bytes, q: Request)
    requires q.entropy.Sized(q.additions) && PasswordOnly(q.additions)
    requires var read := ReadHeader(p.text, container);
             && read.HeaderRead? && p.text.Fixed(read.header.payloadId, 32).Some?
             && var id := p.text.Fixed(read.header.payloadId, 32).value;
                var found := Unwrap(p, w, read.header.recipients, id, q.auth);
             && found.Found?
             && var added := AddedPassword(p, id, found.key, q.additions, DEFAULT_ARGON2, q.entropy);
                var table := Kept(q, read.header.recipients) + [added];
             && |table| <= MAX_RECIPIENTS && DistinctIds(table)
             && |p.text.marshal(read.header.(recipients := table))| <= MAX_HEADER_SIZE
    ensures RekeyResult(p, w, container, q).Rekeyed?
  {
    hide Unwrap, DistinctIds, AddedPassword, ReadHeader, WrappedStanzas, AddedWorld;
    var h := ReadHeader(p.text, container).header;
    var id := p.text.Fixed(h.payloadId, 32).value;
    var k := Unwrap(p, w, h.recipients, id, q.auth).key;
    PasswordAlone(p, id, k, q.additions, DEFAULT_ARGON2, q.entropy);
  }
}
