/** Encrypt, Decrypt and Rekey of whole containers, and what a chain of them preserves. */
module Container {
  import opened Wrappers
  import opened Bytes
  import opened Records
  import opened Decoding
  import opened Authenticity
  import opened Envelope
  import opened Recipients
  import opened Wrapping

  const PAYLOAD_INFO: string := "cypherstorm/v2/payload"
  const METADATA_INFO: string := "cypherstorm/v2/metadata"
  const DEFAULT_RECORD_SIZE: nat := 0x1_0000
  const DEFAULT_ARGON2: Argon2Params := Argon2Params(3, 64 * 1024, 4)

  /** What one Encrypt call fixed: its keys, its authenticated header fields, its input. */
  datatype Origin = Origin(id: Bytes, contentKey: Bytes, prefix: Bytes, metaNonce: Bytes, frozen: Immutable,
                           metadata: Metadata, plain: Bytes)

  function ChannelOf(p: Primitives, id: Bytes, k: Bytes, prefix: Bytes, frozen: Immutable): Channel {
    Channel(p.seal, Derived(k, id, PAYLOAD_INFO), prefix, p.text.marshalFrozen(frozen), frozen.recordSize)
  }

  function OriginChannel(p: Primitives, g: Origin): Channel {
    ChannelOf(p, g.id, g.contentKey, g.prefix, g.frozen)
  }

  function MetadataEntry(p: Primitives, g: Origin): Sealed {
    Sealed(Derived(g.contentKey, g.id, METADATA_INFO), g.metaNonce, p.text.marshalFrozen(g.frozen),
           p.text.marshalMeta(g.metadata))
  }

  /** The world holds the origin's seals, and nothing else under its keys or its payload id. */
  ghost predicate Recorded(p: Primitives, w: World, g: Origin) {
    var ch := OriginChannel(p, g);
    && 1 <= g.frozen.recordSize <= MAX_RECORD_SIZE
    && Honest(w, g.id, g.contentKey)
    && (forall e :: e in ch.Entries(g.plain) ==> e in w.seals)
    && (forall e :: e in w.seals && e.key == ch.key ==> e in ch.Entries(g.plain))
    && MetadataEntry(p, g) in w.seals
    && (forall e :: e in w.seals && e.key == MetadataEntry(p, g).key ==> e == MetadataEntry(p, g))
    && |p.text.marshalMeta(g.metadata)| <= MAX_METADATA_SIZE
  }

  /** The header's authenticated and metadata fields are the origin's. */
  ghost predicate HeaderOf(p: Primitives, g: Origin, h: Header) {
    && Frozen(h) == g.frozen
    && p.text.Fixed(h.payloadId, 32) == Some(g.id)
    && NonceSize(h.cipher).Some?
    && p.text.Fixed(h.noncePrefix, NonceSize(h.cipher).value - 8) == Some(g.prefix)
    && p.text.Fixed(h.metadataNonce, 24) == Some(g.metaNonce)
    && p.text.unb64(h.metadata) == Some(p.seal(MetadataEntry(p, g)))
  }

  /** A container of this origin: its header fields, genuine stanzas, and its payload byte for byte. */
  ghost predicate Sound(p: Primitives, w: World, g: Origin, container: Bytes) {
    && Recorded(p, w, g)
    && ReadHeader(p.text, container).HeaderRead?
    && var read := ReadHeader(p.text, container);
       && HeaderOf(p, g, read.header)
       && (forall s :: s in read.header.recipients ==> Genuine(p, w, g.id, g.contentKey, s))
       && read.rest == OriginChannel(p, g).Payload(g.plain)
  }

  datatype Decrypted = Decrypted(codec: string, metadata: Metadata, out: Bytes) | Rejected(out: Bytes)

  function OpenMetadata(p: Primitives, w: World, h: Header, id: Bytes, k: Bytes): Option<Metadata> {
    var nonce, encrypted := p.text.Fixed(h.metadataNonce, 24), p.text.unb64(h.metadata);
    if nonce.None? || encrypted.None? || |encrypted.value| > MAX_METADATA_SIZE + OVERHEAD then None
    else
      var plain := Open(p.seal, w.seals, Derived(k, id, METADATA_INFO), nonce.value, encrypted.value,
                        p.text.marshalFrozen(Frozen(h)));
      if plain.None? then None else p.text.unmarshalMeta(plain.value)
  }

  /** Decrypt on a stream that never faults, writing to a sink that never fails. */
  function Decrypt(p: Primitives, w: World, container: Bytes, o: Credentials): Decrypted {
    var read := ReadHeader(p.text, container);
    if read.HeaderError? then Rejected([])
    else
      var h := read.header;
      var id := p.text.Fixed(h.payloadId, 32).value;
      var key := Unwrap(p, w, h.recipients, id, o);
      if !key.Found? then Rejected([])
      else
        var prefix := p.text.Fixed(h.noncePrefix, NonceSize(h.cipher).value - 8);
        if prefix.None? then Rejected([])
        else
          var run := Run(ChannelOf(p, id, key.key, prefix.value, Frozen(h)), w.seals, read.rest, START);
          var metadata := OpenMetadata(p, w, h, id, key.key);
          if run.verdict.Accepted? && metadata.Some? then Decrypted(h.codec, metadata.value, run.out)
          else Rejected(run.out)
  }

  lemma RecordedSealedOnly(p: Primitives, w: World, g: Origin)
    requires Recorded(p, w, g)
    ensures SealedOnly(OriginChannel(p, g), w.seals, g.plain)
  {
    hide Channel.Entries;
  }

  lemma RecordedHonest(p: Primitives, w: World, g: Origin)
    requires Recorded(p, w, g)
    ensures Honest(w, g.id, g.contentKey)
  {
  }

  /** The metadata of an origin opens to what was given. */
  lemma MetadataOpens(p: Primitives, w: World, g: Origin, h: Header)
    requires p.Lawful() && Recorded(p, w, g) && HeaderOf(p, g, h)
    ensures OpenMetadata(p, w, h, g.id, g.contentKey) == Some(g.metadata)
  {
    hide Channel.Entries, Honest;
    var e := MetadataEntry(p, g);
    assert |p.seal(e)| == |e.plain| + OVERHEAD;
  }

  /** Decrypting for the holder of any stanza, wherever it sits, returns codec, metadata and plaintext. */
  lemma SoundDecrypts(p: Primitives, w: World, g: Origin, container: Bytes, o: Credentials, opener: Opener)
    requires p.Lawful() && Sound(p, w, g, container) && CounterFits(OriginChannel(p, g), g.plain)
    requires Serves(p, w, g.id, g.contentKey, ReadHeader(p.text, container).header.recipients, opener)
             && Holds(o, opener)
    ensures Decrypt(p, w, container, o) == Decrypted(g.frozen.codec, g.metadata, g.plain)
  {
    hide Recorded, HeaderOf, WrappedFor, ReadHeader, Run, OpenMetadata, SealedOnly, Honest, Holds, Unwrap,
         Channel.Payload, Channel.Valid;
    var read := ReadHeader(p.text, container);
    var ch := OriginChannel(p, g);
    var i :|
        0 <= i < |read.header.recipients| && WrappedFor(p, w, g.id, g.contentKey, read.header.recipients[i], opener);
    RecordedFacts(p, w, g, read.header);
    AnyHolderUnwraps(p, w, g.id, g.contentKey, read.header.recipients, o, i, opener);
    RecordedSealedOnly(p, w, g);
    AcceptsExactlyThePayload(ch, w.seals, g.plain, read.rest);
    assert Carries(read.rest, ch.Payload(g.plain), Limit(ch.recordSize));
    MetadataOpens(p, w, g, read.header);
  }

  lemma RecordedFacts(p: Primitives, w: World, g: Origin, h: Header)
    requires p.Lawful() && Recorded(p, w, g) && HeaderOf(p, g, h)
    ensures Honest(w, g.id, g.contentKey) && OriginChannel(p, g).Valid() && OriginChannel(p, g).recordSize > 0
    ensures Frozen(h) == g.frozen && h.codec == g.frozen.codec && p.text.Fixed(h.payloadId, 32) == Some(g.id)
    ensures NonceSize(h.cipher).Some? && p.text.Fixed(h.noncePrefix, NonceSize(h.cipher).value - 8) == Some(g.prefix)
  {
    hide Channel.Entries, Honest;
  }

  /** Nothing opens under associated data the key was never used with. */
  lemma ForeignDataRejected(ch: Channel, log: seq<Sealed>, stream: Bytes, known: Bytes)
    requires ch.aad != known
    requires forall e :: e in log && e.key == ch.key ==> |e.aad| == |known| + 9 && known <= e.aad
    ensures var o := Run(ch, log, stream, START);
            !o.verdict.Accepted? && o.out == []
  {
    hide Uint, Be64, ParseRecord;
    var p := ParseRecord(stream, Limit(ch.recordSize));
    if p.Parsed? {
      var aad := ch.Aad(p.typ, p.index);
      assert |aad| == |ch.aad| + 9 && ch.aad == aad[..|ch.aad|];
    }
  }

  lemma EntriesAad(ch: Channel, plain: Bytes)
    requires ch.recordSize > 0
    ensures forall e :: e in ch.Entries(plain) ==> |e.aad| == |ch.aad| + 9 && ch.aad <= e.aad
  {
    hide Be64, Channel.Nonce;
    DataAad(ch, Chunks(plain, ch.recordSize));
  }

  lemma {:induction false} DataAad(ch: Channel, chunks: seq<Bytes>)
    ensures forall e :: e in ch.DataEntries(chunks) ==> |e.aad| == |ch.aad| + 9 && ch.aad <= e.aad
  {
    hide Be64, Channel.Nonce;
    if chunks != [] {
      DataAad(ch, chunks[..|chunks| - 1]);
    }
  }

  /**
    Authenticity of whole containers.  Take any byte stream that claims the origin's payload id, if
    its header can be read at all, and any credential: if Decrypt accepts, then header fields,
    metadata and plaintext are the origin's and the payload is its payload byte for byte (a dangling
    record header aside); if Decrypt rejects, it has written no more than a prefix of the plaintext.
   */
  lemma OnlyTheOriginDecrypts(p: Primitives, w: World, g: Origin, container: Bytes, o: Credentials)
    requires p.Lawful() && Recorded(p, w, g) && CounterFits(OriginChannel(p, g), g.plain)
    requires exists h :: HeaderOf(p, g, h)
    requires var read := ReadHeader(p.text, container);
             read.HeaderRead? ==> p.text.Fixed(read.header.payloadId, 32) == Some(g.id)
    ensures var d := Decrypt(p, w, container, o);
            var read := ReadHeader(p.text, container);
            && d.out <= g.plain
            && (d.Decrypted? ==>
                  && d == Decrypted(g.frozen.codec, g.metadata, g.plain)
                  && read.HeaderRead? && Frozen(read.header) == g.frozen
                  && read.header.cipher == g.frozen.cipher && read.header.codec == g.frozen.codec
                  && read.header.recordSize == g.frozen.recordSize && read.header.version == g.frozen.version
                  && read.header.payloadId == g.frozen.payloadId && read.header.noncePrefix == g.frozen.noncePrefix
                  && OriginChannel(p, g).recordSize > 0
                  && Carries(read.rest, OriginChannel(p, g).Payload(g.plain), Limit(g.frozen.recordSize)))
  {
    hide Recorded, ReadHeader, Run, SealedOnly, Unwrap, Honest, Channel.Payload, Channel.Valid, Channel.Entries,
         Carries;
    var read := ReadHeader(p.text, container);
    if read.HeaderError? { return; }
    var h := read.header;
    var ch := OriginChannel(p, g);
    RecordedHonest(p, w, g);
    HonestUnwraps(p, w, g.id, g.contentKey, h.recipients, o);
    if !Unwrap(p, w, h.recipients, g.id, o).Found? { return; }
    OriginFacts(p, w, g);
    HeaderCanonical(p.text, container);
    var prefix := p.text.Fixed(h.noncePrefix, NonceSize(h.cipher).value - 8);
    if prefix.Some? {
      var ch' := ChannelOf(p, g.id, g.contentKey, prefix.value, Frozen(h));
      if Frozen(h) == g.frozen {
        assert ch' == ch;
        RecordedSealedOnly(p, w, g);
        AcceptsExactlyThePayload(ch, w.seals, g.plain, read.rest);
        OtherMetadata(p, w, g, h);
      } else {
        assert ch'.aad != ch.aad;
        EntriesAad(ch, g.plain);
        ForeignDataRejected(ch', w.seals, read.rest, ch.aad);
      }
    }
  }

  lemma OriginFacts(p: Primitives, w: World, g: Origin)
    requires p.Lawful() && Recorded(p, w, g) && (exists h :: HeaderOf(p, g, h))
    ensures OriginChannel(p, g).Valid() && OriginChannel(p, g).recordSize > 0
    ensures forall e :: e in w.seals && e.key == OriginChannel(p, g).key ==> e in OriginChannel(p, g).Entries(g.plain)
    ensures forall h :: Frozen(h) == g.frozen ==>
              NonceSize(h.cipher).Some? && p.text.Fixed(h.noncePrefix, NonceSize(h.cipher).value - 8) == Some(g.prefix)
  {
    hide Channel.Entries, Honest;
    var h :| HeaderOf(p, g, h);
    forall h' | Frozen(h') == g.frozen
      ensures NonceSize(h'.cipher).Some? && p.text.Fixed(h'.noncePrefix,
                                                         NonceSize(h'.cipher).value - 8) == Some(g.prefix)
    {
      assert Frozen(h).noncePrefix == Frozen(h').noncePrefix && Frozen(h).cipher == Frozen(h').cipher;
    }
  }

  /** Metadata that opens at all is the origin's, whatever nonce and ciphertext the header carries. */
  lemma OtherMetadata(p: Primitives, w: World, g: Origin, h: Header)
    requires p.Lawful() && Recorded(p, w, g)
    ensures var m := OpenMetadata(p, w, h, g.id, g.contentKey);
            m.Some? ==> m.value == g.metadata
  {
    hide Channel.Entries, Honest;
  }

  /** A sound container decrypts exactly for those who hold an opener its table serves; the others get nothing. */
  lemma SoundDecryptsExactly(p: Primitives, w: World, g: Origin, container: Bytes, o: Credentials)
    requires p.Lawful() && Sound(p, w, g, container) && CounterFits(OriginChannel(p, g), g.plain)
    ensures Decrypt(p, w, container, o).Decrypted? <==>
            exists opener ::
                Serves(p, w, g.id, g.contentKey, ReadHeader(p.text, container).header.recipients, opener)
                  && Holds(o, opener)
    ensures Decrypt(p, w, container, o).Rejected? ==> Decrypt(p, w, container, o).out == []
  {
    hide ReadHeader, WrappedFor, Genuine, Honest, Recorded, HeaderOf, Unwrap, Run, OpenMetadata, Channel.Payload;
    var h := ReadHeader(p.text, container).header;
    RecordedFacts(p, w, g, h);
    if opener :| Serves(p, w, g.id, g.contentKey, h.recipients, opener) && Holds(o, opener) {
      SoundDecrypts(p, w, g, container, o, opener);
    }
    OnlyTheKey(p, w, g.id, g.contentKey, h.recipients, o);
    ServedExactly(p, w, g.id, g.contentKey, h.recipients, o);
    if Unwrap(p, w, h.recipients, g.id, o) == Found(g.contentKey) {
      var opener, i: int :| 0 <= i < |h.recipients| && WrappedFor(p, w, g.id, g.contentKey, h.recipients[i],
                                                                  opener) && Holds(o, opener);
      assert h.recipients[i] in h.recipients;
    }
  }

  // What other calls do to the world

  /** Growth of the world by a call for payload id `id` and content key `k`: wraps, metadata and records. */
  ghost predicate GrowsFor(w: World, w': World, id: Bytes, k: Bytes, entropy: Entropy) {
    && w.seals <= w'.seals && w.boxes <= w'.boxes
    && (forall e :: e in w'.seals ==> || e in w.seals || (WrapKey(e.key) && WrapAad(id, e.aad))
                                      || e.key == Derived(k, id, PAYLOAD_INFO)
                                        || e.key == Derived(k, id, METADATA_INFO))
    && (forall b :: b in w'.boxes ==> b in w.boxes || (b.plain == id + k && b.cipher in entropy.ageCiphers))
  }

  lemma GrowsIsFor(w: World, w': World, id: Bytes, k: Bytes, entropy: Entropy)
    requires Grows(w, w', id, k, entropy)
    ensures GrowsFor(w, w', id, k, entropy)
  {
  }

  /** Seals under the payload or metadata key are such growth. */
  lemma GrowsForMore(w: World, w': World, id: Bytes, k: Bytes, entropy: Entropy, more: seq<Sealed>)
    requires GrowsFor(w, w', id, k, entropy)
    requires forall i :: 0 <= i < |more| ==>
               more[i].key == Derived(k, id, PAYLOAD_INFO) || more[i].key == Derived(k, id, METADATA_INFO)
    ensures GrowsFor(w, w'.(seals := w'.seals + more), id, k, entropy)
  {
    forall e | e in w'.seals + more && e !in w'.seals
      ensures e.key == Derived(k, id, PAYLOAD_INFO) || e.key == Derived(k, id, METADATA_INFO) {
      var i :| 0 <= i < |more| && more[i] == e;
    }
  }

  lemma InfosDiffer()
    ensures PAYLOAD_INFO != METADATA_INFO && PAYLOAD_INFO != RAW_WRAP && METADATA_INFO != RAW_WRAP
  {
    assert PAYLOAD_INFO[15] != METADATA_INFO[15] && PAYLOAD_INFO[15] != RAW_WRAP[15]
      && METADATA_INFO[15] != RAW_WRAP[15];
  }

  lemma WrapAadOther(id: Bytes, other: Bytes, aad: Bytes)
    requires |id| == |other| == 32 && id != other && WrapAad(id, aad)
    ensures !WrapAad(other, aad)
  {
    assert aad[..32] == id;
    assert RecipientAad(other, PASSWORD)[..32] == other && RecipientAad(other, RAW_KEY)[..32] == other;
  }

  /** A call for another payload id leaves an origin recorded. */
  lemma OthersKeepRecorded(p: Primitives, w: World, w': World, g: Origin, id: Bytes, k: Bytes, entropy: Entropy)
    requires Recorded(p, w, g) && GrowsFor(w, w', id, k, entropy) && Fresh(w, entropy)
    requires |id| == 32 && |k| == 32 && id != g.id
    ensures Recorded(p, w', g)
  {
    hide Channel.Entries, RecipientAad;
    InfosDiffer();
    forall e | e in w'.seals && e !in w.seals
      ensures e.key != OriginChannel(p, g).key && e.key != MetadataEntry(p, g).key
              && !(WrapKey(e.key) && WrapAad(g.id, e.aad))
    {
      if WrapKey(e.key) && WrapAad(id, e.aad) {
        WrapAadOther(id, g.id, e.aad);
      }
    }
    forall e | e in w.seals ensures e in w'.seals {
      var i :| 0 <= i < |w.seals| && w.seals[i] == e;
      assert w'.seals[i] == e;
    }
    HonestBeside(w, w', g.id, g.contentKey, id, k, entropy);
  }

  lemma HonestBeside(w: World, w': World, id: Bytes, k: Bytes, other: Bytes, key: Bytes, entropy: Entropy)
    requires Honest(w, id, k) && GrowsFor(w, w', other, key, entropy) && Fresh(w, entropy)
    requires |other| == |key| == 32 && other != id
    requires forall e :: e in w'.seals && e !in w.seals ==> !(WrapKey(e.key) && WrapAad(id, e.aad))
    ensures Honest(w', id, k)
  {
    hide RecipientAad;
    forall b | b in w'.boxes && b !in w.boxes ensures b.plain[..32] == other {
      assert (other + key)[..32] == other;
    }
  }
}
