/**
  The container header: its fields, its text encodings, and the checks readHeader makes.  JSON and
  base64 are a pair of functions each, decoding inverting encoding.
 */
module Envelope {
  import opened Wrappers
  import opened Bytes
  import opened Io
  import opened Records

  const MAGIC: Bytes := [0x43, 0x59, 0x53, 0x56, 0x32, 0, 0, 0]
  const VERSION: int := 2
  const MAX_HEADER_SIZE: nat := 0x10_0000
  const MAX_RECIPIENTS: nat := 64
  const MAX_METADATA_SIZE: nat := 0x10_0000
  const MAX_PUBLIC_HINT: nat := 256

  const PASSWORD: string := "password"
  const RAW_KEY: string := "raw-key"
  const X25519: string := "x25519"

  datatype Metadata = Metadata(originalName: string, sourceType: string, protectedAt: string, description: string,
                               tags: seq<string>, credentialHint: string, credentialFingerprint: string)

  datatype Argon2Params = Argon2Params(time: nat, memoryKiB: nat, parallelism: nat)

  datatype Stanza = Stanza(typ: string, id: string, salt: string, argon2: Option<Argon2Params>, nonce: string,
                           wrapped: string)

  datatype Header = Header(version: int, payloadId: string, cipher: string, codec: string, recordSize: nat,
                           noncePrefix: string, metadataNonce: string, metadata: string,
                           recipients: seq<Stanza>, publicHint: string)

  /** The header fields that are authenticated as associated data. */
  datatype Immutable = Immutable(version: int, payloadId: string, cipher: string, codec: string, recordSize: nat,
                                 noncePrefix: string)

  function Frozen(h: Header): Immutable {
    Immutable(h.version, h.payloadId, h.cipher, h.codec, h.recordSize, h.noncePrefix)
  }

  datatype Text = Text(
    b64: Bytes -> string, unb64: string -> Option<Bytes>,
    marshal: Header -> Bytes, unmarshal: Bytes -> Option<Header>,
    marshalFrozen: Immutable -> Bytes,
    marshalMeta: Metadata -> Bytes, unmarshalMeta: Bytes -> Option<Metadata>)
  {
    ghost predicate Lawful() {
      && (forall b :: unb64(b64(b)) == Some(b))
      && (forall h :: unmarshal(marshal(h)) == Some(h) && marshal(h) != [])
      && (forall m :: unmarshalMeta(marshalMeta(m)) == Some(m))
      && (forall f, g :: marshalFrozen(f) == marshalFrozen(g) ==> f == g)
    }

    /** decodeFixed */
    function Fixed(s: string, n: nat): (r: Option<Bytes>)
      ensures r.Some? ==> |r.value| == n && unb64(s) == r
    {
      var b := unb64(s);
      if b.Some? && |b.value| == n then b else None
    }

    function HeaderBytes(h: Header): Bytes {
      MAGIC + Be32(|marshal(h)|) + marshal(h)
    }
  }

  /** NewCipherSuite: the nonce size of a registered cipher. */
  function NonceSize(cipher: string): Option<nat> {
    if cipher == "aes-256-gcm" then Some(12)
    else if cipher == "xchacha20poly1305" then Some(24)
    else None
  }

  predicate KnownCodec(codec: string) {
    codec in {"gzip", "zstd", "lz4", "bzip2", "lzma"}
  }

  /** What the recipient loop of readHeader accepts. */
  predicate TableAccepted(rs: seq<Stanza>) {
    && (forall i :: 0 <= i < |rs| ==> rs[i].typ in {PASSWORD, RAW_KEY, X25519})
    && (forall i, j :: 0 <= i < j < |rs| ==> !(rs[i].typ == PASSWORD && rs[j].typ == PASSWORD))
    && (forall i :: 0 <= i < |rs| && rs[i].typ == X25519 ==> rs[i].id != "")
    && (forall i, j :: 0 <= i < j < |rs| && rs[i].typ == X25519 && rs[j].typ == X25519 ==> rs[i].id != rs[j].id)
  }

  predicate HasPassword(rs: seq<Stanza>) {
    exists s :: s in rs && s.typ == PASSWORD
  }

  function KeyIds(rs: seq<Stanza>): set<string> {
    set s | s in rs && s.typ == X25519 :: s.id
  }

  /** A table is accepted stanza by stanza. */
  lemma TableSnoc(rs: seq<Stanza>, s: Stanza)
    ensures TableAccepted(rs + [s]) <==>
            && TableAccepted(rs)
            && s.typ in {PASSWORD, RAW_KEY, X25519}
            && (s.typ == PASSWORD ==> !HasPassword(rs))
            && (s.typ == X25519 ==> s.id != "" && s.id !in KeyIds(rs))
  {
    var all := rs + [s];
    var n := |rs|;
    if TableAccepted(all) {
      forall i | 0 <= i < n ensures all[i] == rs[i] {}
      assert all[n] == s;
    }
  }

  lemma {:induction false} TablePrefix(rs: seq<Stanza>, i: nat)
    requires i <= |rs| && TableAccepted(rs)
    ensures TableAccepted(rs[..i])
  {
  }

  method CheckRecipients(rs: seq<Stanza>) returns (ok: bool)
    ensures ok <==> TableAccepted(rs)
  {
    hide TableAccepted;
    TableEmpty();
    var passwords := 0;
    var ids: set<string> := {};
    for i := 0 to |rs|
      invariant TableAccepted(rs[..i])
      invariant passwords == if HasPassword(rs[..i]) then 1 else 0
      invariant ids == KeyIds(rs[..i])
    {
      var s := rs[i];
      assert rs[..i + 1] == rs[..i] + [s];
      TableSnoc(rs[..i], s);
      if TableAccepted(rs) {
        TablePrefix(rs, i + 1);
      }
      if s.typ == PASSWORD {
        passwords := passwords + 1;
        if passwords > 1 { return false; }
        assert s in rs[..i + 1];
      } else if s.typ == RAW_KEY {
      } else if s.typ == X25519 {
        if s.id == "" || s.id in ids { return false; }
        ids := ids + {s.id};
      } else {
        return false;
      }
    }
    assert rs[..|rs|] == rs;
    return true;
  }

  lemma TableEmpty()
    ensures TableAccepted([])
  {
  }

  /** Everything readHeader checks about a decoded header. */
  predicate HeaderAccepted(t: Text, h: Header) {
    && h.version == VERSION
    && 1 <= h.recordSize <= MAX_RECORD_SIZE
    && 1 <= |h.recipients| <= MAX_RECIPIENTS
    && TableAccepted(h.recipients)
    && KnownCodec(h.codec)
    && NonceSize(h.cipher).Some?
    && t.Fixed(h.payloadId, 32).Some?
  }

  datatype HeaderRead = HeaderRead(header: Header, rest: Bytes) | HeaderError

  /** readHeader on the bytes of a stream: magic, length, canonical JSON, checks. */
  function ReadHeader(t: Text, stream: Bytes): HeaderRead {
    if |stream| < 12 || stream[..8] != MAGIC then HeaderError
    else
      var n := Uint(stream[8..12]);
      if n == 0 || n > MAX_HEADER_SIZE || |stream| < 12 + n then HeaderError
      else
        var data := stream[12..12 + n];
        var h := t.unmarshal(data);
        if h.Some? && t.marshal(h.value) == data && HeaderAccepted(t, h.value) then
          HeaderRead(h.value, stream[12 + n..])
        else HeaderError
  }

  /** The method form, over a reader that may fault. */
  method ReadHeaderFrom(t: Text, r: Reader) returns (fault: bool, read: HeaderRead)
    modifies r
    ensures old(r.Healthy()) ==> r.Healthy() && !fault
    ensures !fault ==> read == ReadHeader(t, old(r.rest))
    ensures !fault && read.HeaderRead? ==> r.rest == read.rest
  {
    hide Uint;
    ghost var stream := r.rest;
    var magic, status := r.ReadFull(8);
    if status != Ok { return status == Fault, HeaderError; }
    assert stream[..8] == magic;
    if magic != MAGIC { return false, HeaderError; }
    var length;
    length, status := r.ReadFull(4);
    if status != Ok { return status == Fault, HeaderError; }
    assert stream[8..12] == length && stream[12..] == r.rest;
    var n := Uint(length);
    if n == 0 || n > MAX_HEADER_SIZE { return false, HeaderError; }
    var data;
    data, status := r.ReadFull(n);
    if status != Ok { return status == Fault, HeaderError; }
    assert stream[12..12 + n] == data && stream[12 + n..] == r.rest;
    var h := t.unmarshal(data);
    if h.None? || t.marshal(h.value) != data { return false, HeaderError; }
    var table := CheckRecipients(h.value.recipients);
    if !table || !HeaderAccepted(t, h.value) { return false, HeaderError; }
    return false, HeaderRead(h.value, r.rest);
  }

  /** An accepted header of bounded size is read back from the bytes written for it. */
  lemma HeaderRoundTrip(t: Text, h: Header, rest: Bytes)
    requires t.Lawful() && HeaderAccepted(t, h) && |t.marshal(h)| <= MAX_HEADER_SIZE
    ensures ReadHeader(t, t.HeaderBytes(h) + rest) == HeaderRead(h, rest)
  {
    hide HeaderAccepted, Uint, Be32;
    var data := t.marshal(h);
    var stream := t.HeaderBytes(h) + rest;
    UintBe32(|data|);
    assert stream[..8] == MAGIC;
    assert stream[8..12] == Be32(|data|);
    assert stream[12..12 + |data|] == data;
    assert stream[12 + |data|..] == rest;
  }

  /** The stream behind an accepted header is its canonical bytes and what follows them. */
  lemma HeaderCanonical(t: Text, stream: Bytes)
    requires ReadHeader(t, stream).HeaderRead?
    ensures var r := ReadHeader(t, stream);
            && stream == t.HeaderBytes(r.header) + r.rest
            && |t.marshal(r.header)| <= MAX_HEADER_SIZE && HeaderAccepted(t, r.header)
  {
    hide HeaderAccepted, Uint, Be32;
    Be32Uint(stream[8..12]);
  }

  /** What no stream gets past readHeader: every header read keeps these bounds. */
  lemma HeaderChecks(t: Text, stream: Bytes)
    requires ReadHeader(t, stream).HeaderRead?
    ensures var h := ReadHeader(t, stream).header;
            && h.version == 2
            && 1 <= h.recordSize <= 16 * 1024 * 1024
            && 1 <= |h.recipients| <= 64
            && |t.marshal(h)| <= 1024 * 1024
            && h.codec in {"gzip", "zstd", "lz4", "bzip2", "lzma"}
            && h.cipher in {"aes-256-gcm", "xchacha20poly1305"}
            && t.unb64(h.payloadId).Some? && |t.unb64(h.payloadId).value| == 32
            && (forall i :: 0 <= i < |h.recipients| ==> h.recipients[i].typ in {"password", "raw-key", "x25519"})
            && (forall i, j :: 0 <= i < j < |h.recipients| ==>
                  !(h.recipients[i].typ == "password" && h.recipients[j].typ == "password"))
            && (forall i :: 0 <= i < |h.recipients| && h.recipients[i].typ == "x25519" ==> h.recipients[i].id != "")
            && (forall i, j :: 0 <= i < j < |h.recipients| ==>
                  h.recipients[i].typ == "x25519" && h.recipients[j].typ == "x25519" ==>
                    h.recipients[i].id != h.recipients[j].id)
  {
    HeaderCanonical(t, stream);
  }
}
