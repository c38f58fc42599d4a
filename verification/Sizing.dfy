/** How long an encrypted payload is, and why the reader's length bound never rejects it. */
module Sizing {
  import opened Bytes
  import opened Records
  import opened Decoding

  /** n/d rounded up: the least number of d-sized boxes that hold n. */
  function CeilDiv(n: nat, d: nat): (q: nat)
    requires d > 0
    ensures Times(q, d) >= n
    ensures q > 0 ==> Times(q - 1, d) < n
  {
    if n == 0 then 0 else if n <= d then 1 else 1 + CeilDiv(n - d, d)
  }

  /** q * d, by repeated addition. */
  function Times(q: nat, d: nat): nat {
    if q == 0 then 0 else Times(q - 1, d) + d
  }

  lemma {:induction false} TimesIsProduct(q: nat, d: nat)
    ensures Times(q, d) == q * d
  {
    if q > 0 {
      TimesIsProduct(q - 1, d);
      assert q * d == (q - 1) * d + d;
    }
  }

  /** The stream is cut into ceil(n/R) records. */
  lemma {:induction false} ChunkCount(plain: Bytes, size: nat)
    requires size > 0
    ensures |Chunks(plain, size)| == CeilDiv(|plain|, size)
  {
    if |plain| > size {
      ChunkCount(plain[size..], size);
    }
  }

  lemma RecordSize(ch: Channel, typ: byte, index: nat, plain: Bytes)
    requires Lawful(ch.seal)
    ensures |ch.Record(typ, index, plain)| == HEADER + |plain| + OVERHEAD
  {
    var e := ch.Entry(typ, index, plain);
    assert |ch.seal(e)| == |e.plain| + OVERHEAD;
  }

  lemma {:induction false} DataSize(ch: Channel, chunks: seq<Bytes>)
    requires Lawful(ch.seal)
    ensures |ch.DataRecords(chunks)| == |Flatten(chunks)| + (HEADER + OVERHEAD) * |chunks|
  {
    hide Channel.Record;
    if chunks != [] {
      var k := |chunks| - 1;
      DataSize(ch, chunks[..k]);
      RecordSize(ch, 1, k, chunks[k]);
    }
  }

  /** n plaintext bytes become n + 29 ceil(n/R) + 53 payload bytes. */
  lemma PayloadSize(ch: Channel, plain: Bytes)
    requires ch.Valid()
    ensures |ch.Payload(plain)| == |plain| + 29 * CeilDiv(|plain|, ch.recordSize) + 53
  {
    hide Channel.Record;
    var chunks := Chunks(plain, ch.recordSize);
    ChunkCount(plain, ch.recordSize);
    DataSize(ch, chunks);
    RecordSize(ch, 2, |chunks|, ch.Commitment(chunks));
  }

  /**
    Every sealed body, including the 40-byte final one at record size 1, is within readRecord's
    bound; the bound and the length field stay below 2^32.
   */
  lemma BodiesFit(ch: Channel, plain: Bytes, e: Sealed)
    requires ch.Valid() && e in ch.Entries(plain)
    ensures |ch.seal(e)| <= Limit(ch.recordSize) < TWO_TO_32
    ensures |ch.seal(e)| > ch.recordSize + OVERHEAD ==>
              e.plain == ch.Commitment(Chunks(plain, ch.recordSize)) && ch.recordSize < 24
  {
    var chunks := Chunks(plain, ch.recordSize);
    DataEntryPlain(ch, chunks);
    assert |ch.seal(e)| == |e.plain| + OVERHEAD;
  }

  lemma {:induction false} DataEntryPlain(ch: Channel, chunks: seq<Bytes>)
    ensures forall e :: e in ch.DataEntries(chunks) ==> e.plain in chunks
  {
    hide Channel.Nonce, Channel.Aad;
    if chunks != [] {
      DataEntryPlain(ch, chunks[..|chunks| - 1]);
    }
  }

  /** The last record sealed states how many records there are, and how long the plaintext and the ciphertexts are. */
  lemma FinalRecord(ch: Channel, plain: Bytes)
    requires ch.Valid()
    ensures var n, entries := CeilDiv(|plain|, ch.recordSize), ch.Entries(plain);
            && |entries| == n + 1
            && entries[n].key == ch.key && entries[n].nonce == ch.Nonce(n) && entries[n].aad == ch.Aad(2, n)
            && entries[n].plain == Be64(n) + Be64(|plain|) + Be64(|plain| + 16 * n)
  {
    hide Be64, Channel.Nonce, Channel.Aad, CeilDiv;
    var chunks := Chunks(plain, ch.recordSize);
    ChunkCount(plain, ch.recordSize);
    EntryCount(ch, chunks);
    assert ch.Entries(plain)[|chunks|] == ch.Entry(2, |chunks|, ch.Commitment(chunks));
  }

  lemma {:induction false} EntryCount(ch: Channel, chunks: seq<Bytes>)
    ensures |ch.DataEntries(chunks)| == |chunks|
  {
    hide Channel.Entry;
    if chunks != [] {
      EntryCount(ch, chunks[..|chunks| - 1]);
    }
  }
}
