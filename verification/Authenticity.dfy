/**
  Which streams the decrypt loop accepts under an ideal AEAD: exactly the payload that was
  written, optionally followed by one record header whose body is missing.
 */
module Authenticity {
  import opened Wrappers
  import opened Bytes
  import opened Records
  import opened Decoding

  /** Under this key and record-shaped associated data, the log holds this run's seals and no others. */
  ghost predicate SealedOnly(ch: Channel, log: seq<Sealed>, plain: Bytes)
    requires ch.recordSize > 0
  {
    && (forall e :: e in ch.Entries(plain) ==> e in log)
    && (forall e :: e in log && e.key == ch.key && |e.aad| == |ch.aad| + 9 ==> e in ch.Entries(plain))
  }

  /** The counter does not wrap within the run. */
  predicate CounterFits(ch: Channel, plain: Bytes)
    requires ch.recordSize > 0
  {
    |Chunks(plain, ch.recordSize)| < TWO_TO_64
  }

  /** The records from index k on, ending in the final one. */
  function Remaining(ch: Channel, chunks: seq<Bytes>, k: nat): (r: Bytes)
    requires k <= |chunks|
    decreases |chunks| - k
  {
    if k == |chunks| then ch.Record(2, k, ch.Commitment(chunks))
    else ch.Record(1, k, chunks[k]) + Remaining(ch, chunks, k + 1)
  }

  /** The loop variables after k data records of the run. */
  function StateAt(chunks: seq<Bytes>, k: nat): State
    requires k <= |chunks|
  {
    var done := chunks[..k];
    State(k % TWO_TO_64, |Flatten(done)| % TWO_TO_64, CipherTotal(done) % TWO_TO_64, false, Flatten(done))
  }

  /** `stream` is `body` and then nothing, or a dangling record header. */
  predicate Carries(stream: Bytes, body: Bytes, limit: nat) {
    body <= stream && (stream[|body|..] == [] || Dangling(stream[|body|..], limit))
  }

  lemma {:induction false} PayloadSplits(ch: Channel, chunks: seq<Bytes>, k: nat)
    requires k <= |chunks|
    ensures ch.DataRecords(chunks) + Remaining(ch, chunks, |chunks|)
         == ch.DataRecords(chunks[..k]) + Remaining(ch, chunks, k)
    decreases |chunks| - k
  {
    hide Channel.Record;
    if k == |chunks| {
      assert chunks[..k] == chunks;
    } else {
      PayloadSplits(ch, chunks, k + 1);
      assert chunks[..k + 1][..k] == chunks[..k];
      var d, r, rest := ch.DataRecords(chunks[..k]), ch.Record(1, k, chunks[k]), Remaining(ch, chunks, k + 1);
      assert ch.DataRecords(chunks[..k + 1]) == d + r;
      assert (d + r) + rest == d + (r + rest);
    }
  }

  lemma {:induction false} DataEntriesAt(ch: Channel, chunks: seq<Bytes>)
    ensures |ch.DataEntries(chunks)| == |chunks|
    ensures forall i :: 0 <= i < |chunks| ==> ch.DataEntries(chunks)[i] == ch.Entry(1, i, chunks[i])
  {
    if chunks != [] {
      DataEntriesAt(ch, chunks[..|chunks| - 1]);
    }
  }

  /** Type and plaintext of the k-th record of the run. */
  function SlotType(chunks: seq<Bytes>, k: nat): byte {
    if k < |chunks| then 1 else 2
  }

  function SlotPlain(ch: Channel, chunks: seq<Bytes>, k: nat): Bytes {
    if k < |chunks| then chunks[k] else ch.Commitment(chunks)
  }

  lemma EntriesAt(ch: Channel, plain: Bytes, k: nat)
    requires ch.recordSize > 0 && CounterFits(ch, plain)
    requires k <= |Chunks(plain, ch.recordSize)|
    ensures var chunks := Chunks(plain, ch.recordSize);
            && |ch.Entries(plain)| == |chunks| + 1
            && ch.Entries(plain)[k] == ch.Entry(SlotType(chunks, k), k, SlotPlain(ch, chunks, k))
  {
    hide Be64;
    var chunks := Chunks(plain, ch.recordSize);
    var data := ch.DataEntries(chunks);
    DataEntriesAt(ch, chunks);
    assert |chunks| % TWO_TO_64 == |chunks|;
    assert ch.Entries(plain) == data + [ch.Entry(2, |chunks|, ch.Commitment(chunks))];
    if k < |chunks| {
      assert ch.Entries(plain)[k] == data[k];
      assert k % TWO_TO_64 == k;
    }
  }

  /** Two seal calls of one channel are equal only at the same type, index and plaintext. */
  lemma EntryInjective(ch: Channel, t: byte, i: uint64, p: Bytes, u: byte, j: uint64, q: Bytes)
    requires ch.Entry(t, i, p) == ch.Entry(u, j, q)
    ensures t == u && i == j && p == q
  {
    hide Be64;
    var m := |ch.aad|;
    var a, b := ch.Aad(t, i), ch.Aad(u, j);
    assert a == ch.Entry(t, i, p).aad && b == ch.Entry(u, j, q).aad;
    assert a[m] == t && b[m] == u;
    assert a[m + 1..] == Be64(i) && b[m + 1..] == Be64(j);
    Be64Congruence(i, j);
  }

  /** A ciphertext that opens at index i is the one the run sealed there. */
  lemma OpensOnlyOwn(ch: Channel, log: seq<Sealed>, plain: Bytes, typ: byte, i: uint64, body: Bytes, p: Bytes)
    requires ch.Valid() && SealedOnly(ch, log, plain) && CounterFits(ch, plain)
    requires Open(ch.seal, log, ch.key, ch.Nonce(i), body, ch.Aad(typ, i)) == Some(p)
    ensures var chunks := Chunks(plain, ch.recordSize);
            && body == ch.seal(ch.Entry(typ, i, p))
            && i <= |chunks| && typ == SlotType(chunks, i) && p == SlotPlain(ch, chunks, i)
  {
    var chunks := Chunks(plain, ch.recordSize);
    var e := ch.Entry(typ, i, p);
    assert e in log && |e.aad| == |ch.aad| + 9;
    EntriesAt(ch, plain, 0);
    var j :| 0 <= j < |ch.Entries(plain)| && ch.Entries(plain)[j] == e;
    EntriesAt(ch, plain, j);
    EntryInjective(ch, typ, i, p, SlotType(chunks, j), j, SlotPlain(ch, chunks, j));
  }

  /** The run's own record at index k opens, to what was sealed. */
  lemma OwnOpens(ch: Channel, log: seq<Sealed>, plain: Bytes, k: nat, typ: byte, p: Bytes)
    requires ch.Valid() && SealedOnly(ch, log, plain) && CounterFits(ch, plain)
    requires k <= |Chunks(plain, ch.recordSize)|
    requires typ == SlotType(Chunks(plain, ch.recordSize), k) && p == SlotPlain(ch, Chunks(plain, ch.recordSize), k)
    ensures Open(ch.seal, log, ch.key, ch.Nonce(k), ch.seal(ch.Entry(typ, k, p)), ch.Aad(typ, k)) == Some(p)
  {
    EntriesAt(ch, plain, k);
    var e := ch.Entry(typ, k, p);
    assert e == ch.Entries(plain)[k];
    assert e in log;
    var found := Open(ch.seal, log, ch.key, ch.Nonce(k), ch.seal(e), ch.Aad(typ, k));
    assert found.Some?;
    OpensOnlyOwn(ch, log, plain, typ, k, ch.seal(e), found.value);
  }

  lemma AddMod(a: nat, b: nat)
    ensures (a % TWO_TO_64 + b) % TWO_TO_64 == (a + b) % TWO_TO_64
  {
  }

  /** The loop variables after one more data record. */
  lemma StateAdvances(chunks: seq<Bytes>, k: nat)
    requires k < |chunks|
    ensures var a, b, n := StateAt(chunks, k), StateAt(chunks, k + 1), |chunks[k]|;
            b == State((a.expected + 1) % TWO_TO_64, (a.plain + n) % TWO_TO_64,
                       (a.cipher + n + OVERHEAD) % TWO_TO_64, false, a.out + chunks[k])
  {
    var done := chunks[..k + 1];
    assert done[..k] == chunks[..k] && done[k] == chunks[k];
    assert Flatten(done) == Flatten(chunks[..k]) + chunks[k];
    AddMod(|Flatten(chunks[..k])|, |chunks[k]|);
    AddMod(CipherTotal(chunks[..k]), |chunks[k]| + OVERHEAD);
    AddMod(k, 1);
  }

  lemma StateAtFields(chunks: seq<Bytes>, k: nat)
    requires k <= |chunks| < TWO_TO_64
    ensures StateAt(chunks, k).expected == k && !StateAt(chunks, k).finalized
  {
  }

  /** One written record moves the loop one place forward. */
  lemma StepOwnData(ch: Channel, log: seq<Sealed>, plain: Bytes, k: nat)
    requires ch.Valid() && SealedOnly(ch, log, plain) && CounterFits(ch, plain)
    requires k < |Chunks(plain, ch.recordSize)|
    ensures var chunks := Chunks(plain, ch.recordSize);
            StepRecord(ch, log, 1, k, ch.seal(ch.Entry(1, k, chunks[k])), StateAt(chunks, k))
            == Next(StateAt(chunks, k + 1))
  {
    hide Be64, Uint, Flatten, CipherTotal, Channel.Entries, Channel.Nonce, Channel.Aad, StateAt, SealedOnly;
    var chunks := Chunks(plain, ch.recordSize);
    OwnOpens(ch, log, plain, k, 1, chunks[k]);
    StateAdvances(chunks, k);
    var e := ch.Entry(1, k, chunks[k]);
    assert |ch.seal(e)| == |e.plain| + OVERHEAD;
    StateAtFields(chunks, k);
    assert |chunks[k]| <= ch.recordSize;
  }

  lemma StepOwnFinal(ch: Channel, log: seq<Sealed>, plain: Bytes)
    requires ch.Valid() && SealedOnly(ch, log, plain) && CounterFits(ch, plain)
    ensures var chunks := Chunks(plain, ch.recordSize);
            var st := StateAt(chunks, |chunks|);
            StepRecord(ch, log, 2, |chunks|, ch.seal(ch.Entry(2, |chunks|, ch.Commitment(chunks))), st)
            == Next(st.(expected := (|chunks| + 1) % TWO_TO_64, finalized := true))
  {
    hide Be64, Uint, Flatten, Channel.Entries, Channel.Nonce, Channel.Aad, Channel.Entry;
    var chunks := Chunks(plain, ch.recordSize);
    OwnOpens(ch, log, plain, |chunks|, 2, ch.Commitment(chunks));
    assert chunks[..|chunks|] == chunks;
    CommitmentFields(|chunks|, |plain|, CipherTotal(chunks));
  }

  lemma CommitmentFields(a: nat, b: nat, c: nat)
    ensures var s := Be64(a) + Be64(b) + Be64(c);
            && |s| == 24
            && Uint(s[..8]) == a % TWO_TO_64
            && Uint(s[8..16]) == b % TWO_TO_64
            && Uint(s[16..]) == c % TWO_TO_64
  {
    var s := Be64(a) + Be64(b) + Be64(c);
    UintBe64(a);
    UintBe64(b);
    UintBe64(c);
    assert s[..8] == Be64(a) && s[8..16] == Be64(b) && s[16..] == Be64(c);
  }

  /** After the final record only an empty or dangling tail is accepted. */
  lemma RunFinalized(ch: Channel, log: seq<Sealed>, stream: Bytes, st: State)
    requires st.finalized
    ensures var o := Run(ch, log, stream, st);
            o.out == st.out && (o.verdict.Accepted? <==> stream == [] || Dangling(stream, Limit(ch.recordSize)))
  {
    hide Uint;
  }

  /** The records of a run are within the reader's bound, so each is parsed as it was written. */
  lemma ParseOwn(ch: Channel, plain: Bytes, k: nat, rest: Bytes)
    requires ch.Valid() && CounterFits(ch, plain)
    requires k <= |Chunks(plain, ch.recordSize)|
    ensures var chunks := Chunks(plain, ch.recordSize);
            var typ := SlotType(chunks, k);
            var body := ch.seal(ch.Entry(typ, k, SlotPlain(ch, chunks, k)));
            && ch.Record(typ, k, SlotPlain(ch, chunks, k)) == Frame(typ, k, body)
            && ParseRecord(Frame(typ, k, body) + rest, Limit(ch.recordSize)) == Parsed(typ, k, body, rest)
  {
    hide Be64, Frame, Flatten;
    var chunks := Chunks(plain, ch.recordSize);
    var e := ch.Entry(SlotType(chunks, k), k, SlotPlain(ch, chunks, k));
    assert |ch.seal(e)| == |e.plain| + OVERHEAD;
    ParseFrame(SlotType(chunks, k), k, ch.seal(e), rest, Limit(ch.recordSize));
  }

  /** Remaining starts with record k; Suffix is what follows it. */
  function Following(ch: Channel, chunks: seq<Bytes>, k: nat): Bytes
    requires k <= |chunks|
  {
    if k == |chunks| then [] else Remaining(ch, chunks, k + 1)
  }

  /** A stream that carries the rest of the run begins with record k, parsed as written. */
  lemma CarriesParses(ch: Channel, plain: Bytes, stream: Bytes, k: nat)
    requires ch.Valid() && CounterFits(ch, plain)
    requires k <= |Chunks(plain, ch.recordSize)|
    requires Carries(stream, Remaining(ch, Chunks(plain, ch.recordSize), k), Limit(ch.recordSize))
    ensures var chunks := Chunks(plain, ch.recordSize);
            var typ := SlotType(chunks, k);
            var body := ch.seal(ch.Entry(typ, k, SlotPlain(ch, chunks, k)));
            var p := ParseRecord(stream, Limit(ch.recordSize));
            && p.Parsed? && p.typ == typ && p.index == k && p.body == body
            && Carries(p.rest, Following(ch, chunks, k), Limit(ch.recordSize))
  {
    hide Frame, ParseRecord, Channel.Entry, Channel.Commitment, Dangling;
    var chunks := Chunks(plain, ch.recordSize);
    var rem, next := Remaining(ch, chunks, k), Following(ch, chunks, k);
    var r := ch.Record(SlotType(chunks, k), k, SlotPlain(ch, chunks, k));
    assert rem == r + next;
    var rest := stream[|r|..];
    assert stream == r + rest;
    assert next <= rest && rest[|next|..] == stream[|rem|..];
    ParseOwn(ch, plain, k, rest);
  }

  /** Whatever is read whole and stepped over at place k is record k of the run. */
  lemma StepIsOwn(ch: Channel, log: seq<Sealed>, plain: Bytes, k: nat, stream: Bytes)
    requires ch.Valid() && SealedOnly(ch, log, plain) && CounterFits(ch, plain)
    requires k <= |Chunks(plain, ch.recordSize)|
    requires var p := ParseRecord(stream, Limit(ch.recordSize));
             p.Parsed? && StepRecord(ch, log, p.typ, p.index, p.body, StateAt(Chunks(plain, ch.recordSize), k)).Next?
    ensures var chunks := Chunks(plain, ch.recordSize);
            var p := ParseRecord(stream, Limit(ch.recordSize));
            && p.typ == SlotType(chunks, k) && p.index == k
            && p.body == ch.seal(ch.Entry(p.typ, k, SlotPlain(ch, chunks, k)))
            && stream == ch.Record(p.typ, k, SlotPlain(ch, chunks, k)) + p.rest
  {
    hide Frame, ParseRecord, Be64, Uint, Flatten, Channel.Entries, Channel.Entry, Channel.Commitment;
    var chunks := Chunks(plain, ch.recordSize);
    var p := ParseRecord(stream, Limit(ch.recordSize));
    var found := Open(ch.seal, log, ch.key, ch.Nonce(k), p.body, ch.Aad(p.typ, k));
    OpensOnlyOwn(ch, log, plain, p.typ, k, p.body, found.value);
  }

  /**
    From any place in the run the loop accepts a stream exactly when it carries the remaining
    records; it has then written the whole plaintext, and otherwise a prefix of it.
   */
  lemma {:induction false} RunFrom(ch: Channel, log: seq<Sealed>, plain: Bytes, stream: Bytes, k: nat)
    requires ch.Valid() && SealedOnly(ch, log, plain) && CounterFits(ch, plain)
    requires k <= |Chunks(plain, ch.recordSize)|
    ensures var chunks := Chunks(plain, ch.recordSize);
            var o := Run(ch, log, stream, StateAt(chunks, k));
            && (o.verdict.Accepted? <==> Carries(stream, Remaining(ch, chunks, k), Limit(ch.recordSize)))
            && o.out <= plain
            && (o.verdict.Accepted? ==> o.out == plain)
    decreases |stream|
  {
    hide Frame, ParseRecord, StepRecord, Be64, Uint, Channel.Entries, Channel.Entry, Channel.Commitment, SealedOnly,
         Dangling, Remaining;
    var chunks := Chunks(plain, ch.recordSize);
    var limit := Limit(ch.recordSize);
    var st := StateAt(chunks, k);
    FlattenPrefix(chunks, k);
    if Carries(stream, Remaining(ch, chunks, k), limit) {
      CarriesParses(ch, plain, stream, k);
    }
    var p := ParseRecord(stream, limit);
    if p.Parsed? {
      if k < |chunks| {
        StepOwnData(ch, log, plain, k);
      } else {
        StepOwnFinal(ch, log, plain);
        assert chunks[..k] == chunks;
      }
      var step := StepRecord(ch, log, p.typ, p.index, p.body, st);
      if step.Next? {
        StepIsOwn(ch, log, plain, k, stream);
        RemainingStep(ch, chunks, k, stream, p.rest, limit);
        if k < |chunks| {
          RunFrom(ch, log, plain, p.rest, k + 1);
        } else {
          assert p.rest[|Following(ch, chunks, k)|..] == p.rest;
          RunFinalized(ch, log, p.rest, step.state);
        }
      }
    }
  }

  lemma RemainingStep(ch: Channel, chunks: seq<Bytes>, k: nat, stream: Bytes, rest: Bytes, limit: nat)
    requires k <= |chunks|
    requires stream == ch.Record(SlotType(chunks, k), k, SlotPlain(ch, chunks, k)) + rest
    ensures Carries(stream, Remaining(ch, chunks, k), limit) <==> Carries(rest, Following(ch, chunks, k), limit)
  {
    hide Channel.Record, Dangling;
    var r, next := ch.Record(SlotType(chunks, k), k, SlotPlain(ch, chunks, k)), Following(ch, chunks, k);
    assert Remaining(ch, chunks, k) == r + next;
    assert r + next <= r + rest <==> next <= rest by {
      assert (r + rest)[|r|..] == rest && (r + next)[|r|..] == next;
    }
    if next <= rest {
      assert (r + rest)[|r + next|..] == rest[|next|..];
    }
  }

  /**
    Whole-stream authenticity and the round trip in one: the stream accepted is the payload that
    was written, byte for byte, plus at most a dangling record header; accepting delivers the
    plaintext, and any other stream delivers no more than a prefix of it.
   */
  lemma AcceptsExactlyThePayload(ch: Channel, log: seq<Sealed>, plain: Bytes, stream: Bytes)
    requires ch.Valid() && SealedOnly(ch, log, plain) && CounterFits(ch, plain)
    ensures var o := Run(ch, log, stream, START);
            && (o.verdict.Accepted? <==> Carries(stream, ch.Payload(plain), Limit(ch.recordSize)))
            && o.out <= plain
            && (o.verdict.Accepted? ==> o.out == plain)
  {
    hide Channel.Record, Be64;
    var chunks := Chunks(plain, ch.recordSize);
    PayloadSplits(ch, chunks, 0);
    assert chunks[..0] == [];
    assert ch.Payload(plain) == Remaining(ch, chunks, 0);
    RunFrom(ch, log, plain, stream, 0);
  }

  /** Decrypting what was encrypted, with nothing else sealed under the key, gives the plaintext back. */
  lemma PayloadRoundTrip(ch: Channel, plain: Bytes)
    requires ch.Valid() && CounterFits(ch, plain)
    ensures SealedOnly(ch, ch.Entries(plain), plain)
    ensures Run(ch, ch.Entries(plain), ch.Payload(plain), START) == Outcome(Accepted, plain)
  {
    hide Channel.Entries, Channel.Payload, Run;
    AcceptsExactlyThePayload(ch, ch.Entries(plain), plain, ch.Payload(plain));
    assert Carries(ch.Payload(plain), ch.Payload(plain), Limit(ch.recordSize));
  }

  /** Wherever the payload is cut short, decryption notices, having delivered a prefix of the plaintext. */
  lemma EveryCutIsNoticed(ch: Channel, log: seq<Sealed>, plain: Bytes, n: nat)
    requires ch.Valid() && SealedOnly(ch, log, plain) && CounterFits(ch, plain) && n < |ch.Payload(plain)|
    ensures var o := Run(ch, log, ch.Payload(plain)[..n], START);
            !o.verdict.Accepted? && o.out <= plain
  {
    hide Channel.Payload, Run, SealedOnly, CounterFits;
    AcceptsExactlyThePayload(ch, log, plain, ch.Payload(plain)[..n]);
  }

  /** A nonce repeats exactly 2^64 records later; below that every record has its own. */
  lemma NonceRepeats(ch: Channel, i: nat, j: nat)
    ensures ch.Nonce(i) == ch.Nonce(j) <==> i % TWO_TO_64 == j % TWO_TO_64
  {
    var n := |ch.prefix|;
    assert ch.Nonce(i)[n..] == Be64(i) && ch.Nonce(j)[n..] == Be64(j);
    Be64Congruence(i, j);
  }
}
