/** Encrypt's and Decrypt's payload loops over a reader and a writer that may fail at any call. */
module Payload {
  import opened Bytes
  import opened Io
  import opened Records
  import opened Decoding

  /** PutUint64 into a buffer, leaving the rest of it alone. */
  method PutUint64(buf: array<byte>, at: nat, x: uint64)
    requires at + 8 <= buf.Length
    modifies buf
    ensures buf[..] == old(buf[..at]) + Be64(x) + old(buf[at + 8..])
  {
    ghost var before, after := buf[..at], buf[at + 8..];
    var bytes := Be64(x);
    for k := 0 to 8
      invariant buf[..at] == before && buf[at + 8..] == after
      invariant forall j :: 0 <= j < k ==> buf[at + j] == bytes[j]
    {
      buf[at + k] := bytes[k];
    }
    assert buf[at..at + 8] == bytes;
    assert buf[..] == buf[..at] + buf[at..at + 8] + buf[at + 8..];
  }

  /** copy(dst, src) for a destination that is large enough. */
  method CopyPrefix(dst: array<byte>, src: Bytes)
    requires |src| <= dst.Length
    modifies dst
    ensures dst[..] == src + old(dst[|src|..])
  {
    ghost var tail := dst[|src|..];
    for k := 0 to |src|
      invariant dst[|src|..] == tail
      invariant forall j :: 0 <= j < k ==> dst[j] == src[j]
    {
      dst[k] := src[k];
    }
    assert dst[..] == dst[..|src|] + dst[|src|..];
  }

  method RecordNonce(ch: Channel, index: uint64, size: nat) returns (n: array<byte>)
    requires size == |ch.prefix| + 8
    ensures fresh(n) && n[..] == ch.Nonce(index)
  {
    n := new byte[size];
    CopyPrefix(n, ch.prefix);
    PutUint64(n, size - 8, index);
  }

  method RecordAad(ch: Channel, typ: byte, index: uint64) returns (out: array<byte>)
    ensures fresh(out) && out[..] == ch.Aad(typ, index)
  {
    out := new byte[|ch.aad| + 9];
    CopyPrefix(out, ch.aad);
    out[|ch.aad|] := typ;
    PutUint64(out, |ch.aad| + 1, index);
  }

  method WriteRecord(w: Writer, typ: byte, index: uint64, cipher: Bytes) returns (ok: bool)
    modifies w
    ensures w.bounded == old(w.bounded) && (!w.bounded ==> ok)
    ensures ok ==> w.out == old(w.out) + Frame(typ, index, cipher)
    ensures old(w.out) <= w.out <= old(w.out) + Frame(typ, index, cipher)
  {
    hide Be64, Be32;
    var head := [typ] + Be64(index) + Be32(|cipher|);
    assert Frame(typ, index, cipher) == head + cipher;
    ok := w.Write(head);
    if ok {
      ok := w.Write(cipher);
    }
  }

  /** readRecord: the outcome is ParseRecord of what the reader holds, unless the reader faults. */
  method ReadRecord(r: Reader, limit: nat) returns (fault: bool, p: Parsed)
    modifies r
    ensures old(r.Healthy()) ==> r.Healthy() && !fault
    ensures !fault ==> p == ParseRecord(old(r.rest), limit)
    ensures !fault && p.Parsed? ==> r.rest == p.rest
    ensures |r.rest| <= |old(r.rest)|
  {
    ghost var stream := r.rest;
    var head, status := r.ReadFull(HEADER);
    if status != Ok {
      return status == Fault, if status == EOF then End else Bad(Truncated);
    }
    assert stream[..HEADER] == head && stream[HEADER..] == r.rest;
    assert head[9..13] == stream[9..13] && head[1..9] == stream[1..9];
    ParsedHeader(stream);
    var n := Uint(head[9..13]);
    if n > limit {
      return false, Bad(RecordTooLong);
    }
    var body;
    body, status := r.ReadFull(n);
    if status != Ok {
      return status == Fault, if status == EOF then End else Bad(Truncated);
    }
    assert stream[HEADER..HEADER + n] == body && stream[HEADER + n..] == r.rest;
    return false, Parsed(head[0], Uint(head[1..9]), body, r.rest);
  }

  lemma ChunksStep(b: Bytes, rest: Bytes, size: nat)
    requires size > 0 && b != [] && (|b| == size || (|b| < size && rest == []))
    ensures Chunks(b + rest, size) == [b] + Chunks(rest, size)
  {
    if rest == [] {
      assert b + rest == b;
    } else {
      assert (b + rest)[..size] == b && (b + rest)[size..] == rest;
    }
  }

  lemma Be64Wraps(k: nat)
    ensures Be64(k % TWO_TO_64) == Be64(k)
  {
    hide PutUint;
    SumWraps(k, 0);
  }

  /** Counters reduced modulo 2^64 encode as the unreduced ones do. */
  lemma WrapsAlike(ch: Channel, k: nat, plain: Bytes, typ: byte)
    ensures Be64(k % TWO_TO_64) == Be64(k)
    ensures ch.Entry(typ, k % TWO_TO_64, plain) == ch.Entry(typ, k, plain)
    ensures ch.Record(typ, k % TWO_TO_64, plain) == ch.Record(typ, k, plain)
  {
    hide Be64;
    Be64Wraps(k);
  }

  /** One Seal call followed by writeRecord. */
  method SealRecord(ch: Channel, w: Writer, typ: byte, index: uint64, plain: Bytes) returns (ok: bool, cipher: Bytes)
    requires ch.Valid()
    modifies w
    ensures cipher == ch.seal(ch.Entry(typ, index, plain)) && |cipher| == |plain| + OVERHEAD
    ensures w.bounded == old(w.bounded) && (!w.bounded ==> ok)
    ensures ok ==> w.out == old(w.out) + ch.Record(typ, index, plain)
  {
    hide Be64, Frame;
    var nonce := RecordNonce(ch, index, |ch.prefix| + 8);
    var aad := RecordAad(ch, typ, index);
    var e := Sealed(ch.key, nonce[..], aad[..], plain);
    cipher := ch.seal(e);
    ok := WriteRecord(w, typ, index, cipher);
  }

  /** The 64-bit counters after these records. */
  ghost predicate Counts(done: seq<Bytes>, index: uint64, totalPlain: uint64, totalCipher: uint64) {
    && index == |done| % TWO_TO_64
    && totalPlain == |Flatten(done)| % TWO_TO_64
    && totalCipher == CipherTotal(done) % TWO_TO_64
  }

  lemma SumWraps(a: nat, b: nat)
    ensures (a % TWO_TO_64 + b) % TWO_TO_64 == (a + b) % TWO_TO_64
  {
  }

  lemma CountsNext(done: seq<Bytes>, buf: Bytes, index: uint64, totalPlain: uint64, totalCipher: uint64)
    requires Counts(done, index, totalPlain, totalCipher)
    ensures Counts(done + [buf], (index + 1) % TWO_TO_64, (totalPlain + |buf|) % TWO_TO_64,
                   (totalCipher + |buf| + OVERHEAD) % TWO_TO_64)
  {
    hide Flatten, CipherTotal;
    TotalsSnoc(done, buf);
    SumWraps(|done|, 1);
    SumWraps(|Flatten(done)|, |buf|);
    SumWraps(CipherTotal(done), |buf| + OVERHEAD);
  }

  lemma TotalsSnoc(done: seq<Bytes>, b: Bytes)
    ensures Flatten(done + [b]) == Flatten(done) + b
    ensures CipherTotal(done + [b]) == CipherTotal(done) + |b| + OVERHEAD
  {
    assert (done + [b])[..|done|] == done;
  }

  lemma IndexWraps(ch: Channel, done: seq<Bytes>, buf: Bytes, index: uint64, totalPlain: uint64, totalCipher: uint64)
    requires Counts(done, index, totalPlain, totalCipher)
    ensures ch.Record(1, index, buf) == ch.Record(1, |done|, buf)
  {
    hide Flatten, CipherTotal;
    WrapsAlike(ch, |done|, buf, 1);
  }

  /** Seal one buffer as the next data record and advance the 64-bit counters. */
  method SealChunk(ch: Channel, w: Writer, ghost done: seq<Bytes>, buf: Bytes,
                   index: uint64, totalPlain: uint64, totalCipher: uint64)
    returns (ok: bool, index': uint64, totalPlain': uint64, totalCipher': uint64)
    requires ch.Valid() && Counts(done, index, totalPlain, totalCipher)
    modifies w
    ensures w.bounded == old(w.bounded) && (!w.bounded ==> ok)
    ensures ok ==> w.out == old(w.out) + ch.Record(1, |done|, buf)
    ensures Counts(done + [buf], index', totalPlain', totalCipher')
  {
    hide Be64, Counts, Channel.Record, Channel.Entry, Channel.Valid;
    IndexWraps(ch, done, buf, index, totalPlain, totalCipher);
    CountsNext(done, buf, index, totalPlain, totalCipher);
    var cipher;
    ok, cipher := SealRecord(ch, w, 1, index, buf);
    index' := (index + 1) % TWO_TO_64;
    totalPlain' := (totalPlain + |buf|) % TWO_TO_64;
    totalCipher' := (totalCipher + |cipher|) % TWO_TO_64;
  }

  /** The final record, committing the counters the loop ended with. */
  method SealFinal(ch: Channel, w: Writer, ghost plain: Bytes, index: uint64, totalPlain: uint64, totalCipher: uint64)
    returns (ok: bool)
    requires ch.Valid()
    requires Counts(Chunks(plain, ch.recordSize), index, totalPlain, totalCipher)
    modifies w
    ensures var chunks := Chunks(plain, ch.recordSize);
            ok ==> w.out == old(w.out) + ch.Record(2, |chunks|, ch.Commitment(chunks))
    ensures w.bounded == old(w.bounded) && (!w.bounded ==> ok)
  {
    hide Be64, Chunks, Channel.Record, Channel.Entry;
    ghost var chunks := Chunks(plain, ch.recordSize);
    var final := Be64(index) + Be64(totalPlain) + Be64(totalCipher);
    WrapsAlike(ch, |chunks|, ch.Commitment(chunks), 2);
    WrapsAlike(ch, |plain|, [], 2);
    WrapsAlike(ch, CipherTotal(chunks), [], 2);
    assert final == ch.Commitment(chunks);
    var cipher;
    ok, cipher := SealRecord(ch, w, 2, index, final);
  }

  /** Where the loop stands: the chunks sealed so far, and what is left to read. */
  ghost predicate Sealing(ch: Channel, plain: Bytes, rest: Bytes, done: seq<Bytes>, start: Bytes, out: Bytes)
    requires ch.recordSize > 0
  {
    Chunks(plain, ch.recordSize) == done + Chunks(rest, ch.recordSize) && out == start + ch.DataRecords(done)
  }

  lemma SealingNext(ch: Channel, plain: Bytes, buf: Bytes, rest: Bytes, done: seq<Bytes>, start: Bytes, out: Bytes)
    requires ch.recordSize > 0 && Sealing(ch, plain, buf + rest, done, start, out)
    requires buf != [] && (|buf| == ch.recordSize || (|buf| < ch.recordSize && rest == []))
    ensures Sealing(ch, plain, rest, done + [buf], start, out + ch.Record(1, |done|, buf))
  {
    hide Chunks, Channel.Record, Channel.DataRecords;
    ChunksStep(buf, rest, ch.recordSize);
    RecordsSnoc(ch, done, buf);
    assert start + ch.DataRecords(done) + ch.Record(1, |done|, buf) == start + ch.DataRecords(done + [buf]);
  }

  lemma RecordsSnoc(ch: Channel, done: seq<Bytes>, b: Bytes)
    ensures ch.DataRecords(done + [b]) == ch.DataRecords(done) + ch.Record(1, |done|, b)
  {
    hide Channel.Record;
    assert (done + [b])[..|done|] == done;
  }

  lemma SealingStart(ch: Channel, plain: Bytes, start: Bytes)
    requires ch.recordSize > 0
    ensures Sealing(ch, plain, plain, [], start, start) && Counts([], 0, 0, 0)
  {
    hide Chunks;
    assert start + ch.DataRecords([]) == start;
  }

  lemma SealingEnd(ch: Channel, plain: Bytes, done: seq<Bytes>, start: Bytes, out: Bytes)
    requires ch.recordSize > 0 && Sealing(ch, plain, [], done, start, out)
    ensures done == Chunks(plain, ch.recordSize) && out == start + ch.DataRecords(done)
  {
    assert Chunks([], ch.recordSize) == [];
  }

  /** The loop of Encrypt: read a full buffer, seal it, count it. */
  method SealData(ch: Channel, r: Reader, w: Writer)
    returns (ok: bool, ghost done: seq<Bytes>, index: uint64, totalPlain: uint64, totalCipher: uint64)
    requires ch.Valid()
    modifies r, w
    ensures ok ==> done == Chunks(old(r.rest), ch.recordSize) && w.out == old(w.out) + ch.DataRecords(done)
    ensures ok ==> Counts(done, index, totalPlain, totalCipher)
    ensures w.bounded == old(w.bounded)
    ensures old(r.Healthy()) && !old(w.bounded) ==> ok
  {
    hide Sealing, Counts, Chunks, Channel.DataRecords, Channel.Record;
    ghost var plain, start := r.rest, w.out;
    SealingStart(ch, plain, start);
    ok, done, index, totalPlain, totalCipher := false, [], 0, 0, 0;
    var more := true;
    while more
      invariant Sealing(ch, plain, r.rest, done, start, w.out) && Counts(done, index, totalPlain, totalCipher)
      invariant !more ==> r.rest == []
      invariant w.bounded == old(w.bounded) && (old(r.Healthy()) ==> r.Healthy())
      decreases |r.rest|, if more then 1 else 0
    {
      ghost var before := w.out;
      var buf, status := r.ReadFull(ch.recordSize);
      if buf != [] {
        var written;
        written, index, totalPlain, totalCipher := SealChunk(ch, w, done, buf, index, totalPlain, totalCipher);
        if !written { return false, done + [buf], index, totalPlain, totalCipher; }
        if status != Fault {
          SealingNext(ch, plain, buf, r.rest, done, start, before);
        }
        done := done + [buf];
      }
      if status == Fault { return; }
      more := status == Ok;
    }
    SealingEnd(ch, plain, done, start, w.out);
    ok := true;
  }

  /**
    Encrypt after the header: the data records, and then the totals sealed.  However the reader splits
    its data, the stream written is the payload of the data.
   */
  method EncryptPayload(ch: Channel, r: Reader, w: Writer) returns (ok: bool, ghost entries: seq<Sealed>)
    requires ch.Valid()
    modifies r, w
    ensures ok ==> w.out == old(w.out) + ch.Payload(old(r.rest)) && entries == ch.Entries(old(r.rest))
    ensures forall i :: 0 <= i < |entries| ==> entries[i].key == ch.key && entries[i].nonce == ch.Nonce(i)
    ensures w.bounded == old(w.bounded)
    ensures old(r.Healthy()) && !old(w.bounded) ==> ok
  {
    hide Counts, Chunks, Channel.DataRecords, Channel.DataEntries, Channel.Record, Channel.Nonce, Channel.Entries,
         Channel.Payload;
    ghost var plain, start := r.rest, w.out;
    var index, totalPlain, totalCipher;
    ghost var done;
    ok, done, index, totalPlain, totalCipher := SealData(ch, r, w);
    RunNonces(ch, done);
    entries := ch.DataEntries(done);
    if !ok { return; }
    ok := SealFinal(ch, w, plain, index, totalPlain, totalCipher);
    EntriesNonces(ch, plain);
    PayloadParts(ch, plain, start);
    entries := ch.Entries(plain);
  }

  lemma PayloadParts(ch: Channel, plain: Bytes, start: Bytes)
    requires ch.recordSize > 0
    ensures var chunks := Chunks(plain, ch.recordSize);
            start + ch.DataRecords(chunks) + ch.Record(2, |chunks|, ch.Commitment(chunks)) == start + ch.Payload(plain)
  {
    hide Chunks, Channel.DataRecords, Channel.Record, Channel.Commitment;
  }

  /** Records are sealed under consecutive nonces. */
  lemma {:induction false} RunNonces(ch: Channel, done: seq<Bytes>)
    ensures |ch.DataEntries(done)| == |done|
    ensures forall i :: 0 <= i < |done| ==>
              ch.DataEntries(done)[i].key == ch.key && ch.DataEntries(done)[i].nonce == ch.Nonce(i)
  {
    hide Be64;
    if done != [] {
      RunNonces(ch, done[..|done| - 1]);
    }
  }

  /** One turn of the decrypt loop. */
  lemma RunOnce(ch: Channel, log: seq<Sealed>, stream: Bytes, st: State)
    ensures var p := ParseRecord(stream, Limit(ch.recordSize));
            var run := Run(ch, log, stream, st);
            match p
            case End => run == Outcome(if st.finalized then Accepted else MissingFinal, st.out)
            case Bad(verdict) => run == Outcome(verdict, st.out) && verdict in {Truncated, RecordTooLong}
            case Parsed(typ, index, body, rest) =>
              match StepRecord(ch, log, typ, index, body, st)
              case Fail(verdict) => run == Outcome(verdict, st.out)
              case Next(next) => run == Run(ch, log, rest, next)
  {
    hide StepRecord;
  }

  lemma EntriesNonces(ch: Channel, plain: Bytes)
    requires ch.recordSize > 0
    ensures forall i :: 0 <= i < |ch.Entries(plain)| ==>
              ch.Entries(plain)[i].key == ch.key && ch.Entries(plain)[i].nonce == ch.Nonce(i)
  {
    hide Be64;
    RunNonces(ch, Chunks(plain, ch.recordSize));
  }

  /** The loop's variables hold this state. */
  predicate HoldsState(st: State, expected: uint64, totalPlain: uint64, totalCipher: uint64, finalized: bool) {
    st == State(expected, totalPlain, totalCipher, finalized, st.out)
  }

  /** What is done with one record that was read whole: a verdict that ends the loop, or the next state. */
  method ApplyRecord(ch: Channel, log: seq<Sealed>, w: Writer, typ: byte, index: uint64, body: Bytes,
                     expected: uint64, totalPlain: uint64, totalCipher: uint64, finalized: bool, ghost st: State)
    returns (stop: bool, verdict: Verdict, expected': uint64, totalPlain': uint64, totalCipher': uint64,
             finalized': bool)
    requires HoldsState(st, expected, totalPlain, totalCipher, finalized)
    modifies w
    ensures w.bounded == old(w.bounded)
    ensures match StepRecord(ch, log, typ, index, body, st)
            case Fail(v) => stop && verdict == v && w.out == old(w.out)
            case Next(next) =>
              var more := next.out[|st.out|..];
              if stop then verdict == WriteFailed && old(w.bounded) && old(w.out) <= w.out <= old(w.out) + more
              else HoldsState(next, expected', totalPlain', totalCipher', finalized') && w.out == old(w.out) + more
  {
    hide Open, Uint, Be64, Channel.Nonce, Channel.Aad;
    stop, expected', totalPlain', totalCipher', finalized' := true, expected, totalPlain, totalCipher, finalized;
    if finalized { return true, TrailingBytes, expected', totalPlain', totalCipher', finalized'; }
    if index != expected { return true, NonContiguous, expected', totalPlain', totalCipher', finalized'; }
    var found := Open(ch.seal, log, ch.key, ch.Nonce(index), body, ch.Aad(typ, index));
    verdict := AuthenticationFailed;
    if found.None? { return; }
    var plain := found.value;
    if typ == 1 {
      verdict := PlainTooLarge;
      if |plain| > ch.recordSize { return; }
      assert (st.out + plain)[|st.out|..] == plain;
      verdict := WriteFailed;
      var ok := w.Write(plain);
      if !ok { return; }
      totalPlain' := (totalPlain + |plain|) % TWO_TO_64;
      totalCipher' := (totalCipher + |body|) % TWO_TO_64;
    } else if typ == 2 {
      verdict := MalformedFinal;
      if |plain| != 24 { return; }
      verdict := CommitmentMismatch;
      if Uint(plain[..8]) != index || Uint(plain[8..16]) != totalPlain || Uint(plain[16..]) != totalCipher { return; }
      finalized' := true;
    } else {
      verdict := UnknownType;
      return;
    }
    stop, expected' := false, (expected + 1) % TWO_TO_64;
  }

  /**
    Decrypt after the header.  Whatever faults occur, what is written is a prefix of the fault-free
    run's output; without faults the verdict and the output are those of that run.
   */
  method DecryptPayload(ch: Channel, log: seq<Sealed>, r: Reader, w: Writer) returns (verdict: Verdict)
    modifies r, w
    ensures var o := Run(ch, log, old(r.rest), START);
            && old(w.out) <= w.out <= old(w.out) + o.out
            && ((verdict == o.verdict && w.out == old(w.out) + o.out) || verdict in {ReadFailed, WriteFailed})
    ensures old(r.Healthy()) && !old(w.bounded) ==> verdict !in {ReadFailed, WriteFailed}
  {
    hide Run, ParseRecord, Open, Uint, Be64, Limit, Channel.Nonce, Channel.Aad, StepRecord, HoldsState;
    var expected: uint64, totalPlain: uint64, totalCipher: uint64, finalized := 0, 0, 0, false;
    ghost var stream, start, st := r.rest, w.out, START;
    StartHeld();
    while true
      invariant HoldsState(st, expected, totalPlain, totalCipher, finalized)
      invariant w.out == start + st.out && st.out <= Run(ch, log, stream, START).out
      invariant Run(ch, log, stream, START) == Run(ch, log, r.rest, st)
      invariant w.bounded == old(w.bounded) && (old(r.Healthy()) ==> r.Healthy())
      decreases |r.rest|
    {
      RunOnce(ch, log, r.rest, st);
      StateHeld(st, expected, totalPlain, totalCipher, finalized);
      var fault, p := ReadRecord(r, Limit(ch.recordSize));
      if fault { return ReadFailed; }
      if p.End? { return if finalized then Accepted else MissingFinal; }
      if p.Bad? { return p.verdict; }
      var stop, v;
      stop, v, expected, totalPlain, totalCipher, finalized :=
        ApplyRecord(ch, log, w, p.typ, p.index, p.body, expected, totalPlain, totalCipher, finalized, st);
      ghost var step := StepRecord(ch, log, p.typ, p.index, p.body, st);
      if step.Next? {
        Extended(start, st.out, step.state.out);
        Within(w.out, start, step.state.out, Run(ch, log, stream, START).out);
      }
      if stop { return v; }
      st := step.state;
    }
  }

  lemma StartHeld()
    ensures HoldsState(START, 0, 0, 0, false)
  {
  }

  lemma StateHeld(st: State, expected: uint64, totalPlain: uint64, totalCipher: uint64, finalized: bool)
    requires HoldsState(st, expected, totalPlain, totalCipher, finalized)
    ensures st.finalized == finalized
  {
  }

  lemma Within(w: Bytes, start: Bytes, a: Bytes, b: Bytes)
    requires w <= start + a && a <= b
    ensures w <= start + b
  {
  }

  lemma Extended(start: Bytes, a: Bytes, b: Bytes)
    requires a <= b
    ensures start + a + b[|a|..] == start + b
  {
  }
}
