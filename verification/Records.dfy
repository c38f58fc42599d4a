/**
  The payload record protocol: a stream is cut into indexed AEAD records and closed by a final
  record that commits the record count and both byte totals.

  Keys are symbolic terms, so different derivations never meet.  The AEAD is ideal: sealing is
  some function of key, nonce, associated data and plaintext, and opening succeeds exactly on
  what a seal call in the log produced.
 */
module Records {
  import opened Wrappers
  import opened Bytes

  datatype Key =
    | Derived(secret: Bytes, salt: Bytes, info: string)
    | Argon2id(password: Bytes, time: nat, memoryKiB: nat, parallelism: nat, argonSalt: Bytes)

  datatype Sealed = Sealed(key: Key, nonce: Bytes, aad: Bytes, plain: Bytes)

  const OVERHEAD: nat := 16
  const HEADER: nat := 13
  const SLACK: nat := 64
  const MAX_RECORD_SIZE: nat := 0x100_0000

  type Seal = Sealed -> Bytes

  /** Ciphertexts are one tag longer than their plaintexts. */
  ghost predicate Lawful(seal: Seal) {
    forall e: Sealed {:trigger seal(e)} :: |seal(e)| == |e.plain| + OVERHEAD
  }

  function Open(seal: Seal, log: seq<Sealed>, key: Key, nonce: Bytes, cipher: Bytes, aad: Bytes): (r: Option<Bytes>)
    ensures r.Some? ==> Sealed(key, nonce, aad, r.value) in log && seal(Sealed(key, nonce, aad, r.value)) == cipher
    ensures r.None? ==> forall e :: e in log && e.key == key && e.nonce == nonce && e.aad == aad ==> seal(e) != cipher
  {
    if log == [] then None
    else
      var e := log[0];
      if e.key == key && e.nonce == nonce && e.aad == aad && seal(e) == cipher then Some(e.plain)
      else Open(seal, log[1..], key, nonce, cipher, aad)
  }

  /** What both ends of one payload agree on. */
  datatype Channel = Channel(seal: Seal, key: Key, prefix: Bytes, aad: Bytes, recordSize: nat) {
    ghost predicate Valid() {
      Lawful(seal) && 1 <= recordSize <= MAX_RECORD_SIZE
    }

    /** Fixed prefix, then the 8-byte record counter. */
    function Nonce(index: nat): Bytes {
      prefix + Be64(index)
    }

    function Aad(typ: byte, index: nat): Bytes {
      aad + [typ] + Be64(index)
    }

    function Entry(typ: byte, index: nat, plain: Bytes): Sealed {
      Sealed(key, Nonce(index), Aad(typ, index), plain)
    }

    function Record(typ: byte, index: nat, plain: Bytes): Bytes {
      Frame(typ, index, seal(Entry(typ, index, plain)))
    }

    /** The records and seal calls for `chunks`, at indices 0, 1, 2, ... of a 64-bit counter. */
    function DataRecords(chunks: seq<Bytes>): Bytes {
      if chunks == [] then []
      else
        var k := |chunks| - 1;
        DataRecords(chunks[..k]) + Record(1, k, chunks[k])
    }

    function DataEntries(chunks: seq<Bytes>): seq<Sealed> {
      if chunks == [] then []
      else
        var k := |chunks| - 1;
        DataEntries(chunks[..k]) + [Entry(1, k, chunks[k])]
    }

    function Commitment(chunks: seq<Bytes>): Bytes {
      Be64(|chunks|) + Be64(|Flatten(chunks)|) + Be64(CipherTotal(chunks))
    }

    function Payload(plain: Bytes): Bytes
      requires recordSize > 0
    {
      var chunks := Chunks(plain, recordSize);
      DataRecords(chunks) + Record(2, |chunks|, Commitment(chunks))
    }

    function Entries(plain: Bytes): seq<Sealed>
      requires recordSize > 0
    {
      var chunks := Chunks(plain, recordSize);
      DataEntries(chunks) + [Entry(2, |chunks|, Commitment(chunks))]
    }
  }

  function Frame(typ: byte, index: nat, cipher: Bytes): Bytes {
    [typ] + Be64(index) + Be32(|cipher|) + cipher
  }

  /** The pieces io.ReadFull delivers: full ones, then a shorter last one if anything is left. */
  function Chunks(plain: Bytes, size: nat): (r: seq<Bytes>)
    requires size > 0
    ensures Flatten(r) == plain
    ensures forall i :: 0 <= i < |r| ==> 1 <= |r[i]| <= size
    ensures forall i :: 0 <= i < |r| - 1 ==> |r[i]| == size
  {
    if plain == [] then []
    else if |plain| <= size then
      assert Flatten([plain]) == plain by { FlattenPrepend(plain, []); }
      [plain]
    else
      var r := [plain[..size]] + Chunks(plain[size..], size);
      assert Flatten(r) == plain by { FlattenPrepend(plain[..size], Chunks(plain[size..], size)); }
      r
  }

  function Flatten(chunks: seq<Bytes>): Bytes {
    if chunks == [] then [] else Flatten(chunks[..|chunks| - 1]) + chunks[|chunks| - 1]
  }

  function CipherTotal(chunks: seq<Bytes>): nat {
    |Flatten(chunks)| + OVERHEAD * |chunks|
  }

  lemma {:induction false} FlattenPrepend(head: Bytes, tail: seq<Bytes>)
    ensures Flatten([head] + tail) == head + Flatten(tail)
  {
    var all := [head] + tail;
    if tail == [] {
      assert all[..0] == [];
    } else {
      var k := |tail| - 1;
      assert all[..|all| - 1] == [head] + tail[..k];
      FlattenPrepend(head, tail[..k]);
    }
  }

  lemma {:induction false} FlattenPrefix(chunks: seq<Bytes>, k: nat)
    requires k <= |chunks|
    ensures Flatten(chunks[..k]) <= Flatten(chunks)
    decreases |chunks|
  {
    if k == |chunks| {
      assert chunks[..k] == chunks;
    } else {
      var rest := chunks[..|chunks| - 1];
      FlattenPrefix(rest, k);
      assert rest[..k] == chunks[..k];
    }
  }
}
