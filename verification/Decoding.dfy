/** Reading a record stream back: the functional state machine of the decrypt loop. */
module Decoding {
  import opened Bytes
  import opened Records

  datatype Verdict =
    | Accepted
    | ReadFailed
    | WriteFailed
    | Truncated
    | RecordTooLong
    | MissingFinal
    | TrailingBytes
    | NonContiguous
    | AuthenticationFailed
    | PlainTooLarge
    | MalformedFinal
    | CommitmentMismatch
    | UnknownType

  datatype Parsed = Parsed(typ: byte, index: uint64, body: Bytes, rest: Bytes) | End | Bad(verdict: Verdict)

  function Limit(recordSize: nat): nat {
    recordSize + OVERHEAD + SLACK
  }

  /** A record header alone, announcing a nonempty body within bounds of which nothing follows. */
  predicate Dangling(stream: Bytes, limit: nat) {
    |stream| == HEADER && 0 < Uint(stream[9..13]) <= limit
  }

  /** One readRecord call: `End` stands for io.EOF, which a wholly missing body also yields. */
  function ParseRecord(stream: Bytes, limit: nat): (r: Parsed)
    ensures r.Parsed? ==> |r.rest| < |stream|
    ensures r.Parsed? ==> |r.body| < TWO_TO_32 && stream == Frame(r.typ, r.index, r.body) + r.rest
    ensures r.Bad? ==> !r.verdict.Accepted?
    ensures r.End? <==> stream == [] || Dangling(stream, limit)
  {
    if stream == [] then End
    else if |stream| < HEADER then Bad(Truncated)
    else
      ParsedHeader(stream);
      var n := Uint(stream[9..13]);
      if n > limit then Bad(RecordTooLong)
      else if |stream| < HEADER + n then
        if |stream| == HEADER then End else Bad(Truncated)
      else
        Parsed(stream[0], Uint(stream[1..9]), stream[HEADER..HEADER + n], stream[HEADER + n..])
  }

  lemma ParsedHeader(stream: Bytes)
    requires |stream| >= HEADER
    ensures Uint(stream[1..9]) < TWO_TO_64 && Be64(Uint(stream[1..9])) == stream[1..9]
    ensures Uint(stream[9..13]) < TWO_TO_32 && Be32(Uint(stream[9..13])) == stream[9..13]
    ensures stream == [stream[0]] + stream[1..9] + stream[9..13] + stream[13..]
  {
    Be64Uint(stream[1..9]);
    Be32Uint(stream[9..13]);
  }

  /** A framed record is read back exactly as it was written, whatever follows it. */
  lemma ParseFrame(typ: byte, index: uint64, body: Bytes, rest: Bytes, limit: nat)
    requires |body| <= limit && |body| < TWO_TO_32
    ensures ParseRecord(Frame(typ, index, body) + rest, limit) == Parsed(typ, index, body, rest)
  {
    hide Be64, Be32, Uint;
    var s := Frame(typ, index, body) + rest;
    UintBe64(index);
    UintBe32(|body|);
    assert s[1..9] == Be64(index);
    assert s[9..13] == Be32(|body|);
    assert s[HEADER..HEADER + |body|] == body;
    assert s[HEADER + |body|..] == rest;
  }

  /** The loop variables of Decrypt; `out` is what has been written. */
  datatype State = State(expected: uint64, plain: uint64, cipher: uint64, finalized: bool, out: Bytes)

  const START := State(0, 0, 0, false, [])

  datatype Outcome = Outcome(verdict: Verdict, out: Bytes)

  datatype Step = Next(state: State) | Fail(verdict: Verdict)

  /** The body of the loop for one record that was read whole. */
  function StepRecord(ch: Channel, log: seq<Sealed>, typ: byte, index: uint64, body: Bytes, st: State): (r: Step)
    ensures r.Next? ==> st.out <= r.state.out
    ensures r.Fail? ==> r.verdict !in {Accepted, ReadFailed, WriteFailed}
  {
    if st.finalized then Fail(TrailingBytes)
    else if index != st.expected then Fail(NonContiguous)
    else
      var found := Open(ch.seal, log, ch.key, ch.Nonce(index), body, ch.Aad(typ, index));
      if found.None? then Fail(AuthenticationFailed)
      else
        var plain := found.value;
        var next := (st.expected + 1) % TWO_TO_64;
        if typ == 1 then
          if |plain| > ch.recordSize then Fail(PlainTooLarge)
          else
            Next(State(next, (st.plain + |plain|) % TWO_TO_64, (st.cipher + |body|) % TWO_TO_64, false, st.out + plain))
        else if typ == 2 then
          if |plain| != 24 then Fail(MalformedFinal)
          else if Uint(plain[..8]) != index || Uint(plain[8..16]) != st.plain || Uint(plain[16..]) != st.cipher then
            Fail(CommitmentMismatch)
          else Next(st.(expected := next, finalized := true))
        else Fail(UnknownType)
  }

  /** The whole loop on a stream that never faults. */
  function Run(ch: Channel, log: seq<Sealed>, stream: Bytes, st: State): (r: Outcome)
    ensures st.out <= r.out
    decreases |stream|
  {
    match ParseRecord(stream, Limit(ch.recordSize))
    case End => Outcome(if st.finalized then Accepted else MissingFinal, st.out)
    case Bad(verdict) => Outcome(verdict, st.out)
    case Parsed(typ, index, body, rest) =>
      match StepRecord(ch, log, typ, index, body, st)
      case Fail(verdict) => Outcome(verdict, st.out)
      case Next(next) => Run(ch, log, rest, next)
  }
}
