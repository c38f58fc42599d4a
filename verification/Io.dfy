/** Readers that deliver data in arbitrary pieces and may fail, writers that may fill up. */
module Io {
  import opened Bytes

  datatype ReadStatus = Ok | EOF | UnexpectedEOF | Fault

  /** What one Read call does: how much it hands over at most, and how it ends. */
  datatype Piece = Piece(n: nat, reportEof: bool, fault: bool)

  /** An io.Reader over `rest`; `plan` scripts the next calls, and calls beyond it are full reads. */
  class Reader {
    var rest: Bytes
    var plan: seq<Piece>

    constructor (data: Bytes, plan: seq<Piece>)
      ensures rest == data && this.plan == plan
    {
      rest, this.plan := data, plan;
    }

    /** No scripted call fails. */
    ghost predicate Healthy()
      reads this
    {
      forall p :: p in plan ==> !p.fault
    }

    method Read(max: nat) returns (b: Bytes, status: ReadStatus)
      modifies this
      ensures |b| <= max && old(rest) == b + rest
      ensures status != UnexpectedEOF
      ensures status == EOF ==> rest == []
      ensures |plan| <= |old(plan)|
      ensures status == Ok && b == [] && max > 0 ==> |plan| < |old(plan)|
      ensures old(Healthy()) ==> Healthy() && status != Fault
    {
      var n := if max < |rest| then max else |rest|;
      var fault, eof := false, rest == [];
      if plan != [] {
        var p := plan[0];
        plan := plan[1..];
        n := if p.n < n then p.n else n;
        fault := p.fault;
        eof := n == |rest| && p.reportEof;
      }
      b := rest[..n];
      rest := rest[n..];
      status := if fault then Fault else if eof then EOF else Ok;
    }

    /** io.ReadFull: nothing read is EOF, a part read is UnexpectedEOF, an empty buffer succeeds. */
    method ReadFull(n: nat) returns (b: Bytes, status: ReadStatus)
      modifies this
      ensures old(rest) == b + rest
      ensures status == Ok <==> |b| == n
      ensures status == EOF ==> b == [] && rest == []
      ensures status == UnexpectedEOF ==> b != [] && rest == []
      ensures |b| <= n
      ensures old(Healthy()) ==> Healthy() && status != Fault
    {
      b, status := [], Ok;
      while |b| < n && status == Ok
        invariant |b| <= n && old(rest) == b + rest
        invariant status != UnexpectedEOF
        invariant status == EOF ==> rest == []
        invariant old(Healthy()) ==> Healthy() && status != Fault
        decreases n - |b|, |plan|, if status == Ok then 1 else 0
      {
        var piece;
        piece, status := Read(n - |b|);
        b := b + piece;
      }
      if |b| == n {
        status := Ok;
      } else if b != [] && status == EOF {
        status := UnexpectedEOF;
      }
    }
  }

  /** An io.Writer that accepts `room` more bytes, or any number when it is not `bounded`. */
  class Writer {
    var out: Bytes
    var bounded: bool
    var room: nat

    constructor ()
      ensures out == [] && !bounded
    {
      out, bounded, room := [], false, 0;
    }

    method Write(b: Bytes) returns (ok: bool)
      modifies this
      ensures bounded == old(bounded)
      ensures !bounded ==> ok
      ensures ok ==> out == old(out) + b
      ensures old(out) <= out <= old(out) + b
    {
      if !bounded || |b| <= room {
        out := out + b;
        room := if bounded then room - |b| else room;
        ok := true;
      } else {
        out := out + b[..room];
        room := 0;
        ok := false;
      }
    }
  }
}
