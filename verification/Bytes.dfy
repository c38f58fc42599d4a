/** Byte strings and the big-endian integers the container format is built from. */
module Bytes {
  type byte = x: int | 0 <= x < 256
  type Bytes = seq<byte>
  type uint64 = x: int | 0 <= x < TWO_TO_64

  const TWO_TO_32: int := 0x1_0000_0000
  const TWO_TO_64: int := 0x1_0000_0000_0000_0000

  /** Number of values a `width`-byte field can hold. */
  function Span(width: nat): (r: nat)
    ensures r > 0
  {
    if width == 0 then 1 else 256 * Span(width - 1)
  }

  /** The low `width` bytes of `x`, most significant first (what PutUint32/PutUint64 store). */
  function PutUint(x: nat, width: nat): (r: Bytes)
    ensures |r| == width
  {
    if width == 0 then [] else PutUint(x / 256, width - 1) + [x % 256]
  }

  /** The big-endian value of a byte string. */
  function Uint(b: Bytes): nat {
    if b == [] then 0 else Uint(b[..|b| - 1]) * 256 + b[|b| - 1]
  }

  lemma SpanFacts()
    ensures Span(4) == TWO_TO_32
    ensures Span(8) == TWO_TO_64
  {
    assert Span(1) == 256;
    assert Span(2) == 0x1_0000;
    assert Span(3) == 0x100_0000;
    assert Span(4) == TWO_TO_32;
    assert Span(5) == 0x100_0000_0000;
    assert Span(6) == 0x1_0000_0000_0000;
    assert Span(7) == 0x100_0000_0000_0000;
  }

  /** Decoding what was stored gives the value back, when it fits the field. */
  lemma {:induction false} UintPutUint(x: nat, width: nat)
    requires x < Span(width)
    ensures Uint(PutUint(x, width)) == x
  {
    if width > 0 {
      DivFits(x, Span(width - 1));
      UintPutUint(x / 256, width - 1);
      LastDigit(PutUint(x / 256, width - 1), x % 256);
    }
  }

  lemma DivFits(x: nat, span: nat)
    requires x < 256 * span
    ensures x / 256 < span
  {
  }

  lemma LastDigit(b: Bytes, d: byte)
    ensures Uint(b + [d]) == Uint(b) * 256 + d
  {
    assert (b + [d])[..|b|] == b;
  }

  /** Every byte string is the encoding of its own value, and the value fits. */
  lemma {:induction false} PutUintUint(b: Bytes)
    ensures Uint(b) < Span(|b|)
    ensures PutUint(Uint(b), |b|) == b
  {
    if b != [] {
      PutUintUint(b[..|b| - 1]);
      assert b == b[..|b| - 1] + [b[|b| - 1]];
    }
  }

  /** PutUint64 of a 64-bit counter, which wraps around. */
  function Be64(x: nat): (r: Bytes)
    ensures |r| == 8
  {
    PutUint(x % TWO_TO_64, 8)
  }

  /** PutUint32 of a value cut down to 32 bits. */
  function Be32(x: nat): (r: Bytes)
    ensures |r| == 4
  {
    PutUint(x % TWO_TO_32, 4)
  }

  lemma UintBe64(x: nat)
    ensures Uint(Be64(x)) == x % TWO_TO_64
  {
    SpanFacts();
    UintPutUint(x % TWO_TO_64, 8);
  }

  lemma UintBe32(x: nat)
    ensures Uint(Be32(x)) == x % TWO_TO_32
  {
    SpanFacts();
    UintPutUint(x % TWO_TO_32, 4);
  }

  lemma Be64Uint(b: Bytes)
    requires |b| == 8
    ensures Uint(b) < TWO_TO_64 && Be64(Uint(b)) == b
  {
    hide Uint, PutUint;
    SpanFacts();
    PutUintUint(b);
    assert Uint(b) % TWO_TO_64 == Uint(b);
  }

  lemma Be32Uint(b: Bytes)
    requires |b| == 4
    ensures Uint(b) < TWO_TO_32 && Be32(Uint(b)) == b
  {
    hide Uint, PutUint;
    SpanFacts();
    PutUintUint(b);
  }

  /** Counters encode alike exactly when they are congruent: 2^64 apart, the encoding repeats. */
  lemma Be64Congruence(x: nat, y: nat)
    ensures Be64(x) == Be64(y) <==> x % TWO_TO_64 == y % TWO_TO_64
  {
    UintBe64(x);
    UintBe64(y);
  }
}
