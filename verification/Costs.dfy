/** What the memo is for: the plain recursion takes exponentially many calls. */
module Costs {
  import opened Paths
  import opened Selection

  /** Calls of the visit closure without its memo. */
  function VisitCalls(m: SegmentMatch, p: Path, n: Path, i: nat, j: nat): nat
    requires i <= |p| && j <= |n|
    decreases |p| - i, 0, 0
  {
    var k := Collapse(p, i);
    1 + if k == |p| then 0
        else if p[k] == STARS then (if k + 1 == |p| then 0 else ScanCalls(m, p, n, k + 1, j))
        else if j < |n| && m(p[k], n[j]) == Fits then VisitCalls(m, p, n, k + 1, j + 1)
        else 0
  }

  function ScanCalls(m: SegmentMatch, p: Path, n: Path, i: nat, j: nat): nat
    requires i <= |p| && j <= |n|
    decreases |p| - i, 1, |n| - j
  {
    var r := Visit(m, p, n, i, j);
    VisitCalls(m, p, n, i, j) + if r.Bad? || r.matched || j == |n| then 0 else ScanCalls(m, p, n, i, j + 1)
  }

  /** A double star and a segment, `k` times, and then a segment that is never met. */
  function Hard(a: string, b: string, k: nat): (p: Path)
    ensures |p| == 2 * k + 1
  {
    if k == 0 then [b] else [STARS, a] + Hard(a, b, k - 1)
  }

  function PowerOfTwo(k: nat): nat {
    if k == 0 then 1 else 2 * PowerOfTwo(k - 1)
  }

  /** Literal segments: one fits itself, the other does not fit it. */
  predicate Literal(m: SegmentMatch, a: string, b: string) {
    a != STARS && b != STARS && m(a, a) == Fits && m(b, a) == Differs
  }

  /** From index `i` on `p` is the hard pattern with `k` pairs, and the name is all `a`. */
  ghost predicate HardFrom(p: Path, n: Path, a: string, b: string, i: nat, k: nat) {
    i + 2 * k + 1 == |p| && p[i..] == Hard(a, b, k) && forall l :: 0 <= l < |n| ==> n[l] == a
  }

  lemma HardStep(m: SegmentMatch, p: Path, n: Path, a: string, b: string, i: nat, k: nat)
    requires HardFrom(p, n, a, b, i, k) && Literal(m, a, b)
    ensures Collapse(p, i) == i
    ensures k == 0 ==> p[i] == b
    ensures k > 0 ==>
              p[i] == STARS && p[i + 1] == a && Collapse(p, i + 1) == i + 1 && HardFrom(p, n, a, b, i + 2, k - 1)
  {
    assert p[i] == p[i..][0];
    if k > 0 {
      assert p[i + 1] == p[i..][1];
      assert p[i + 2..] == p[i..][2..];
    }
  }

  /** The last segment is never met, so nothing matches. */
  lemma {:induction false} HardFails(m: SegmentMatch, p: Path, n: Path, a: string, b: string, i: nat, j: nat, k: nat)
    requires HardFrom(p, n, a, b, i, k) && Literal(m, a, b) && j <= |n|
    ensures Visit(m, p, n, i, j) == Value(false)
    ensures k > 0 ==> Visit(m, p, n, i + 1, j) == Value(false)
    decreases k, |n| - j
  {
    HardStep(m, p, n, a, b, i, k);
    if k > 0 {
      if j < |n| {
        HardFails(m, p, n, a, b, i + 2, j + 1, k - 1);
        HardFails(m, p, n, a, b, i, j + 1, k);
        assert Visit(m, p, n, i, j + 1) == Scan(m, p, n, i + 1, j + 1);
      }
      assert Visit(m, p, n, i + 1, j) == Value(false);
      assert Visit(m, p, n, i, j) == Scan(m, p, n, i + 1, j);
    }
  }

  lemma {:induction false} HardCost(m: SegmentMatch, p: Path, n: Path, a: string, b: string, i: nat, j: nat, k: nat)
    requires HardFrom(p, n, a, b, i, k) && Literal(m, a, b) && j + 2 * k <= |n|
    ensures VisitCalls(m, p, n, i, j) >= PowerOfTwo(k)
    decreases k
  {
    HardStep(m, p, n, a, b, i, k);
    if k > 0 {
      HardFails(m, p, n, a, b, i, j, k);
      HardCost(m, p, n, a, b, i + 2, j + 1, k - 1);
      HardCost(m, p, n, a, b, i + 2, j + 2, k - 1);
      assert VisitCalls(m, p, n, i + 1, j) >= PowerOfTwo(k - 1);
      assert VisitCalls(m, p, n, i + 1, j + 1) >= PowerOfTwo(k - 1);
      assert ScanCalls(m, p, n, i + 1, j + 1) >= VisitCalls(m, p, n, i + 1, j + 1);
    }
  }

  /** A pattern of 2k + 1 segments on a name of 2k: at least 2^k calls, for any literal segment matcher. */
  lemma PlainRecursionIsExponential(m: SegmentMatch, a: string, b: string, k: nat)
    requires Literal(m, a, b)
    ensures VisitCalls(m, Hard(a, b, k), seq(2 * k, i => a), 0, 0) >= PowerOfTwo(k)
  {
    var p, n := Hard(a, b, k), seq(2 * k, i => a);
    assert p[0..] == p;
    HardCost(m, p, n, a, b, 0, 0, k);
  }
}
