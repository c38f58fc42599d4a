/**
  Glob matching of slash-separated names with `**`: the plain recursion, what it means, and the
  memoised matcher that computes it.
 */
module Selection {
  import opened Paths

  const STARS: string := "**"

  /** path.Match on one segment: a malformed pattern is an error. */
  datatype Segment = Malformed | Differs | Fits

  type SegmentMatch = (string, string) -> Segment

  datatype Outcome = Bad | Value(matched: bool)

  /** Adjacent `**` segments are walked over. */
  function Collapse(p: Path, i: nat): (k: nat)
    requires i <= |p|
    ensures i <= k <= |p|
    ensures forall l :: i <= l < k ==> p[l] == STARS
    ensures i < k ==> k < |p| && p[k] == STARS
    decreases |p| - i
  {
    if i + 1 < |p| && p[i] == STARS && p[i + 1] == STARS then Collapse(p, i + 1) else i
  }

  /** The visit closure without its memo: does p[i..] match n[j..]? */
  function Visit(m: SegmentMatch, p: Path, n: Path, i: nat, j: nat): Outcome
    requires i <= |p| && j <= |n|
    decreases |p| - i, 0, 0
  {
    var k := Collapse(p, i);
    if k == |p| then Value(j == |n|)
    else if p[k] == STARS then
      if k + 1 == |p| then Value(true) else Scan(m, p, n, k + 1, j)
    else if j < |n| then
      match m(p[k], n[j])
      case Malformed => Bad
      case Differs => Value(false)
      case Fits => Visit(m, p, n, k + 1, j + 1)
    else Value(false)
  }

  /** The loop over the run a `**` may cover, from name index j on. */
  function Scan(m: SegmentMatch, p: Path, n: Path, i: nat, j: nat): Outcome
    requires i <= |p| && j <= |n|
    decreases |p| - i, 1, |n| - j
  {
    var r := Visit(m, p, n, i, j);
    if r.Bad? || r.matched then r
    else if j == |n| then Value(false)
    else Scan(m, p, n, i, j + 1)
  }

  // What matching means

  /** cuts[l] .. cuts[l + 1] is the part of the name that segment i + l of the pattern stands for. */
  ghost predicate IsSplit(m: SegmentMatch, p: Path, n: Path, i: nat, j: nat, cuts: seq<nat>) {
    && i <= |p| && j <= |n|
    && |cuts| == |p| - i + 1 && cuts[0] == j && cuts[|cuts| - 1] == |n|
    && (forall l :: 0 <= l < |cuts| ==> cuts[l] <= |n|)
    && (forall l :: 0 <= l < |p| - i ==> Covers(m, p[i + l], n, cuts[l], cuts[l + 1]))
  }

  /** `**` covers any run of segments; another segment covers one that it fits. */
  predicate Covers(m: SegmentMatch, segment: string, n: Path, a: nat, b: nat)
    requires a <= |n| && b <= |n|
  {
    if segment == STARS then a <= b else b == a + 1 && m(segment, n[a]) == Fits
  }

  /** The pattern's segments can be laid over the whole name. */
  ghost predicate Matches(m: SegmentMatch, p: Path, n: Path) {
    exists cuts :: IsSplit(m, p, n, 0, 0, cuts)
  }

  ghost predicate MatchesFrom(m: SegmentMatch, p: Path, n: Path, i: nat, j: nat) {
    exists cuts :: IsSplit(m, p, n, i, j, cuts)
  }

  lemma SplitCons(m: SegmentMatch, p: Path, n: Path, i: nat, j: nat, b: nat)
    requires i < |p| && j <= |n| && b <= |n| && Covers(m, p[i], n, j, b) && MatchesFrom(m, p, n, i + 1, b)
    ensures MatchesFrom(m, p, n, i, j)
  {
    var cuts :| IsSplit(m, p, n, i + 1, b, cuts);
    var all := [j] + cuts;
    forall l | 0 <= l < |p| - i ensures Covers(m, p[i + l], n, all[l], all[l + 1]) {
      if l > 0 {
        assert Covers(m, p[i + 1 + (l - 1)], n, cuts[l - 1], cuts[l - 1 + 1]);
      }
    }
    assert IsSplit(m, p, n, i, j, all);
  }

  lemma SplitHead(m: SegmentMatch, p: Path, n: Path, i: nat, j: nat) returns (b: nat)
    requires i < |p| && MatchesFrom(m, p, n, i, j)
    ensures j <= |n| && b <= |n| && Covers(m, p[i], n, j, b) && MatchesFrom(m, p, n, i + 1, b)
  {
    var cuts :| IsSplit(m, p, n, i, j, cuts);
    b := cuts[1];
    var rest := cuts[1..];
    assert Covers(m, p[i + 0], n, cuts[0], cuts[0 + 1]);
    forall l | 0 <= l < |p| - (i + 1) ensures Covers(m, p[i + 1 + l], n, rest[l], rest[l + 1]) {
      assert Covers(m, p[i + (l + 1)], n, cuts[l + 1], cuts[l + 1 + 1]);
    }
    assert IsSplit(m, p, n, i + 1, b, rest);
  }

  lemma SplitEnd(m: SegmentMatch, p: Path, n: Path, j: nat)
    requires j <= |n|
    ensures MatchesFrom(m, p, n, |p|, j) <==> j == |n|
  {
    if j == |n| {
      assert IsSplit(m, p, n, |p|, j, [j]);
    }
  }

  /** One `**` in front of another adds nothing. */
  lemma StarsCollapse(m: SegmentMatch, p: Path, n: Path, i: nat, j: nat)
    requires i + 1 < |p| && j <= |n| && p[i] == STARS && p[i + 1] == STARS
    ensures MatchesFrom(m, p, n, i, j) <==> MatchesFrom(m, p, n, i + 1, j)
  {
    if MatchesFrom(m, p, n, i, j) {
      var b := SplitHead(m, p, n, i, j);
      var c := SplitHead(m, p, n, i + 1, b);
      SplitCons(m, p, n, i + 1, j, c);
    }
    if MatchesFrom(m, p, n, i + 1, j) {
      SplitCons(m, p, n, i, j, j);
    }
  }

  lemma {:induction false} CollapseKeepsMeaning(m: SegmentMatch, p: Path, n: Path, i: nat, j: nat)
    requires i <= |p| && j <= |n|
    ensures MatchesFrom(m, p, n, i, j) <==> MatchesFrom(m, p, n, Collapse(p, i), j)
    decreases |p| - i
  {
    if i + 1 < |p| && p[i] == STARS && p[i + 1] == STARS {
      StarsCollapse(m, p, n, i, j);
      CollapseKeepsMeaning(m, p, n, i + 1, j);
    }
  }

  lemma TrailingStars(m: SegmentMatch, p: Path, n: Path, j: nat)
    requires p != [] && p[|p| - 1] == STARS && j <= |n|
    ensures MatchesFrom(m, p, n, |p| - 1, j)
  {
    SplitEnd(m, p, n, |n|);
    SplitCons(m, p, n, |p| - 1, j, |n|);
  }

  /** A value of the plain recursion is the meaning. */
  lemma {:induction false} VisitMeans(m: SegmentMatch, p: Path, n: Path, i: nat, j: nat)
    requires i <= |p| && j <= |n| && Visit(m, p, n, i, j).Value?
    ensures Visit(m, p, n, i, j).matched <==> MatchesFrom(m, p, n, i, j)
    decreases |p| - i, 0, 0
  {
    hide MatchesFrom;
    CollapseKeepsMeaning(m, p, n, i, j);
    var k := Collapse(p, i);
    if k == |p| {
      SplitEnd(m, p, n, j);
    } else if p[k] == STARS {
      if k + 1 == |p| {
        TrailingStars(m, p, n, j);
      } else {
        ScanMeans(m, p, n, k + 1, j);
        if MatchesFrom(m, p, n, k, j) {
          var b := SplitHead(m, p, n, k, j);
        }
        if Scan(m, p, n, k + 1, j).matched {
          var b :| j <= b <= |n| && MatchesFrom(m, p, n, k + 1, b);
          SplitCons(m, p, n, k, j, b);
        }
      }
    } else {
      if j < |n| && m(p[k], n[j]) == Fits {
        VisitMeans(m, p, n, k + 1, j + 1);
        if MatchesFrom(m, p, n, k + 1, j + 1) {
          SplitCons(m, p, n, k, j, j + 1);
        }
      }
      if MatchesFrom(m, p, n, k, j) {
        var b := SplitHead(m, p, n, k, j);
      }
    }
  }

  lemma {:induction false} ScanMeans(m: SegmentMatch, p: Path, n: Path, i: nat, j: nat)
    requires i <= |p| && j <= |n| && Scan(m, p, n, i, j).Value?
    ensures Scan(m, p, n, i, j).matched <==> exists b :: j <= b <= |n| && MatchesFrom(m, p, n, i, b)
    decreases |p| - i, 1, |n| - j
  {
    hide MatchesFrom;
    VisitMeans(m, p, n, i, j);
    if !Visit(m, p, n, i, j).matched && j < |n| {
      ScanMeans(m, p, n, i, j + 1);
    }
  }

  // Patterns that end in a double star

  predicate Trailing(p: Path) {
    p != [] && p[|p| - 1] == STARS
  }

  /** On a longer name a failed attempt fails again, as long as a later attempt on the shorter one succeeds. */
  lemma {:induction false} FailsAgain(m: SegmentMatch, p: Path, n: Path, more: Path, i: nat, j: nat, later: nat)
    requires Trailing(p) && i < |p| && j <= later <= |n|
    requires Visit(m, p, n, i, j) == Value(false) && Visit(m, p, n, i, later) == Value(true)
    ensures Visit(m, p, n + more, i, j) == Value(false)
    decreases |p| - i
  {
    var k := Collapse(p, i);
    if p[k] == STARS {
      ScanFinds(m, p, n, k + 1, j, later);
    } else if m(p[k], n[j]) == Fits {
      FailsAgain(m, p, n, more, k + 1, j + 1, later + 1);
    }
  }

  /** A scan that ends in failure has met no success, wherever it began. */
  lemma {:induction false} ScanFinds(m: SegmentMatch, p: Path, n: Path, i: nat, j: nat, later: nat)
    requires i <= |p| && j <= later <= |n| && Scan(m, p, n, i, later) == Value(true)
    ensures Scan(m, p, n, i, j) != Value(false)
    decreases later - j
  {
    if j < later {
      ScanFinds(m, p, n, i, j + 1, later);
    }
  }

  /** What matches a name matches everything below it, and no pattern errs there either. */
  lemma {:induction false} VisitBelow(m: SegmentMatch, p: Path, n: Path, below: Path, i: nat, j: nat)
    requires Trailing(p) && i < |p| && j <= |n| && Visit(m, p, n, i, j) == Value(true)
    ensures Visit(m, p, n + below, i, j) == Value(true)
    decreases |p| - i, 0, 0
  {
    var k := Collapse(p, i);
    if p[k] == STARS {
      if k + 1 < |p| {
        ScanBelow(m, p, n, below, k + 1, j);
      }
    } else {
      VisitBelow(m, p, n, below, k + 1, j + 1);
    }
  }

  lemma {:induction false} ScanBelow(m: SegmentMatch, p: Path, n: Path, below: Path, i: nat, j: nat)
    requires Trailing(p) && i < |p| && j <= |n| && Scan(m, p, n, i, j) == Value(true)
    ensures Scan(m, p, n + below, i, j) == Value(true)
    decreases |p| - i, 1, |n| - j
  {
    if Visit(m, p, n, i, j).matched {
      VisitBelow(m, p, n, below, i, j);
    } else {
      var later := ScanHit(m, p, n, i, j + 1);
      FailsAgain(m, p, n, below, i, j, later);
      ScanBelow(m, p, n, below, i, j + 1);
    }
  }

  lemma {:induction false} ScanHit(m: SegmentMatch, p: Path, n: Path, i: nat, j: nat) returns (hit: nat)
    requires i <= |p| && j <= |n| && Scan(m, p, n, i, j) == Value(true)
    ensures j <= hit <= |n| && Visit(m, p, n, i, hit) == Value(true)
    decreases |n| - j
  {
    hit := j;
    if !Visit(m, p, n, i, j).matched {
      hit := ScanHit(m, p, n, i, j + 1);
    }
  }

  // Errors

  /** Everything before pattern index `k` fits, and the comparison there errs. */
  ghost predicate ErrsAt(m: SegmentMatch, p: Path, n: Path, i: nat, j: nat, k: nat) {
    && i <= k < |p| && j + k - i < |n| && m(p[k], n[j + k - i]) == Malformed
    && forall l :: i <= l < k ==> m(p[l], n[j + l - i]) == Fits
  }

  lemma ErrsStep(m: SegmentMatch, p: Path, n: Path, i: nat, j: nat, k: nat)
    requires i < |p| && j < |n|
    ensures ErrsAt(m, p, n, i, j, k) <==>
            if k == i then m(p[i], n[j]) == Malformed else m(p[i], n[j]) == Fits && ErrsAt(m, p, n, i + 1, j + 1, k)
  {
  }

  /** Without double stars a comparison that errs is met exactly if everything before it fits. */
  lemma {:induction false} PlainErrs(m: SegmentMatch, p: Path, n: Path, i: nat, j: nat)
    requires i <= |p| && j <= |n| && forall l :: i <= l < |p| ==> p[l] != STARS
    ensures Visit(m, p, n, i, j).Bad? <==> exists k :: ErrsAt(m, p, n, i, j, k)
    decreases |p| - i
  {
    if i < |p| && j < |n| {
      hide ErrsAt;
      forall k ensures ErrsAt(m, p, n, i, j, k) <==>
                       if k == i then m(p[i], n[j]) == Malformed
                       else m(p[i], n[j]) == Fits && ErrsAt(m, p, n, i + 1, j + 1, k)
      {
        ErrsStep(m, p, n, i, j, k);
      }
      assert Collapse(p, i) == i;
      if m(p[i], n[j]) == Fits {
        var i', j' := i + 1, j + 1;
        PlainErrs(m, p, n, i', j');
        if k :| ErrsAt(m, p, n, i', j', k) {
          ErrsLater(m, p, n, i', j', k);
          assert ErrsAt(m, p, n, i, j, k);
        }
      } else if m(p[i], n[j]) == Malformed {
        assert ErrsAt(m, p, n, i, j, i);
      }
    }
  }

  lemma ErrsLater(m: SegmentMatch, p: Path, n: Path, i: nat, j: nat, k: nat)
    requires ErrsAt(m, p, n, i, j, k)
    ensures i <= k
  {
  }

  /** The attempt at `b` errs, those from `j` on before it fail. */
  ghost predicate ErrsFirst(m: SegmentMatch, p: Path, n: Path, i: nat, j: nat, b: nat)
    requires i <= |p|
  {
    && j <= b <= |n| && Visit(m, p, n, i, b).Bad?
    && forall a :: j <= a < b ==> Visit(m, p, n, i, a) == Value(false)
  }

  /** A double star errs exactly if an attempt errs before any succeeds. */
  lemma {:induction false} ScanErrs(m: SegmentMatch, p: Path, n: Path, i: nat, j: nat)
    requires i <= |p| && j <= |n|
    ensures Scan(m, p, n, i, j).Bad? <==> exists b :: ErrsFirst(m, p, n, i, j, b)
    decreases |n| - j
  {
    hide Visit;
    if Visit(m, p, n, i, j).Bad? {
      assert ErrsFirst(m, p, n, i, j, j);
    } else if Visit(m, p, n, i, j) == Value(false) && j < |n| {
      var j' := j + 1;
      ScanErrs(m, p, n, i, j');
      if b :| ErrsFirst(m, p, n, i, j', b) {
        assert ErrsFirst(m, p, n, i, j, b);
      }
      if b :| ErrsFirst(m, p, n, i, j, b) {
        assert ErrsFirst(m, p, n, i, j', b);
      }
    }
  }
}
