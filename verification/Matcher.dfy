/** matchParts with its memo tables, and selection.Match on strings. */
module Matcher {
  import opened Paths
  import opened Selection

  type State = (nat, nat)

  class Matcher {
    const m: SegmentMatch
    const pattern: Path
    const name: Path
    var memo: map<State, bool>
    var seen: set<State>
    /** States whose evaluation has begun, is under way, and for which path.Match was called. */
    ghost var begun: set<State>
    ghost var open: set<State>
    ghost var matchedAt: set<State>
    ghost var evaluations: nat
    ghost var matchCalls: nat

    constructor (m: SegmentMatch, pattern: Path, name: Path)
      ensures Valid() && open == {}
      ensures this.m == m && this.pattern == pattern && this.name == name
    {
      this.m, this.pattern, this.name := m, pattern, name;
      memo, seen := map[], {};
      begun, open, matchedAt, evaluations, matchCalls := {}, {}, {}, 0, 0;
    }

    /** Memoised results are the plain recursion's, and no state was evaluated or matched twice. */
    ghost predicate Valid()
      reads this
    {
      && (forall s :: s in seen <==> s in memo)
      && (forall s :: s in seen ==> s in begun && s !in open)
      && (forall s :: s in open ==> s in begun)
      && (forall s :: s in begun ==> s in seen || s in open)
      && (forall s :: s in seen ==>
            s.0 <= |pattern| && s.1 <= |name| && Selection.Visit(m, pattern, name, s.0, s.1) == Value(memo[s]))
      && (forall s :: s in begun ==> s.0 <= |pattern| && s.1 <= |name|)
      && matchedAt <= begun
      && (forall s :: s in matchedAt ==> s.0 < |pattern| && s.1 < |name|)
      && evaluations == |begun| && matchCalls == |matchedAt|
    }

    /** Evaluations under way are at smaller pattern indices. */
    ghost predicate OpenBelow(i: nat)
      reads this
    {
      forall s :: s in open ==> s.0 < i
    }

    method Visit(i: nat, j: nat) returns (r: Outcome)
      requires Valid() && i <= |pattern| && j <= |name| && OpenBelow(i)
      modifies this
      ensures Valid() && r == Selection.Visit(m, pattern, name, i, j)
      ensures r.Value? ==> open == old(open)
      ensures old(begun) <= begun
      decreases |pattern| - i, 2
    {
      var k := i;
      while k + 1 < |pattern| && pattern[k] == STARS && pattern[k + 1] == STARS
        invariant i <= k <= |pattern|
        invariant Collapse(pattern, i) == Collapse(pattern, k)
      {
        k := k + 1;
      }
      CollapsedVisit(m, pattern, name, i, j);
      CollapseAgain(pattern, i);
      r := Recall(k, j);
    }

    /** Look the state up, or evaluate and remember it. */
    method Recall(k: nat, j: nat) returns (r: Outcome)
      requires Valid() && k <= |pattern| && j <= |name| && OpenBelow(k) && Collapse(pattern, k) == k
      modifies this
      ensures Valid() && r == Selection.Visit(m, pattern, name, k, j)
      ensures r.Value? ==> open == old(open)
      ensures old(begun) <= begun
      decreases |pattern| - k, 1
    {
      hide Collapse, Selection.Visit, Scan;
      var current := (k, j);
      if current in seen { return Value(memo[current]); }
      Begin(k, j);
      r := Evaluate(k, j);
      if r.Value? {
        Remember(k, j, r.matched);
      }
    }

    /** The switch of the visit closure, for a state met for the first time. */
    method Evaluate(k: nat, j: nat) returns (r: Outcome)
      requires Valid() && k <= |pattern| && j <= |name| && Collapse(pattern, k) == k
      requires OpenBelow(k + 1) && (k, j) in open && (k, j) !in matchedAt
      modifies this
      ensures Valid() && r == Selection.Visit(m, pattern, name, k, j)
      ensures r.Value? ==> open == old(open)
      ensures old(begun) <= begun
      decreases |pattern| - k, 0
    {
      if k == |pattern| {
        r := Value(j == |name|);
      } else if pattern[k] == STARS {
        if k + 1 == |pattern| {
          r := Value(true);
        } else {
          r := ScanRun(k + 1, j);
        }
      } else if j < |name| {
        var segment := MatchSegment(k, j);
        match segment {
          case Malformed => r := Bad;
          case Differs => r := Value(false);
          case Fits => r := Visit(k + 1, j + 1);
        }
      } else {
        r := Value(false);
      }
    }

    /** The loop over what a double star may cover. */
    method ScanRun(i: nat, j: nat) returns (r: Outcome)
      requires Valid() && i <= |pattern| && j <= |name| && OpenBelow(i)
      modifies this
      ensures Valid() && r == Scan(m, pattern, name, i, j)
      ensures r.Value? ==> open == old(open)
      ensures old(begun) <= begun
      decreases |pattern| - i, 3
    {
      hide Selection.Visit, Collapse;
      for next := j to |name| + 1
        invariant Valid() && open == old(open) && old(begun) <= begun
        invariant next <= |name| ==> Scan(m, pattern, name, i, j) == Scan(m, pattern, name, i, next)
        invariant next == |name| + 1 ==> Scan(m, pattern, name, i, j) == Value(false)
      {
        r := Visit(i, next);
        if r.Bad? || r.matched { return; }
      }
      r := Value(false);
    }

    method Remember(k: nat, j: nat, matched: bool)
      requires Valid() && k <= |pattern| && j <= |name| && (k, j) in open
      requires Selection.Visit(m, pattern, name, k, j) == Value(matched)
      modifies this`seen, this`memo, this`open
      ensures Valid() && open == old(open) - {(k, j)}
    {
      open := open - {(k, j)};
      seen := seen + {(k, j)};
      memo := memo[(k, j) := matched];
    }

    method Begin(k: nat, j: nat)
      requires Valid() && k <= |pattern| && j <= |name| && OpenBelow(k) && (k, j) !in seen
      modifies this`begun, this`open, this`evaluations
      ensures Valid() && open == old(open) + {(k, j)} && (k, j) !in old(begun) && old(begun) <= begun
    {
      open := open + {(k, j)};
      begun := begun + {(k, j)};
      evaluations := evaluations + 1;
    }

    /** The state is being evaluated for the first time, so this is its first path.Match call. */
    method MatchSegment(k: nat, j: nat) returns (r: Segment)
      requires Valid() && k < |pattern| && j < |name| && (k, j) in begun && (k, j) !in matchedAt
      modifies this`matchedAt, this`matchCalls
      ensures Valid() && matchedAt == old(matchedAt) + {(k, j)} && r == m(pattern[k], name[j])
    {
      r := m(pattern[k], name[j]);
      matchedAt := matchedAt + {(k, j)};
      matchCalls := matchCalls + 1;
    }
  }

  lemma {:induction false} CollapseAgain(p: Path, i: nat)
    requires i <= |p|
    ensures Collapse(p, Collapse(p, i)) == Collapse(p, i)
    decreases |p| - i
  {
    if i + 1 < |p| && p[i] == STARS && p[i + 1] == STARS {
      CollapseAgain(p, i + 1);
    }
  }

  lemma CollapsedVisit(m: SegmentMatch, p: Path, n: Path, i: nat, j: nat)
    requires i <= |p| && j <= |n|
    ensures Selection.Visit(m, p, n, i, j) == Selection.Visit(m, p, n, Collapse(p, i), j)
  {
    CollapseAgain(p, i);
  }

  /** A set of grid points has no more points than the grid. */
  lemma {:induction false} GridBound(s: set<State>, a: nat, b: nat)
    requires forall t :: t in s ==> t.0 < a && t.1 < b
    ensures |s| <= a * b
    decreases a
  {
    if a == 0 {
      assert s == {};
    } else {
      var row := set t | t in s && t.0 == a - 1;
      RowBound(row, a - 1, b);
      GridBound(s - row, a - 1, b);
      assert s == (s - row) + row;
      assert a * b == (a - 1) * b + b;
    }
  }

  lemma {:induction false} RowBound(s: set<State>, i: nat, b: nat)
    requires forall t :: t in s ==> t.0 == i && t.1 < b
    ensures |s| <= b
    decreases b
  {
    if b == 0 {
      assert s == {};
    } else {
      RowBound(s - {(i, b - 1)}, i, b - 1);
      assert s <= (s - {(i, b - 1)}) + {(i, b - 1)};
    }
  }

  /**
    matchParts: the plain recursion's result, with each state evaluated at most once and path.Match
    called at most |pattern| * |name| times.
   */
  method MatchParts(m: SegmentMatch, pattern: Path, name: Path)
    returns (r: Outcome, ghost evaluations: nat, ghost matchCalls: nat)
    ensures r == Selection.Visit(m, pattern, name, 0, 0)
    ensures r.Value? ==> (r.matched <==> Matches(m, pattern, name))
    ensures evaluations <= (|pattern| + 1) * (|name| + 1)
    ensures matchCalls <= |pattern| * |name|
  {
    var matcher := new Matcher(m, pattern, name);
    r := matcher.Visit(0, 0);
    evaluations, matchCalls := matcher.evaluations, matcher.matchCalls;
    GridBound(matcher.begun, |pattern| + 1, |name| + 1);
    GridBound(matcher.matchedAt, |pattern|, |name|);
    if r.Value? {
      VisitMeans(m, pattern, name, 0, 0);
      assert MatchesFrom(m, pattern, name, 0, 0) <==> Matches(m, pattern, name);
    }
  }

  // Match on strings

  /** The patterns Match is willing to use. */
  predicate PortablePattern(pattern: string) {
    pattern != "" && pattern[0] != '/' && '\\' !in pattern && UP !in Split(pattern)
  }

  /** strings.TrimPrefix(path.Clean(name), "./") names something inside. */
  predicate InsideName(clean: string) {
    clean != HERE && !(UP + "/" <= clean) && !(clean != "" && clean[0] == '/')
  }

  function TrimHere(s: string): string {
    if HERE + "/" <= s then s[2..] else s
  }

  /** selection.Match */
  function MatchName(m: SegmentMatch, pattern: string, name: string): Outcome {
    var clean := TrimHere(CleanString(name));
    if !PortablePattern(pattern) || !InsideName(clean) then Bad
    else Selection.Visit(m, Split(pattern), Split(clean), 0, 0)
  }

  method Match(m: SegmentMatch, pattern: string, name: string) returns (r: Outcome)
    ensures r == MatchName(m, pattern, name)
  {
    if pattern == "" { return Bad; }
    if pattern[0] == '/' || '\\' in pattern { return Bad; }
    var parts := Split(pattern);
    for i := 0 to |parts|
      invariant UP !in parts[..i]
    {
      if parts[i] == UP { return Bad; }
      assert parts[..i + 1] == parts[..i] + [parts[i]];
    }
    assert parts[..|parts|] == parts;
    var clean := TrimHere(CleanString(name));
    if clean == HERE || UP + "/" <= clean || (clean != "" && clean[0] == '/') { return Bad; }
    ghost var evaluations, matchCalls;
    r, evaluations, matchCalls := MatchParts(m, parts, Split(clean));
  }

  /** A name that is already clean is matched segment by segment as it stands. */
  lemma MatchCleanName(m: SegmentMatch, pattern: string, name: Path)
    requires PortablePattern(pattern) && AllNormal(name) && name != []
    ensures MatchName(m, pattern, Join(name)) == Selection.Visit(m, Split(pattern), name, 0, 0)
  {
    var s := Join(name);
    SplitJoin(name);
    JoinStart(name);
    CleanNormal(false, [], name);
    assert [] + name == name;
    EscapesBySegment(name);
    NotHere(name);
  }

  lemma JoinStart(name: Path)
    requires AllNormal(name) && name != []
    ensures Join(name) != "" && Join(name)[0] != '/'
  {
    assert Join(name)[0] == name[0][0];
  }

  lemma NotHere(name: Path)
    requires AllNormal(name) && name != []
    ensures Join(name) != HERE && !(HERE + "/" <= Join(name))
  {
    var j, n := Join(name), |name[0]|;
    assert name[0] <= j && (|name| > 1 ==> j[n] == '/');
    assert forall k :: 0 <= k < n ==> j[k] == name[0][k];
    assert HERE + "/" <= j <==> |j| >= 2 && j[0] == '.' && j[1] == '/';
    assert name[0] == HERE <==> n == 1 && name[0][0] == '.';
  }

  /** A pattern ending in a double star that matches a directory matches everything below it. */
  lemma StarsCoverBelow(m: SegmentMatch, pattern: Path, dir: Path, below: Path)
    requires pattern != [] && pattern[|pattern| - 1] == STARS && Matches(m, pattern, dir)
    ensures Matches(m, pattern, dir + below)
  {
    var cuts :| IsSplit(m, pattern, dir, 0, 0, cuts);
    var n := dir + below;
    var longer := cuts[|pattern| := |n|];
    forall l | 0 <= l < |pattern| - 0 ensures Covers(m, pattern[0 + l], n, longer[l], longer[l + 1]) {
      assert Covers(m, pattern[0 + l], dir, cuts[l], cuts[l + 1]);
    }
    assert IsSplit(m, pattern, n, 0, 0, longer);
  }

  /** The patterns refused, by their characters and segments. */
  lemma PatternChecks(m: SegmentMatch, pattern: string, name: string)
    ensures pattern == "" || pattern[0] == '/' || '\\' in pattern || ".." in Split(pattern) ==>
              MatchName(m, pattern, name) == Bad
    ensures pattern != "" && pattern[0] != '/' && '\\' !in pattern && ".." !in Split(pattern) ==>
              forall n :: AllNormal(n) && n != [] ==>
                MatchName(m, pattern, Join(n)) == Selection.Visit(m, Split(pattern), n, 0, 0)
  {
    hide Split, Join, Selection.Visit, CleanString;
    assert UP == "..";
    if PortablePattern(pattern) {
      forall n | AllNormal(n) && n != []
        ensures MatchName(m, pattern, Join(n)) == Selection.Visit(m, Split(pattern), n, 0, 0)
      {
        MatchCleanName(m, pattern, n);
      }
    }
  }
}
