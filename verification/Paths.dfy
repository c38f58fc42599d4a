/** Slash-separated names: splitting, joining, and lexical cleaning as a stack machine. */
module Paths {
  type Path = seq<string>

  const UP: string := ".."
  const HERE: string := "."

  /** strings.Split(s, "/") */
  function Split(s: string): (r: Path)
    ensures r != []
    ensures forall i :: 0 <= i < |r| ==> '/' !in r[i]
  {
    if s == "" then [""]
    else
      var rest := Split(s[1..]);
      if s[0] == '/' then [""] + rest else [[s[0]] + rest[0]] + rest[1..]
  }

  /** strings.Join(segs, "/") */
  function Join(segs: Path): string {
    if segs == [] then "" else if |segs| == 1 then segs[0] else segs[0] + "/" + Join(segs[1..])
  }

  lemma {:induction false} SplitOne(s: string)
    requires '/' !in s
    ensures Split(s) == [s]
  {
    if s != "" {
      SplitOne(s[1..]);
      assert s == [s[0]] + s[1..];
    }
  }

  lemma {:induction false} SplitCons(head: string, rest: string)
    requires '/' !in head
    ensures Split(head + "/" + rest) == [head] + Split(rest)
  {
    var s := head + "/" + rest;
    if head == "" {
      assert s[0] == '/' && s[1..] == rest;
    } else {
      assert s[1..] == head[1..] + "/" + rest;
      SplitCons(head[1..], rest);
      assert head == [head[0]] + head[1..];
    }
  }

  lemma SplitStep(c: char, t: string)
    ensures var rest := Split(t);
            Split([c] + t) == if c == '/' then [""] + rest else [[c] + rest[0]] + rest[1..]
  {
    assert ([c] + t)[1..] == t;
  }

  lemma Regroup(c: char, a: Path, b: Path)
    requires a != []
    ensures [[c] + (a + b)[0]] + (a + b)[1..] == ([[c] + a[0]] + a[1..]) + b
    ensures [""] + (a + b) == ([""] + a) + b
  {
    assert (a + b)[1..] == a[1..] + b;
  }

  lemma {:induction false} SplitConcat(s: string, u: string)
    ensures Split(s + "/" + u) == Split(s) + Split(u)
    decreases |s|
  {
    hide Split;
    if s == "" {
      SplitOne("");
      assert s + "/" + u == ['/'] + u;
      SplitStep('/', u);
    } else {
      var c, t := s[0], s[1..];
      var rest := t + "/" + u;
      SplitConcat(t, u);
      assert s == [c] + t;
      assert s + "/" + u == [c] + rest;
      SplitStep(c, t);
      SplitStep(c, rest);
      Regroup(c, Split(t), Split(u));
    }
  }

  /** Splitting undoes joining for segments without slashes. */
  lemma {:induction false} SplitJoin(segs: Path)
    requires segs != [] && forall i :: 0 <= i < |segs| ==> '/' !in segs[i]
    ensures Split(Join(segs)) == segs
  {
    if |segs| == 1 {
      SplitOne(segs[0]);
    } else {
      SplitCons(segs[0], Join(segs[1..]));
      SplitJoin(segs[1..]);
    }
  }

  /** So the text of a path determines it: a table keyed by text is one keyed by segments. */
  lemma JoinInjective(p: Path, q: Path)
    requires p != [] && q != [] && (forall s :: s in p + q ==> '/' !in s) && Join(p) == Join(q)
    ensures p == q
  {
    assert forall i :: 0 <= i < |p| ==> p[i] in p + q;
    assert forall i :: 0 <= i < |q| ==> q[i] in p + q;
    SplitJoin(p);
    SplitJoin(q);
  }

  /** ... and joining undoes splitting. */
  lemma {:induction false} JoinSplit(s: string)
    ensures Join(Split(s)) == s
  {
    if s != "" {
      JoinSplit(s[1..]);
      var rest := Split(s[1..]);
      if s[0] == '/' {
        assert ([""] + rest)[1..] == rest;
      } else {
        var r := [[s[0]] + rest[0]] + rest[1..];
        assert r[1..] == rest[1..];
      }
    }
  }

  /** A segment that names something: not empty, not ".", not "..", no slash. */
  predicate Normal(seg: string) {
    seg != "" && seg != HERE && seg != UP && '/' !in seg
  }

  predicate AllNormal(p: Path) {
    forall i :: 0 <= i < |p| ==> Normal(p[i])
  }

  /** One segment in path.Clean. */
  function CleanStep(rooted: bool, stack: Path, seg: string): Path {
    if seg == "" || seg == HERE then stack
    else if seg == UP then
      if stack != [] && stack[|stack| - 1] != UP then stack[..|stack| - 1]
      else if rooted then stack
      else stack + [UP]
    else stack + [seg]
  }

  function CleanFrom(rooted: bool, stack: Path, segs: Path): Path
    decreases |segs|
  {
    if segs == [] then stack else CleanFrom(rooted, CleanStep(rooted, stack, segs[0]), segs[1..])
  }

  /** The segments of path.Clean on a path with these segments. */
  function Clean(rooted: bool, segs: Path): Path {
    CleanFrom(rooted, [], segs)
  }

  /** path.Clean on a string. */
  function CleanString(s: string): string {
    var rooted := s != "" && s[0] == '/';
    var segs := Clean(rooted, Split(s));
    if rooted then "/" + Join(segs) else if segs == [] then HERE else Join(segs)
  }

  lemma {:induction false} CleanNormal(rooted: bool, stack: Path, segs: Path)
    requires AllNormal(segs)
    ensures CleanFrom(rooted, stack, segs) == stack + segs
    decreases |segs|
  {
    if segs != [] {
      CleanNormal(rooted, stack + [segs[0]], segs[1..]);
      assert stack + [segs[0]] + segs[1..] == stack + segs;
    } else {
      assert stack + segs == stack;
    }
  }

  lemma {:induction false} CleanSplits(rooted: bool, stack: Path, a: Path, b: Path)
    ensures CleanFrom(rooted, stack, a + b) == CleanFrom(rooted, CleanFrom(rooted, stack, a), b)
    decreases |a|
  {
    if a == [] {
      assert a + b == b;
    } else {
      assert (a + b)[1..] == a[1..] + b;
      CleanSplits(rooted, CleanStep(rooted, stack, a[0]), a[1..], b);
    }
  }

  /** A relative walk boiled down: so many levels up, then down these segments. */
  datatype Climb = Climb(up: nat, down: Path)

  function ClimbStep(c: Climb, seg: string): Climb {
    if seg == "" || seg == HERE then c
    else if seg == UP then
      if c.down != [] then c.(down := c.down[..|c.down| - 1]) else c.(up := c.up + 1)
    else c.(down := c.down + [seg])
  }

  function ClimbFrom(c: Climb, segs: Path): Climb
    decreases |segs|
  {
    if segs == [] then c else ClimbFrom(ClimbStep(c, segs[0]), segs[1..])
  }

  function Ups(n: nat): Path {
    seq(n, i => UP)
  }

  /** `root` after climbing: the root directory is its own parent. */
  function After(root: Path, c: Climb): Path {
    root[..if c.up < |root| then |root| - c.up else 0] + c.down
  }

  predicate DownNamed(c: Climb) {
    forall i :: 0 <= i < |c.down| ==> c.down[i] != UP
  }

  lemma CleanStepClimbs(c: Climb, seg: string)
    requires DownNamed(c)
    ensures var next := ClimbStep(c, seg);
            DownNamed(next) && CleanStep(false, Ups(c.up) + c.down, seg) == Ups(next.up) + next.down
  {
    var stack := Ups(c.up) + c.down;
    if seg == UP {
      if c.down != [] {
        assert stack[|stack| - 1] == c.down[|c.down| - 1];
      } else if c.up > 0 {
        assert stack[|stack| - 1] == UP;
      }
    }
  }

  /** Cleaning a relative path performs its climb. */
  lemma {:induction false} CleanRelative(c: Climb, segs: Path)
    requires DownNamed(c)
    ensures var d := ClimbFrom(c, segs);
            DownNamed(d) && CleanFrom(false, Ups(c.up) + c.down, segs) == Ups(d.up) + d.down
    decreases |segs|
  {
    if segs != [] {
      hide ClimbStep, CleanStep, Ups, DownNamed;
      CleanStepClimbs(c, segs[0]);
      CleanRelative(ClimbStep(c, segs[0]), segs[1..]);
    }
  }

  /** Cleaning it below an absolute root lands where the climb from that root leads. */
  lemma {:induction false} CleanBelow(root: Path, c: Climb, segs: Path)
    requires AllNormal(root) && DownNamed(c)
    ensures CleanFrom(true, After(root, c), segs) == After(root, ClimbFrom(c, segs))
    decreases |segs|
  {
    if segs != [] {
      var stack, next := After(root, c), ClimbStep(c, segs[0]);
      assert DownNamed(next);
      assert CleanStep(true, stack, segs[0]) == After(root, next) by {
        if segs[0] == UP && c.down == [] && stack != [] {
          assert stack[|stack| - 1] == root[|stack| - 1];
        }
      }
      CleanBelow(root, next, segs[1..]);
    }
  }

  lemma {:induction false} ClimbNormal(c: Climb, segs: Path)
    requires AllNormal(segs)
    ensures ClimbFrom(c, segs) == c.(down := c.down + segs)
    decreases |segs|
  {
    if segs == [] {
      assert c.down + segs == c.down;
    } else {
      var next := c.(down := c.down + [segs[0]]);
      ClimbNormal(next, segs[1..]);
      assert c.down + [segs[0]] + segs[1..] == c.down + segs;
    }
  }

  /** filepath.Rel on clean absolute paths: drop what is shared, climb out of the rest of the base. */
  function Rel(base: Path, target: Path): Path {
    if base != [] && target != [] && base[0] == target[0] then Rel(base[1..], target[1..])
    else Ups(|base|) + target
  }

  /** The two string tests the source makes for a path that climbs out. */
  predicate Escapes(p: Path) {
    Join(p) == UP || UP + "/" <= Join(p)
  }

  lemma EscapesBySegment(p: Path)
    requires forall i :: 0 <= i < |p| ==> '/' !in p[i]
    ensures Escapes(p) <==> p != [] && p[0] == UP
  {
    if p != [] {
      var j, n := Join(p), |p[0]|;
      assert p[0] <= j && (|p| > 1 ==> j[n] == '/');
      assert forall k :: 0 <= k < n ==> j[k] == p[0][k];
      assert UP + "/" <= j <==> |j| >= 3 && j[0] == '.' && j[1] == '.' && j[2] == '/';
      assert p[0] == UP <==> n == 2 && p[0][0] == '.' && p[0][1] == '.';
    }
  }

  /** The relative path climbs out exactly when the base is not a prefix of the target. */
  lemma {:induction false} RelEscapes(base: Path, target: Path)
    requires AllNormal(base) && AllNormal(target)
    ensures Escapes(Rel(base, target)) <==> !(base <= target)
  {
    if base != [] && target != [] && base[0] == target[0] {
      RelEscapes(base[1..], target[1..]);
      assert base == [base[0]] + base[1..] && target == [target[0]] + target[1..];
    } else {
      var r := Ups(|base|) + target;
      EscapesBySegment(r);
      if base == [] {
        assert r == target;
      } else {
        assert r[0] == UP;
      }
    }
  }
}
