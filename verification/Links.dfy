/** Entry names and symlink targets: the lexical policy the archive code applies to both. */
module Links {
  import opened Paths

  predicate IsAbs(s: string) {
    s != "" && s[0] == '/'
  }

  predicate IsDrivePath(s: string) {
    |s| >= 2 && s[1] == ':' && ('A' <= s[0] <= 'Z' || 'a' <= s[0] <= 'z')
  }

  /** No NUL, no backslash, neither absolute nor a drive form. */
  predicate PortableText(s: string) {
    s != "" && '\0' !in s && '\\' !in s && !IsAbs(s) && !IsDrivePath(s)
  }

  /** Character by character. */
  lemma TextChars(s: string)
    ensures PortableText(s) <==>
            && 1 <= |s| && s[0] != '/'
            && (forall i :: 0 <= i < |s| ==> s[i] != '\0' && s[i] != '\\')
            && !(|s| >= 2 && s[1] == ':' && ('A' <= s[0] <= 'Z' || 'a' <= s[0] <= 'z'))
  {
  }

  /** The segments of a name that mean something. */
  function Significant(raw: Path): (r: Path)
    ensures forall s :: s in r <==> s in raw && s != "" && s != HERE
  {
    if raw == [] then []
    else
      var k := |raw| - 1;
      if raw[k] == "" || raw[k] == HERE then Significant(raw[..k]) else Significant(raw[..k]) + [raw[k]]
  }

  datatype Name = Name(segments: Path) | BadName

  /** What validateEntryName accepts, and the segments it returns. */
  function EntryName(name: string): (r: Name)
    ensures r.Name? ==> AllNormal(r.segments) && r.segments != []
  {
    var raw := Split(name);
    if !PortableText(name) || UP in raw || Significant(raw) == [] then BadName
    else
      assert forall i :: 0 <= i < |Significant(raw)| ==> Significant(raw)[i] in Significant(raw);
      Name(Significant(raw))
  }

  lemma {:induction false} SignificantNone(raw: Path)
    ensures Significant(raw) == [] <==> forall i :: 0 <= i < |raw| ==> raw[i] == "" || raw[i] == HERE
  {
    if raw != [] {
      var k := |raw| - 1;
      SignificantNone(raw[..k]);
      assert forall i :: 0 <= i < k ==> raw[..k][i] == raw[i];
    }
  }

  /**
    A name is accepted exactly if it is no absolute path and no drive form, holds no NUL and no backslash,
    and of its segments none is ".." and some is neither empty nor ".".
   */
  lemma EntryNameChars(s: string)
    ensures EntryName(s).Name? <==>
            && 1 <= |s| && s[0] != '/'
            && (forall i :: 0 <= i < |s| ==> s[i] != '\0' && s[i] != '\\')
            && !(|s| >= 2 && s[1] == ':' && ('A' <= s[0] <= 'Z' || 'a' <= s[0] <= 'z'))
            && ".." !in Split(s) && exists i :: 0 <= i < |Split(s)| && Split(s)[i] != "" && Split(s)[i] != "."
  {
    hide PortableText, Split, Significant;
    var raw := Split(s);
    TextChars(s);
    SignificantNone(raw);
    assert UP == ".." && HERE == ".";
    assert EntryName(s).Name? <==> PortableText(s) && UP !in raw && Significant(raw) != [];
  }

  method ValidateEntryName(name: string) returns (r: Name)
    ensures r == EntryName(name)
  {
    if name == "" || '\0' in name || '\\' in name || IsAbs(name) || IsDrivePath(name) { return BadName; }
    var raw := Split(name);
    var segments: Path := [];
    for i := 0 to |raw|
      invariant UP !in raw[..i]
      invariant segments == Significant(raw[..i])
    {
      assert raw[..i + 1] == raw[..i] + [raw[i]];
      if raw[i] == UP { return BadName; }
      if raw[i] != "" && raw[i] != HERE {
        segments := segments + [raw[i]];
      }
    }
    assert raw[..|raw|] == raw;
    return if segments == [] then BadName else Name(segments);
  }

  function Parent(name: Path): Path
    requires name != []
  {
    name[..|name| - 1]
  }

  /** path.Join(path.Dir(name), target), before cleaning. */
  function LinkSegments(name: Path, target: string): Path
    requires name != []
  {
    Parent(name) + Split(target)
  }

  /** validatePortableSymlink, and word for word validateArchivedSymlinkTarget. */
  predicate PortableLink(name: Path, target: string)
    requires name != []
  {
    PortableText(target) && !Escapes(Clean(false, LinkSegments(name, target)))
  }

  /** validateSymlinkTarget below an absolute root. */
  predicate LinkBelow(root: Path, name: Path, target: string)
    requires name != []
  {
    PortableText(target) && !Escapes(Rel(root, Clean(true, root + LinkSegments(name, target))))
  }

  function LinkClimb(name: Path, target: string): Climb
    requires name != []
  {
    ClimbFrom(Climb(0, []), LinkSegments(name, target))
  }

  lemma {:induction false} ClimbNamed(c: Climb, segs: Path)
    requires AllNormal(c.down) && (forall i :: 0 <= i < |segs| ==> '/' !in segs[i])
    ensures AllNormal(ClimbFrom(c, segs).down)
    decreases |segs|
  {
    if segs != [] {
      ClimbNamed(ClimbStep(c, segs[0]), segs[1..]);
    }
  }

  lemma LinkResolves(root: Path, name: Path, target: string)
    requires AllNormal(name) && name != [] && AllNormal(root)
    ensures var c := LinkClimb(name, target);
            && AllNormal(c.down)
            && Clean(false, LinkSegments(name, target)) == Ups(c.up) + c.down
            && Clean(true, root + LinkSegments(name, target)) == After(root, c)
  {
    var segs := LinkSegments(name, target);
    ClimbNamed(Climb(0, []), segs);
    CleanRelative(Climb(0, []), segs);
    assert Ups(0) + [] == [];
    CleanNormal(true, [], root);
    CleanSplits(true, [], root, segs);
    assert [] + root == root && After(root, Climb(0, [])) == root;
    CleanBelow(root, Climb(0, []), segs);
  }

  /** The relative check, by how far the target climbs. */
  lemma PortableExactly(name: Path, target: string)
    requires AllNormal(name) && name != []
    ensures PortableLink(name, target) <==> PortableText(target) && LinkClimb(name, target).up == 0
  {
    hide Clean, Split, PortableText, LinkClimb, After, LinkSegments, Escapes;
    LinkResolves([], name, target);
    var c := LinkClimb(name, target);
    EscapesBySegment(Ups(c.up) + c.down);
    if c.up == 0 {
      assert Ups(c.up) + c.down == c.down;
    } else {
      assert (Ups(c.up) + c.down)[0] == UP;
    }
  }

  /** The absolute check below a given root. */
  lemma RootedExactly(root: Path, name: Path, target: string)
    requires AllNormal(name) && name != [] && AllNormal(root)
    ensures LinkBelow(root, name, target) <==>
            PortableText(target) && (LinkClimb(name, target).up == 0 || root <= After(root, LinkClimb(name, target)))
  {
    hide Clean, Split, Rel, PortableText, LinkClimb, LinkSegments, Escapes;
    LinkResolves(root, name, target);
    var c := LinkClimb(name, target);
    RelEscapes(root, After(root, c));
    if c.up == 0 {
      assert After(root, c) == root + c.down;
    }
  }

  /** Exactly when each check passes. */
  lemma BelowExactly(root: Path, name: Path, target: string)
    requires AllNormal(name) && name != [] && AllNormal(root)
    ensures PortableLink(name, target) <==> PortableText(target) && LinkClimb(name, target).up == 0
    ensures LinkBelow(root, name, target) <==>
            PortableText(target) && (LinkClimb(name, target).up == 0 || root <= After(root, LinkClimb(name, target)))
  {
    hide PortableLink, LinkBelow, PortableText, LinkClimb, After;
    PortableExactly(name, target);
    RootedExactly(root, name, target);
  }

  /** The target is relative, and following it from the link's directory ends below the root. */
  predicate LeadsBelow(root: Path, name: Path, target: string)
    requires name != []
  {
    target != "" && target[0] != '/' && root <= Clean(true, root + Parent(name) + Split(target))
  }

  /** An accepted target is no absolute path and leads below the root: every root, or the one it was checked under. */
  lemma AcceptedLeadsBelow(root: Path, name: Path, target: string)
    requires AllNormal(name) && name != [] && AllNormal(root)
    requires PortableLink(name, target) || LinkBelow(root, name, target)
    ensures LeadsBelow(root, name, target)
  {
    hide PortableText, Clean, Split, PortableLink, LinkBelow, LinkClimb;
    TextChars(target);
    BelowExactly(root, name, target);
    LinkResolves(root, name, target);
    assert root + Parent(name) + Split(target) == root + LinkSegments(name, target);
    var c := LinkClimb(name, target);
    if c.up == 0 {
      assert After(root, c) == root + c.down;
    }
  }

  /** The relative check implies the absolute one under every clean root. */
  lemma PortableIsBelow(root: Path, name: Path, target: string)
    requires AllNormal(name) && name != [] && AllNormal(root) && PortableLink(name, target)
    ensures LinkBelow(root, name, target)
  {
    BelowExactly(root, name, target);
  }

  function LongestDown(p: Path): nat {
    if p == [] then 0
    else
      var k := LongestDown(p[..|p| - 1]);
      if |p[|p| - 1]| > k then |p[|p| - 1]| else k
  }

  lemma {:induction false} LongestBounds(p: Path)
    ensures forall s :: s in p ==> |s| <= LongestDown(p)
  {
    if p != [] {
      LongestBounds(p[..|p| - 1]);
    }
  }

  /** A target is portable exactly when it stays below whatever root it is unpacked under. */
  lemma PortableIffBelowEveryRoot(name: Path, target: string)
    requires AllNormal(name) && name != []
    ensures PortableLink(name, target) <==> forall root :: AllNormal(root) ==> LinkBelow(root, name, target)
  {
    if PortableLink(name, target) {
      forall root | AllNormal(root) ensures LinkBelow(root, name, target) {
        PortableIsBelow(root, name, target);
      }
    } else {
      var c := LinkClimb(name, target);
      LongestBounds(c.down);
      var alien := seq(LongestDown(c.down) + 3, i => 'a');
      assert Normal(alien) by { assert alien[0] == 'a' && |alien| >= 3; }
      var root := [alien];
      assert AllNormal(root);
      BelowExactly(root, name, target);
      if PortableText(target) {
        assert After(root, c) == c.down;
        assert c.down != [] ==> c.down[0] in c.down && c.down[0] != alien;
      }
      assert !LinkBelow(root, name, target);
    }
  }

  /** The converse fails: a target may leave the root and come back by spelling the root's own name. */
  lemma SpellingTheRoot(root: string, file: string, rest: string)
    requires Normal(file) && Normal(root) && '\0' !in root && '\\' !in root
    requires Normal(rest) && '\0' !in rest && '\\' !in rest
    ensures var target := UP + "/" + (root + "/" + rest);
            LinkBelow([root], [file], target) && !PortableLink([file], target)
  {
    hide Split, Clean, LinkBelow, PortableLink;
    var target := UP + "/" + (root + "/" + rest);
    SplitOne(rest);
    SplitCons(root, rest);
    SplitCons(UP, root + "/" + rest);
    var segs := LinkSegments([file], target);
    assert segs == [UP, root, rest];
    var c := LinkClimb([file], target);
    assert segs[1..] == [root, rest];
    ClimbNormal(Climb(1, []), [root, rest]);
    assert [] + [root, rest] == [root, rest];
    assert c == Climb(1, [root, rest]);
    BelowExactly([root], [file], target);
    assert After([root], c) == [root, rest];
    assert target[0] == '.' && target[1] == '.';
  }
}
