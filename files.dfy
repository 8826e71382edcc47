/**
 * Path and glob helpers of Ska/File.py: the relative path from a current directory
 * to a destination (relpath), and the bounds on the number of files a glob may
 * match (get_globfiles).  Paths are POSIX paths as os.path.abspath returns them.
 */
module Files {
  import opened Wrappers
  import opened Text

  datatype FileError =
    | TooFewFiles        // ValueError: fewer matches than minfiles
    | TooManyFiles       // ValueError: more matches than maxfiles
    | NoPathComponents   // TypeError: os.path.join() called with no argument

  /** The count check of get_globfiles on the files the glob matched; a bound of None
      is no bound, and the minimum is checked first. */
  function CheckGlobCount(files: seq<string>, minfiles: Option<int>, maxfiles: Option<int>): (r: Result<seq<string>, FileError>)
    ensures r.Success? <==> (minfiles.None? || |files| >= minfiles.value) && (maxfiles.None? || |files| <= maxfiles.value)
    ensures r.Success? ==> r.value == files
    ensures r == Failure(TooFewFiles) <==> minfiles.Some? && |files| < minfiles.value
    ensures r == Failure(TooManyFiles) <==>
              (minfiles.None? || |files| >= minfiles.value) && maxfiles.Some? && |files| > maxfiles.value
  {
    if minfiles.Some? && |files| < minfiles.value then Failure(TooFewFiles)
    else if maxfiles.Some? && |files| > maxfiles.value then Failure(TooManyFiles)
    else Success(files)
  }

  /** With the default bounds exactly one file must match. */
  lemma DefaultGlobNeedsOne(files: seq<string>)
    ensures CheckGlobCount(files, Some(1), Some(1)).Success? <==> |files| == 1
    ensures files == [] ==> CheckGlobCount(files, Some(1), Some(1)) == Failure(TooFewFiles)
  {
  }

  const Sep: char := '/'
  const ParDir: string := ".."

  /** A name of a normalised path: not empty, not "." or "..", without separator. */
  predicate IsName(part: string) {
    part != "" && part != "." && part != ParDir && Sep !in part
  }

  /** The components of an absolute path as abspath() returns it: "/" alone gives
      ["", ""], otherwise "" followed by one or more names. */
  predicate IsNormParts(parts: seq<string>) {
    |parts| >= 2 && parts[0] == "" &&
    (parts == ["", ""] || forall i :: 1 <= i < |parts| ==> IsName(parts[i]))
  }

  predicate IsNormAbs(p: string) {
    IsNormParts(SplitOn(p, Sep))
  }

  /** posixpath.join(path, *more): a component starting with "/" restarts the path,
      otherwise it is appended after a "/" unless the path is empty or ends with one. */
  function JoinPaths(path: string, more: seq<string>): string
    decreases |more|
  {
    if more == [] then path
    else
      var b := more[0];
      var next :=
        if StartsWith(b, [Sep]) then b
        else if path == [] || path[|path| - 1] == Sep then path + b
        else path + [Sep] + b;
      JoinPaths(next, more[1..])
  }

  /** os.path.join(*parts), which needs at least one argument. */
  function PathJoin(parts: seq<string>): Result<string, FileError> {
    if parts == [] then Failure(NoPathComponents) else Success(JoinPaths(parts[0], parts[1..]))
  }

  /** Length of the longest common prefix of two component lists. */
  function CommonPrefix(a: seq<string>, b: seq<string>): (k: nat)
    ensures k <= |a| && k <= |b| && a[..k] == b[..k]
    ensures k < |a| && k < |b| ==> a[k] != b[k]
  {
    if a != [] && b != [] && a[0] == b[0] then
      var k := 1 + CommonPrefix(a[1..], b[1..]);
      assert a[..k] == [a[0]] + a[1..][..k - 1];
      assert b[..k] == [b[0]] + b[1..][..k - 1];
      k
    else 0
  }

  function Ups(n: nat): (r: seq<string>)
    ensures |r| == n && forall i :: 0 <= i < n ==> r[i] == ParDir
  {
    seq(n, _ => ParDir)
  }

  /** relpath on the components of the current directory (cp) and of the destination
      (dp): the destination itself when they differ in their first directory, else
      one ".." per directory of cp below the common prefix followed by the rest of dp. */
  function RelPath(cp: seq<string>, dp: seq<string>): Result<string, FileError>
    requires IsNormParts(cp) && IsNormParts(dp)
  {
    if cp[1] != dp[1] then Success(Join(dp, [Sep]))
    else
      var k := CommonPrefix(cp, dp);
      PathJoin(Ups(|cp| - k) + dp[k..])
  }

  /** relpath's loop: common leading components are popped from both lists. */
  method Relpath(curr: string, dest: string) returns (r: Result<string, FileError>)
    requires IsNormAbs(curr) && IsNormAbs(dest)
    ensures r == RelPath(SplitOn(curr, Sep), SplitOn(dest, Sep))
  {
    var currpaths, destpaths := SplitOn(curr, Sep), SplitOn(dest, Sep);
    if currpaths[1] != destpaths[1] {
      JoinSplitOn(dest, Sep);
      return Success(dest);
    }
    ghost var cp, dp, k := currpaths, destpaths, 0;
    while |currpaths| > 0 && |destpaths| > 0 && currpaths[0] == destpaths[0]
      invariant k <= |cp| && k <= |dp| && currpaths == cp[k..] && destpaths == dp[k..]
      invariant k + CommonPrefix(currpaths, destpaths) == CommonPrefix(cp, dp)
    {
      currpaths, destpaths := currpaths[1..], destpaths[1..];
      k := k + 1;
    }
    r := PathJoin(Ups(|currpaths|) + destpaths);
  }

  /** The path a list of steps leads to from `base`, as normpath resolves it: ".."
      drops the last component, a name is appended. */
  function Walk(base: seq<string>, steps: seq<string>): seq<string>
    decreases |steps|
  {
    if steps == [] then base
    else
      var step := steps[0];
      var next := if step == ParDir then (if base == [] then [] else base[..|base| - 1]) else base + [step];
      Walk(next, steps[1..])
  }

  lemma {:induction false} WalkUp(base: seq<string>, n: nat, rest: seq<string>)
    requires n <= |base|
    ensures Walk(base, Ups(n) + rest) == Walk(base[..|base| - n], rest)
    decreases n
  {
    if n > 0 {
      var steps := Ups(n) + rest;
      assert steps[0] == ParDir;
      assert steps[1..] == Ups(n - 1) + rest;
      WalkUp(base[..|base| - 1], n - 1, rest);
      assert base[..|base| - 1][..|base| - 1 - (n - 1)] == base[..|base| - n];
    } else {
      assert Ups(0) + rest == rest;
      assert base[..|base| - n] == base;
    }
  }

  lemma {:induction false} WalkDown(base: seq<string>, names: seq<string>)
    requires forall i :: 0 <= i < |names| ==> names[i] != ParDir
    ensures Walk(base, names) == base + names
    decreases |names|
  {
    if names != [] {
      WalkDown(base + [names[0]], names[1..]);
      assert base + [names[0]] + names[1..] == base + names;
    }
  }

  /** Joining plain names is joining with "/". */
  lemma {:induction false} JoinPathsPlain(path: string, more: seq<string>)
    requires path != [] && path[|path| - 1] != Sep
    requires forall i :: 0 <= i < |more| ==> more[i] != [] && Sep !in more[i]
    ensures JoinPaths(path, more) == Join([path] + more, [Sep])
    decreases |more|
  {
    if more != [] {
      var next := path + [Sep] + more[0];
      assert !StartsWith(more[0], [Sep]) by {
        assert more[0][0] in more[0];
      }
      assert next[|next| - 1] == more[0][|more[0]| - 1] by {
        assert more[0][|more[0]| - 1] in more[0];
      }
      JoinPathsPlain(next, more[1..]);
      JoinGlued(path, more[0], more[1..]);
    }
  }

  lemma JoinGlued(a: string, b: string, rest: seq<string>)
    ensures Join([a + [Sep] + b] + rest, [Sep]) == Join([a] + ([b] + rest), [Sep])
  {
    assert ([a] + ([b] + rest))[1..] == [b] + rest;
    assert ([b] + rest)[1..] == rest;
    assert ([a + [Sep] + b] + rest)[1..] == rest;
  }

  /** The relative path is joined from names and ".."s, so splitting it again gives
      them back. */
  lemma RelPartsJoin(rel: seq<string>)
    requires |rel| >= 1 && forall i :: 0 <= i < |rel| ==> rel[i] != [] && Sep !in rel[i]
    ensures PathJoin(rel) == Success(Join(rel, [Sep]))
    ensures SplitOn(Join(rel, [Sep]), Sep) == rel
  {
    assert rel[0][|rel[0]| - 1] != Sep by {
      assert rel[0][|rel[0]| - 1] in rel[0];
    }
    JoinPathsPlain(rel[0], rel[1..]);
    assert [rel[0]] + rel[1..] == rel;
    SplitOnJoin(rel, Sep);
  }

  /** Paths that differ in their first directory get the destination itself (the
      path does not climb to the root and back); otherwise resolving the relative
      path from cp leads to dp. */
  lemma RelPathResolves(cp: seq<string>, dp: seq<string>)
    requires IsNormParts(cp) && IsNormParts(dp)
    requires RelPath(cp, dp).Success?
    ensures cp[1] != dp[1] ==> RelPath(cp, dp).value == Join(dp, [Sep])
    ensures cp[1] == dp[1] ==> Walk(cp, SplitOn(RelPath(cp, dp).value, Sep)) == dp
  {
    if cp[1] == dp[1] {
      var k := CommonPrefix(cp, dp);
      var rel := Ups(|cp| - k) + dp[k..];
      assert RelPath(cp, dp) == PathJoin(rel);
      RelPathFails(cp, dp);
      RelPartsUsable(cp, dp, k);
      RelPartsJoin(rel);
      WalkBack(cp, dp, k);
    }
  }

  /** The components of the relative path are ".."s and names of dp, never empty. */
  lemma RelPartsUsable(cp: seq<string>, dp: seq<string>, k: nat)
    requires IsNormParts(cp) && IsNormParts(dp) && cp[1] == dp[1] && cp != dp
    requires k == CommonPrefix(cp, dp)
    ensures k >= 2
    ensures var rel := Ups(|cp| - k) + dp[k..];
            |rel| >= 1 && forall i :: 0 <= i < |rel| ==> rel[i] != [] && Sep !in rel[i]
  {
    var rel := Ups(|cp| - k) + dp[k..];
    assert k >= 2;
    forall i | 0 <= i < |rel|
      ensures rel[i] != [] && Sep !in rel[i]
    {
      if i >= |cp| - k {
        assert rel[i] == dp[k + i - (|cp| - k)];
      }
    }
  }

  /** From cp, the ".."s climb to the common prefix and the names descend to dp. */
  lemma WalkBack(cp: seq<string>, dp: seq<string>, k: nat)
    requires IsNormParts(cp) && IsNormParts(dp) && cp[1] == dp[1]
    requires k == CommonPrefix(cp, dp)
    ensures Walk(cp, Ups(|cp| - k) + dp[k..]) == dp
  {
    WalkUp(cp, |cp| - k, dp[k..]);
    assert cp[..|cp| - (|cp| - k)] == dp[..k];
    assert k >= 2;
    assert forall i :: 0 <= i < |dp[k..]| ==> dp[k..][i] == dp[k + i];
    WalkDown(dp[..k], dp[k..]);
    assert dp[..k] + dp[k..] == dp;
  }

  /** The only failure: the two paths are the same, so no component is left to join. */
  lemma RelPathFails(cp: seq<string>, dp: seq<string>)
    requires IsNormParts(cp) && IsNormParts(dp)
    ensures RelPath(cp, dp).Failure? <==> cp == dp
  {
    if cp[1] == dp[1] {
      var k := CommonPrefix(cp, dp);
      if k == |cp| && k == |dp| {
        assert cp == cp[..k] == dp[..k] == dp;
      }
    }
  }

  /** A destination below cp is reached without "..": the names past cp, joined. */
  lemma RelPathBelow(cp: seq<string>, dp: seq<string>)
    requires IsNormParts(cp) && IsNormParts(dp)
    requires cp[1] == dp[1] && |cp| < |dp| && dp[..|cp|] == cp
    ensures RelPath(cp, dp) == Success(Join(dp[|cp|..], [Sep]))
  {
    var k := CommonPrefix(cp, dp);
    assert k == |cp|;
    var rel := dp[k..];
    assert Ups(0) + rel == rel;
    assert forall i :: 0 <= i < |rel| ==> rel[i] == dp[k + i];
    RelPartsJoin(rel);
  }

  /** The examples of relpath's documentation: two levels up, down into a
      subdirectory, and a different first directory. */
  lemma RelPathExampleUp(cp: seq<string>, dp: seq<string>)
    requires cp == ["", "a", "b", "c", "d"] && dp == ["", "a", "b", "hello", "there"]
    ensures RelPath(cp, dp) == Success("../../hello/there")
  {
    PrefixOfExampleUp(cp, dp);
    var rel := Ups(2) + dp[3..];
    assert rel == ["..", "..", "hello", "there"];
    JoinFour("..", "..", "hello", "there");
    assert Join(rel, [Sep]) == ".." + [Sep] + ".." + [Sep] + "hello" + [Sep] + "there";
    assert ".." + [Sep] + ".." + [Sep] + "hello" + [Sep] + "there" == "../../hello/there";
    RelPartsJoin(rel);
  }

  lemma PrefixOfExampleUp(cp: seq<string>, dp: seq<string>)
    requires cp == ["", "a", "b", "c", "d"] && dp == ["", "a", "b", "hello", "there"]
    ensures CommonPrefix(cp, dp) == 3
  {
    assert cp[1..][1..] == cp[2..] && cp[2..][1..] == cp[3..];
    assert dp[1..][1..] == dp[2..] && dp[2..][1..] == dp[3..];
    assert CommonPrefix(cp[3..], dp[3..]) == 0;
  }

  /** Joining three parts puts one separator between neighbours. */
  lemma JoinThree(a: string, b: string, c: string)
    ensures Join([a, b, c], [Sep]) == a + [Sep] + b + [Sep] + c
  {
    JoinCons(b, [c], [Sep]);
    assert [a, b, c] == [a] + [b, c];
    JoinCons(a, [b, c], [Sep]);
  }

  /** Joining four parts puts one separator between neighbours. */
  lemma JoinFour(a: string, b: string, c: string, d: string)
    ensures Join([a, b, c, d], [Sep]) == a + [Sep] + b + [Sep] + c + [Sep] + d
  {
    JoinThree(b, c, d);
    assert [a, b, c, d] == [a] + [b, c, d];
    JoinCons(a, [b, c, d], [Sep]);
  }

  lemma RelPathExampleDown(cp: seq<string>, dp: seq<string>)
    requires cp == ["", "a", "b", "c", "d"] && dp == ["", "a", "b", "c", "d", "e", "hello", "there"]
    ensures RelPath(cp, dp) == Success("e/hello/there")
  {
    RelPathBelow(cp, dp);
    assert dp[|cp|..] == ["e", "hello", "there"];
    JoinThree("e", "hello", "there");
    assert Join(dp[|cp|..], [Sep]) == "e" + [Sep] + "hello" + [Sep] + "there";
    assert "e" + [Sep] + "hello" + [Sep] + "there" == "e/hello/there";
  }

  lemma RelPathExampleElsewhere(cp: seq<string>, dp: seq<string>)
    requires cp == ["", "a", "b", "c", "d"] && dp == ["", "x", "y", "hello", "there"]
    ensures RelPath(cp, dp) == Success("/x/y/hello/there")
  {
    JoinFour("x", "y", "hello", "there");
    assert "x" + [Sep] + "y" + [Sep] + "hello" + [Sep] + "there" == "x/y/hello/there";
    assert Join(["x", "y", "hello", "there"], [Sep]) == "x/y/hello/there";
    JoinCons("", ["x", "y", "hello", "there"], [Sep]);
    assert [""] + ["x", "y", "hello", "there"] == dp;
    assert Join(dp, [Sep]) == "" + [Sep] + "x/y/hello/there";
    assert "" + [Sep] + "x/y/hello/there" == "/x/y/hello/there";
  }
}
