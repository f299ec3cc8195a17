/**
 * File paths as the photo server sees them: absolute paths as sequences of
 * elements (the root "/" is the empty sequence), `filepath.Join` followed
 * by cleaning, `filepath.Rel`, and the containment test `isPathSafe`.
 */
module Paths {
  import opened Wrappers

  /** The elements of an absolute path, outermost first. */
  type Path = seq<string>

  /** An element that `filepath.Clean` can leave in a path. */
  predicate IsCleanElement(e: string)
  {
    e != "" && e != "." && e != ".." && '/' !in e
  }

  predicate IsClean(p: Path)
  {
    forall i :: 0 <= i < |p| ==> IsCleanElement(p[i])
  }

  /** Elements that hold no separator. */
  predicate Unslashed(elems: seq<string>)
  {
    forall i :: 0 <= i < |elems| ==> '/' !in elems[i]
  }

  lemma UnslashedAppend(xs: seq<string>, ys: seq<string>)
    requires Unslashed(xs) && Unslashed(ys)
    ensures Unslashed(xs + ys)
  {
    assert forall i :: |xs| <= i < |xs + ys| ==> (xs + ys)[i] == ys[i - |xs|];
  }

  /** The elements of a slash-separated relative path, empty ones included. */
  function SplitPath(s: string): (r: seq<string>)
    ensures r != []
    ensures Unslashed(r)
    ensures JoinSlash(r) == s
  {
    if '/' !in s then [s]
    else
      var i := FirstSlash(s);
      var r := [s[..i]] + SplitPath(s[i + 1..]);
      assert r[1..] == SplitPath(s[i + 1..]);
      assert s == s[..i] + "/" + s[i + 1..];
      r
  }

  /** Splitting elements written out with '/' between them gives them back. */
  lemma {:induction false} SplitJoin(elems: seq<string>)
    requires elems != []
    requires Unslashed(elems)
    ensures SplitPath(JoinSlash(elems)) == elems
  {
    if |elems| > 1 {
      var e := elems[0];
      var tail := JoinSlash(elems[1..]);
      var s := JoinSlash(elems);
      assert s == e + "/" + tail;
      assert s[|e|] == '/';
      var i := FirstSlash(s);
      assert s[..i] == e && s[i + 1..] == tail;
      SplitJoin(elems[1..]);
      assert elems == [e] + elems[1..];
    }
  }

  function FirstSlash(e: string): (i: nat)
    requires '/' in e
    ensures i < |e| && e[i] == '/' && '/' !in e[..i]
  {
    if e[0] == '/' then 0 else
      assert '/' in e[1..] by { var k :| 0 <= k < |e| && e[k] == '/'; assert e[1..][k - 1] == '/'; }
      var i := 1 + FirstSlash(e[1..]);
      assert e[..i] == [e[0]] + e[1..][..i - 1];
      i
  }

  /**
   * Appends the elements of `rest` to the clean path `acc` the way
   * `filepath.Clean` resolves them: empty and "." elements vanish, ".."
   * drops the previous element and stays put at the root.
   */
  function CleanFrom(acc: Path, rest: seq<string>): (r: Path)
    requires IsClean(acc)
    requires Unslashed(rest)
    ensures IsClean(r)
    ensures |r| <= |acc| + |rest|
    ensures IsClean(rest) ==> r == acc + rest
    decreases |rest|
  {
    if rest == [] then acc
    else if rest[0] == "" || rest[0] == "." then CleanFrom(acc, rest[1..])
    else if rest[0] == ".." then CleanFrom(if acc == [] then [] else acc[..|acc| - 1], rest[1..])
    else
      assert acc + [rest[0]] + rest[1..] == acc + rest;
      CleanFrom(acc + [rest[0]], rest[1..])
  }

  /** Cleaning works element by element: two runs resolve one after the other. */
  lemma {:induction false} CleanFromAppend(acc: Path, xs: seq<string>, ys: seq<string>)
    requires IsClean(acc)
    requires Unslashed(xs)
    requires Unslashed(ys)
    ensures CleanFrom(acc, xs + ys) == CleanFrom(CleanFrom(acc, xs), ys)
    decreases |xs|
  {
    if xs == [] {
      assert xs + ys == ys;
    } else {
      assert (xs + ys)[0] == xs[0] && (xs + ys)[1..] == xs[1..] + ys;
      var next := if xs[0] == "" || xs[0] == "." then acc
                  else if xs[0] == ".." then (if acc == [] then [] else acc[..|acc| - 1])
                  else acc + [xs[0]];
      CleanFromAppend(next, xs[1..], ys);
    }
  }

  /** An empty or "." element anywhere changes nothing. */
  lemma DotElementVanishes(acc: Path, xs: seq<string>, dot: string, ys: seq<string>)
    requires IsClean(acc)
    requires dot == "" || dot == "."
    requires Unslashed(xs)
    requires Unslashed(ys)
    ensures CleanFrom(acc, xs + ([dot] + ys)) == CleanFrom(acc, xs + ys)
  {
    var zs := [dot] + ys;
    UnslashedAppend([dot], ys);
    var mid := CleanFrom(acc, xs);
    assert CleanFrom(acc, xs + zs) == CleanFrom(mid, zs) by {
      CleanFromAppend(acc, xs, zs);
    }
    assert CleanFrom(acc, xs + ys) == CleanFrom(mid, ys) by {
      CleanFromAppend(acc, xs, ys);
    }
    assert CleanFrom(mid, zs) == CleanFrom(mid, ys) by {
      assert zs[0] == dot && zs[1..] == ys;
    }
  }

  /** A name followed by ".." cancels out anywhere. */
  lemma ParentCancels(acc: Path, xs: seq<string>, name: string, ys: seq<string>)
    requires IsClean(acc)
    requires IsCleanElement(name)
    requires Unslashed(xs)
    requires Unslashed(ys)
    ensures CleanFrom(acc, xs + ([name, ".."] + ys)) == CleanFrom(acc, xs + ys)
  {
    var up := [".."] + ys;
    var zs := [name] + up;
    assert zs == [name, ".."] + ys;
    UnslashedAppend([".."], ys);
    UnslashedAppend([name], up);
    var mid := CleanFrom(acc, xs);
    assert CleanFrom(acc, xs + zs) == CleanFrom(mid, zs) by {
      CleanFromAppend(acc, xs, zs);
    }
    assert CleanFrom(acc, xs + ys) == CleanFrom(mid, ys) by {
      CleanFromAppend(acc, xs, ys);
    }
    assert CleanFrom(mid, zs) == CleanFrom(mid + [name], up) by {
      assert zs[0] == name && zs[1..] == up;
    }
    assert CleanFrom(mid + [name], up) == CleanFrom(mid, ys) by {
      assert up[0] == ".." && up[1..] == ys;
      assert (mid + [name])[..|mid + [name]| - 1] == mid;
    }
  }

  /** ".." at the root stays at the root. */
  lemma ParentOfRoot(ys: seq<string>)
    requires Unslashed(ys)
    ensures CleanFrom([], [".."] + ys) == CleanFrom([], ys)
  {
    assert ([".."] + ys)[1..] == ys;
  }

  /**
   * The absolute, cleaned form of `filepath.Join(dir, tail)`, where `dir`
   * is the absolute clean path of the directory and `tail` the relative
   * part as written: a tail made of names only lands right below `dir`.
   */
  function JoinClean(dir: Path, tail: string): (r: Path)
    requires IsClean(dir)
    ensures IsClean(r)
    ensures IsClean(SplitPath(tail)) ==> r == dir + SplitPath(tail)
  {
    CleanFrom(dir, SplitPath(tail))
  }

  /** Names written out with '/' between them join to `dir` followed by those names. */
  lemma JoinCleanOfNames(dir: Path, names: seq<string>)
    requires IsClean(dir) && IsClean(names) && names != []
    ensures JoinClean(dir, JoinSlash(names)) == dir + names
  {
    SplitJoin(names);
  }

  /** The length of the longest common prefix of two paths. */
  function CommonPrefixLen(a: Path, b: Path): (k: nat)
    ensures k <= |a| && k <= |b| && a[..k] == b[..k]
    ensures k < |a| && k < |b| ==> a[k] != b[k]
  {
    if a == [] || b == [] || a[0] != b[0] then 0
    else
      var k := 1 + CommonPrefixLen(a[1..], b[1..]);
      assert a[..k] == [a[0]] + a[1..][..k - 1];
      assert b[..k] == [b[0]] + b[1..][..k - 1];
      k
  }

  /** Elements written out with '/' between them. */
  function JoinSlash(elems: seq<string>): (r: string)
    ensures elems != [] ==> |elems[0]| <= |r| && r[..|elems[0]|] == elems[0]
  {
    if elems == [] then ""
    else if |elems| == 1 then elems[0]
    else elems[0] + "/" + JoinSlash(elems[1..])
  }

  /**
   * `filepath.Rel(base, target)` for two clean absolute paths: "." for the
   * same path, otherwise one ".." per element of `base` past the common
   * prefix, then the rest of `target`. So a target below the base gives the
   * elements below it, and any other target gives a path that climbs out
   * through "..".
   */
  function Rel(base: Path, target: Path): (r: string)
    ensures base == target ==> r == "."
    ensures |base| < |target| && target[..|base|] == base ==> r == JoinSlash(target[|base|..])
    ensures !(|base| <= |target| && target[..|base|] == base) ==> |r| >= 2 && r[..2] == ".."
  {
    var k := CommonPrefixLen(base, target);
    if k == |base| && k == |target| then "."
    else if k == |base| then JoinSlash(target[k..])
    else
      var elems := seq(|base| - k, _ => "..") + target[k..];
      assert elems[0] == "..";
      JoinSlash(elems)
  }

  predicate IsAbs(s: string)
  {
    |s| > 0 && s[0] == '/'
  }

  /**
   * `isPathSafe(path, baseDir)`: each argument is the result of
   * `filepath.Abs`, `None` when it failed. Safe when the relative path from
   * the base to the target is not absolute, not empty and does not start
   * with '.'. A failed `Abs` on either side is never safe, and a safe
   * target lies strictly below the base.
   */
  predicate IsPathSafe(absPath: Option<Path>, absBase: Option<Path>)
    ensures IsPathSafe(absPath, absBase) ==>
              && absPath.Some? && absBase.Some?
              && |absBase.value| < |absPath.value|
              && absPath.value[..|absBase.value|] == absBase.value
  {
    match (absPath, absBase)
    case (Some(target), Some(base)) =>
      var rel := Rel(base, target);
      !IsAbs(rel) && |rel| > 0 && rel[0] != '.'
    case _ => false
  }

  /**
   * What `isPathSafe` decides: the target lies strictly below the base and
   * the first element below the base does not start with '.'.
   */
  lemma PathSafeExactly(target: Path, base: Path)
    requires IsClean(target) && IsClean(base)
    ensures IsPathSafe(Some(target), Some(base)) <==>
              |base| < |target| && target[..|base|] == base && target[|base|][0] != '.'
  {
    var rel := Rel(base, target);
    if |base| < |target| && target[..|base|] == base {
      var first := target[|base|];
      assert target[|base|..][0] == first;
      assert IsCleanElement(first);
      assert rel[..|first|] == first;
      assert rel[0] == first[0];
      assert first[0] != '/' by {
        assert first[0] in first;
      }
    } else if |base| == |target| && target[..|base|] == base {
      assert base == target;
    }
  }

  /**
   * The base directory itself, its parent, and a sibling reached through
   * "..", are all unsafe.
   */
  lemma EscapesUnsafe(base: Path, sibling: string)
    requires IsClean(base) && base != []
    requires IsCleanElement(sibling)
    ensures !IsPathSafe(Some(JoinClean(base, "")), Some(base))
    ensures !IsPathSafe(Some(JoinClean(base, "..")), Some(base))
    ensures !IsPathSafe(Some(JoinClean(base, "../" + sibling)), Some(base))
  {
    assert JoinClean(base, "") == base by {
      assert SplitPath("") == [""];
    }
    assert JoinClean(base, "..") == base[..|base| - 1] by {
      assert SplitPath("..") == [".."];
    }
    assert JoinClean(base, "../" + sibling) == base[..|base| - 1] + [sibling] by {
      SiblingJoin(base, sibling);
    }
  }

  /** "../<sibling>" resolves to the sibling of the base. */
  lemma SiblingJoin(base: Path, sibling: string)
    requires IsClean(base) && base != []
    requires IsCleanElement(sibling)
    ensures JoinClean(base, "../" + sibling) == base[..|base| - 1] + [sibling]
  {
    var up := base[..|base| - 1];
    var t := "../" + sibling;
    assert SplitPath(t) == ["..", sibling] by {
      assert t[2] == '/';
      assert FirstSlash(t) == 2;
      assert t[..2] == ".." && t[3..] == sibling;
      assert SplitPath(sibling) == [sibling];
    }
    assert CleanFrom(base, ["..", sibling]) == CleanFrom(up, [sibling]);
  }

}
