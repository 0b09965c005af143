/**
 * `path.dirname` on `/`-separated paths and the upward search for the
 * nearest directory holding a `package.json`, shared by
 * src/test/cucumberTestController.ts and src/commands/runScenario.ts.
 */
module Paths {
  import opened Wrappers
  import opened Text

  /**
   * The scan of Node's POSIX `dirname` from index `i` down to 1: the first
   * separator met after a character that is not a separator, or -1.
   */
  function SeparatorEnd(p: string, i: int, matchedSlash: bool): (end: int)
    requires i < |p|
    ensures end == -1 || (1 <= end <= i && p[end] == '/')
    decreases i
  {
    if i < 1 then -1
    else if p[i] == '/' then (if !matchedSlash then i else SeparatorEnd(p, i - 1, matchedSlash))
    else SeparatorEnd(p, i - 1, false)
  }

  /** Node's `path.posix.dirname`. */
  function Dirname(p: string): (d: string)
    ensures d != ""
    ensures d == "." || d == "/" || d == "//" || (|d| < |p| && d == p[..|d|])
  {
    if p == "" then "."
    else
      var hasRoot := p[0] == '/';
      var end := SeparatorEnd(p, |p| - 1, true);
      if end == -1 then (if hasRoot then "/" else ".")
      else if hasRoot && end == 1 then "//"
      else p[..end]
  }

  /** What the upward walk decreases: every step to a different parent makes it smaller. */
  function WalkMeasure(d: string): nat {
    if d == "." then 0 else |d| + 1
  }

  lemma DirnameShrinks(d: string)
    requires Dirname(d) != d
    ensures WalkMeasure(Dirname(d)) < WalkMeasure(d)
  {
    if d != "" {
      var end := SeparatorEnd(d, |d| - 1, true);
      if d[0] == '/' && end == 1 {
        NonSlashAfterEnd(d, |d| - 1, true);
      }
    }
  }

  /** When the scan stops at a separator, a character that is not one lies after it. */
  lemma {:induction false} NonSlashAfterEnd(p: string, i: int, matchedSlash: bool)
    requires -1 <= i < |p|
    requires !matchedSlash ==> i + 1 < |p| && p[i + 1] != '/'
    ensures var end := SeparatorEnd(p, i, matchedSlash);
      end != -1 ==> exists j | end < j < |p| :: p[j] != '/'
    decreases i
  {
    if i >= 1 {
      if p[i] == '/' {
        if matchedSlash {
          NonSlashAfterEnd(p, i - 1, matchedSlash);
        }
      } else {
        NonSlashAfterEnd(p, i - 1, false);
      }
    }
  }

  /** The directories the walk visits: the start, then each parent until `dirname` stops changing. */
  function Ancestors(dir: string): (r: seq<string>)
    ensures |r| >= 1 && r[0] == dir
    decreases WalkMeasure(dir)
  {
    var parent := Dirname(dir);
    if parent == dir then [dir]
    else
      DirnameShrinks(dir);
      [dir] + Ancestors(parent)
  }

  /** The loop condition: a non-empty directory, within the root prefix when there is a root. */
  predicate InScope(dir: string, root: Option<string>) {
    dir != "" && (root.None? || StartsWith(dir, root.value))
  }

  /**
   * The upward walk from `dir`: the first visited directory holding a
   * `package.json`, the walk stopping at the first directory out of scope or
   * at the top; the root when none is found.
   */
  function PackageJsonWalk(dir: string, root: Option<string>, packageDirs: set<string>): (r: Option<string>)
    ensures r == root || (r.Some? && r.value in packageDirs && InScope(r.value, root))
    ensures InScope(dir, root) && dir in packageDirs ==> r == Some(dir)
    decreases WalkMeasure(dir)
  {
    if InScope(dir, root) then
      if dir in packageDirs then Some(dir)
      else
        var parent := Dirname(dir);
        if parent == dir then root
        else
          DirnameShrinks(dir);
          PackageJsonWalk(parent, root, packageDirs)
    else root
  }

  /**
   * `chain[k]` is the first directory of `chain` holding a `package.json`,
   * and it and every directory before it are in scope.
   */
  ghost predicate FirstPackageDirAt(chain: seq<string>, k: int, root: Option<string>, packageDirs: set<string>) {
    && 0 <= k < |chain| && chain[k] in packageDirs && InScope(chain[k], root)
    && (forall j | 0 <= j < k :: InScope(chain[j], root) && chain[j] !in packageDirs)
  }

  /**
   * The walk finds the nearest ancestor holding a `package.json` that is in
   * scope, every directory visited before it being in scope and without one;
   * when there is no such ancestor it falls back to the root.
   */
  lemma PackageJsonWalkIsNearest(dir: string, root: Option<string>, packageDirs: set<string>)
    ensures var r := PackageJsonWalk(dir, root, packageDirs);
      var chain := Ancestors(dir);
      && ((exists k :: FirstPackageDirAt(chain, k, root, packageDirs)) ==>
            exists k :: FirstPackageDirAt(chain, k, root, packageDirs) && r == Some(chain[k]))
      && ((forall k :: !FirstPackageDirAt(chain, k, root, packageDirs)) ==> r == root)
  {
    WalkResultByIndex(dir, root, packageDirs);
  }

  /** The result of the walk, by the index of the first in-scope directory holding a `package.json`. */
  lemma {:induction false} WalkResultByIndex(dir: string, root: Option<string>, packageDirs: set<string>)
    ensures forall k | FirstPackageDirAt(Ancestors(dir), k, root, packageDirs) ::
      PackageJsonWalk(dir, root, packageDirs) == Some(Ancestors(dir)[k])
    ensures (forall k :: !FirstPackageDirAt(Ancestors(dir), k, root, packageDirs)) ==>
      PackageJsonWalk(dir, root, packageDirs) == root
    decreases WalkMeasure(dir)
  {
    var parent := Dirname(dir);
    var chain := Ancestors(dir);
    var r := PackageJsonWalk(dir, root, packageDirs);
    if !InScope(dir, root) {
      forall k
        ensures !FirstPackageDirAt(chain, k, root, packageDirs)
      {
        if 0 < k < |chain| {
          assert !InScope(chain[0], root);
        }
      }
    } else if dir in packageDirs {
      forall k | 0 < k
        ensures !FirstPackageDirAt(chain, k, root, packageDirs)
      {
        if k < |chain| {
          assert chain[0] in packageDirs;
        }
      }
      assert FirstPackageDirAt(chain, 0, root, packageDirs);
    } else if parent == dir {
      assert chain == [dir];
    } else {
      DirnameShrinks(dir);
      WalkResultByIndex(parent, root, packageDirs);
      var rest := Ancestors(parent);
      assert chain == [dir] + rest;
      assert chain[1..] == rest;
      assert r == PackageJsonWalk(parent, root, packageDirs);
      FirstPackageDirShifts(chain, rest, root, packageDirs);
      forall k | FirstPackageDirAt(chain, k, root, packageDirs)
        ensures r == Some(chain[k])
      {
        assert FirstPackageDirAt(rest, k - 1, root, packageDirs);
      }
    }
  }

  /** Past a first directory in scope and without a `package.json`, the search goes on in the rest. */
  lemma FirstPackageDirShifts(chain: seq<string>, rest: seq<string>, root: Option<string>, packageDirs: set<string>)
    requires |chain| >= 1 && chain[1..] == rest
    requires InScope(chain[0], root) && chain[0] !in packageDirs
    ensures forall k | FirstPackageDirAt(chain, k, root, packageDirs) ::
      k >= 1 && chain[k] == rest[k - 1] && FirstPackageDirAt(rest, k - 1, root, packageDirs)
    ensures forall k | FirstPackageDirAt(rest, k, root, packageDirs) :: FirstPackageDirAt(chain, k + 1, root, packageDirs)
  {
    forall k | FirstPackageDirAt(chain, k, root, packageDirs)
      ensures k >= 1 && chain[k] == rest[k - 1] && FirstPackageDirAt(rest, k - 1, root, packageDirs)
    {
      forall j | 0 <= j < k - 1
        ensures InScope(rest[j], root) && rest[j] !in packageDirs
      {
        assert rest[j] == chain[j + 1];
      }
    }
    forall k | FirstPackageDirAt(rest, k, root, packageDirs)
      ensures FirstPackageDirAt(chain, k + 1, root, packageDirs)
    {
      forall j | 0 <= j < k + 1
        ensures InScope(chain[j], root) && chain[j] !in packageDirs
      {
        if j > 0 {
          assert chain[j] == rest[j - 1];
        }
      }
    }
  }

  /** findClosestPackageJsonFolder, from the directory of the file at `fsPath`. */
  method ClosestPackageJsonFolder(fsPath: string, root: Option<string>, packageDirs: set<string>)
    returns (r: Option<string>)
    ensures r == PackageJsonWalk(Dirname(fsPath), root, packageDirs)
  {
    var currentDir := Dirname(fsPath);
    while InScope(currentDir, root)
      invariant PackageJsonWalk(currentDir, root, packageDirs) == PackageJsonWalk(Dirname(fsPath), root, packageDirs)
      decreases WalkMeasure(currentDir)
    {
      if currentDir in packageDirs {
        return Some(currentDir);
      }
      var parentDir := Dirname(currentDir);
      if parentDir == currentDir {
        break;
      }
      DirnameShrinks(currentDir);
      currentDir := parentDir;
    }
    return root;
  }
}
