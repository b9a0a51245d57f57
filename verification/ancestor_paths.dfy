/**
 * The path arithmetic of `find_file_in_ancestors` and `get_exe_dir`. The
 * current directory, the executable's path and the set of paths `fopen` can
 * open are parameters; nothing here touches a file system.
 */
module AncestorPaths {
  import opened Wrappers
  import opened CStrings

  /** Size of the `candidate` buffer `snprintf` writes into. */
  const CandidateBufSize: nat := 1200
  /** `MAX_PATH`, the size of the buffer `GetModuleFileNameA` fills. */
  const MaxPath: nat := 260

  /** `rel` with one leading "./" or ".\" removed. */
  function StripDotPrefix(rel: string): (r: string)
    ensures |r| <= |rel| && r == rel[|rel| - |r|..]
    ensures r != rel <==> |rel| >= 2 && rel[0] == '.' && (rel[1] == '/' || rel[1] == '\\')
    ensures r != rel ==> |r| == |rel| - 2
  {
    if |rel| >= 2 && rel[0] == '.' && (rel[1] == '/' || rel[1] == '\\') then rel[2..] else rel
  }

  /**
   * `dir` is what is left of `path` once it is cut at its last backslash, or
   * at its last slash when it holds no backslash.
   */
  predicate IsCutAtLastSeparator(path: string, dir: string)
  {
    |dir| < |path| && dir == path[..|dir|]
    && ((path[|dir|] == '\\' && '\\' !in path[|dir| + 1..])
        || (path[|dir|] == '/' && '\\' !in path && '/' !in path[|dir| + 1..]))
  }

  /** `strrchr` for a backslash, else for a slash, then truncation there. */
  function CutAtLastSeparator(path: string): (r: Option<string>)
    ensures r.None? <==> '\\' !in path && '/' !in path
    ensures r.Some? ==> IsCutAtLastSeparator(path, r.value)
  {
    var b := LastIndex(path, '\\');
    if b >= 0 then Some(path[..b])
    else
      var f := LastIndex(path, '/');
      if f >= 0 then Some(path[..f]) else None
  }

  /** There is only one way to cut a path at its last separator. */
  lemma CutIsUnique(path: string, d1: string, d2: string)
    requires IsCutAtLastSeparator(path, d1) && IsCutAtLastSeparator(path, d2)
    ensures d1 == d2
  {
  }

  /** One step up: cut at the last separator, or nothing left without one. */
  function Truncate(base: string): (r: string)
    ensures r <= base && (base != "" ==> |r| < |base|)
  {
    match CutAtLastSeparator(base)
    case Some(dir) => dir
    case None => ""
  }

  /** The base directory after `k` steps up from `cwd`. */
  function Ancestor(cwd: string, k: nat): string
  {
    if k == 0 then cwd else Truncate(Ancestor(cwd, k - 1))
  }

  /**
   * The path tried for one base: `rel` alone when the base is empty, else the
   * base, a backslash and `rel`, cut to what fits in the 1200-byte buffer.
   */
  function Candidate(base: string, rel: string): (r: string)
    ensures |r| == Min(if base == "" then |rel| else |base| + 1 + |rel|, CandidateBufSize - 1)
    ensures base == "" ==> r <= rel && (|rel| < CandidateBufSize ==> r == rel)
    ensures base != "" && |base| + 1 < CandidateBufSize ==> r[..|base|] == base && r[|base|] == '\\'
    ensures base != "" && |base| + 1 + |rel| < CandidateBufSize ==> r == base + "\\" + rel
  {
    Take(if base == "" then rel else base + "\\" + rel, CandidateBufSize - 1)
  }

  /**
   * The path tried at level `k`: the level's base, when it is not empty, then
   * a backslash, then the relative path without its "./" or ".\".
   */
  function LevelCandidate(cwd: string, relPath: string, k: nat): (r: string)
    ensures |r| < CandidateBufSize
    ensures Ancestor(cwd, k) == "" ==> r <= StripDotPrefix(relPath)
    ensures Ancestor(cwd, k) != "" ==> |r| == Min(|Ancestor(cwd, k)| + 1 + |StripDotPrefix(relPath)|, CandidateBufSize - 1)
    ensures var b := Ancestor(cwd, k);
      b != "" && |b| + 1 < CandidateBufSize ==> r[..|b|] == b && r[|b|] == '\\'
  {
    Candidate(Ancestor(cwd, k), StripDotPrefix(relPath))
  }

  /** Each level is a prefix of `cwd`, one character shorter at least per level. */
  lemma {:induction false} AncestorShrinks(cwd: string, k: nat)
    ensures Ancestor(cwd, k) <= cwd
    ensures k <= |cwd| ==> |Ancestor(cwd, k)| <= |cwd| - k
    ensures k >= |cwd| ==> Ancestor(cwd, k) == ""
  {
    if k > 0 {
      AncestorShrinks(cwd, k - 1);
      var prev := Ancestor(cwd, k - 1);
      assert Ancestor(cwd, k) <= prev;
    }
  }

  /** Once the base is empty it stays empty: the early `break` changes nothing. */
  lemma {:induction false} AncestorStaysEmpty(cwd: string, i: nat, k: nat)
    requires i <= k && Ancestor(cwd, i) == ""
    ensures Ancestor(cwd, k) == ""
    decreases k - i
  {
    if i < k {
      assert Ancestor(cwd, i + 1) == Truncate("");
      AncestorStaysEmpty(cwd, i + 1, k);
    }
  }

  /** From level `|cwd|` on, every level tries `rel` on its own. */
  lemma DeepLevelsTryRelAlone(cwd: string, relPath: string, k: nat)
    requires k >= |cwd|
    ensures LevelCandidate(cwd, relPath, k) == Take(StripDotPrefix(relPath), CandidateBufSize - 1)
  {
    AncestorShrinks(cwd, k);
  }

  /**
   * The inner loop of `find_file_in_ancestors`: cut `base` at its last
   * separator `level` times, emptying it and leaving the loop as soon as no
   * separator is left.
   */
  method Climb(cwd: string, level: nat) returns (base: string)
    ensures base == Ancestor(cwd, level)
  {
    base := cwd;
    var i := 0;
    while i < level
      invariant 0 <= i <= level
      invariant base == Ancestor(cwd, i)
    {
      var p := LastIndex(base, '\\');
      if p < 0 {
        p := LastIndex(base, '/');
      }
      if p < 0 {
        base := "";
        assert Ancestor(cwd, i + 1) == "";
        AncestorStaysEmpty(cwd, i + 1, level);
        return;
      }
      base := base[..p];
      i := i + 1;
    }
  }

  /**
   * `find_file_in_ancestors`: with `cwd` the result of `_getcwd` (None when it
   * failed) and `existing` the paths `fopen` can open, try the levels 0 to
   * `maxLevels` in order and report the first candidate that exists.
   */
  method FindFileInAncestors(cwd: Option<string>, relPath: string, maxLevels: int,
                             existing: set<string>)
    returns (found: bool, path: string, ghost level: nat)
    ensures cwd.None? ==> !found
    ensures found ==> cwd.Some? && level <= maxLevels
                      && path == LevelCandidate(cwd.value, relPath, level) && path in existing
                      && forall j :: 0 <= j < level ==> LevelCandidate(cwd.value, relPath, j) !in existing
    ensures !found && cwd.Some? ==>
      forall k :: 0 <= k <= maxLevels ==> LevelCandidate(cwd.value, relPath, k) !in existing
  {
    found, path, level := false, "", 0;
    if cwd.None? {
      return;
    }
    var dir := cwd.value;
    var rel := StripDotPrefix(relPath);
    var lvl := 0;
    while lvl <= maxLevels
      invariant 0 <= lvl
      invariant forall j :: 0 <= j < lvl ==> LevelCandidate(dir, relPath, j) !in existing
    {
      var base := Climb(dir, lvl);
      var candidate := Candidate(base, rel);
      if candidate in existing {
        return true, candidate, lvl;
      }
      lvl := lvl + 1;
    }
  }

  /**
   * `get_exe_dir`, given the module path `GetModuleFileNameA` would report:
   * fails when that path is empty or fills the whole `MAX_PATH` buffer, or
   * when it holds no separator; otherwise the directory part.
   */
  function ExeDir(modulePath: string): (r: Option<string>)
    ensures r.Some? <==> 0 < |modulePath| < MaxPath && ('\\' in modulePath || '/' in modulePath)
    ensures r.Some? ==> IsCutAtLastSeparator(modulePath, r.value)
  {
    if |modulePath| == 0 || |modulePath| >= MaxPath then None
    else CutAtLastSeparator(modulePath)
  }
}
