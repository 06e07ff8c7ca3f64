/**
 * Folder paths below the `dev` folder of the TestScripts repository, as the
 * lists of their components, with `pathlib`'s ordering, joining and
 * POSIX rendering.
 */
module Paths {
  import opened Strings

  /** A folder relative to the `dev` root; `[]` is the root itself. */
  type Path = seq<string>

  /** The name of the root folder the paths are relative to. */
  const ROOT_NAME: string := "dev"

  /** `pathlib` order: component-wise string order, an ancestor before its descendants. */
  predicate PathLess(p: Path, q: Path) {
    if p == [] then q != []
    else if q == [] then false
    else if p[0] != q[0] then StrLess(p[0], q[0])
    else PathLess(p[1..], q[1..])
  }

  lemma {:induction false} PathLessIrreflexive(p: Path)
    ensures !PathLess(p, p)
  {
    if p != [] {
      StrLessIrreflexive(p[0]);
      PathLessIrreflexive(p[1..]);
    }
  }

  lemma {:induction false} PathLessTransitive(p: Path, q: Path, r: Path)
    requires PathLess(p, q) && PathLess(q, r)
    ensures PathLess(p, r)
  {
    if p != [] && q != [] && r != [] {
      if p[0] == q[0] && q[0] == r[0] {
        PathLessTransitive(p[1..], q[1..], r[1..]);
      } else if p[0] != q[0] && q[0] != r[0] {
        StrLessTransitive(p[0], q[0], r[0]);
        if p[0] == r[0] {
          StrLessAsymmetric(p[0], q[0]);
        }
      }
    }
  }

  lemma {:induction false} PathLessTotal(p: Path, q: Path)
    requires p != q
    ensures PathLess(p, q) || PathLess(q, p)
  {
    if p != [] && q != [] {
      if p[0] == q[0] {
        assert p == [p[0]] + p[1..] && q == [q[0]] + q[1..];
        PathLessTotal(p[1..], q[1..]);
      } else {
        StrLessTotal(p[0], q[0]);
      }
    }
  }

  lemma {:induction false} PathLessAsymmetric(p: Path, q: Path)
    requires PathLess(p, q)
    ensures !PathLess(q, p)
  {
    if p != [] && q != [] {
      if p[0] == q[0] {
        PathLessAsymmetric(p[1..], q[1..]);
      } else {
        StrLessAsymmetric(p[0], q[0]);
      }
    }
  }

  /** An ancestor sorts before every one of its descendants. */
  lemma {:induction false} AncestorLess(p: Path, q: Path)
    requires |p| < |q| && p == q[..|p|]
    ensures PathLess(p, q)
  {
    if p != [] {
      assert p[1..] == q[1..][..|p| - 1];
      AncestorLess(p[1..], q[1..]);
    }
  }

  /** The folders `pathlib` makes of a key joined with `/`: empty and `.` parts vanish. */
  function Components(key: string): (cs: seq<string>)
    ensures forall i :: 0 <= i < |cs| ==> cs[i] != "" && cs[i] != "." && '/' !in cs[i]
  {
    Keep(Split(key, '/'))
  }

  function Keep(parts: seq<string>): (cs: seq<string>)
    requires forall i :: 0 <= i < |parts| ==> '/' !in parts[i]
    ensures forall i :: 0 <= i < |cs| ==> cs[i] != "" && cs[i] != "." && '/' !in cs[i]
  {
    if parts == [] then []
    else if parts[0] == "" || parts[0] == "." then Keep(parts[1..])
    else [parts[0]] + Keep(parts[1..])
  }

  /** `curr_path / key`. */
  function PathJoin(p: Path, key: string): (r: Path)
    ensures |p| <= |r| && r[..|p|] == p
  {
    p + Components(key)
  }

  /** `dir.relative_to(root).as_posix()`: `.` for the root itself. */
  function RelPosix(p: Path): string {
    if p == [] then "." else Join(p, "/")
  }

  /** `dir.name`: the last component, or the root folder's own name. */
  function DirName(p: Path): string {
    if p == [] then ROOT_NAME else p[|p| - 1]
  }
}
