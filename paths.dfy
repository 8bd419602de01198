/**
 * The part of `pathlib` and of the file system that the updater relies on.
 * A path is an absolute path written as its segments below the root `/`;
 * resolution is lexical (no symbolic links). The file system is a finite map
 * from resolved paths to nodes.
 */
module Paths {
  import opened Wrappers

  type Path = seq<string>

  type Bytes = seq<bv8>

  /** A segment that names an entry: not empty, not `.` and not `..`. */
  predicate Plain(seg: string) {
    seg != "" && seg != "." && seg != ".."
  }

  /** A resolved path: every segment names an entry. */
  predicate Normal(p: Path) {
    forall i :: 0 <= i < |p| ==> Plain(p[i])
  }

  /** One segment of resolution: empty segments (a doubled or trailing `/`) and
      `.` are dropped, `..` climbs to the parent (and stays at the root). */
  function StepInto(acc: Path, seg: string): (r: Path)
    requires Normal(acc)
    ensures Normal(r)
  {
    if seg == "" || seg == "." then acc
    else if seg == ".." then (if acc == [] then [] else acc[..|acc| - 1])
    else acc + [seg]
  }

  function ResolveFrom(acc: Path, segs: seq<string>): (r: Path)
    requires Normal(acc)
    ensures Normal(r)
    decreases |segs|
  {
    if segs == [] then acc else ResolveFrom(StepInto(acc, segs[0]), segs[1..])
  }

  /** `Path.resolve()` without symbolic links. */
  function Resolve(p: Path): (r: Path)
    ensures Normal(r)
  {
    ResolveFrom([], p)
  }

  lemma {:induction false} ResolveFromNormal(acc: Path, segs: seq<string>)
    requires Normal(acc) && Normal(segs)
    ensures ResolveFrom(acc, segs) == acc + segs
    decreases |segs|
  {
    if segs != [] {
      assert Plain(segs[0]);
      assert StepInto(acc, segs[0]) == acc + [segs[0]];
      assert Normal(segs[1..]) by {
        forall i | 0 <= i < |segs[1..]| ensures Plain(segs[1..][i]) {
          assert segs[1..][i] == segs[i + 1];
        }
      }
      ResolveFromNormal(acc + [segs[0]], segs[1..]);
      assert acc + [segs[0]] + segs[1..] == acc + segs;
    }
  }

  /** A resolved path resolves to itself, so resolving twice changes nothing. */
  lemma ResolveIdempotent(p: Path)
    ensures Resolve(Resolve(p)) == Resolve(p)
    ensures Normal(p) ==> Resolve(p) == p
  {
    ResolveFromNormal([], Resolve(p));
    if Normal(p) { ResolveFromNormal([], p); }
  }

  lemma {:induction false} ResolveFromAppend(acc: Path, p: seq<string>, q: seq<string>)
    requires Normal(acc)
    ensures ResolveFrom(acc, p + q) == ResolveFrom(ResolveFrom(acc, p), q)
    decreases |p|
  {
    if p != [] {
      assert (p + q)[0] == p[0] && (p + q)[1..] == p[1..] + q;
      ResolveFromAppend(StepInto(acc, p[0]), p[1..], q);
    } else {
      assert p + q == q;
    }
  }

  /** Extending a path resolves segment by segment from the resolved prefix: a
      trailing `/` or `.` changes nothing and `..` goes to the parent. */
  lemma ResolveSnoc(p: Path, seg: string)
    ensures Resolve(p + [seg]) == StepInto(Resolve(p), seg)
  {
    ResolveFromAppend([], p, [seg]);
  }

  /** `a in b.parents` for resolved paths: `a` is a proper prefix of `b`. */
  predicate StrictAncestor(a: Path, b: Path) {
    |a| < |b| && b[..|a|] == a
  }

  /** `PurePath.name`: the last segment, empty for the root. */
  function Name(p: Path): string {
    if p == [] then "" else p[|p| - 1]
  }

  /** The index of the last `c` in `s`, or -1. */
  function LastIndexOf(s: string, c: char): (r: int)
    ensures -1 <= r < |s|
    ensures r >= 0 ==> s[r] == c
    ensures forall j :: r < j < |s| ==> s[j] != c
  {
    if s == [] then -1
    else if s[|s| - 1] == c then |s| - 1
    else LastIndexOf(s[..|s| - 1], c)
  }

  /** The name without its suffix: `PurePath.suffix` is the text from the last
      dot on, provided that dot is neither the first nor the last character. */
  function Stem(name: string): (r: string)
    ensures |r| <= |name| && r == name[..|r|]
  {
    var i := LastIndexOf(name, '.');
    if 0 < i < |name| - 1 then name[..i] else name
  }

  /** `PurePath.with_suffix(suffix)` applied to a name. */
  function WithSuffix(name: string, suffix: string): string {
    Stem(name) + suffix
  }

  /** A name that ends in `.jar` gets a different name from `with_suffix(".tmp")`,
      one that ends in `.tmp`. */
  lemma TempNameDiffers(name: string)
    requires |name| >= 5 && name[|name| - 4..] == ".jar"
    ensures WithSuffix(name, ".tmp") != name
    ensures WithSuffix(name, ".tmp") == name[..|name| - 4] + ".tmp"
  {
    var i := LastIndexOf(name, '.');
    assert name[|name| - 4] == '.';
    assert i == |name| - 4;
    var r := WithSuffix(name, ".tmp");
    assert r[|r| - 1] == 'p' && name[|name| - 1] == 'r';
  }

  /** The text form of a resolved path. */
  function PathString(p: Path): string {
    if p == [] then "/" else SegmentsString(p)
  }

  function SegmentsString(p: Path): string {
    if p == [] then "" else "/" + p[0] + SegmentsString(p[1..])
  }

  datatype Node = File(data: Bytes) | Directory

  type FileSystem = map<Path, Node>

  predicate IsFile(fs: FileSystem, p: Path) {
    p in fs && fs[p].File?
  }

  predicate IsDir(fs: FileSystem, p: Path) {
    p in fs && fs[p].Directory?
  }

  /** `Path.replace` / `Path.rename` on POSIX: the node at `src` moves to
      `dst`, replacing whatever `dst` held; moving a path onto itself changes
      nothing. */
  function Move(fs: FileSystem, src: Path, dst: Path): FileSystem
    requires src in fs
  {
    (fs - {src})[dst := fs[src]]
  }
}
