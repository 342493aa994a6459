/**
 * Lexical slash-separated paths as Go's path/filepath handles them on a Unix
 * system: Clean, Dir and Rel, over a path held as its cleaned components.
 */
module Paths {
  import opened Wrappers
  import Text

  /**
   * A cleaned path: "/" is Path(true, []), "." is Path(false, []), and
   * "a/b" is Path(false, ["a", "b"]).
   */
  datatype Path = Path(absolute: bool, parts: seq<string>)

  /** strings.Split(s, "/"). */
  function SplitSlash(s: string): (r: seq<string>)
    ensures |r| >= 1
  {
    if s == [] then [[]]
    else
      var rest := SplitSlash(s[1..]);
      if s[0] == '/' then [[]] + rest else [[s[0]] + rest[0]] + rest[1..]
  }

  /** The lexical processing of filepath.Clean, applied to components left to right. */
  function CleanParts(absolute: bool, comps: seq<string>): seq<string> {
    if comps == [] then []
    else
      var acc := CleanParts(absolute, comps[..|comps| - 1]);
      var c := comps[|comps| - 1];
      if c == [] || c == "." then acc
      else if c == ".." then
        if |acc| > 0 && acc[|acc| - 1] != ".." then acc[..|acc| - 1]
        else if absolute then acc
        else acc + [".."]
      else acc + [c]
  }

  /** filepath.Clean of a string, as components. */
  function PathOf(s: string): Path {
    var absolute := |s| > 0 && s[0] == '/';
    Path(absolute, CleanParts(absolute, SplitSlash(s)))
  }

  /** Length of `s` up to and including its last '/', or 0 when it has none. */
  function DirPrefixLen(s: string): (n: nat)
    ensures n <= |s|
    ensures n > 0 ==> s[n - 1] == '/'
    ensures forall i :: n <= i < |s| ==> s[i] != '/'
  {
    if s == [] then 0
    else if s[|s| - 1] == '/' then |s|
    else DirPrefixLen(s[..|s| - 1])
  }

  /** filepath.Dir: everything before the last element, cleaned. */
  function DirOf(s: string): Path {
    PathOf(s[..DirPrefixLen(s)])
  }

  /** The ancestor `i` levels above `p` (Up(p, 0) == p). */
  function Up(p: Path, i: nat): Path
    requires i <= |p.parts|
  {
    Path(p.absolute, p.parts[..|p.parts| - i])
  }

  /** filepath.Dir of a cleaned path with at least one component. */
  function Parent(p: Path): Path
    requires p.parts != []
  {
    Up(p, 1)
  }

  /** `p` is `root` or lies below it. */
  predicate Within(root: Path, p: Path) {
    root.absolute == p.absolute && |root.parts| <= |p.parts| && p.parts[..|root.parts|] == root.parts
  }

  function CommonPrefixLen(a: seq<string>, b: seq<string>): (k: nat)
    ensures k <= |a| && k <= |b| && a[..k] == b[..k]
    ensures k < |a| && k < |b| ==> a[k] != b[k]
  {
    if a == [] || b == [] || a[0] != b[0] then 0
    else
      var k := CommonPrefixLen(a[1..], b[1..]);
      assert a[..k + 1] == [a[0]] + a[1..][..k];
      assert b[..k + 1] == [b[0]] + b[1..][..k];
      k + 1
  }

  function Repeat(s: string, n: nat): (r: seq<string>)
    ensures |r| == n && forall i :: 0 <= i < n ==> r[i] == s
  {
    if n == 0 then [] else [s] + Repeat(s, n - 1)
  }

  /**
   * filepath.Rel(base, targ), as components ([] is "."): None when one path is
   * absolute and the other is not, or when `base` would have to climb out of a
   * leading "..".
   */
  function Rel(base: Path, targ: Path): Option<seq<string>> {
    if base.absolute != targ.absolute then None
    else
      var k := CommonPrefixLen(base.parts, targ.parts);
      if k < |base.parts| && base.parts[k] == ".." then None
      else Some(Repeat("..", |base.parts| - k) + targ.parts[k..])
  }

  /** The string filepath.Rel returns for the given components. */
  function RelString(rel: seq<string>): string {
    if rel == [] then "." else Text.Join(rel, "/")
  }

  predicate HasDotDotPrefix(s: string) {
    |s| >= 2 && s[0] == '.' && s[1] == '.'
  }

  /**
   * The boundary test of cleanupParentDirectories: `dir` may not be pruned when
   * filepath.Rel(stop, dir) fails or its result starts with "..".
   */
  predicate OutsideStop(stop: Path, dir: Path) {
    match Rel(stop, dir)
    case None => true
    case Some(rel) => HasDotDotPrefix(RelString(rel))
  }

  /**
   * The boundary test is lexical: a directory directly below `stop` whose name
   * starts with ".." (such as "..cache") counts as outside.
   */
  lemma DotDotNamedChildIsOutside(stop: Path, name: string)
    requires |name| >= 2 && name[0] == '.' && name[1] == '.'
    ensures OutsideStop(stop, Path(stop.absolute, stop.parts + [name]))
  {
    OutsideStopIff(stop, Path(stop.absolute, stop.parts + [name]));
  }

  /** Below "." (the cleaned empty root), every absolute directory counts as outside. */
  lemma AbsoluteIsOutsideDot(dir: Path)
    requires dir.absolute
    ensures OutsideStop(Path(false, []), dir)
  {
  }

  /**
   * The boundary test in plain terms: `dir` lies within `stop` and is not
   * below a child of `stop` whose name begins with "..".
   */
  predicate Inside(stop: Path, dir: Path) {
    Within(stop, dir) && (|dir.parts| == |stop.parts| || !HasDotDotPrefix(dir.parts[|stop.parts|]))
  }

  lemma JoinSlashDotDot(xs: seq<string>)
    requires xs != []
    ensures HasDotDotPrefix(Text.Join(xs, "/")) <==> HasDotDotPrefix(xs[0])
  {
    if |xs| > 1 {
      var j := Text.Join(xs, "/");
      assert j == xs[0] + "/" + Text.Join(xs[1..], "/");
      if |xs[0]| >= 2 {
        assert j[0] == xs[0][0] && j[1] == xs[0][1];
      } else if |xs[0]| == 1 {
        assert j[1] == '/';
      } else {
        assert j[0] == '/';
      }
    }
  }

  /** filepath.Rel followed by the ".." prefix test decides exactly Inside. */
  lemma OutsideStopIff(stop: Path, dir: Path)
    ensures OutsideStop(stop, dir) <==> !Inside(stop, dir)
  {
    var k := CommonPrefixLen(stop.parts, dir.parts);
    if stop.absolute == dir.absolute {
      if k < |stop.parts| {
        if stop.parts[k] != ".." {
          var rel := Repeat("..", |stop.parts| - k) + dir.parts[k..];
          assert rel[0] == "..";
          JoinSlashDotDot(rel);
        }
      } else {
        assert dir.parts[..|stop.parts|] == stop.parts;
        var rel := Repeat("..", 0) + dir.parts[k..];
        assert rel == dir.parts[k..];
        if rel != [] {
          JoinSlashDotDot(rel);
        }
      }
    }
  }

  /** The extension filepath.Ext finds scanning back from position `n`. */
  function ExtBefore(path: string, n: nat): (r: string)
    requires n <= |path|
    ensures r == [] || (|r| <= |path| && r == path[|path| - |r|..] && r[0] == '.')
  {
    if n == 0 || path[n - 1] == '/' then []
    else if path[n - 1] == '.' then path[n - 1..]
    else ExtBefore(path, n - 1)
  }

  /** filepath.Ext: the suffix from the last '.' of the final element, or "". */
  function Ext(path: string): string {
    ExtBefore(path, |path|)
  }

  /** A session log is picked by its name ending in ".jsonl". */
  lemma ExtIsJsonl(path: string)
    ensures Ext(path) == ".jsonl" <==> |path| >= 6 && path[|path| - 6..] == ".jsonl"
  {
    var n := |path|;
    if n >= 6 && path[n - 6..] == ".jsonl" {
      var tail := path[n - 6..];
      assert tail[0] == '.' && tail[1] == 'j' && tail[2] == 's' && tail[3] == 'o' && tail[4] == 'n' && tail[5] == 'l';
      ExtSkips(path, n, 5);
    }
  }

  /** Scanning back over `k` bytes that are neither '.' nor '/' does not change the extension found. */
  lemma {:induction false} ExtSkips(path: string, n: nat, k: nat)
    requires k <= n <= |path|
    requires forall i :: n - k <= i < n ==> path[i] != '.' && path[i] != '/'
    ensures ExtBefore(path, n) == ExtBefore(path, n - k)
  {
    if k > 0 {
      assert path[n - 1] != '.' && path[n - 1] != '/';
      assert ExtBefore(path, n) == ExtBefore(path, n - 1);
      ExtSkips(path, n - 1, k - 1);
    }
  }
}
