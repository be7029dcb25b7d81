/** POSIX path handling as Python's `posixpath` does it: `join`,
    `dirname`, `basename`, `normpath` and `abspath` (with the working
    directory as a parameter instead of a call into the operating system). */
module Paths {
  import opened Strings

  predicate IsAbs(p: string) {
    |p| > 0 && p[0] == '/'
  }

  /** `os.path.join(a, b)`: an absolute `b` replaces `a`; otherwise the two
      are glued with exactly the separator `a` is missing. */
  function Join(a: string, b: string): (r: string)
    ensures IsAbs(b) ==> r == b
    ensures !IsAbs(b) ==> IsPrefix(a, r) && IsSuffix(b, r)
    ensures IsAbs(a) ==> IsAbs(r)
  {
    if IsAbs(b) then b
    else if a == "" || a[|a| - 1] == '/' then a + b
    else a + "/" + b
  }

  /** The index just past the last '/', or 0. */
  function AfterLastSlash(p: string): (i: nat)
    ensures i <= |p|
    ensures i > 0 ==> p[i - 1] == '/'
    ensures forall k :: i <= k < |p| ==> p[k] != '/'
  {
    if |p| == 0 then 0
    else if p[|p| - 1] == '/' then |p|
    else AfterLastSlash(p[..|p| - 1])
  }

  predicate AllSlashes(s: string) {
    forall k :: 0 <= k < |s| ==> s[k] == '/'
  }

  /** `os.path.dirname(p)`: everything up to the last '/', with trailing
      slashes removed unless the head is made of slashes only. */
  function Dirname(p: string): (d: string)
    ensures IsAbs(p) ==> IsAbs(d)
  {
    var head := p[..AfterLastSlash(p)];
    if head != "" && !AllSlashes(head) then
      RStripChar(head, '/')
    else head
  }

  /** `os.path.basename(p)`. */
  function Basename(p: string): (b: string)
    ensures IsSuffix(b, p)
    ensures forall k :: 0 <= k < |b| ==> b[k] != '/'
  {
    p[AfterLastSlash(p)..]
  }

  /** `s.split(c)` for a single character: the pieces between separators,
      empty ones included. */
  function SplitOn(s: string, c: char): (ps: seq<string>)
    ensures |ps| > 0
    ensures forall k :: 0 <= k < |ps| ==> forall i :: 0 <= i < |ps[k]| ==> ps[k][i] != c
    decreases |s|
  {
    if |s| == 0 then [""]
    else
      var rest := SplitOn(s[1..], c);
      if s[0] == c then [""] + rest
      else [[s[0]] + rest[0]] + rest[1..]
  }

  /** The component fold of `normpath`: drop "" and ".", let ".." cancel
      the previous component (or vanish at the root of an absolute path). */
  function Fold(comps: seq<string>, absolute: bool, acc: seq<string>): seq<string>
    decreases |comps|
  {
    if |comps| == 0 then acc
    else
      var c := comps[0];
      var acc' :=
        if c == "" || c == "." then acc
        else if c != ".." || (!absolute && |acc| == 0) || (|acc| > 0 && acc[|acc| - 1] == "..") then acc + [c]
        else if |acc| > 0 then acc[..|acc| - 1]
        else acc;
      Fold(comps[1..], absolute, acc')
  }

  /** `os.path.normpath(p)`; exactly two leading slashes are kept, as
      POSIX allows them a meaning of their own. */
  function NormPath(p: string): (r: string)
    ensures IsAbs(p) ==> IsAbs(r)
  {
    if p == "" then "."
    else
      var slashes :=
        if !IsPrefix("/", p) then 0
        else if IsPrefix("//", p) && !IsPrefix("///", p) then 2
        else 1;
      var body := Join'(Fold(SplitOn(p, '/'), slashes > 0, []));
      var r := seq(slashes, _ => '/') + body;
      if r == "" then "." else r
  }

  /** `'/'.join(xs)`. */
  function Join'(xs: seq<string>): string {
    if |xs| == 0 then ""
    else if |xs| == 1 then xs[0]
    else xs[0] + "/" + Join'(xs[1..])
  }

  /** `os.path.abspath(p)` run in the working directory `cwd`. */
  function AbsPath(cwd: string, p: string): (r: string)
    requires IsAbs(cwd)
    ensures IsAbs(r)
  {
    NormPath(if IsAbs(p) then p else Join(cwd, p))
  }
}
