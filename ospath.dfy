/** The two path operations of the copy step: `os.path.dirname` (POSIX rules)
    and `os.makedirs(name, exist_ok=True)`, with directories kept as a set of
    path strings. */
module OsPath {

  predicate HasSlash(p: string) {
    exists i :: 0 <= i < |p| && p[i] == '/'
  }

  /** Index just past the last '/' of p, or 0 when p has none. */
  function SlashEnd(p: string): (k: nat)
    ensures k <= |p|
    ensures k == 0 || p[k - 1] == '/'
    ensures forall i :: k <= i < |p| ==> p[i] != '/'
    decreases |p|
  {
    if p == "" then 0
    else if p[|p| - 1] == '/' then |p|
    else SlashEnd(p[..|p| - 1])
  }

  /** `h.rstrip('/')`. */
  function TrimSlashes(h: string): (r: string)
    ensures |r| <= |h| && r == h[..|r|]
    ensures forall i :: |r| <= i < |h| ==> h[i] == '/'
    ensures r == "" || r[|r| - 1] != '/'
    decreases |h|
  {
    if h != "" && h[|h| - 1] == '/' then TrimSlashes(h[..|h| - 1]) else h
  }

  /** `os.path.dirname(p)`: everything before the last '/', with the trailing
      slashes removed unless nothing but slashes remains. */
  function Dirname(p: string): (r: string)
    ensures |r| <= |p| && r == p[..|r|]
    ensures r == "" <==> !HasSlash(p)
    ensures forall i :: |r| <= i < SlashEnd(p) ==> p[i] == '/'
    ensures r != "" && r[|r| - 1] == '/' ==> forall i :: 0 <= i < |r| ==> r[i] == '/'
    ensures |r| <= SlashEnd(p)
    ensures r != "" && r[|r| - 1] == '/' ==> r == p[..SlashEnd(p)]
  {
    var head := p[..SlashEnd(p)];
    var trimmed := TrimSlashes(head);
    if trimmed != "" then trimmed else head
  }

  /** The directories `os.makedirs(d)` leaves in place: d and, up the chain
      of dirnames, its parents. */
  function DirChain(d: string): (c: set<string>)
    ensures d != "" ==> d in c
    ensures forall x :: x in c ==> x != "" && |x| <= |d| && x == d[..|x|]
    decreases |d|
  {
    if d == "" then {}
    else
      var up := Dirname(d);
      var rest := if |up| < |d| then DirChain(up) else {};
      assert forall x :: x in rest ==> |x| <= |d| && x == d[..|x|] by {
        forall x | x in rest
          ensures |x| <= |d| && x == d[..|x|]
        {
          PrefixOfPrefix(x, up, d);
        }
      }
      {d} + rest
  }

  /** The chain holds the parent of each of its members, so `os.makedirs(d)`
      leaves every intermediate directory of d in place. */
  lemma {:induction false} DirChainClosed(d: string)
    ensures forall x :: x in DirChain(d) && HasSlash(x) && |Dirname(x)| < |x| ==> Dirname(x) in DirChain(d)
    decreases |d|
  {
    if d != "" {
      var up := Dirname(d);
      if |up| < |d| {
        DirChainClosed(up);
      }
    }
  }

  lemma PrefixOfPrefix(x: string, y: string, z: string)
    requires |x| <= |y| <= |z| && x == y[..|x|] && y == z[..|y|]
    ensures x == z[..|x|]
  {
  }

  datatype MkdirResult = Made(dirs: set<string>) | NotFound

  /** `os.makedirs(name, exist_ok=True)` as called on line 176 of the
      script: an empty name raises FileNotFoundError, because `mkdir("")` fails
      and `""` is not an existing directory. */
  function MakeDirsAsWritten(dirs: set<string>, name: string): MkdirResult {
    if name == "" then NotFound else Made(dirs + DirChain(name))
  }

  /** The parent-directory step as intended: an empty dirname names the
      current directory, which exists, so nothing is created. */
  function MakeDirs(dirs: set<string>, name: string): (r: set<string>)
    ensures dirs <= r
    ensures DirChain(name) <= r
    ensures name != "" ==> name in r
    ensures name == "" ==> r == dirs
    ensures forall x :: x in r && x !in dirs ==> x != "" && |x| <= |name| && x == name[..|x|]
  {
    dirs + DirChain(name)
  }

  /** The directory that will hold `path` is present: its dirname is empty
      (the current directory) or in `dirs`. */
  predicate ParentPresent(dirs: set<string>, path: string) {
    Dirname(path) == "" || Dirname(path) in dirs
  }

  /** After the parent-directory step for `path`, its parent is present. */
  lemma MakeDirsMakesParent(dirs: set<string>, path: string)
    ensures ParentPresent(MakeDirs(dirs, Dirname(path)), path)
  {
  }

  /** As written, a path without any '/' makes the parent-directory step fail. */
  lemma TopLevelPathFailsAsWritten(dirs: set<string>, path: string)
    requires !HasSlash(path)
    ensures MakeDirsAsWritten(dirs, Dirname(path)) == NotFound
  {
  }

  /** Corrected, a path without any '/' creates no directory and its parent
      (the current directory) is present. */
  lemma TopLevelPathCreatesNothing(dirs: set<string>, path: string)
    requires !HasSlash(path)
    ensures MakeDirs(dirs, Dirname(path)) == dirs
    ensures ParentPresent(dirs, path)
  {
  }
}
