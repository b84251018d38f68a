/// POSIX path arithmetic (`os.path.join` with two arguments and
/// `os.path.dirname`) and the abstract filesystem the downloader queries.
module Paths {
  import opened Text

  type Path = string

  /** What the core asks of the disk: which paths exist, and their sizes in bytes. */
  type FileSystem = map<Path, nat>

  /** `os.path.join(a, b)`. */
  function JoinPath(a: Path, b: Path): (r: Path)
    ensures StartsWith(b, "/") ==> r == b
    ensures !StartsWith(b, "/") ==> EndsWith(r, b) && StartsWith(r, a)
  {
    if StartsWith(b, "/") then b
    else if a == [] || a[|a| - 1] == '/' then a + b
    else a + "/" + b
  }

  /** Index just past the last '/' of `p`, 0 if there is none (`p.rfind('/') + 1`). */
  function AfterLastSlash(p: Path): (i: nat)
    ensures i <= |p|
    ensures i > 0 ==> p[i - 1] == '/'
    ensures forall k :: i <= k < |p| ==> p[k] != '/'
  {
    if p == [] then 0
    else if p[|p| - 1] == '/' then |p|
    else AfterLastSlash(p[..|p| - 1])
  }

  function StripTrailingSlashes(s: Path): (r: Path)
    ensures |r| <= |s| && r == s[..|r|]
    ensures r == [] || r[|r| - 1] != '/'
    ensures forall k :: |r| <= k < |s| ==> s[k] == '/'
  {
    if s != [] && s[|s| - 1] == '/' then StripTrailingSlashes(s[..|s| - 1]) else s
  }

  predicate AllSlashes(s: Path) { forall k :: 0 <= k < |s| ==> s[k] == '/' }

  /** `os.path.dirname(p)`. */
  function Dirname(p: Path): (r: Path)
    ensures |r| <= |p| && r == p[..|r|]
  {
    var head := p[..AfterLastSlash(p)];
    assert StripTrailingSlashes(head) == p[..|StripTrailingSlashes(head)|];
    if head != [] && !AllSlashes(head) then StripTrailingSlashes(head) else head
  }

  /** A single path component: non-empty and without a separator. */
  predicate IsComponent(name: Path) { name != [] && '/' !in name }

  /** The directory of a file joined onto a directory is that directory again. */
  lemma DirnameOfJoin(dir: Path, name: Path)
    requires dir != [] && dir[|dir| - 1] != '/'
    requires IsComponent(name)
    ensures Dirname(JoinPath(dir, name)) == dir
  {
    var p := JoinPath(dir, name);
    assert !StartsWith(name, "/") by { assert name[0] != '/' by { assert name[0] in name; } }
    assert p == dir + "/" + name;
    forall k | |dir| + 1 <= k < |p| ensures p[k] != '/' {
      assert p[k] == name[k - |dir| - 1];
    }
    var i := AfterLastSlash(p);
    assert p[|dir|] == '/';
    assert i == |dir| + 1;
    var head := p[..i];
    assert head == dir + "/";
    assert !AllSlashes(head) by { assert head[|dir| - 1] == dir[|dir| - 1]; }
    assert head[|dir| - 1] != '/';
  }

  /** Appending a suffix after joining is joining the suffixed name. */
  lemma JoinThenAppend(dir: Path, name: Path, suffix: Path)
    requires !StartsWith(suffix, "/")
    ensures JoinPath(dir, name) + suffix == JoinPath(dir, name + suffix)
  {
    if name == [] {
      assert name + suffix == suffix;
    } else {
      assert (name + suffix)[..1] == name[..1];
      assert StartsWith(name + suffix, "/") == StartsWith(name, "/");
    }
  }
}
