/** The values the build engine passes around: built artifacts and batch
    targets (sysforge/build_core.py). */
module Packages {
  import opened Prelude

  /** A built `.pkg.tar` file. `pkgname` and `supersedes` (its `replaces` entries) are what its .PKGINFO
      says; a file whose .PKGINFO cannot be read has no pkgname. */
  datatype File = File(name: string, pkgname: Option<string>, supersedes: set<string>)

  datatype Target = Target(pkgbase: string, pkgnames: seq<string>, forceRebuild: bool)

  function Bases(targets: seq<Target>): (r: seq<string>)
    ensures |r| == |targets| && forall k :: 0 <= k < |r| ==> r[k] == targets[k].pkgbase
  {
    seq(|targets|, k requires 0 <= k < |targets| => targets[k].pkgbase)
  }

  function Pkgnames(targets: seq<Target>): (r: set<string>)
    ensures forall n :: n in r <==> exists t :: t in targets && n in t.pkgnames
  {
    set t, n | t in targets && n in t.pkgnames :: n
  }
}
