/** Whether a package needs a rebuild (sysforge/update_version.py): its PKGBUILD
    against the oldest installed member the next build produces. */
module UpdateVerdict {
  import opened Prelude

  /** Package name to installed version. */
  type Versions = map<string, string>

  /** `vercmp`: negative, zero or positive; None when the tool fails. */
  type Vercmp = (string, string) -> Option<int>

  datatype Action = NeedsRebuild | UpToDate | Downgrade

  /** `AssertionFails` is the internal invariant that some version was found. */
  datatype Check = Skipped | AssertionFails | Verdict(action: Action, installedVer: string)

  function InstalledIn(installed: Versions): string -> bool {
    pn => pn in installed
  }

  function DeclaredIn(names: seq<string>): string -> bool {
    pn => pn in names
  }

  /** The version kept after looking at `present[..n]`. */
  function OldestOf(present: seq<string>, installed: Versions, vercmp: Vercmp): (v: string)
    requires present != [] && forall pn :: pn in present ==> pn in installed
    ensures exists pn :: pn in present && installed[pn] == v
  {
    if |present| == 1 then
      assert present[0] in present;
      installed[present[0]]
    else
      var k := |present| - 1;
      var oldest := OldestOf(present[..k], installed, vercmp);
      var ver := installed[present[k]];
      var c := vercmp(ver, oldest);
      if c.Some? && c.value < 0 then
        assert present[k] in present;
        ver
      else oldest
  }

  lemma OldestNext(present: seq<string>, i: nat, installed: Versions, vercmp: Vercmp)
    requires 0 < i < |present| && forall pn :: pn in present ==> pn in installed
    ensures var kept := OldestOf(present[..i], installed, vercmp);
            var c := vercmp(installed[present[i]], kept);
            OldestOf(present[..i + 1], installed, vercmp) == if c.Some? && c.value < 0 then installed[present[i]]
                else kept
  {
    assert present[..i + 1][..i] == present[..i];
  }

  lemma OldestFirst(present: seq<string>, installed: Versions, vercmp: Vercmp)
    requires present != [] && forall pn :: pn in present ==> pn in installed
    ensures OldestOf(present[..1], installed, vercmp) == installed[present[0]] && present[..|present|] == present
  {
  }

  function Present(names: seq<string>, installed: Versions): (r: seq<string>)
    ensures forall pn :: pn in r <==> pn in names && pn in installed
  {
    var kept := Filter(InstalledIn(installed), names);
    var r := SortedOf(multiset(kept));
    assert forall pn :: (pn in r <==> pn in multiset(r)) && (pn in kept <==> pn in multiset(kept));
    r
  }

  /** `_oldest_installed_ver` */
  function Oldest(names: seq<string>, installed: Versions, vercmp: Vercmp): Option<string> {
    var present := Present(names, installed);
    if present == [] then None else Some(OldestOf(present, installed, vercmp))
  }

  /** `_produced_pkgnames`: the members the patched PKGBUILD declares, or all of
      them if there is no such copy or it declares none of them. */
  function Produced(patched: Option<seq<string>>, names: seq<string>): (r: seq<string>)
    ensures names != [] ==> r != []
    ensures forall pn :: pn in r ==> pn in names
  {
    if patched.None? || Filter(DeclaredIn(patched.value), names) == [] then names
    else Filter(DeclaredIn(patched.value), names)
  }

  /** The members that count: those the patched PKGBUILD declares, or all of them if
      there is no such copy or it declares none. */
  ghost predicate Counts(patched: Option<seq<string>>, names: seq<string>, pn: string) {
    pn in names && (patched.None? || pn in patched.value || forall m :: m in names ==> m !in patched.value)
  }

  function VersionsOf(names: seq<string>, installed: Versions): set<string> {
    set pn | pn in names && pn in installed :: installed[pn]
  }

  function Candidates(patched: Option<seq<string>>, names: seq<string>, installed: Versions): seq<string> {
    if |VersionsOf(names, installed)| > 1 then Produced(patched, names) else names
  }

  /** The end of `_check_one_pkgbase` for a package that is not a VCS one. */
  function CheckOne(names: seq<string>, installed: Versions, patched: Option<seq<string>>, pkgbuildVer: string,
                    vercmp: Vercmp): Check {
    var oldest := Oldest(Candidates(patched, names, installed), installed, vercmp);
    if oldest.None? then AssertionFails
    else
      match vercmp(pkgbuildVer, oldest.value)
      case None => Skipped
      case Some(c) => Verdict(if c > 0 then NeedsRebuild else if c == 0 then UpToDate else Downgrade, oldest.value)
  }

  lemma OldestMeans(names: seq<string>, installed: Versions, vercmp: Vercmp)
    ensures var oldest := Oldest(names, installed, vercmp);
            && (oldest.None? <==> forall pn :: pn in names ==> pn !in installed)
            && (oldest.Some? ==> exists pn :: pn in names && pn in installed && installed[pn] == oldest.value)
            && (oldest.Some? && TotalOrder(vercmp) ==>
                  forall pn :: pn in names && pn in installed ==> !Older(vercmp, installed[pn], oldest.value))
  {
    var present := Present(names, installed);
    hide Present, OldestOf, TotalOrder;
    assert present != [] ==> present[0] in present;
    if present != [] && TotalOrder(vercmp) {
      forall pn | pn in present ensures !Older(vercmp, installed[pn], OldestOf(present, installed, vercmp)) {
        OldestIsLeast(present, installed, vercmp, pn);
      }
    }
  }

  method OldestInstalledVer(names: seq<string>, installed: Versions, vercmp: Vercmp) returns (oldest: Option<string>)
    ensures oldest == Oldest(names, installed, vercmp)
    ensures oldest.None? <==> forall pn :: pn in names ==> pn !in installed
    ensures oldest.Some? ==> exists pn :: pn in names && pn in installed && installed[pn] == oldest.value
    ensures oldest.Some? && TotalOrder(vercmp) ==>
              forall pn :: pn in names && pn in installed ==> !Older(vercmp, installed[pn], oldest.value)
  {
    OldestMeans(names, installed, vercmp);
    var present := Present(names, installed);
    if present == [] {
      return None;
    }
    hide Present, OldestOf, TotalOrder, Older;
    var kept := installed[present[0]];
    OldestFirst(present, installed, vercmp);
    for i := 1 to |present|
      invariant kept == OldestOf(present[..i], installed, vercmp)
    {
      OldestNext(present, i, installed, vercmp);
      var ver := installed[present[i]];
      var c := vercmp(ver, kept);
      if c.Some? && c.value < 0 {
        kept := ver;
      }
    }
    return Some(kept);
  }

  // ---------------------------------------------------------------------
  // The order of the names does not matter
  // ---------------------------------------------------------------------

  lemma {:induction false} FilterCounts(keep: string -> bool, s: seq<string>, x: string)
    ensures multiset(Filter(keep, s))[x] == if keep(x) then multiset(s)[x] else 0
  {
    if s != [] {
      assert s == [s[0]] + s[1..];
      FilterCounts(keep, s[1..], x);
    }
  }

  lemma FilterPermutes(keep: string -> bool, a: seq<string>, b: seq<string>)
    requires multiset(a) == multiset(b)
    ensures multiset(Filter(keep, a)) == multiset(Filter(keep, b))
    ensures Filter(keep, a) == [] <==> Filter(keep, b) == []
  {
    var x, y := Filter(keep, a), Filter(keep, b);
    forall n ensures multiset(x)[n] == multiset(y)[n] {
      FilterCounts(keep, a, n);
      FilterCounts(keep, b, n);
    }
    assert x != [] ==> x[0] in multiset(x);
    assert y != [] ==> y[0] in multiset(y);
  }

  lemma SameMembers(a: seq<string>, b: seq<string>, x: string)
    requires multiset(a) == multiset(b)
    ensures x in a <==> x in b
  {
    assert x in a <==> x in multiset(a);
    assert x in b <==> x in multiset(b);
  }

  /** Whatever `vercmp` says, failures included, the verdict depends on which
      members there are and not on the order they come in. */
  lemma VerdictIgnoresOrder(names: seq<string>, names': seq<string>, installed: Versions,
                            patched: Option<seq<string>>, pkgbuildVer: string, vercmp: Vercmp)
    requires multiset(names) == multiset(names')
    ensures CheckOne(names, installed, patched, pkgbuildVer, vercmp)
        == CheckOne(names', installed, patched, pkgbuildVer, vercmp)
  {
    hide OldestOf, SortedOf, Filter;
    assert VersionsOf(names, installed) == VersionsOf(names', installed) by {
      forall x ensures x in names <==> x in names' {
        SameMembers(names, names', x);
      }
    }
    if patched.Some? {
      FilterPermutes(DeclaredIn(patched.value), names, names');
    }
    FilterPermutes(InstalledIn(installed), Candidates(patched, names, installed),
        Candidates(patched, names', installed));
  }

  // ---------------------------------------------------------------------
  // What the verdict means
  // ---------------------------------------------------------------------

  /** A working `vercmp` compares any two versions, consistently. */
  ghost predicate TotalOrder(vercmp: Vercmp) {
    && (forall a, b :: vercmp(a, b).Some? && vercmp(b, a).Some? && (vercmp(a, b).value < 0 <==> vercmp(b, a).value > 0))
    && (forall a, b, c :: vercmp(a, b).Some? && vercmp(b, c).Some? && vercmp(a, c).Some? ==>
          vercmp(a, b).value <= 0 && vercmp(b, c).value <= 0 ==> vercmp(a, c).value <= 0)
  }

  ghost predicate Older(vercmp: Vercmp, a: string, b: string)
    requires TotalOrder(vercmp)
  {
    vercmp(a, b).value < 0
  }

  lemma {:induction false} OldestIsLeast(present: seq<string>, installed: Versions, vercmp: Vercmp, pn: string)
    requires TotalOrder(vercmp) && pn in present && forall m :: m in present ==> m in installed
    ensures !Older(vercmp, installed[pn], OldestOf(present, installed, vercmp))
  {
    var k := |present| - 1;
    if k == 0 {
      assert pn == present[0];
      assert vercmp(installed[pn], installed[pn]).Some?;
    } else {
      var rest := OldestOf(present[..k], installed, vercmp);
      var ver, v := installed[present[k]], installed[pn];
      assert present == present[..k] + [present[k]];
      if pn in present[..k] {
        OldestIsLeast(present[..k], installed, vercmp, pn);
        assert vercmp(ver, rest).Some? && vercmp(rest, v).Some? && vercmp(ver, v).Some?;
      } else {
        assert vercmp(ver, ver).Some?;
      }
    }
  }

  lemma ProducedCounts(patched: Option<seq<string>>, names: seq<string>, pn: string)
    ensures pn in Produced(patched, names) <==> Counts(patched, names, pn)
  {
    if patched.Some? {
      var declared := Filter(DeclaredIn(patched.value), names);
      assert forall m :: m in declared <==> m in names && m in patched.value;
      assert declared != [] ==> declared[0] in declared;
    }
  }

  lemma CountsSome(patched: Option<seq<string>>, names: seq<string>)
    requires names != []
    ensures exists pn :: Counts(patched, names, pn)
  {
    var pn := Produced(patched, names)[0];
    assert pn in Produced(patched, names);
    ProducedCounts(patched, names, pn);
  }

  /** `v` is the version of a member that counts, and none that counts is older. */
  ghost predicate OldestOfThose(patched: Option<seq<string>>, names: seq<string>, installed: Versions, vercmp: Vercmp,
                                v: string)
    requires TotalOrder(vercmp)
  {
    && (exists pn :: Counts(patched, names, pn) && pn in installed && installed[pn] == v)
    && (forall pn :: Counts(patched, names, pn) && pn in installed ==> !Older(vercmp, installed[pn], v))
  }

  /** With every member installed, the assertion holds, and the verdict compares
      the PKGBUILD with every member that counts: a rebuild exactly if one of them
      is older, a downgrade exactly if all of them are newer. */
  lemma VerdictMeaning(names: seq<string>, installed: Versions, patched: Option<seq<string>>, ver: string,
                       vercmp: Vercmp)
    requires TotalOrder(vercmp) && names != [] && forall pn :: pn in names ==> pn in installed
    ensures var check := CheckOne(names, installed, patched, ver, vercmp);
            && check.Verdict? && OldestOfThose(patched, names, installed, vercmp, check.installedVer)
            && (check.action.NeedsRebuild? <==>
                exists pn :: Counts(patched, names, pn) && Older(vercmp, installed[pn], ver))
            && (check.action.Downgrade? <==> forall pn :: Counts(patched, names, pn) ==>
                Older(vercmp, ver, installed[pn]))
  {
    var oldest := OldestCounts(names, installed, patched, vercmp);
    assert vercmp(ver, oldest).Some? && vercmp(oldest, ver).Some?;
    CandidatesPresent(names, installed, patched);
    hide Present, Produced, OldestOf, Candidates, Counts;
    forall pn | Counts(patched, names, pn)
      ensures !Older(vercmp, oldest, ver) ==> !Older(vercmp, installed[pn], ver)
      ensures Older(vercmp, ver, oldest) ==> Older(vercmp, ver, installed[pn])
    {
      CompareThrough(vercmp, ver, oldest, installed[pn]);
    }
  }

  /** The version the check compares with is that of the oldest member that counts. */
  lemma OldestCounts(names: seq<string>, installed: Versions, patched: Option<seq<string>>, vercmp: Vercmp)
    returns (oldest: string)
    requires TotalOrder(vercmp) && names != [] && forall pn :: pn in names ==> pn in installed
    ensures Oldest(Candidates(patched, names, installed), installed, vercmp) == Some(oldest)
    ensures OldestOfThose(patched, names, installed, vercmp, oldest)
  {
    var present := Present(Candidates(patched, names, installed), installed);
    CandidatesPresent(names, installed, patched);
    oldest := OldestOf(present, installed, vercmp);
    hide Present, Produced, OldestOf, Candidates, Counts, TotalOrder;
    var m :| m in present && installed[m] == oldest;
    LeastCounts(names, installed, patched, m);
    var n :| Counts(patched, names, n) && installed[n] == oldest;
    forall pn | Counts(patched, names, pn) ensures !Older(vercmp, installed[pn], oldest) {
      CountsAreCandidates(names, installed, patched, pn);
      var c :| c in present && installed[c] == installed[pn];
      OldestIsLeast(present, installed, vercmp, c);
    }
  }

  lemma CandidatesPresent(names: seq<string>, installed: Versions, patched: Option<seq<string>>)
    requires names != [] && forall pn :: pn in names ==> pn in installed
    ensures Present(Candidates(patched, names, installed), installed) != []
    ensures forall m :: m in Present(Candidates(patched, names, installed), installed) ==>
        m in Candidates(patched, names, installed)
    ensures forall pn :: Counts(patched, names, pn) ==> pn in names
  {
  }

  lemma CompareThrough(vercmp: Vercmp, ver: string, oldest: string, v: string)
    requires TotalOrder(vercmp) && !Older(vercmp, v, oldest)
    ensures !Older(vercmp, oldest, ver) ==> !Older(vercmp, v, ver)
    ensures Older(vercmp, ver, oldest) ==> Older(vercmp, ver, v)
  {
  }

  lemma SameVersion(names: seq<string>, installed: Versions, a: string, b: string)
    requires |VersionsOf(names, installed)| <= 1 && a in names && b in names && a in installed && b in installed
    ensures installed[a] == installed[b]
  {
    var vs := VersionsOf(names, installed);
    assert {installed[a], installed[b]} <= vs;
    SubsetSize({installed[a], installed[b]}, vs);
  }

  /** The oldest candidate's version is the version of a member that counts. */
  lemma LeastCounts(names: seq<string>, installed: Versions, patched: Option<seq<string>>, m: string)
    requires names != [] && (forall pn :: pn in names ==> pn in installed) && m in Candidates(patched, names, installed)
    ensures exists n :: Counts(patched, names, n) && installed[n] == installed[m]
  {
    if |VersionsOf(names, installed)| <= 1 {
      CountsSome(patched, names);
      var n :| Counts(patched, names, n);
      SameVersion(names, installed, n, m);
    } else {
      ProducedCounts(patched, names, m);
    }
  }

  lemma CountsAreCandidates(names: seq<string>, installed: Versions, patched: Option<seq<string>>, pn: string)
    requires (forall m :: m in names ==> m in installed) && Counts(patched, names, pn)
    ensures exists c :: c in Present(Candidates(patched, names, installed), installed) && installed[c] == installed[pn]
  {
    ProducedCounts(patched, names, pn);
  }

  /** The assertion fails exactly when no candidate is installed: nothing at all
      is, or the installed members disagree and the next build produces none of
      them. */
  lemma AssertionFailsIff(names: seq<string>, installed: Versions, patched: Option<seq<string>>, ver: string,
                          vercmp: Vercmp)
    ensures CheckOne(names, installed, patched, ver, vercmp).AssertionFails? <==>
            || (forall pn :: pn in names ==> pn !in installed)
            || (Disagree(names, installed) && forall pn :: Counts(patched, names, pn) ==> pn !in installed)
  {
    hide *;
    NoCandidate(names, installed, patched, ver, vercmp);
    ManyVersions(names, installed);
    forall pn ensures pn in Produced(patched, names) <==> Counts(patched, names, pn) {
      ProducedCounts(patched, names, pn);
    }
  }

  lemma NoCandidate(names: seq<string>, installed: Versions, patched: Option<seq<string>>, ver: string,
                    vercmp: Vercmp)
    ensures CheckOne(names, installed, patched, ver, vercmp).AssertionFails? <==>
            || (forall pn :: pn in names ==> pn !in installed)
            || (|VersionsOf(names, installed)| > 1 && forall pn :: pn in Produced(patched, names) ==> pn !in installed)
  {
    var present := Present(Candidates(patched, names, installed), installed);
    var versions := VersionsOf(names, installed);
    hide Present, Produced;
    if forall pn :: pn in names ==> pn !in installed {
      assert versions == {};
    }
    if present != [] {
      assert present[0] in present;
    }
  }

  /** Two members are installed in different versions. */
  ghost predicate Disagree(names: seq<string>, installed: Versions) {
    exists a, b :: a in names && b in names && a in installed && b in installed && installed[a] != installed[b]
  }

  lemma ManyVersions(names: seq<string>, installed: Versions)
    ensures |VersionsOf(names, installed)| > 1 <==> Disagree(names, installed)
  {
    var vs := VersionsOf(names, installed);
    if Disagree(names, installed) {
      var a, b :| a in names && b in names && a in installed && b in installed && installed[a] != installed[b];
      assert {installed[a], installed[b]} <= vs;
      SubsetSize({installed[a], installed[b]}, vs);
    } else if vs != {} {
      var v :| v in vs;
      assert vs == {v};
    }
  }

  /** A check is skipped exactly if some candidate is installed and `vercmp` cannot
      compare the PKGBUILD with the oldest one. */
  lemma SkippedIff(names: seq<string>, installed: Versions, patched: Option<seq<string>>, ver: string, vercmp: Vercmp)
    ensures var oldest := Oldest(Candidates(patched, names, installed), installed, vercmp);
            CheckOne(names, installed, patched, ver, vercmp).Skipped? <==>
            oldest.Some? && vercmp(ver, oldest.value).None?
    ensures CheckOne(names, installed, patched, ver, vercmp).Skipped? ==>
              exists pn :: pn in names && pn in installed && vercmp(ver, installed[pn]).None?
  {
    var present := Present(Candidates(patched, names, installed), installed);
    hide Present, OldestOf, Produced;
    if present != [] {
      var v := OldestOf(present, installed, vercmp);
      var pn :| pn in present && installed[pn] == v;
      assert pn in names;
    }
  }

  /** If `vercmp` never answers, the member that sorts first decides. */
  lemma FailureKeepsFirst(names: seq<string>, installed: Versions, vercmp: Vercmp)
    requires forall a, b :: vercmp(a, b).None?
    ensures var oldest := Oldest(names, installed, vercmp);
            oldest.Some? ==>
              exists m :: m in names && m in installed && installed[m] == oldest.value
                && forall pn :: pn in names && pn in installed ==> Le(m, pn)
  {
    var present := Present(names, installed);
    if present != [] {
      PresentAscends(names, installed);
      hide Present;
      FirstStays(present, installed, vercmp);
      LeTotal(present[0], present[0]);
      assert present[0] in present;
    }
  }

  lemma {:induction false} FirstStays(present: seq<string>, installed: Versions, vercmp: Vercmp)
    requires present != [] && (forall pn :: pn in present ==> pn in installed) && forall a, b :: vercmp(a, b).None?
    ensures OldestOf(present, installed, vercmp) == installed[present[0]]
  {
    if |present| > 1 {
      FirstStays(present[..|present| - 1], installed, vercmp);
    }
  }

  lemma PresentAscends(names: seq<string>, installed: Versions)
    requires Present(names, installed) != []
    ensures var p := Present(names, installed); forall pn :: pn in p ==> pn == p[0] || Le(p[0], pn)
  {
    SortedOfAscends(multiset(Filter(InstalledIn(installed), names)));
    var p := Present(names, installed);
    assert p == [p[0]] + p[1..];
  }
}
