/** Drift rebuilds of `sysforge update` (sysforge/update.py): the notice that
    says what is queued, the promotion that queues it, and the build that must
    not reuse a stale artifact (sysforge/build_core.py). */
module DriftPromotion {
  import opened Prelude
  import opened Packages
  import opened BuildStates
  import opened BuildLoop

  datatype Action =
    | UpToDate | NeedsRebuild | NeedsPacmanUpgrade | Devel | DevelEvalFailed | Downgrade
    | PullFailed | RateLimited | PurgeRefused | Frozen | SkippedNoCheckupdates

  /** The fields of one update result that matter here. */
  datatype Result = Result(pkgbase: string, action: Action, hasPkgbuild: bool, force: bool)

  /** One promotion pass on one result. */
  function Promoted(on: bool, drifted: seq<string>, r: Result): Result {
    if on && r.pkgbase in drifted && r.action.UpToDate? && r.hasPkgbuild
        then r.(action := NeedsRebuild, force := true) else r
  }

  /** The drift found and the options given: toolchain first, then flags. */
  datatype Drift = Drift(rebuildToolchain: bool, toolchain: seq<string>, rebuildFlags: bool, flags: seq<string>)

  function AfterPromotion(d: Drift, r: Result): Result {
    Promoted(d.rebuildFlags, d.flags, Promoted(d.rebuildToolchain, d.toolchain, r))
  }

  function PromoteAll(d: Drift, results: seq<Result>): (r: seq<Result>)
    ensures |r| == |results| && forall i :: 0 <= i < |r| ==> r[i] == AfterPromotion(d, results[i])
  {
    seq(|results|, i requires 0 <= i < |results| => AfterPromotion(d, results[i]))
  }

  /** The last result of a pkgbase. */
  function ResultOf(results: seq<Result>, pb: string): Option<Result> {
    if results == [] then None
    else if results[|results| - 1].pkgbase == pb then Some(results[|results| - 1])
    else ResultOf(results[..|results| - 1], pb)
  }

  /** The notice's predicate. */
  function IsQueued(results: seq<Result>): string -> bool {
    pb => var r := ResultOf(results, pb);
        r.Some? && r.value.hasPkgbuild && (r.value.action.UpToDate? || r.value.action.NeedsRebuild?)
  }

  function Hint(owners: map<string, string>, pb: string): string {
    if pb in owners && owners[pb] != "" then "`sysforge run " + owners[pb] + "`" else "`sysforge build " + pb + "`"
  }

  function Queued(drifted: seq<string>, results: seq<Result>): seq<string> {
    Filter(IsQueued(results), drifted)
  }

  function NotQueued(drifted: seq<string>, results: seq<Result>, owners: map<string, string>): seq<(string, string)> {
    if drifted == [] then []
    else
      var k := |drifted| - 1;
      NotQueued(drifted[..k], results, owners) + if IsQueued(results)(drifted[k]) then []
          else [(drifted[k], Hint(owners, drifted[k]))]
  }

  function IsPending(syncFailed: set<string>): Result -> bool {
    (r: Result) => r.action.NeedsRebuild? && r.pkgbase !in syncFailed
  }

  function ToBuild(results: seq<Result>, syncFailed: set<string>): seq<Result> {
    Filter(IsPending(syncFailed), results)
  }

  ghost predicate OneResultPerBase(results: seq<Result>) {
    forall i, j :: 0 <= i < j < |results| ==> results[i].pkgbase != results[j].pkgbase
  }

  lemma {:induction false} ResultFound(results: seq<Result>, pb: string, r: Result)
    requires OneResultPerBase(results)
    ensures ResultOf(results, pb) == Some(r) <==> r in results && r.pkgbase == pb
  {
    if results != [] {
      var k := |results| - 1;
      ResultFound(results[..k], pb, r);
      assert results == results[..k] + [results[k]];
      assert forall i :: 0 <= i < k ==> results[..k][i].pkgbase != results[k].pkgbase;
    }
  }

  /** With flag rebuilds on, the notice's queued set is exactly the drifted
      packages that are rebuilds with a PKGBUILD after both promotions. */
  lemma NoticeAgrees(d: Drift, results: seq<Result>, pb: string)
    requires d.rebuildFlags && OneResultPerBase(results)
    ensures pb in Queued(d.flags, results) <==>
            pb in d.flags && exists r ::
                r in PromoteAll(d, results) && r.pkgbase == pb && r.action.NeedsRebuild? && r.hasPkgbuild
  {
    hide ResultOf;
    var after := PromoteAll(d, results);
    if pb in Queued(d.flags, results) {
      var r := ResultOf(results, pb).value;
      ResultFound(results, pb, r);
      var i :| 0 <= i < |results| && results[i] == r;
      assert after[i] in after;
    }
    if r :| pb in d.flags && r in after && r.pkgbase == pb && r.action.NeedsRebuild? && r.hasPkgbuild {
      var i :| 0 <= i < |after| && after[i] == r;
      ResultFound(results, pb, results[i]);
    }
  }

  /** Each of them is built in this run, unless its source sync failed. */
  lemma QueuedIsBuiltUnlessUnsynced(d: Drift, results: seq<Result>, syncFailed: set<string>, pb: string)
    requires d.rebuildFlags && OneResultPerBase(results) && pb in Queued(d.flags, results)
    ensures (exists r :: r in ToBuild(PromoteAll(d, results), syncFailed) && r.pkgbase == pb) <==> pb !in syncFailed
  {
    NoticeAgrees(d, results, pb);
    var r :| r in PromoteAll(d, results) && r.pkgbase == pb && r.action.NeedsRebuild?;
    hide PromoteAll, Queued, Filter;
    assert pb !in syncFailed ==> r in ToBuild(PromoteAll(d, results), syncFailed);
  }

  /** A result is forced exactly when a promotion made it a rebuild. */
  lemma ForcedIsPromoted(d: Drift, r: Result)
    requires !r.force
    ensures AfterPromotion(d, r).force <==> AfterPromotion(d, r).action != r.action
    ensures AfterPromotion(d, r).force ==> AfterPromotion(d, r).action.NeedsRebuild?
  {
  }

  // ---------------------------------------------------------------------
  // A promoted target is really rebuilt
  // ---------------------------------------------------------------------

  /** What counts a target as built: a fresh build, or an artifact reused without
      force. */
  predicate Counted(t: Target, e: BuildEvent) {
    e.Built? || (e.AlreadyBuilt? && !t.forceRebuild)
  }

  lemma StepCounts(c: Setup, p: Progress, t: Target, e: BuildEvent, b: string)
    ensures b in BuildOne(c, p, t, e).built ==> b in p.built || (b == t.pkgbase && Counted(t, e))
  {
    JitKeepsLists(c, p, t);
    hide JitInstall;
  }

  lemma {:induction false} BuiltWasCounted(c: Setup, s: Store, targets: seq<Target>, events: seq<BuildEvent>, n: nat,
                                           b: string)
    requires n <= |targets| && n <= |events| && b in BuildFirst(c, s, targets, events, n).built
    ensures exists k :: 0 <= k < n && targets[k].pkgbase == b && Counted(targets[k], events[k])
  {
    BuildSteps(c, s, targets, events, n);
    hide BuildFirst, BuildOne;
    if n > 0 {
      StepCounts(c, BuildFirst(c, s, targets, events, n - 1), targets[n - 1], events[n - 1], b);
      if b in BuildFirst(c, s, targets, events, n - 1).built {
        BuiltWasCounted(c, s, targets, events, n - 1, b);
      }
    }
  }

  /** A forced target counts as built only if makepkg really built it; reusing
      its old artifact counts as a failure. */
  lemma ForcedIsNeverReused(c: Setup, s: Store, targets: seq<Target>, events: seq<BuildEvent>, i: nat)
    requires |targets| <= |events| && i < |targets| && NoDup(Bases(targets)) && targets[i].forceRebuild
    ensures targets[i].pkgbase in RunAll(c, s, targets, events).built ==> events[i].Built?
  {
    var b := targets[i].pkgbase;
    var p := BuildFirst(c, s, targets, events, |targets|);
    assert RunAll(c, s, targets, events).built == p.built;
    hide RunAll, BuildFirst;
    if b in p.built {
      BuiltWasCounted(c, s, targets, events, |targets|, b);
      var k :| 0 <= k < |targets| && targets[k].pkgbase == b && Counted(targets[k], events[k]);
      assert Bases(targets)[k] == Bases(targets)[i];
    }
  }

  // ---------------------------------------------------------------------
  // As the program runs it
  // ---------------------------------------------------------------------

  class UpdateResult {
    const pkgbase: string
    const hasPkgbuild: bool
    var action: Action
    var force: bool

    constructor (pkgbase: string, hasPkgbuild: bool, action: Action)
      ensures Value() == Result(pkgbase, action, hasPkgbuild, false)
    {
      this.pkgbase, this.hasPkgbuild, this.action, this.force := pkgbase, hasPkgbuild, action, false;
    }

    function Value(): Result
      reads this
    {
      Result(pkgbase, action, hasPkgbuild, force)
    }
  }

  /** One pass of `_promote_drift` over the results. */
  method PromotePass(on: bool, drifted: seq<string>, results: seq<UpdateResult>)
    modifies results
    ensures forall r :: r in results ==> r.Value() == Promoted(on, drifted, old(r.Value()))
  {
    if on && drifted != [] {
      for i := 0 to |results|
        invariant forall r :: r in results[..i] ==> r.Value() == Promoted(on, drifted, old(r.Value()))
        invariant forall r :: r in results && r !in results[..i] ==> r.Value() == old(r.Value())
      {
        var r := results[i];
        assert results[..i + 1] == results[..i] + [r];
        if r.pkgbase in drifted && r.action.UpToDate? && r.hasPkgbuild {
          r.action := NeedsRebuild;
          r.force := true;
        }
      }
      assert results[..|results|] == results;
    }
  }

  /** A drift whose rebuild is switched on names an up-to-date result with a PKGBUILD. */
  ghost predicate Hits(d: Drift, r: Result) {
    && r.action.UpToDate? && r.hasPkgbuild
    && ((d.rebuildToolchain && r.pkgbase in d.toolchain) || (d.rebuildFlags && r.pkgbase in d.flags))
  }

  /** `_promote_drift` */
  method PromoteDrift(d: Drift, results: seq<UpdateResult>)
    modifies results
    ensures forall r :: r in results ==> r.Value() == AfterPromotion(d, old(r.Value()))
    ensures forall r :: r in results ==>
              && r.action == (if Hits(d, old(r.Value())) then NeedsRebuild else old(r.action))
              && (r.force <==> old(r.force) || Hits(d, old(r.Value())))
  {
    PromotePass(d.rebuildToolchain, d.toolchain, results);
    PromotePass(d.rebuildFlags, d.flags, results);
  }

  lemma NothingQueued(results: seq<Result>, owners: map<string, string>)
    ensures Queued([], results) == [] && NotQueued([], results, owners) == []
  {
  }

  lemma PartitionNext(drifted: seq<string>, results: seq<Result>, owners: map<string, string>, i: nat)
    requires i < |drifted|
    ensures Queued(drifted[..i + 1], results) == Queued(drifted[..i], results) + if IsQueued(results)(drifted[i])
        then [drifted[i]] else []
    ensures NotQueued(drifted[..i + 1], results, owners) ==
            NotQueued(drifted[..i], results, owners) + if IsQueued(results)(drifted[i]) then []
                else [(drifted[i], Hint(owners, drifted[i]))]
  {
    hide IsQueued, Hint;
    FilterNext(IsQueued(results), drifted, i);
    assert drifted[..i + 1][..i] == drifted[..i];
  }

  /** The package has a PKGBUILD and is up to date or a rebuild already. */
  ghost predicate WillBuild(results: seq<Result>, pb: string) {
    exists r :: r in results && r.pkgbase == pb && r.hasPkgbuild && (r.action.UpToDate? || r.action.NeedsRebuild?)
  }

  lemma QueuedMeans(results: seq<Result>, pb: string)
    requires OneResultPerBase(results)
    ensures IsQueued(results)(pb) <==> WillBuild(results, pb)
  {
    hide ResultOf;
    if r :| r in results && r.pkgbase == pb && r.hasPkgbuild && (r.action.UpToDate? || r.action.NeedsRebuild?) {
      ResultFound(results, pb, r);
    }
    if ResultOf(results, pb).Some? {
      ResultFound(results, pb, ResultOf(results, pb).value);
    }
  }

  lemma {:induction false} NotQueuedAre(drifted: seq<string>, results: seq<Result>, owners: map<string, string>)
    ensures forall pb, hint :: (pb, hint) in NotQueued(drifted, results, owners) <==>
              pb in drifted && !IsQueued(results)(pb) && hint == Hint(owners, pb)
  {
    hide IsQueued, Hint;
    if drifted != [] {
      var k := |drifted| - 1;
      NotQueuedAre(drifted[..k], results, owners);
      assert drifted == drifted[..k] + [drifted[k]];
    }
  }

  lemma HintIs(owners: map<string, string>, pb: string)
    ensures Hint(owners, pb)
         == "`sysforge " + (if pb in owners && owners[pb] != "" then "run " + owners[pb] else "build " + pb) + "`"
  {
  }

  lemma PartitionMeans(drifted: seq<string>, results: seq<Result>, owners: map<string, string>)
    ensures InOrderOf(Queued(drifted, results), drifted)
    ensures OneResultPerBase(results) ==>
              forall pb :: pb in Queued(drifted, results) <==> pb in drifted && WillBuild(results, pb)
    ensures OneResultPerBase(results) ==>
              forall pb, hint :: (pb, hint) in NotQueued(drifted, results, owners) <==>
                pb in drifted && !WillBuild(results, pb) && hint == "`sysforge " + (
                  if pb in owners && owners[pb] != "" then "run " + owners[pb] else "build " + pb) + "`"
  {
    FilterInOrder(IsQueued(results), drifted);
    NotQueuedAre(drifted, results, owners);
    if OneResultPerBase(results) {
      forall pb ensures IsQueued(results)(pb) <==> WillBuild(results, pb) {
        QueuedMeans(results, pb);
      }
    }
    forall pb ensures Hint(owners, pb)
      == "`sysforge " + (if pb in owners && owners[pb] != "" then "run " + owners[pb] else "build " + pb) + "`" {
      HintIs(owners, pb);
    }
    hide IsQueued, WillBuild, OneResultPerBase, Hint, InOrderOf, NotQueued;
  }

  /** `_partition_flag_drift` */
  method PartitionFlagDrift(drifted: seq<string>, results: seq<Result>, owners: map<string, string>)
    returns (queued: seq<string>, notQueued: seq<(string, string)>)
    ensures queued == Queued(drifted, results) && notQueued == NotQueued(drifted, results, owners)
    ensures |queued| + |notQueued| == |drifted|
    ensures InOrderOf(queued, drifted)
    ensures OneResultPerBase(results) ==> forall pb :: pb in queued <==> pb in drifted && WillBuild(results, pb)
    ensures OneResultPerBase(results) ==>
              forall pb, hint :: (pb, hint) in notQueued <==>
                pb in drifted && !WillBuild(results, pb) && hint == "`sysforge " + (
                  if pb in owners && owners[pb] != "" then "run " + owners[pb] else "build " + pb) + "`"
  {
    PartitionMeans(drifted, results, owners);
    hide InOrderOf, WillBuild, OneResultPerBase;
    hide Filter, NotQueued, Hint, ResultOf;
    queued, notQueued := [], [];
    NothingQueued(results, owners);
    assert drifted[..0] == [] && drifted[..|drifted|] == drifted;
    for i := 0 to |drifted|
      invariant queued == Queued(drifted[..i], results) && notQueued == NotQueued(drifted[..i], results, owners)
      invariant |queued| + |notQueued| == i
    {
      var pb := drifted[i];
      PartitionNext(drifted, results, owners, i);
      var r := ResultOf(results, pb);
      if r.Some? && r.value.hasPkgbuild && (r.value.action.UpToDate? || r.value.action.NeedsRebuild?) {
        queued := queued + [pb];
      } else {
        notQueued := notQueued + [(pb, Hint(owners, pb))];
      }
    }
  }
}
