/** Which install call sees which artifact: properties of every run of the
    build loop, for every behaviour of makepkg and pacman. */
module RunHandover {
  import opened Prelude
  import opened Packages
  import opened BuildStates
  import opened Install
  import opened BatchOrder
  import opened BuildLoop

  // ---------------------------------------------------------------------
  // What every step keeps
  // ---------------------------------------------------------------------

  /** `f` was an argument of the i-th install call. */
  ghost predicate GivenIn(p: Progress, f: File, i: int) {
    0 <= i < |p.handed| && f in p.handed[i]
  }

  ghost predicate Given(p: Progress, f: File) {
    exists i :: GivenIn(p, f, i)
  }

  function Reports(p: Progress, f: File): nat {
    Count(p.installed, f) + Count(Files(p.refused), f)
  }

  ghost predicate Tidy(p: Progress) {
    && (forall f :: f in p.handled <==> Given(p, f))
    && (forall f, i, j :: GivenIn(p, f, i) && GivenIn(p, f, j) ==> i == j)
    && (forall f :: f in p.handled ==> f in p.builtFiles)
    && (forall b, f :: b in p.filesOf && f in p.filesOf[b] ==> f in p.builtFiles)
    && (forall f :: Reports(p, f) <= if f in p.handled then 1 else 0)
  }

  lemma FilesConcat(a: seq<(File, Reason)>, b: seq<(File, Reason)>)
    ensures Files(a + b) == Files(a) + Files(b)
  {
  }

  lemma HandOverReports(c: Setup, p: Progress, files: seq<File>, f: File)
    ensures Reports(HandOver(c, p, files), f) <= Reports(p, f) + if f in files then 1 else 0
  {
    hide Count, Transact, Installing, Files, StoreAfterInstall, Dropped;
    var t := Installing(c.w, p.calls, files, c.requested);
    InstallConserves(c.w, p.calls, files, c.requested, f);
    CountConcat(p.installed, t.installed, f);
    FilesConcat(p.refused, t.refused);
    CountConcat(Files(p.refused), Files(t.refused), f);
  }

  /** An install call given only built files no earlier call saw. */
  lemma HandOverTidy(c: Setup, p: Progress, files: seq<File>)
    requires Tidy(p) && forall f :: f in files ==> f !in p.handled && f in p.builtFiles
    ensures Tidy(HandOver(c, p, files))
  {
    var q := HandOver(c, p, files);
    var n := |p.handed|;
    forall f ensures Reports(q, f) <= if f in q.handled then 1 else 0 {
      HandOverReports(c, p, files, f);
    }
    forall f ensures f in q.handled <==> Given(q, f) {
      if f in p.handled {
        var i :| GivenIn(p, f, i);
        assert GivenIn(q, f, i);
      }
      if f in files {
        assert GivenIn(q, f, n);
      }
      if Given(q, f) {
        var i :| GivenIn(q, f, i);
        assert i < n ==> GivenIn(p, f, i);
      }
    }
    forall f, i, j | GivenIn(q, f, i) && GivenIn(q, f, j) ensures i == j {
      assert i < n ==> GivenIn(p, f, i);
      assert j < n ==> GivenIn(p, f, j);
    }
  }

  lemma JitTidy(c: Setup, p: Progress, t: Target)
    requires Tidy(p)
    ensures Tidy(JitInstall(c, p, t))
  {
    var bases := SortedOf(multiset(Deps(c.intra, t.pkgbase)));
    PendingFiles(p, bases);
    var pending := Pending(p, bases);
    if pending != [] {
      HandOverTidy(c, p, pending);
    }
  }

  lemma ConcludeTidy(p: Progress, t: Target, e: BuildEvent)
    requires Tidy(p)
    ensures Tidy(Conclude(p, t, e))
  {
    var q := Conclude(p, t, e);
    assert q.handed == p.handed && q.handled == p.handled && q.installed == p.installed && q.refused == p.refused;
    assert forall f, i :: GivenIn(q, f, i) <==> GivenIn(p, f, i);
    assert forall f :: Given(q, f) <==> Given(p, f);
    assert forall f :: Reports(q, f) == Reports(p, f);
    assert forall f :: f in p.builtFiles ==> f in q.builtFiles;
  }

  lemma {:induction false} BuildTidy(c: Setup, s: Store, targets: seq<Target>, events: seq<BuildEvent>, n: nat)
    requires n <= |targets| && n <= |events|
    ensures Tidy(BuildFirst(c, s, targets, events, n))
  {
    BuildSteps(c, s, targets, events, n);
    hide BuildFirst;
    if n > 0 {
      BuildTidy(c, s, targets, events, n - 1);
      JitTidy(c, BuildFirst(c, s, targets, events, n - 1), targets[n - 1]);
      ConcludeTidy(JitInstall(c, BuildFirst(c, s, targets, events, n - 1), targets[n - 1]), targets[n - 1],
          events[n - 1]);
      hide JitInstall, Conclude;
    }
  }

  // ---------------------------------------------------------------------
  // Whole runs
  // ---------------------------------------------------------------------

  /** Every built artifact is handed to exactly one install call, and reported
      installed or not installed at most once. */
  lemma HandedExactlyOnce(c: Setup, s: Store, targets: seq<Target>, events: seq<BuildEvent>, f: File)
    requires |targets| <= |events|
    ensures var p := RunAll(c, s, targets, events);
            && (f in p.builtFiles <==> Given(p, f))
            && (forall i, j :: GivenIn(p, f, i) && GivenIn(p, f, j) ==> i == j)
            && !(f in p.installed && f in Files(p.refused))
  {
    var q := BuildFirst(c, s, targets, events, |targets|);
    var p := RunAll(c, s, targets, events);
    BuildTidy(c, s, targets, events, |targets|);
    UnhandledFiles(q.handled, q.builtFiles);
    HandOverTidy(c, q, Unhandled(q.handled, q.builtFiles));
    CountIn(p.installed, f);
    CountIn(Files(p.refused), f);
  }

  /** Nothing the user asked for is silently dropped: each handed artifact of a
      requested package is reported installed or not installed. */
  ghost predicate ReportsRequested(c: Setup, p: Progress) {
    forall f :: f in p.handled && f.pkgname.Some? && f.pkgname.value in c.requested ==> Reports(p, f) >= 1
  }

  lemma HandOverReportsRequested(c: Setup, p: Progress, files: seq<File>)
    requires ReportsRequested(c, p)
    ensures ReportsRequested(c, HandOver(c, p, files))
  {
    var t, q := Installing(c.w, p.calls, files, c.requested), HandOver(c, p, files);
    forall f | f in q.handled && f.pkgname.Some? && f.pkgname.value in c.requested ensures Reports(q, f) >= 1 {
      CountConcat(p.installed, t.installed, f);
      assert Files(p.refused + t.refused) == Files(p.refused) + Files(t.refused);
      CountConcat(Files(p.refused), Files(t.refused), f);
      if f in files {
        RequestedIsKept(c.w, p.calls, files, c.requested, f);
        CountIn(t.installed, f);
        CountIn(Files(t.refused), f);
      }
    }
  }

  lemma {:induction false} BuildReportsRequested(c: Setup, s: Store, targets: seq<Target>, events: seq<BuildEvent>,
                                                 n: nat)
    requires n <= |targets| && n <= |events|
    ensures ReportsRequested(c, BuildFirst(c, s, targets, events, n))
  {
    BuildSteps(c, s, targets, events, n);
    hide BuildFirst, HandOver;
    if n > 0 {
      BuildReportsRequested(c, s, targets, events, n - 1);
      var p, t := BuildFirst(c, s, targets, events, n - 1), targets[n - 1];
      HandOverReportsRequested(c, p, Pending(p, SortedOf(multiset(Deps(c.intra, t.pkgbase)))));
      assert ReportsRequested(c, JitInstall(c, p, t));
      ConcludeReports(JitInstall(c, p, t), t, events[n - 1]);
      hide JitInstall, Conclude;
    }
  }

  lemma ConcludeReports(p: Progress, t: Target, e: BuildEvent)
    ensures Conclude(p, t, e).handled == p.handled
    ensures forall f :: Reports(Conclude(p, t, e), f) == Reports(p, f)
  {
  }

  lemma RequestedIsReported(c: Setup, s: Store, targets: seq<Target>, events: seq<BuildEvent>, f: File)
    requires |targets| <= |events| && f.pkgname.Some? && f.pkgname.value in c.requested
    ensures var p := RunAll(c, s, targets, events);
            f in p.builtFiles ==> f in p.installed || f in Files(p.refused)
  {
    var q := BuildFirst(c, s, targets, events, |targets|);
    var p := RunAll(c, s, targets, events);
    BuildReportsRequested(c, s, targets, events, |targets|);
    HandOverReportsRequested(c, q, Unhandled(q.handled, q.builtFiles));
    UnhandledFiles(q.handled, q.builtFiles);
    CountIn(p.installed, f);
    CountIn(Files(p.refused), f);
  }

  // ---------------------------------------------------------------------
  // Dependencies are installed before their dependents build
  // ---------------------------------------------------------------------

  lemma StepGrows(c: Setup, p: Progress, t: Target, e: BuildEvent, base: string)
    ensures p.handled <= JitInstall(c, p, t).handled <= BuildOne(c, p, t, e).handled
    ensures base != t.pkgbase ==> FilesOf(BuildOne(c, p, t, e), base) == FilesOf(p, base)
  {
    JitKeepsLists(c, p, t);
    ConcludeKeepsInstalls(JitInstall(c, p, t), t, e, base);
    hide Conclude;
  }

  lemma ConcludeKeepsInstalls(p: Progress, t: Target, e: BuildEvent, base: string)
    ensures Conclude(p, t, e).handled == p.handled
    ensures base != t.pkgbase ==> FilesOf(Conclude(p, t, e), base) == FilesOf(p, base)
  {
  }

  /** Later steps hand over more, and leave earlier targets' files alone. */
  lemma {:induction false} StepsAccumulate(c: Setup, s: Store, targets: seq<Target>, events: seq<BuildEvent>, i: nat,
                                           n: nat, base: string)
    requires i <= n <= |targets| && n <= |events| && forall k :: i <= k < n ==> targets[k].pkgbase != base
    ensures BuildFirst(c, s, targets, events, i).handled <= BuildFirst(c, s, targets, events, n).handled
    ensures FilesOf(BuildFirst(c, s, targets, events, i), base) == FilesOf(BuildFirst(c, s, targets, events, n), base)
    decreases n - i
  {
    hide BuildFirst, BuildOne, FilesOf, Deps;
    if i < n {
      BuildSteps(c, s, targets, events, n);
      StepsAccumulate(c, s, targets, events, i, n - 1, base);
      StepGrows(c, BuildFirst(c, s, targets, events, n - 1), targets[n - 1], events[n - 1], base);
    }
  }

  /** The state in which target `n` starts to build. */
  function BeforeBuild(c: Setup, s: Store, targets: seq<Target>, events: seq<BuildEvent>, n: nat): Progress
    requires n < |targets| && n < |events|
  {
    JitInstall(c, BuildFirst(c, s, targets, events, n), targets[n])
  }

  lemma JitHandsDirectDeps(c: Setup, p: Progress, t: Target, d: string, f: File)
    requires d in Deps(c.intra, t.pkgbase) && f in FilesOf(p, d)
    ensures f in JitInstall(c, p, t).handled
  {
    var bases := SortedOf(multiset(Deps(c.intra, t.pkgbase)));
    SortedOfSet(Deps(c.intra, t.pkgbase));
    assert d in Elems(bases);
    PendingFiles(p, bases);
    assert f in p.handled || f in Pending(p, bases);
  }

  /** When a target starts to build, every batch member it transitively
      build-depends on has been attempted, and every artifact of those that
      built has been handed to an install call. */
  lemma {:induction false} DepsReadyBeforeBuild(c: Setup, s: Store, targets: seq<Target>, events: seq<BuildEvent>,
                                                n: nat, path: seq<string>)
    requires n < |targets| && n < |events|
    requires NoDup(Bases(targets)) && DepsFirst(Bases(targets), c.intra)
    requires DepPath(c.intra, path) && |path| >= 2 && path[0] == targets[n].pkgbase
    ensures var q, d := BeforeBuild(c, s, targets, events, n), path[|path| - 1];
            && Attempts(q, d) == 1
            && forall f :: f in FilesOf(q, d) ==> Given(q, f)
    decreases |path|
  {
    hide BuildFirst, JitInstall, Count;
    var bases, d := Bases(targets), path[|path| - 1];
    PathPrecedes(bases, c.intra, path, n);
    var p, q := BuildFirst(c, s, targets, events, n), BeforeBuild(c, s, targets, events, n);
    JitKeepsLists(c, p, targets[n]);
    BuildPartitions(c, s, targets, events, n, d);
    DepCountedOnce(bases, n, d);
    BuildTidy(c, s, targets, events, n);
    JitTidy(c, p, targets[n]);
    forall f | f in FilesOf(q, d) ensures f in q.handled {
      DepFilesHandled(c, s, targets, events, n, path, f);
    }
  }

  lemma DepCountedOnce(bases: seq<string>, n: nat, d: string)
    requires n <= |bases| && NoDup(bases) && exists i :: 0 <= i < n && bases[i] == d
    ensures Count(bases[..n], d) == 1
  {
    assert d in bases[..n];
    CountNoDup(bases[..n], d);
  }

  lemma {:induction false} DepFilesHandled(c: Setup, s: Store, targets: seq<Target>, events: seq<BuildEvent>, n: nat,
                                           path: seq<string>, f: File)
    requires n < |targets| && n < |events|
    requires NoDup(Bases(targets)) && DepsFirst(Bases(targets), c.intra)
    requires DepPath(c.intra, path) && |path| >= 2 && path[0] == targets[n].pkgbase
    requires f in FilesOf(BuildFirst(c, s, targets, events, n), path[|path| - 1])
    ensures f in BeforeBuild(c, s, targets, events, n).handled
    decreases |path|
  {
    var bases, d := Bases(targets), path[|path| - 1];
    var p := BuildFirst(c, s, targets, events, n);
    assert path[1] in Deps(c.intra, path[0]);
    if |path| == 2 {
      JitHandsDirectDeps(c, p, targets[n], d, f);
    } else {
      var tail := path[1..];
      assert DepPath(c.intra, tail) by {
        forall k | 0 <= k < |tail| - 1 ensures tail[k + 1] in Deps(c.intra, tail[k]) {
          assert path[k + 2] in Deps(c.intra, path[k + 1]);
        }
      }
      var i :| 0 <= i < n && bases[i] == path[1];
      PathPrecedes(bases, c.intra, tail, i);
      var j :| 0 <= j < i && bases[j] == d;
      forall k | i <= k < n ensures targets[k].pkgbase != d {
        assert bases[k] != bases[j];
      }
      StepsAccumulate(c, s, targets, events, i, n, d);
      DepFilesHandled(c, s, targets, events, i, tail, f);
      HandledGrows(c, s, targets, events, i, n);
    }
  }

  /** Between two neighbouring targets. */
  lemma HandledGrowsOnce(c: Setup, s: Store, targets: seq<Target>, events: seq<BuildEvent>, n: nat)
    requires 0 < n < |targets| && n < |events|
    ensures BeforeBuild(c, s, targets, events, n - 1).handled <= BeforeBuild(c, s, targets, events, n).handled
  {
    BuildSteps(c, s, targets, events, n);
    hide BuildFirst, BuildOne, JitInstall, FilesOf, Deps;
    var p, q := BuildFirst(c, s, targets, events, n - 1), BuildFirst(c, s, targets, events, n);
    StepGrows(c, p, targets[n - 1], events[n - 1], "");
    StepGrows(c, q, targets[n], events[n], "");
  }

  lemma {:induction false} HandledGrows(c: Setup, s: Store, targets: seq<Target>, events: seq<BuildEvent>, i: nat,
                                        n: nat)
    requires i < n < |targets| && n < |events|
    ensures BeforeBuild(c, s, targets, events, i).handled <= BeforeBuild(c, s, targets, events, n).handled
    decreases n - i
  {
    hide *;
    HandledGrowsOnce(c, s, targets, events, n);
    if i + 1 < n {
      HandledGrows(c, s, targets, events, i, n - 1);
    }
  }

  // ---------------------------------------------------------------------
  // Exactly what has been handed over
  // ---------------------------------------------------------------------

  lemma JitHandles(c: Setup, p: Progress, t: Target, f: File)
    ensures f in JitInstall(c, p, t).handled <==>
            f in p.handled || DepHolds(c, p, t, f)
  {
    var deps := Deps(c.intra, t.pkgbase);
    var bases := SortedOf(multiset(deps));
    SortedOfSet(deps);
    PendingFiles(p, bases);
    assert forall b :: b in bases <==> b in Elems(bases);
    hide FilesOf, Deps, Pending, SortedOf, Installing, StoreAfterInstall;
  }

  /** Some target up to number `n` depends directly on `b`, which built `f` by then. */
  ghost predicate Wants(c: Setup, s: Store, targets: seq<Target>, events: seq<BuildEvent>, n: nat, f: File, m: int,
                        b: string)
    requires n < |targets| && n < |events|
  {
    0 <= m <= n && b in Deps(c.intra, targets[m].pkgbase) && f in FilesOf(BuildFirst(c, s, targets, events, m), b)
  }

  ghost predicate AnyWants(c: Setup, s: Store, targets: seq<Target>, events: seq<BuildEvent>, n: nat, f: File)
    requires n < |targets| && n < |events|
  {
    exists m, b :: Wants(c, s, targets, events, n, f, m, b)
  }

  ghost predicate DepHolds(c: Setup, p: Progress, t: Target, f: File) {
    exists b :: b in Deps(c.intra, t.pkgbase) && f in FilesOf(p, b)
  }

  lemma WantsNext(c: Setup, s: Store, targets: seq<Target>, events: seq<BuildEvent>, n: nat, f: File)
    requires n < |targets| && n < |events|
    ensures AnyWants(c, s, targets, events, n, f) <==>
            || (n > 0 && AnyWants(c, s, targets, events, n - 1, f))
            || DepHolds(c, BuildFirst(c, s, targets, events, n), targets[n], f)
  {
    hide BuildFirst, FilesOf, Deps;
    var p := BuildFirst(c, s, targets, events, n);
    if AnyWants(c, s, targets, events, n, f) {
      var m, b :| Wants(c, s, targets, events, n, f, m, b);
      assert m < n ==> Wants(c, s, targets, events, n - 1, f, m, b);
    }
    if n > 0 && AnyWants(c, s, targets, events, n - 1, f) {
      var m, b :| Wants(c, s, targets, events, n - 1, f, m, b);
      assert Wants(c, s, targets, events, n, f, m, b);
    }
    if DepHolds(c, p, targets[n], f) {
      var b :| b in Deps(c.intra, targets[n].pkgbase) && f in FilesOf(p, b);
      assert Wants(c, s, targets, events, n, f, n, b);
    }
  }

  lemma {:induction false} HandledIff(c: Setup, s: Store, targets: seq<Target>, events: seq<BuildEvent>, n: nat,
                                      f: File)
    requires n < |targets| && n < |events|
    ensures f in BeforeBuild(c, s, targets, events, n).handled <==> AnyWants(c, s, targets, events, n, f)
  {
    hide *;
    var p := BuildFirst(c, s, targets, events, n);
    JitHandles(c, p, targets[n], f);
    BeforeIs(c, s, targets, events, n);
    WantsNext(c, s, targets, events, n, f);
    if n > 0 {
      HandledIff(c, s, targets, events, n - 1, f);
      OneMoreHandles(c, s, targets, events, n);
    }
  }

  lemma BeforeIs(c: Setup, s: Store, targets: seq<Target>, events: seq<BuildEvent>, n: nat)
    requires n < |targets| && n < |events|
    ensures BeforeBuild(c, s, targets, events, n) == JitInstall(c, BuildFirst(c, s, targets, events, n), targets[n])
    ensures n == 0 ==> BuildFirst(c, s, targets, events, n).handled == {}
  {
    hide JitInstall;
  }

  lemma OneMoreHandles(c: Setup, s: Store, targets: seq<Target>, events: seq<BuildEvent>, n: nat)
    requires 0 < n < |targets| && n < |events|
    ensures BuildFirst(c, s, targets, events, n).handled == BeforeBuild(c, s, targets, events, n - 1).handled
  {
    BuildSteps(c, s, targets, events, n);
    var q := BeforeBuild(c, s, targets, events, n - 1);
    ConcludeKeepsInstalls(q, targets[n - 1], events[n - 1], "");
    hide BuildFirst, JitInstall, Conclude;
  }

  /** When a target starts to build, a built artifact has been handed to an install
      call exactly if it belongs to a direct dependency of that target or of one
      attempted before. */
  lemma HandedOverIff(c: Setup, s: Store, targets: seq<Target>, events: seq<BuildEvent>, n: nat, f: File)
    requires n < |targets| && n < |events|
    requires NoDup(Bases(targets)) && DepsFirst(Bases(targets), c.intra)
    ensures var q := BeforeBuild(c, s, targets, events, n);
            Given(q, f) <==>
            exists m, b :: 0 <= m <= n && b in Deps(c.intra, targets[m].pkgbase) && f in FilesOf(q, b)
  {
    hide *;
    var q := BeforeBuild(c, s, targets, events, n);
    HandledIff(c, s, targets, events, n, f);
    AnyWantsIs(c, s, targets, events, n, f);
    HandledIsGiven(c, s, targets, events, n, f);
    forall m, b ensures Wants(c, s, targets, events, n, f, m, b) <==>
        0 <= m <= n && b in Deps(c.intra, targets[m].pkgbase) && f in FilesOf(q, b)
    {
      if 0 <= m <= n && b in Deps(c.intra, targets[m].pkgbase) {
        DepFilesStand(c, s, targets, events, m, n, b);
      }
      WantsIs(c, s, targets, events, n, f, m, b);
    }
  }

  lemma AnyWantsIs(c: Setup, s: Store, targets: seq<Target>, events: seq<BuildEvent>, n: nat, f: File)
    requires n < |targets| && n < |events|
    ensures AnyWants(c, s, targets, events, n, f) <==> exists m, b :: Wants(c, s, targets, events, n, f, m, b)
  {
    hide Wants;
  }

  lemma WantsIs(c: Setup, s: Store, targets: seq<Target>, events: seq<BuildEvent>, n: nat, f: File, m: int, b: string)
    requires n < |targets| && n < |events|
    ensures Wants(c, s, targets, events, n, f, m, b) <==>
            0 <= m <= n && b in Deps(c.intra, targets[m].pkgbase)
                && f in FilesOf(BuildFirst(c, s, targets, events, m), b)
  {
    hide BuildFirst, FilesOf, Deps;
  }

  lemma HandledIsGiven(c: Setup, s: Store, targets: seq<Target>, events: seq<BuildEvent>, n: nat, f: File)
    requires n < |targets| && n < |events|
    ensures f in BeforeBuild(c, s, targets, events, n).handled <==> Given(BeforeBuild(c, s, targets, events, n), f)
  {
    BuildTidy(c, s, targets, events, n);
    JitTidy(c, BuildFirst(c, s, targets, events, n), targets[n]);
    hide BuildFirst, JitInstall, Given;
  }

  /** The files of a dependency are there from its dependent on. */
  lemma DepFilesStand(c: Setup, s: Store, targets: seq<Target>, events: seq<BuildEvent>, m: nat, n: nat, b: string)
    requires m <= n < |targets| && n < |events| && b in Deps(c.intra, targets[m].pkgbase)
    requires NoDup(Bases(targets)) && DepsFirst(Bases(targets), c.intra)
    ensures FilesOf(BeforeBuild(c, s, targets, events, n), b) == FilesOf(BuildFirst(c, s, targets, events, m), b)
  {
    var bases := Bases(targets);
    assert b in Deps(c.intra, bases[m]);
    var j :| 0 <= j < m && bases[j] == b;
    forall k | m <= k < n ensures targets[k].pkgbase != b {
      assert bases[k] != bases[j];
    }
    JitKeepsLists(c, BuildFirst(c, s, targets, events, n), targets[n]);
    hide BuildFirst, JitInstall, Deps;
    StepsAccumulate(c, s, targets, events, m, n, b);
  }
}
