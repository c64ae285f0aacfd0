/** The build loop of `build_and_install` in sysforge/build_core.py, with its
    just-in-time installs and the final bulk install. */
module BuildLoop {
  import opened Prelude
  import opened Packages
  import opened BuildStates
  import opened StateFiles
  import opened Install
  import opened BatchOrder

  // ---------------------------------------------------------------------
  // What the outside world answers
  // ---------------------------------------------------------------------

  /** How one target's makepkg call ends. `records` is what the build worker
      wrote to the build records, `skewed` the answer of the ABI skew gate. */
  datatype BuildEvent =
    | Built(files: seq<File>, records: seq<(string, Entry)>, skewed: bool)
    | AlreadyBuilt(existing: seq<File>, skewed: bool)
    | PgoSkipped
    | Raised

  // ---------------------------------------------------------------------
  // The build loop
  // ---------------------------------------------------------------------

  /** The accumulators of the loop. `handed` lists the arguments of every
      `install_built` call so far. */
  datatype Progress = Progress(
    built: seq<string>, failed: seq<string>, pgoSkipped: seq<string>,
    builtFiles: seq<File>, filesOf: map<string, seq<File>>,
    handled: set<File>, installed: seq<File>, refused: seq<(File, Reason)>,
    store: Store, calls: nat, handed: seq<seq<File>>)

  function Start(s: Store): Progress {
    Progress([], [], [], [], map[], {}, [], [], s, 0, [])
  }

  /** The fixed surroundings of one run. */
  datatype Setup = Setup(w: World, requested: set<string>, intra: IntraDeps)

  function FilesOf(p: Progress, base: string): seq<File> {
    if base in p.filesOf then p.filesOf[base] else []
  }

  function Unhandled(handled: set<File>, files: seq<File>): seq<File> {
    if files == [] then []
    else Unhandled(handled, files[..|files| - 1]) + if files[|files| - 1] in handled then [] else [files[|files| - 1]]
  }

  /** The files of `bases` that no install call has seen yet. */
  function Pending(p: Progress, bases: seq<string>): seq<File> {
    if bases == [] then []
    else Pending(p, bases[..|bases| - 1]) + Unhandled(p.handled, FilesOf(p, bases[|bases| - 1]))
  }

  lemma {:induction false} UnhandledFiles(handled: set<File>, files: seq<File>)
    ensures forall f :: f in Unhandled(handled, files) <==> f in files && f !in handled
    ensures InOrderOf(Unhandled(handled, files), files)
  {
    if files != [] {
      var k := |files| - 1;
      UnhandledFiles(handled, files[..k]);
      assert files == files[..k] + [files[k]];
      InOrderNext(Unhandled(handled, files[..k]), files[..k], files[k]);
      hide InOrderOf;
    }
  }

  /** All files of `bases`, in that order. */
  function FilesOfAll(p: Progress, bases: seq<string>): seq<File> {
    if bases == [] then [] else FilesOfAll(p, bases[..|bases| - 1]) + FilesOf(p, bases[|bases| - 1])
  }

  lemma {:induction false} PendingFiles(p: Progress, bases: seq<string>)
    ensures forall f :: f in Pending(p, bases) <==> f !in p.handled && exists b :: b in bases && f in FilesOf(p, b)
    ensures InOrderOf(Pending(p, bases), FilesOfAll(p, bases))
  {
    if bases != [] {
      var k := |bases| - 1;
      PendingFiles(p, bases[..k]);
      UnhandledFiles(p.handled, FilesOf(p, bases[k]));
      assert bases == bases[..k] + [bases[k]];
      InOrderConcat(Pending(p, bases[..k]), FilesOfAll(p, bases[..k]),
                    Unhandled(p.handled, FilesOf(p, bases[k])), FilesOf(p, bases[k]));
      hide InOrderOf, Unhandled, FilesOf;
    }
  }

  /** One `install_built` call and its bookkeeping. */
  function HandOver(c: Setup, p: Progress, files: seq<File>): Progress {
    var t := Installing(c.w, p.calls, files, c.requested);
    p.(handled := p.handled + Elems(files),
       installed := p.installed + t.installed,
       refused := p.refused + t.refused,
       store := StoreAfterInstall(c.w, p.calls, files, c.requested, p.store),
       calls := p.calls + |t.attempts|,
       handed := p.handed + [files])
  }

  /** Just before `t` builds, install what its batch dependencies produced. */
  function JitInstall(c: Setup, p: Progress, t: Target): Progress {
    var pending := Pending(p, SortedOf(multiset(Deps(c.intra, t.pkgbase))));
    if pending == [] then p else HandOver(c, p, pending)
  }

  function Fail(p: Progress, base: string): Progress {
    p.(failed := p.failed + [base])
  }

  /** The ABI skew gate blocks an install only when there is one. */
  function Deliver(p: Progress, base: string, files: seq<File>, skewed: bool): Progress {
    if skewed && files != [] then Fail(p, base)
    else p.(builtFiles := p.builtFiles + files, filesOf := p.filesOf[base := files], built := p.built + [base])
  }

  function Conclude(p: Progress, t: Target, e: BuildEvent): Progress {
    match e
    case Built(files, records, skewed) => Deliver(p.(store := RecordInFile(p.store, records)), t.pkgbase, files, skewed)
    case AlreadyBuilt(existing, skewed) =>
      if t.forceRebuild || existing == [] then Fail(p, t.pkgbase)
      else Deliver(p, t.pkgbase, existing, skewed)
    case PgoSkipped => p.(pgoSkipped := p.pgoSkipped + [t.pkgbase])
    case Raised => Fail(p, t.pkgbase)
  }

  function BuildOne(c: Setup, p: Progress, t: Target, e: BuildEvent): Progress {
    Conclude(JitInstall(c, p, t), t, e)
  }

  /** The state after the first `n` targets. */
  function BuildFirst(c: Setup, s: Store, targets: seq<Target>, events: seq<BuildEvent>, n: nat): Progress
    requires n <= |targets| && n <= |events|
  {
    if n == 0 then Start(s)
    else BuildOne(c, BuildFirst(c, s, targets, events, n - 1), targets[n - 1], events[n - 1])
  }

  lemma BuildSteps(c: Setup, s: Store, targets: seq<Target>, events: seq<BuildEvent>, n: nat)
    requires n <= |targets| && n <= |events|
    ensures n == 0 ==> BuildFirst(c, s, targets, events, n) == Start(s)
    ensures n > 0 ==>
              BuildFirst(c, s, targets, events, n)
              == BuildOne(c, BuildFirst(c, s, targets, events, n - 1), targets[n - 1], events[n - 1])
  {
  }

  /** The final bulk install of everything no just-in-time install handled. */
  function FinalInstall(c: Setup, p: Progress): Progress {
    HandOver(c, p, Unhandled(p.handled, p.builtFiles))
  }

  function RunAll(c: Setup, s: Store, targets: seq<Target>, events: seq<BuildEvent>): Progress
    requires |targets| <= |events|
  {
    FinalInstall(c, BuildFirst(c, s, targets, events, |targets|))
  }

  /** The build records once the run is over. */
  function FinalStore(c: Setup, s: Store, targets: seq<Target>, events: seq<BuildEvent>,
                      prior: map<string, Option<Entry>>): Store
    requires |targets| <= |events|
  {
    var p := RunAll(c, s, targets, events);
    RevertInFile(p.store, Files(p.refused), prior)
  }

  // ---------------------------------------------------------------------
  // In which list a target ends
  // ---------------------------------------------------------------------

  /** makepkg failed, or found an artifact it may not reuse or none at all, or the
      skew gate refused what there was to install. */
  ghost predicate Fails(t: Target, e: BuildEvent) {
    || e.Raised?
    || (e.Built? && e.skewed && e.files != [])
    || (e.AlreadyBuilt? && (t.forceRebuild || e.existing == [] || e.skewed))
  }

  ghost predicate Succeeds(t: Target, e: BuildEvent) {
    !e.PgoSkipped? && !Fails(t, e)
  }

  /** Target and event put `t` in one list, and in no other. */
  ghost predicate EndsIn(t: Target, e: BuildEvent, built: seq<string>, failed: seq<string>, pgoSkipped: seq<string>) {
    && (t.pkgbase in pgoSkipped <==> e.PgoSkipped?)
    && (t.pkgbase in failed <==> Fails(t, e))
    && (t.pkgbase in built <==> Succeeds(t, e))
  }

  /** The three lists after the first `n` targets. */
  ghost predicate Splits(targets: seq<Target>, events: seq<BuildEvent>, n: nat,
                         built: seq<string>, failed: seq<string>, pgoSkipped: seq<string>)
    requires n <= |targets| && n <= |events|
  {
    && (forall i :: 0 <= i < n ==> EndsIn(targets[i], events[i], built, failed, pgoSkipped))
    && InOrderOf(built, Bases(targets[..n])) && InOrderOf(failed, Bases(targets[..n]))
    && InOrderOf(pgoSkipped, Bases(targets[..n]))
  }

  /** Target `t` is built, and `f` is one of the files its makepkg call left or found. */
  ghost predicate Yields(t: Target, e: BuildEvent, f: File) {
    Succeeds(t, e) && ((e.Built? && f in e.files) || (e.AlreadyBuilt? && f in e.existing))
  }

  /** What the first `n` targets add to the files to be installed. */
  ghost predicate Collects(targets: seq<Target>, events: seq<BuildEvent>, n: nat,
                           builtFiles: seq<File>, filesOf: map<string, seq<File>>)
    requires n <= |targets| && n <= |events|
  {
    && (forall i :: 0 <= i < n ==> YieldsAt(targets[i], events[i], filesOf))
    && (forall b :: b in filesOf ==> exists i :: 0 <= i < n && targets[i].pkgbase == b)
    && (forall f :: f in builtFiles <==> exists i :: 0 <= i < n && Yields(targets[i], events[i], f))
  }

  ghost predicate YieldsAt(t: Target, e: BuildEvent, filesOf: map<string, seq<File>>) {
    && (t.pkgbase in filesOf <==> Succeeds(t, e))
    && (Succeeds(t, e) && e.Built? ==> filesOf[t.pkgbase] == e.files)
    && (Succeeds(t, e) && e.AlreadyBuilt? ==> filesOf[t.pkgbase] == e.existing)
  }

  /** What the makepkg call left or found. */
  function Artifacts(e: BuildEvent): seq<File> {
    match e
    case Built(files, _, _) => files
    case AlreadyBuilt(existing, _) => existing
    case PgoSkipped => []
    case Raised => []
  }

  function Listing(list: seq<string>, b: string, yes: bool): seq<string> {
    if yes then list + [b] else list
  }

  lemma ConcludeEnds(p: Progress, t: Target, e: BuildEvent)
    ensures var q, b := Conclude(p, t, e), t.pkgbase;
            && q.pgoSkipped == Listing(p.pgoSkipped, b, e.PgoSkipped?)
            && q.failed == Listing(p.failed, b, Fails(t, e)) && q.built == Listing(p.built, b, Succeeds(t, e))
            && q.builtFiles == (if Succeeds(t, e) then p.builtFiles + Artifacts(e) else p.builtFiles)
            && q.filesOf == if Succeeds(t, e) then p.filesOf[t.pkgbase := Artifacts(e)] else p.filesOf
  {
    hide RecordInFile;
  }

  /** The lists and files after one more target, whatever was installed before it. */
  lemma StepEnds(c: Setup, s: Store, targets: seq<Target>, events: seq<BuildEvent>, n: nat)
    requires n < |targets| && n < |events|
    ensures var p, t, e := BuildFirst(c, s, targets, events, n), targets[n], events[n];
            var q, b := BuildFirst(c, s, targets, events, n + 1), t.pkgbase;
            && q.pgoSkipped == Listing(p.pgoSkipped, b, e.PgoSkipped?)
            && q.failed == Listing(p.failed, b, Fails(t, e)) && q.built == Listing(p.built, b, Succeeds(t, e))
            && q.builtFiles == (if Succeeds(t, e) then p.builtFiles + Artifacts(e) else p.builtFiles)
            && q.filesOf == if Succeeds(t, e) then p.filesOf[t.pkgbase := Artifacts(e)] else p.filesOf
  {
    BuildSteps(c, s, targets, events, n + 1);
    var p, t := BuildFirst(c, s, targets, events, n), targets[n];
    ConcludeEnds(JitInstall(c, p, t), t, events[n]);
    JitKeepsLists(c, p, t);
    hide JitInstall, Conclude, BuildFirst, Fails;
  }

  lemma PrefixBases(targets: seq<Target>, n: nat)
    requires n < |targets|
    ensures Bases(targets[..n + 1]) == Bases(targets[..n]) + [targets[n].pkgbase]
    ensures NoDup(Bases(targets)) ==> targets[n].pkgbase !in Bases(targets[..n])
  {
    if NoDup(Bases(targets)) {
      forall i | 0 <= i < n ensures Bases(targets[..n])[i] != targets[n].pkgbase {
        assert Bases(targets)[i] != Bases(targets)[n];
      }
    }
  }

  /** Listing another pkgbase moves nobody. */
  lemma EndsStill(t: Target, e: BuildEvent, b: string, built: seq<string>, failed: seq<string>,
                  pgoSkipped: seq<string>, x: bool, y: bool, z: bool)
    requires EndsIn(t, e, built, failed, pgoSkipped) && t.pkgbase != b
    ensures EndsIn(t, e, Listing(built, b, x), Listing(failed, b, y), Listing(pgoSkipped, b, z))
  {
    hide Fails, Succeeds;
  }

  lemma EndsNow(t: Target, e: BuildEvent, built: seq<string>, failed: seq<string>, pgoSkipped: seq<string>)
    requires t.pkgbase !in built && t.pkgbase !in failed && t.pkgbase !in pgoSkipped
    ensures EndsIn(t, e, Listing(built, t.pkgbase, Succeeds(t, e)), Listing(failed, t.pkgbase, Fails(t, e)),
                   Listing(pgoSkipped, t.pkgbase, e.PgoSkipped?))
  {
    hide Fails;
  }

  lemma ListNext(list: seq<string>, bases: seq<string>, b: string, yes: bool)
    requires InOrderOf(list, bases)
    ensures InOrderOf(Listing(list, b, yes), bases + [b])
    ensures b !in bases ==> b !in list
  {
    InOrderNext(list, bases, b);
    hide Before;
  }

  lemma SplitsNext(targets: seq<Target>, events: seq<BuildEvent>, n: nat,
                   built: seq<string>, failed: seq<string>, pgoSkipped: seq<string>)
    requires n < |targets| && n < |events| && NoDup(Bases(targets))
    requires Splits(targets, events, n, built, failed, pgoSkipped)
    ensures var t, e := targets[n], events[n];
            Splits(targets, events, n + 1, Listing(built, t.pkgbase, Succeeds(t, e)),
                   Listing(failed, t.pkgbase, Fails(t, e)), Listing(pgoSkipped, t.pkgbase, e.PgoSkipped?))
  {
    hide InOrderOf, EndsIn, Fails, Succeeds, NoDup, Listing;
    var t, e := targets[n], events[n];
    var bases, b := Bases(targets[..n]), t.pkgbase;
    PrefixBases(targets, n);
    ListNext(built, bases, b, Succeeds(t, e));
    ListNext(failed, bases, b, Fails(t, e));
    ListNext(pgoSkipped, bases, b, e.PgoSkipped?);
    EndsNow(t, e, built, failed, pgoSkipped);
    forall i | 0 <= i < n
      ensures EndsIn(targets[i], events[i], Listing(built, b, Succeeds(t, e)), Listing(failed, b, Fails(t, e)),
                     Listing(pgoSkipped, b, e.PgoSkipped?))
    {
      assert bases[i] == targets[i].pkgbase && bases[i] in bases;
      EndsStill(targets[i], events[i], b, built, failed, pgoSkipped, Succeeds(t, e), Fails(t, e), e.PgoSkipped?);
    }
  }

  lemma NothingBuilt(c: Setup, s: Store, targets: seq<Target>, events: seq<BuildEvent>)
    ensures var p := BuildFirst(c, s, targets, events, 0);
            && Splits(targets, events, 0, p.built, p.failed, p.pgoSkipped)
            && Collects(targets, events, 0, p.builtFiles, p.filesOf)
  {
  }

  /** Every target of a run ends in the list its event sends it to, and the lists
      keep the order of the batch. */
  lemma {:induction false} BuildSplits(c: Setup, s: Store, targets: seq<Target>, events: seq<BuildEvent>, n: nat)
    requires n <= |targets| && n <= |events| && NoDup(Bases(targets))
    ensures var p := BuildFirst(c, s, targets, events, n);
            Splits(targets, events, n, p.built, p.failed, p.pgoSkipped)
  {
    hide *;
    NothingBuilt(c, s, targets, events);
    if n > 0 {
      BuildSplits(c, s, targets, events, n - 1);
      StepEnds(c, s, targets, events, n - 1);
      var p := BuildFirst(c, s, targets, events, n - 1);
      SplitsNext(targets, events, n - 1, p.built, p.failed, p.pgoSkipped);
    }
  }

  lemma CollectsNext(targets: seq<Target>, events: seq<BuildEvent>, n: nat, builtFiles: seq<File>,
                     filesOf: map<string, seq<File>>)
    requires n < |targets| && n < |events| && NoDup(Bases(targets))
    requires Collects(targets, events, n, builtFiles, filesOf)
    ensures var t, e := targets[n], events[n];
            Collects(targets, events, n + 1, if Succeeds(t, e) then builtFiles + Artifacts(e) else builtFiles,
                     if Succeeds(t, e) then filesOf[t.pkgbase := Artifacts(e)] else filesOf)
  {
    var t, e := targets[n], events[n];
    PrefixBases(targets, n);
    forall i | 0 <= i < n ensures targets[i].pkgbase != t.pkgbase {
      assert Bases(targets[..n])[i] == targets[i].pkgbase;
    }
    hide Bases, NoDup, Fails;
    assert forall f :: Yields(t, e, f) <==> Succeeds(t, e) && f in Artifacts(e);
  }

  /** The files to be installed are those of the targets that were built. */
  lemma {:induction false} BuildCollects(c: Setup, s: Store, targets: seq<Target>, events: seq<BuildEvent>, n: nat)
    requires n <= |targets| && n <= |events| && NoDup(Bases(targets))
    ensures var p := BuildFirst(c, s, targets, events, n); Collects(targets, events, n, p.builtFiles, p.filesOf)
  {
    hide *;
    NothingBuilt(c, s, targets, events);
    if n > 0 {
      BuildCollects(c, s, targets, events, n - 1);
      StepEnds(c, s, targets, events, n - 1);
      var p := BuildFirst(c, s, targets, events, n - 1);
      CollectsNext(targets, events, n - 1, p.builtFiles, p.filesOf);
    }
  }

  /** The final bulk install changes none of this. */
  lemma RunEnds(c: Setup, s: Store, targets: seq<Target>, events: seq<BuildEvent>)
    requires |targets| <= |events| && NoDup(Bases(targets))
    ensures var p := RunAll(c, s, targets, events);
            && Splits(targets, events, |targets|, p.built, p.failed, p.pgoSkipped)
            && Collects(targets, events, |targets|, p.builtFiles, p.filesOf)
  {
    BuildSplits(c, s, targets, events, |targets|);
    BuildCollects(c, s, targets, events, |targets|);
    hide Splits, Collects, BuildFirst;
  }

  // ---------------------------------------------------------------------
  // The loop as the program runs it
  // ---------------------------------------------------------------------

  /** The variables of one call: the `BuildOutcome` lists and the loop's own
      accumulators. */
  class Accumulators {
    var built: seq<string>
    var failed: seq<string>
    var pgoSkipped: seq<string>
    var builtFiles: seq<File>
    var filesOf: map<string, seq<File>>
    var handled: set<File>
    var installed: seq<File>
    var refused: seq<(File, Reason)>
    var calls: nat
    ghost var handed: seq<seq<File>>

    ghost predicate Holds(p: Progress, s: Store)
      reads this
    {
      p == Progress(built, failed, pgoSkipped, builtFiles, filesOf, handled, installed, refused, s, calls, handed)
    }

    constructor ()
      ensures forall s :: Holds(Start(s), s)
    {
      built, failed, pgoSkipped, builtFiles := [], [], [], [];
      filesOf, handled, installed, refused := map[], {}, [], [];
      calls, handed := 0, [];
    }

    method PendingDeps(bases: seq<string>, ghost p: Progress) returns (pending: seq<File>)
      requires filesOf == p.filesOf && handled == p.handled
      ensures pending == Pending(p, bases)
      ensures forall f :: f in pending <==> f !in handled && exists b :: b in bases && f in FilesOf(p, b)
      ensures InOrderOf(pending, FilesOfAll(p, bases))
    {
      PendingFiles(p, bases);
      hide InOrderOf;
      pending := [];
      for i := 0 to |bases|
        invariant pending == Pending(p, bases[..i])
      {
        assert bases[..i + 1][..i] == bases[..i];
        var left := NotHandled(if bases[i] in filesOf then filesOf[bases[i]] else []);
        pending := pending + left;
      }
      assert bases[..|bases|] == bases;
    }

    method NotHandled(files: seq<File>) returns (left: seq<File>)
      ensures left == Unhandled(handled, files)
    {
      left := [];
      for i := 0 to |files|
        invariant left == Unhandled(handled, files[..i])
      {
        assert files[..i + 1][..i] == files[..i];
        if files[i] !in handled {
          left := left + [files[i]];
        }
      }
      assert files[..|files|] == files;
    }

    method Give(file: StateFile, c: Setup, files: seq<File>, ghost p: Progress)
      requires Holds(p, file.store)
      modifies this, file
      ensures Holds(HandOver(c, p, files), file.store)
    {
      var nowInstalled, nowRefused, _, made := InstallBuilt(file, c.w, calls, files, c.requested);
      handled := handled + Elems(files);
      installed := installed + nowInstalled;
      refused := refused + nowRefused;
      calls := calls + made;
      handed := handed + [files];
    }

    /** The just-in-time install of `t`'s batch dependencies. */
    method InstallDeps(file: StateFile, c: Setup, t: Target, ghost p: Progress)
      requires Holds(p, file.store)
      modifies this, file
      ensures Holds(JitInstall(c, p, t), file.store)
    {
      var pending := PendingDeps(SortedOf(multiset(Deps(c.intra, t.pkgbase))), p);
      if pending != [] {
        Give(file, c, pending, p);
      }
    }

    /** The makepkg call of `t` and what is recorded about it. */
    method Build(file: StateFile, t: Target, e: BuildEvent, ghost p: Progress)
      requires Holds(p, file.store)
      modifies this, file
      ensures Holds(Conclude(p, t, e), file.store)
      ensures pgoSkipped == old(pgoSkipped) + if e.PgoSkipped? then [t.pkgbase] else []
      ensures failed == old(failed) + if Fails(t, e) then [t.pkgbase] else []
      ensures built == old(built) + if Succeeds(t, e) then [t.pkgbase] else []
      ensures !Succeeds(t, e) ==> builtFiles == old(builtFiles)
      ensures Succeeds(t, e) ==> builtFiles == old(builtFiles) + if e.Built? then e.files else e.existing
    {
      match e
      case PgoSkipped =>
        pgoSkipped := pgoSkipped + [t.pkgbase];
      case Raised =>
        failed := failed + [t.pkgbase];
      case AlreadyBuilt(existing, skewed) =>
        if t.forceRebuild || existing == [] {
          failed := failed + [t.pkgbase];
        } else {
          Collect(t.pkgbase, existing, skewed);
        }
      case Built(files, records, skewed) =>
        RecordBuilds(file, records);
        Collect(t.pkgbase, files, skewed);
    }

    method Collect(base: string, files: seq<File>, skewed: bool)
      modifies this
      ensures forall p, s :: old(Holds(p, s)) ==> Holds(Deliver(p, base, files, skewed), s)
    {
      if skewed && files != [] {
        failed := failed + [base];
      } else {
        builtFiles := builtFiles + files;
        filesOf := filesOf[base := files];
        built := built + [base];
      }
    }

    /** The loop over the batch, then the final bulk install. */
    method Run(file: StateFile, c: Setup, targets: seq<Target>, events: seq<BuildEvent>)
      requires |targets| <= |events| && Holds(Start(file.store), file.store)
      modifies this, file
      ensures Holds(RunAll(c, old(file.store), targets, events), file.store)
      ensures NoDup(Bases(targets)) ==> Splits(targets, events, |targets|, built, failed, pgoSkipped)
      ensures NoDup(Bases(targets)) ==> Collects(targets, events, |targets|, builtFiles, filesOf)
    {
      ghost var s := file.store;
      for i := 0 to |targets|
        invariant Holds(BuildFirst(c, s, targets, events, i), file.store)
      {
        ghost var p := BuildFirst(c, s, targets, events, i);
        InstallDeps(file, c, targets[i], p);
        Build(file, targets[i], events[i], JitInstall(c, p, targets[i]));
      }
      var remaining := NotHandled(builtFiles);
      Give(file, c, remaining, BuildFirst(c, s, targets, events, |targets|));
      if NoDup(Bases(targets)) {
        RunEnds(c, s, targets, events);
      }
    }
  }

  lemma CountNext(s: seq<string>, x: string)
    ensures forall b :: Count(s + [x], b) == Count(s, b) + if b == x then 1 else 0
  {
    forall b ensures Count(s + [x], b) == Count(s, b) + if b == x then 1 else 0 {
      CountConcat(s, [x], b);
      assert Count([x], b) == if b == x then 1 else 0;
    }
  }

  // ---------------------------------------------------------------------
  // Every target ends in exactly one list
  // ---------------------------------------------------------------------

  /** An install touches nothing but the install bookkeeping. */
  lemma JitKeepsLists(c: Setup, p: Progress, t: Target)
    ensures var q := JitInstall(c, p, t);
            && q.built == p.built && q.failed == p.failed && q.pgoSkipped == p.pgoSkipped
            && q.builtFiles == p.builtFiles && q.filesOf == p.filesOf
  {
  }

  function Attempts(p: Progress, b: string): nat {
    Count(p.built, b) + Count(p.failed, b) + Count(p.pgoSkipped, b)
  }

  lemma BuildOneCounts(c: Setup, p: Progress, t: Target, e: BuildEvent, b: string)
    ensures Attempts(BuildOne(c, p, t, e), b) == Attempts(p, b) + if b == t.pkgbase then 1 else 0
  {
    CountNext(p.built, t.pkgbase);
    CountNext(p.failed, t.pkgbase);
    CountNext(p.pgoSkipped, t.pkgbase);
    JitKeepsLists(c, p, t);
    hide Count, JitInstall;
  }

  lemma BasesNext(targets: seq<Target>, n: nat, b: string)
    requires 0 < n <= |targets|
    ensures Count(Bases(targets)[..n], b) == Count(Bases(targets)[..n - 1], b) + if b == targets[n - 1].pkgbase then 1
        else 0
  {
    assert Bases(targets)[..n] == Bases(targets)[..n - 1] + [targets[n - 1].pkgbase];
    CountNext(Bases(targets)[..n - 1], targets[n - 1].pkgbase);
  }

  /** After `n` targets, each of them is in exactly one of the three lists. */
  lemma {:induction false} BuildPartitions(c: Setup, s: Store, targets: seq<Target>, events: seq<BuildEvent>, n: nat,
                                           b: string)
    requires n <= |targets| && n <= |events|
    ensures Count(Bases(targets)[..n], b) == Attempts(BuildFirst(c, s, targets, events, n), b)
  {
    hide BuildFirst, BuildOne;
    BuildSteps(c, s, targets, events, n);
    if n > 0 {
      hide *;
      BuildPartitions(c, s, targets, events, n - 1, b);
      BasesNext(targets, n, b);
      BuildOneCounts(c, BuildFirst(c, s, targets, events, n - 1), targets[n - 1], events[n - 1], b);
    }
  }
}
