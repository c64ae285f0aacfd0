/** The build records across runs: an installed build keeps its own record, a
    refused one goes back to the snapshot, and installing the refused artifact
    later brings back what the file kept of its build's record. */
module RunRecords {
  import opened Prelude
  import opened Packages
  import opened BuildStates
  import opened StateFiles
  import opened Install
  import opened BatchOrder
  import opened BuildLoop
  import opened RunHandover

  /** What the records say about one artifact: its package's entry, and the
      entry stashed under the artifact. */
  datatype Track = Track(entry: Option<Entry>, stash: Option<Stash>)

  function TrackOf(s: Store, f: File): Track
    requires f.pkgname.Some?
  {
    Track(Get(s.data, f.pkgname.value), if f.name in s.reverted then Some(s.reverted[f.name]) else None)
  }

  /** A file name determines the package inside: `nameOf` reads it off. */
  ghost predicate NamesFit(s: Store, nameOf: string -> string) {
    forall a :: a in s.reverted ==> s.reverted[a].pkgname == nameOf(a)
  }

  /** A file the program wrote, in which the stashes fit their names. */
  ghost predicate Proper(s: Store, nameOf: string -> string) {
    Clean(s) && NamesFit(s, nameOf)
  }

  ghost predicate FitsName(f: File, nameOf: string -> string) {
    f.pkgname.Some? ==> nameOf(f.name) == f.pkgname.value
  }

  /** `f` is a proper artifact, and among `files` the only one of its package. */
  ghost predicate SoleIn(files: seq<File>, f: File, nameOf: string -> string) {
    && f.pkgname.Some? && f.pkgname.value != ""
    && nameOf(f.name) == f.pkgname.value
    && (forall g :: g in files ==> FitsName(g, nameOf))
    && (forall g :: g in files && nameOf(g.name) == f.pkgname.value ==> g == f)
  }

  // ---------------------------------------------------------------------
  // Single updates
  // ---------------------------------------------------------------------

  function Restored(t: Track): Track {
    if t.stash.Some? then Track(Some(t.stash.value.entry), None) else t
  }

  /** The track a save and a load leave. */
  function SavedTrack(t: Track): Track {
    Track(if t.entry.Some? then Some(Written(t.entry.value)) else None,
          if t.stash.Some? then Some(Stash(t.stash.value.pkgname, Texted(t.stash.value.entry))) else None)
  }

  lemma SaveTracks(s: Store, f: File, nameOf: string -> string)
    requires NamesFit(s, nameOf) && f.pkgname.Some?
    ensures Proper(Saved(s), nameOf) && TrackOf(Saved(s), f) == SavedTrack(TrackOf(s, f))
  {
    SavedIsClean(s);
    hide Clean, Written, Texted;
  }

  /** In a file the program wrote, tracks survive a save, restored or not. */
  lemma CleanTrack(s: Store, f: File)
    requires Clean(s) && f.pkgname.Some?
    ensures var t := TrackOf(s, f); SavedTrack(t) == t && SavedTrack(Restored(t)) == Restored(t)
  {
    if f.pkgname.value in s.data {
      WrittenIs(s.data[f.pkgname.value]);
    }
    if f.name in s.reverted {
      WrittenIs(s.reverted[f.name].entry);
      TextedIs(s.reverted[f.name].entry);
    }
    hide Written, Texted;
  }

  lemma {:induction false} RestoreAllTracks(s: Store, files: seq<File>, f: File, nameOf: string -> string)
    requires NamesFit(s, nameOf) && SoleIn(files, f, nameOf)
    ensures NamesFit(RestoreAll(s, files), nameOf)
    ensures TrackOf(RestoreAll(s, files), f) == if f in files then Restored(TrackOf(s, f)) else TrackOf(s, f)
  {
    if files != [] {
      var k := |files| - 1;
      assert files == files[..k] + [files[k]];
      RestoreAllTracks(s, files[..k], f, nameOf);
      RestoreTracks(RestoreAll(s, files[..k]), files[k], f, nameOf);
    }
  }

  lemma RestoreTracks(s: Store, g: File, f: File, nameOf: string -> string)
    requires NamesFit(s, nameOf) && SoleIn([g], f, nameOf)
    ensures NamesFit(Restore(s, g.name), nameOf)
    ensures TrackOf(Restore(s, g.name), f) == if f == g then Restored(TrackOf(s, f)) else TrackOf(s, f)
  {
  }

  /** If no record comes back, none was stashed for an installed file. */
  lemma {:induction false} NoneRestored(s: Store, files: seq<File>, f: File, nameOf: string -> string)
    requires NamesFit(s, nameOf) && SoleIn(files, f, nameOf) && RestoredNames(s, files) == [] && f in files
    ensures f.name !in s.reverted
  {
    var k := |files| - 1;
    assert files == files[..k] + [files[k]];
    if f in files[..k] {
      NoneRestored(s, files[..k], f, nameOf);
    } else {
      RestoreAllTracks(s, files[..k], f, nameOf);
      hide Restore, RestoreAll;
    }
  }

  lemma RestoreInFileTracks(s: Store, files: seq<File>, f: File, nameOf: string -> string)
    requires Proper(s, nameOf) && SoleIn(files, f, nameOf)
    ensures Proper(RestoreInFile(s, files), nameOf)
    ensures TrackOf(RestoreInFile(s, files), f) == if f in files then Restored(TrackOf(s, f)) else TrackOf(s, f)
  {
    if RestoredNames(s, files) == [] {
      if f in files {
        NoneRestored(s, files, f, nameOf);
      }
    } else {
      RestoreAllTracks(s, files, f, nameOf);
      CleanTrack(s, f);
      SaveTracks(RestoreAll(s, files), f, nameOf);
      hide RestoreAll, RestoredNames, Saved, SavedTrack, NamesFit, Clean, SoleIn;
    }
  }

  lemma ForgetInFileTracks(s: Store, names: set<string>, f: File, nameOf: string -> string)
    requires Proper(s, nameOf) && f.pkgname.Some? && f.pkgname.value !in names
    ensures Proper(ForgetInFile(s, names), nameOf) && TrackOf(ForgetInFile(s, names), f) == TrackOf(s, f)
  {
    CleanTrack(s, f);
    SaveTracks(Forget(s, names), f, nameOf);
    hide Saved, SavedTrack, Clean;
  }

  lemma {:induction false} OtherRecordsTrack(s: Store, records: seq<(string, Entry)>, f: File, nameOf: string -> string)
    requires NamesFit(s, nameOf) && SoleIn([], f, nameOf)
    ensures NamesFit(RecordAll(s, records), nameOf)
    ensures (forall r :: r in records ==> r.0 != f.pkgname.value) ==> TrackOf(RecordAll(s, records), f) == TrackOf(s, f)
  {
    if records != [] {
      var k := |records| - 1;
      assert records == records[..k] + [records[k]];
      OtherRecordsTrack(s, records[..k], f, nameOf);
    }
  }

  /** `records` names the package of `f` once, at index `r`. */
  ghost predicate NamedAt(records: seq<(string, Entry)>, pn: string, r: int) {
    0 <= r < |records| && forall k :: 0 <= k < |records| ==> (records[k].0 == pn <==> k == r)
  }

  lemma {:induction false} OwnRecordTracks(s: Store, records: seq<(string, Entry)>, r: int, f: File,
                                           nameOf: string -> string)
    requires NamesFit(s, nameOf) && SoleIn([], f, nameOf) && NamedAt(records, f.pkgname.value, r)
    ensures TrackOf(RecordAll(s, records), f)
         == Track(Some(Recorded(Get(s.data, f.pkgname.value), records[r].1)), None)
  {
    hide Recorded;
    var k := |records| - 1;
    OtherRecordsTrack(s, records[..k], f, nameOf);
    if r == k {
      assert forall x :: x in records[..k] ==> x.0 != f.pkgname.value;
    } else {
      OwnRecordTracks(s, records[..k], r, f, nameOf);
    }
  }

  lemma RecordInFileTracks(s: Store, records: seq<(string, Entry)>, f: File, nameOf: string -> string)
    requires Proper(s, nameOf) && SoleIn([], f, nameOf)
    ensures Proper(RecordInFile(s, records), nameOf)
    ensures (forall r :: r in records ==> r.0 != f.pkgname.value) ==>
        TrackOf(RecordInFile(s, records), f) == TrackOf(s, f)
    ensures forall r :: NamedAt(records, f.pkgname.value, r) ==>
              TrackOf(RecordInFile(s, records), f) == OwnTrack(Get(s.data, f.pkgname.value), records[r].1)
  {
    OtherRecordsTrack(s, records, f, nameOf);
    SaveTracks(RecordAll(s, records), f, nameOf);
    CleanTrack(s, f);
    hide RecordAll, Saved, Clean, SoleIn, Recorded, TrackOf;
    forall r | NamedAt(records, f.pkgname.value, r)
      ensures TrackOf(RecordInFile(s, records), f) == OwnTrack(Get(s.data, f.pkgname.value), records[r].1)
    {
      OwnRecordTracks(s, records, r, f, nameOf);
    }
  }

  /** The track of an artifact right after its build: its record, no stash. */
  function OwnTrack(prior: Option<Entry>, given: Entry): Track {
    Track(Some(Filed(prior, given)), None)
  }

  /** The user asked for the package of `f`, or `f` is not among `files`. */
  predicate Wanted(c: Setup, files: seq<File>, f: File) {
    f in files ==> f.pkgname.Some? && f.pkgname.value in c.requested
  }

  lemma InstallTracks(c: Setup, k: nat, files: seq<File>, s: Store, f: File, nameOf: string -> string)
    requires Proper(s, nameOf) && SoleIn(files, f, nameOf) && Wanted(c, files, f)
    ensures var s' := StoreAfterInstall(c.w, k, files, c.requested, s);
            && Proper(s', nameOf)
            && TrackOf(s', f) == if f in Installing(c.w, k, files, c.requested).installed
                                 then Restored(TrackOf(s, f)) else TrackOf(s, f)
  {
    var t := Installing(c.w, k, files, c.requested);
    var dropped := Dropped(c.w, k, files, c.requested);
    forall g | g in t.installed || g in dropped ensures g in files {
      InstallConserves(c.w, k, files, c.requested, g);
      CountIn(t.installed, g);
      CountIn(dropped, g);
    }
    forall g | g in dropped ensures g.pkgname.None? || g.pkgname.value != f.pkgname.value {
      DroppedIsUnrequested(c.w, k, files, c.requested, g);
    }
    hide Installing, Dropped, RestoreInFile, ForgetInFile, TrackOf, Clean, NamesFit;
    ForgetInFileTracks(s, PkgnamesOf(dropped), f, nameOf);
    RestoreInFileTracks(ForgetInFile(s, PkgnamesOf(dropped)), t.installed, f, nameOf);
  }

  /** A dropped file is not one of the packages asked for. */
  lemma DroppedIsUnrequested(w: World, k: nat, files: seq<File>, always: set<string>, g: File)
    requires g in Dropped(w, k, files, always)
    ensures g.pkgname.Some? && g.pkgname.value !in always
  {
  }

  // ---------------------------------------------------------------------
  // The loop
  // ---------------------------------------------------------------------

  function AllFiles(events: seq<BuildEvent>): seq<File> {
    if events == [] then [] else AllFiles(events[..|events| - 1]) + Artifacts(events[|events| - 1])
  }

  ghost predicate Records(e: BuildEvent, pn: string) {
    e.Built? && exists r :: r in e.records && r.0 == pn
  }

  /** At most one artifact and one recording build of f's package in the run:
      both belong to target `i`. */
  ghost predicate SoleArtifact(events: seq<BuildEvent>, i: nat, f: File, nameOf: string -> string) {
    && i < |events| && SoleIn(AllFiles(events), f, nameOf)
    && f in Artifacts(events[i]) && f !in AllFiles(events[..i])
    && forall j :: 0 <= j < |events| && j != i ==> !Records(events[j], f.pkgname.value)
  }

  lemma {:induction false} AllFilesPrefix(events: seq<BuildEvent>, n: nat)
    requires n <= |events|
    ensures forall g :: g in AllFiles(events[..n]) ==> g in AllFiles(events)
    decreases |events| - n
  {
    if n < |events| {
      AllFilesPrefix(events, n + 1);
      assert events[..n + 1][..n] == events[..n];
    } else {
      assert events[..n] == events;
    }
  }

  lemma ConcludeAdds(p: Progress, t: Target, e: BuildEvent)
    ensures forall g :: g in Conclude(p, t, e).builtFiles ==> g in p.builtFiles || g in Artifacts(e)
    ensures Conclude(p, t, e).installed == p.installed
  {
  }

  /** Built files come from the events so far. */
  lemma {:induction false} BuiltFilesAreEvents(c: Setup, s: Store, targets: seq<Target>, events: seq<BuildEvent>,
                                               n: nat)
    requires n <= |targets| && n <= |events|
    ensures forall g :: g in BuildFirst(c, s, targets, events, n).builtFiles ==> g in AllFiles(events[..n])
  {
    BuildSteps(c, s, targets, events, n);
    hide BuildFirst, JitInstall, Conclude;
    if n > 0 {
      BuiltFilesAreEvents(c, s, targets, events, n - 1);
      var p := BuildFirst(c, s, targets, events, n - 1);
      JitKeepsLists(c, p, targets[n - 1]);
      ConcludeAdds(JitInstall(c, p, targets[n - 1]), targets[n - 1], events[n - 1]);
      assert events[..n][..n - 1] == events[..n - 1];
    }
  }

  /** What the loop maintains about `f` from a state with track `t` on: the
      install of `f` restores, nothing else matters. */
  ghost predicate Follows(p: Progress, f: File, t: Track, nameOf: string -> string)
    requires f.pkgname.Some?
  {
    Proper(p.store, nameOf) && TrackOf(p.store, f) == if f in p.installed then Restored(t) else t
  }

  lemma HandOverFollows(c: Setup, p: Progress, files: seq<File>, f: File, t: Track, nameOf: string -> string)
    requires SoleIn(files, f, nameOf) && Wanted(c, files, f)
    requires Follows(p, f, t, nameOf)
    ensures Follows(HandOver(c, p, files), f, t, nameOf)
  {
    InstallTracks(c, p.calls, files, p.store, f, nameOf);
    hide StoreAfterInstall, Installing, Proper, TrackOf;
  }

  lemma JitFollows(c: Setup, p: Progress, t: Target, f: File, track: Track, nameOf: string -> string)
    requires Tidy(p) && SoleIn(p.builtFiles, f, nameOf) && Wanted(c, p.builtFiles, f)
    requires Follows(p, f, track, nameOf)
    ensures Follows(JitInstall(c, p, t), f, track, nameOf)
    ensures f in JitInstall(c, p, t).installed ==> f in p.builtFiles
  {
    hide Follows;
    var bases := SortedOf(multiset(Deps(c.intra, t.pkgbase)));
    PendingFiles(p, bases);
    var pending := Pending(p, bases);
    if pending != [] {
      assert forall g :: g in pending ==> g in p.builtFiles;
      HandOverFollows(c, p, pending, f, track, nameOf);
    }
    JitTidy(c, p, t);
    InstalledWasBuilt(JitInstall(c, p, t), f);
    JitKeepsLists(c, p, t);
  }

  lemma InstalledWasBuilt(p: Progress, f: File)
    requires Tidy(p)
    ensures f in p.installed ==> f in p.handled && f in p.builtFiles
  {
    CountIn(p.installed, f);
  }

  lemma ConcludeFollows(p: Progress, t: Target, e: BuildEvent, f: File, track: Track, nameOf: string -> string)
    requires SoleIn([], f, nameOf) && !Records(e, f.pkgname.value)
    requires Follows(p, f, track, nameOf)
    ensures Follows(Conclude(p, t, e), f, track, nameOf)
  {
    if e.Built? {
      assert forall r :: r in e.records ==> r.0 != f.pkgname.value;
      RecordInFileTracks(p.store, e.records, f, nameOf);
      hide RecordInFile, Proper, TrackOf;
    }
  }

  lemma SoleSmaller(big: seq<File>, small: seq<File>, f: File, nameOf: string -> string)
    requires SoleIn(big, f, nameOf) && forall g :: g in small ==> g in big
    ensures SoleIn(small, f, nameOf)
  {
  }

  /** Every state of the loop satisfies the preconditions of `JitFollows`. */
  lemma LoopFits(c: Setup, s: Store, targets: seq<Target>, events: seq<BuildEvent>, n: nat, f: File,
                 nameOf: string -> string)
    requires n <= |targets| && n <= |events| && SoleIn(AllFiles(events), f, nameOf) && Wanted(c, AllFiles(events), f)
    ensures var p := BuildFirst(c, s, targets, events, n);
            Tidy(p) && SoleIn(p.builtFiles, f, nameOf) && SoleIn([], f, nameOf) && Wanted(c, p.builtFiles, f)
  {
    BuildTidy(c, s, targets, events, n);
    BuiltFilesAreEvents(c, s, targets, events, n);
    AllFilesPrefix(events, n);
    SoleSmaller(AllFiles(events), BuildFirst(c, s, targets, events, n).builtFiles, f, nameOf);
  }

  /** From state `m` on, if no later build records f's package. */
  lemma {:induction false} LoopFollows(c: Setup, s: Store, targets: seq<Target>, events: seq<BuildEvent>, m: nat,
                                       n: nat,
                                       f: File, track: Track, nameOf: string -> string)
    requires m <= n <= |targets| && n <= |events| && SoleIn(AllFiles(events), f, nameOf)
    requires Wanted(c, AllFiles(events), f)
    requires forall j :: m <= j < n ==> !Records(events[j], f.pkgname.value)
    requires Follows(BuildFirst(c, s, targets, events, m), f, track, nameOf)
    ensures Follows(BuildFirst(c, s, targets, events, n), f, track, nameOf)
    decreases n - m
  {
    hide *;
    if m < n {
      LoopFollows(c, s, targets, events, m, n - 1, f, track, nameOf);
      LoopFits(c, s, targets, events, n - 1, f, nameOf);
      StepFollows(c, s, targets, events, n - 1, f, track, nameOf);
    }
  }

  lemma StepFollows(c: Setup, s: Store, targets: seq<Target>, events: seq<BuildEvent>, n: nat,
                    f: File, track: Track, nameOf: string -> string)
    requires n < |targets| && n < |events| && f.pkgname.Some? && !Records(events[n], f.pkgname.value)
    requires var p := BuildFirst(c, s, targets, events, n);
             && Tidy(p) && SoleIn(p.builtFiles, f, nameOf) && SoleIn([], f, nameOf) && Wanted(c, p.builtFiles, f)
             && Follows(p, f, track, nameOf)
    ensures Follows(BuildFirst(c, s, targets, events, n + 1), f, track, nameOf)
  {
    BuildSteps(c, s, targets, events, n + 1);
    hide BuildFirst, JitInstall, Conclude, Follows, SoleIn, Tidy, Wanted, Records;
    var p := BuildFirst(c, s, targets, events, n);
    JitFollows(c, p, targets[n], f, track, nameOf);
    ConcludeFollows(JitInstall(c, p, targets[n]), targets[n], events[n], f, track, nameOf);
  }

  /** The track of `f` once its target has ended: what the build recorded, or
      what was there before when an earlier artifact is reused. */
  ghost predicate TrackAfter(s: Store, e: BuildEvent, f: File, track: Track)
    requires f.pkgname.Some?
  {
    if Records(e, f.pkgname.value) then
      exists r :: NamedAt(e.records, f.pkgname.value, r)
          && track == OwnTrack(Get(s.data, f.pkgname.value), e.records[r].1)
    else track == TrackOf(s, f)
  }

  lemma ConcludeOwn(p: Progress, s: Store, t: Target, e: BuildEvent, f: File, track: Track, nameOf: string -> string)
    requires SoleIn([], f, nameOf) && f !in p.installed
    requires Follows(p, f, TrackOf(s, f), nameOf) && TrackAfter(s, e, f, track)
    ensures Follows(Conclude(p, t, e), f, track, nameOf)
  {
    if Records(e, f.pkgname.value) {
      RecordInFileTracks(p.store, e.records, f, nameOf);
      hide RecordInFile, Proper;
    } else {
      ConcludeFollows(p, t, e, f, track, nameOf);
    }
  }

  /** The state after f's own target. */
  lemma OwnTargetFollows(c: Setup, s: Store, targets: seq<Target>, events: seq<BuildEvent>, i: nat,
                         f: File, track: Track, nameOf: string -> string)
    requires i < |targets| <= |events| && SoleArtifact(events, i, f, nameOf) && Wanted(c, AllFiles(events), f)
    requires Proper(s, nameOf) && TrackAfter(s, events[i], f, track)
    ensures Follows(BuildFirst(c, s, targets, events, i + 1), f, track, nameOf)
  {
    hide *;
    SoleMeans(events, i, f, nameOf);
    FollowsFromStart(c, s, targets, events, f, nameOf);
    LoopFollows(c, s, targets, events, 0, i, f, TrackOf(s, f), nameOf);
    LoopFits(c, s, targets, events, i, f, nameOf);
    BuiltFilesAreEvents(c, s, targets, events, i);
    BuildSteps(c, s, targets, events, i + 1);
    var p := BuildFirst(c, s, targets, events, i);
    OneStep(c, p, targets[i], events[i]);
    JitFollows(c, p, targets[i], f, TrackOf(s, f), nameOf);
    ConcludeOwn(JitInstall(c, p, targets[i]), s, targets[i], events[i], f, track, nameOf);
  }

  lemma FollowsFromStart(c: Setup, s: Store, targets: seq<Target>, events: seq<BuildEvent>, f: File,
                         nameOf: string -> string)
    requires f.pkgname.Some? && Proper(s, nameOf)
    ensures Follows(BuildFirst(c, s, targets, events, 0), f, TrackOf(s, f), nameOf)
  {
    hide Proper, TrackOf;
  }

  lemma SoleMeans(events: seq<BuildEvent>, i: nat, f: File, nameOf: string -> string)
    requires SoleArtifact(events, i, f, nameOf)
    ensures i < |events| && SoleIn(AllFiles(events), f, nameOf) && f.pkgname.Some? && f !in AllFiles(events[..i])
    ensures forall j :: 0 <= j < i ==> !Records(events[j], f.pkgname.value)
  {
    hide AllFiles, Records;
  }

  lemma OneStep(c: Setup, p: Progress, t: Target, e: BuildEvent)
    ensures BuildOne(c, p, t, e) == Conclude(JitInstall(c, p, t), t, e)
  {
  }

  /** The final install, from the last state of the loop on. */
  lemma FinalFollows(c: Setup, s: Store, targets: seq<Target>, events: seq<BuildEvent>,
                     f: File, track: Track, nameOf: string -> string)
    requires |targets| <= |events| && SoleIn(AllFiles(events), f, nameOf) && Wanted(c, AllFiles(events), f)
    requires Follows(BuildFirst(c, s, targets, events, |targets|), f, track, nameOf)
    ensures Follows(RunAll(c, s, targets, events), f, track, nameOf)
    ensures SoleIn(Files(RunAll(c, s, targets, events).refused), f, nameOf)
  {
    var n := |targets|;
    LoopFits(c, s, targets, events, n, f, nameOf);
    var q, p := BuildFirst(c, s, targets, events, n), RunAll(c, s, targets, events);
    var remaining := Unhandled(q.handled, q.builtFiles);
    UnhandledFiles(q.handled, q.builtFiles);
    SoleSmaller(q.builtFiles, remaining, f, nameOf);
    HandOverFollows(c, q, remaining, f, track, nameOf);
    HandOverTidy(c, q, remaining);
    RefusedWereBuilt(p);
    SoleSmaller(q.builtFiles, Files(p.refused), f, nameOf);
    hide BuildFirst, HandOver, Follows, SoleIn;
  }

  lemma RefusedWereBuilt(p: Progress)
    requires Tidy(p)
    ensures forall g :: g in Files(p.refused) ==> g in p.builtFiles
  {
    forall g | g in Files(p.refused) ensures g in p.builtFiles {
      CountIn(Files(p.refused), g);
    }
  }

  // ---------------------------------------------------------------------
  // The revert after the run
  // ---------------------------------------------------------------------

  lemma RevertOther(s: Store, g: File, prior: Option<Entry>, f: File, nameOf: string -> string)
    requires NamesFit(s, nameOf) && SoleIn([g], f, nameOf) && g != f && g.pkgname.Some?
    ensures NamesFit(Revert(s, g.pkgname.value, prior, g.name), nameOf)
    ensures TrackOf(Revert(s, g.pkgname.value, prior, g.name), f) == TrackOf(s, f)
  {
  }

  lemma {:induction false} RevertAllTracks(s: Store, files: seq<File>, prior: map<string, Option<Entry>>,
                                           f: File, nameOf: string -> string)
    requires NamesFit(s, nameOf) && SoleIn(files, f, nameOf) && Count(files, f) <= 1
    requires f in files ==> f.pkgname.value in prior
    ensures NamesFit(RevertAll(s, files, prior), nameOf)
    ensures TrackOf(RevertAll(s, files, prior), f)
         == if f in files then TrackOf(Revert(s, f.pkgname.value, prior[f.pkgname.value], f.name), f) else TrackOf(s, f)
  {
    if files != [] {
      var k := |files| - 1;
      var g, rest := files[k], RevertAll(s, files[..k], prior);
      assert files == files[..k] + [g];
      CountConcat(files[..k], [g], f);
      CountIn(files[..k], f);
      RevertAllTracks(s, files[..k], prior, f, nameOf);
      hide Revert, NamesFit, TrackOf, Count;
      if g == f {
        RevertTracksAlike(rest, s, f, prior[f.pkgname.value]);
        assert f !in files[..k];
        RevertFits(rest, f, prior[f.pkgname.value], nameOf);
      } else if g.pkgname.Some? && g.pkgname.value in prior {
        RevertOther(rest, g, prior[g.pkgname.value], f, nameOf);
      }
    }
  }

  /** A revert only looks at the track. */
  lemma RevertTracksAlike(s: Store, s': Store, f: File, prior: Option<Entry>)
    requires f.pkgname.Some? && TrackOf(s, f) == TrackOf(s', f)
    ensures TrackOf(Revert(s, f.pkgname.value, prior, f.name), f)
        == TrackOf(Revert(s', f.pkgname.value, prior, f.name), f)
  {
  }

  lemma RevertFits(s: Store, f: File, prior: Option<Entry>, nameOf: string -> string)
    requires NamesFit(s, nameOf) && f.pkgname.Some? && FitsName(f, nameOf)
    ensures NamesFit(Revert(s, f.pkgname.value, prior, f.name), nameOf)
  {
  }

  lemma RevertInFileTracks(s: Store, files: seq<File>, prior: map<string, Option<Entry>>, f: File,
                           nameOf: string -> string)
    requires Proper(s, nameOf) && SoleIn(files, f, nameOf) && Count(files, f) <= 1
    requires f in files ==> f.pkgname.value in prior
    ensures Proper(RevertInFile(s, files, prior), nameOf)
    ensures TrackOf(RevertInFile(s, files, prior), f)
         == if f in files then SavedTrack(TrackOf(Revert(s, f.pkgname.value, prior[f.pkgname.value], f.name), f))
            else TrackOf(s, f)
  {
    RevertAllTracks(s, files, prior, f, nameOf);
    SaveTracks(RevertAll(s, files, prior), f, nameOf);
    CleanTrack(s, f);
    assert f in files ==> f.pkgname.value in prior ==> Snapshotted(prior, f);
    hide RevertAll, Revert, Saved, SavedTrack, Clean, NamesFit, TrackOf, Count;
  }

  // ---------------------------------------------------------------------
  // Whole runs
  // ---------------------------------------------------------------------

  /** One run and the snapshot it took of `s`; `i` is the target f belongs to. */
  ghost predicate Concerns(c: Setup, s: Store, targets: seq<Target>, events: seq<BuildEvent>,
                           prior: map<string, Option<Entry>>, i: nat, f: File, nameOf: string -> string) {
    && i < |targets| <= |events| && SoleArtifact(events, i, f, nameOf) && Proper(s, nameOf)
    && f.pkgname.value in c.requested && f.pkgname.value in prior
        && prior[f.pkgname.value] == Get(s.data, f.pkgname.value)
  }

  /** The track of `f` in the records the run leaves behind. */
  lemma FinalTrack(c: Setup, s: Store, targets: seq<Target>, events: seq<BuildEvent>, prior: map<string, Option<Entry>>,
                   i: nat, f: File, track: Track, nameOf: string -> string)
    requires Concerns(c, s, targets, events, prior, i, f, nameOf) && TrackAfter(s, events[i], f, track)
    ensures var p, s' := RunAll(c, s, targets, events), FinalStore(c, s, targets, events, prior);
            && Proper(s', nameOf)
            && (f in p.installed ==> TrackOf(s', f) == Restored(track))
            && (f in Files(p.refused) ==>
                  TrackOf(p.store, f) == track
                  && TrackOf(s', f) == SavedTrack(TrackOf(Revert(p.store, f.pkgname.value, prior[f.pkgname.value],
                      f.name), f)))
  {
    hide *;
    ConcernsMeans(c, s, targets, events, prior, i, f, nameOf);
    var p := RunAll(c, s, targets, events);
    OwnTargetFollows(c, s, targets, events, i, f, track, nameOf);
    LoopFollows(c, s, targets, events, i + 1, |targets|, f, track, nameOf);
    FinalFollows(c, s, targets, events, f, track, nameOf);
    FollowsMeans(p, f, track, nameOf);
    HandedExactlyOnce(c, s, targets, events, f);
    RefusedOnce(c, s, targets, events, f);
    RevertInFileTracks(p.store, Files(p.refused), prior, f, nameOf);
    FinalStoreIs(c, s, targets, events, prior);
  }

  lemma ConcernsMeans(c: Setup, s: Store, targets: seq<Target>, events: seq<BuildEvent>,
                      prior: map<string, Option<Entry>>, i: nat, f: File, nameOf: string -> string)
    requires Concerns(c, s, targets, events, prior, i, f, nameOf)
    ensures i < |targets| <= |events| && SoleArtifact(events, i, f, nameOf) && Proper(s, nameOf)
    ensures f.pkgname.Some? && f.pkgname.value in prior && Wanted(c, AllFiles(events), f)
    ensures SoleIn(AllFiles(events), f, nameOf)
    ensures forall j :: i < j < |events| ==> !Records(events[j], f.pkgname.value)
  {
    hide AllFiles, Records, Proper;
  }

  lemma FollowsMeans(p: Progress, f: File, t: Track, nameOf: string -> string)
    requires f.pkgname.Some? && Follows(p, f, t, nameOf)
    ensures Proper(p.store, nameOf) && TrackOf(p.store, f) == if f in p.installed then Restored(t) else t
  {
  }

  lemma FinalStoreIs(c: Setup, s: Store, targets: seq<Target>, events: seq<BuildEvent>,
                     prior: map<string, Option<Entry>>)
    requires |targets| <= |events|
    ensures var p := RunAll(c, s, targets, events);
            FinalStore(c, s, targets, events, prior) == RevertInFile(p.store, Files(p.refused), prior)
  {
    hide RunAll, RevertInFile;
  }

  lemma RefusedOnce(c: Setup, s: Store, targets: seq<Target>, events: seq<BuildEvent>, f: File)
    requires |targets| <= |events|
    ensures Count(Files(RunAll(c, s, targets, events).refused), f) <= 1
  {
    var q := BuildFirst(c, s, targets, events, |targets|);
    BuildTidy(c, s, targets, events, |targets|);
    UnhandledFiles(q.handled, q.builtFiles);
    HandOverTidy(c, q, Unhandled(q.handled, q.builtFiles));
    assert Reports(RunAll(c, s, targets, events), f) <= 1;
  }

  lemma OwnTrackAfter(s: Store, e: BuildEvent, r: nat, f: File)
    requires e.Built? && f.pkgname.Some? && NamedAt(e.records, f.pkgname.value, r)
    ensures TrackAfter(s, e, f, OwnTrack(Get(s.data, f.pkgname.value), e.records[r].1))
  {
    assert e.records[r] in e.records;
  }

  /** An installed build keeps the record it wrote. */
  lemma InstalledBuildKeepsRecord(c: Setup, s: Store, targets: seq<Target>, events: seq<BuildEvent>,
                                  prior: map<string, Option<Entry>>, i: nat, r: nat, f: File, nameOf: string -> string)
    requires Concerns(c, s, targets, events, prior, i, f, nameOf)
    requires events[i].Built? && NamedAt(events[i].records, f.pkgname.value, r)
    requires f in RunAll(c, s, targets, events).installed
    ensures Get(FinalStore(c, s, targets, events, prior).data, f.pkgname.value)
         == Some(Filed(Get(s.data, f.pkgname.value), events[i].records[r].1))
  {
    OwnTrackAfter(s, events[i], r, f);
    FinalTrack(c, s, targets, events, prior, i, f, OwnTrack(Get(s.data, f.pkgname.value), events[i].records[r].1),
        nameOf);
    hide RunAll, FinalStore;
  }

  /** A refused build leaves the pre-run record, up to the facts of the build
      (`build_seconds`, `reviewed_commit`). What stays recoverable is the record
      of the build, its booleans turned into text if it had to be stashed. */
  lemma RefusedBuildIsReverted(c: Setup, s: Store, targets: seq<Target>, events: seq<BuildEvent>,
                               prior: map<string, Option<Entry>>, i: nat, r: nat, f: File, nameOf: string -> string)
    requires Concerns(c, s, targets, events, prior, i, f, nameOf) && HasSeconds(Get(s.data, f.pkgname.value))
    requires events[i].Built? && NamedAt(events[i].records, f.pkgname.value, r) && "pkgver" in events[i].records[r].1
    requires f in Files(RunAll(c, s, targets, events).refused)
    ensures var s', pn := FinalStore(c, s, targets, events, prior), f.pkgname.value;
            var was := Get(s.data, pn);
            && Proper(s', nameOf)
            && Recoverable(s', pn, f.name, Recovered(was, Filed(was, events[i].records[r].1)))
            && (was.None? ==> pn !in s'.data)
            && (was.Some? ==> pn in s'.data
                              && FactsReplaced(was.value, Filed(was, events[i].records[r].1), s'.data[pn]))
  {
    var was, given := Get(s.data, f.pkgname.value), events[i].records[r].1;
    OwnTrackAfter(s, events[i], r, f);
    FinalTrack(c, s, targets, events, prior, i, f, OwnTrack(was, given), nameOf);
    RevertedTrack(RunAll(c, s, targets, events).store, f, s, given);
    hide RunAll, FinalStore, Revert, SavedTrack, Filed, Recovered, Changes, FactsReplaced, Proper, SoleArtifact;
  }

  /** What a revert right after the build leaves, once saved. */
  lemma RevertedTrack(now: Store, f: File, s: Store, given: Entry)
    requires f.pkgname.Some? && Clean(s) && "pkgver" in given && HasSeconds(Get(s.data, f.pkgname.value))
    requires var was := Get(s.data, f.pkgname.value); TrackOf(now, f) == OwnTrack(was, given)
    ensures var pn := f.pkgname.value;
            var was := Get(s.data, pn);
            var t := SavedTrack(TrackOf(Revert(now, pn, was, f.name), f));
            && (if t.stash.Some? then t.stash == Some(Stash(pn, Recovered(was, Filed(was, given))))
                else t.entry == Some(Recovered(was, Filed(was, given))))
            && (was.None? ==> t.entry.None?)
            && (was.Some? ==> t.entry.Some? && FactsReplaced(was.value, Filed(was, given), t.entry.value))
  {
    var pn := f.pkgname.value;
    var was := Get(s.data, pn);
    var built := Filed(was, given);
    RevertIsRecoverable(now, pn, was, given, f.name);
    WrittenIs(built);
    var then' := Revert(now, pn, was, f.name);
    if was.Some? {
      assert then'.data[pn] == was.value + Facts(built);
      assert (was.value + Facts(built)).Keys <= ENTRY_KEYS;
      WrittenIs(was.value + Facts(built));
    }
    hide Revert, Written, Texted, Filed, FactsReplaced;
  }

  /** A reused artifact that installs ends with what could be brought back. */
  lemma ReusedArtifactRestores(c: Setup, s: Store, targets: seq<Target>, events: seq<BuildEvent>,
                               prior: map<string, Option<Entry>>, i: nat, f: File, built: Entry,
                                   nameOf: string -> string)
    requires Concerns(c, s, targets, events, prior, i, f, nameOf) && events[i].AlreadyBuilt?
    requires Recoverable(s, f.pkgname.value, f.name, built)
    requires f in RunAll(c, s, targets, events).installed
    ensures Get(FinalStore(c, s, targets, events, prior).data, f.pkgname.value) == Some(built)
  {
    FinalTrack(c, s, targets, events, prior, i, f, TrackOf(s, f), nameOf);
    hide RunAll, FinalStore;
  }

  /** A reused artifact that is refused again changes nothing about it. */
  lemma ReusedArtifactRefused(c: Setup, s: Store, targets: seq<Target>, events: seq<BuildEvent>,
                              prior: map<string, Option<Entry>>, i: nat, f: File, nameOf: string -> string)
    requires Concerns(c, s, targets, events, prior, i, f, nameOf) && events[i].AlreadyBuilt?
    requires f in Files(RunAll(c, s, targets, events).refused)
    ensures TrackOf(FinalStore(c, s, targets, events, prior), f) == TrackOf(s, f)
    ensures Proper(FinalStore(c, s, targets, events, prior), nameOf)
  {
    var now := RunAll(c, s, targets, events).store;
    FinalTrack(c, s, targets, events, prior, i, f, TrackOf(s, f), nameOf);
    CleanTrack(s, f);
    hide RunAll, FinalStore, SavedTrack, Clean;
    SecondRevertIsIdle(now, f.pkgname.value, f.name);
  }

  // ---------------------------------------------------------------------
  // Several runs
  // ---------------------------------------------------------------------

  /** One whole run, as far as the records are concerned. */
  datatype Session = Session(c: Setup, targets: seq<Target>, events: seq<BuildEvent>, prior: map<string,
      Option<Entry>>, i: nat)

  ghost predicate Reuses(x: Session, s: Store, f: File, nameOf: string -> string) {
    Concerns(x.c, s, x.targets, x.events, x.prior, x.i, f, nameOf) && x.events[x.i].AlreadyBuilt?
  }

  ghost predicate RefusedIn(x: Session, s: Store, f: File) {
    |x.targets| <= |x.events| && f in Files(RunAll(x.c, s, x.targets, x.events).refused)
  }

  /** The run neither records the package of `f` nor brings forth a file of it. */
  ghost predicate PassesBy(x: Session, s: Store, f: File, nameOf: string -> string) {
    && |x.targets| <= |x.events| && Proper(s, nameOf)
    && SoleIn(AllFiles(x.events), f, nameOf) && f !in AllFiles(x.events)
    && forall j :: 0 <= j < |x.events| ==> !Records(x.events[j], f.pkgname.value)
  }

  function After(x: Session, s: Store): Store {
    if |x.targets| <= |x.events| then FinalStore(x.c, s, x.targets, x.events, x.prior) else s
  }

  function AfterAll(xs: seq<Session>, s: Store): Store {
    if xs == [] then s else After(xs[|xs| - 1], AfterAll(xs[..|xs| - 1], s))
  }

  /** A run that passes the package by leaves its record and its stash alone. */
  lemma PassingByKeepsTrack(x: Session, s: Store, f: File, nameOf: string -> string)
    requires PassesBy(x, s, f, nameOf)
    ensures Proper(After(x, s), nameOf) && TrackOf(After(x, s), f) == TrackOf(s, f)
  {
    PassesMeans(x, s, f, nameOf);
    hide *;
    var c, targets, events, track := x.c, x.targets, x.events, TrackOf(s, f);
    var p := RunAll(c, s, targets, events);
    FollowsFromStart(c, s, targets, events, f, nameOf);
    LoopFollows(c, s, targets, events, 0, |targets|, f, track, nameOf);
    FinalFollows(c, s, targets, events, f, track, nameOf);
    FollowsMeans(p, f, track, nameOf);
    NeverHanded(c, s, targets, events, f);
    RevertInFileTracks(p.store, Files(p.refused), x.prior, f, nameOf);
    FinalStoreIs(c, s, targets, events, x.prior);
  }

  lemma PassesMeans(x: Session, s: Store, f: File, nameOf: string -> string)
    requires PassesBy(x, s, f, nameOf)
    ensures |x.targets| <= |x.events| && Proper(s, nameOf) && f.pkgname.Some? && f !in AllFiles(x.events)
    ensures SoleIn(AllFiles(x.events), f, nameOf) && Wanted(x.c, AllFiles(x.events), f)
    ensures forall j :: 0 <= j < |x.events| ==> !Records(x.events[j], f.pkgname.value)
    ensures After(x, s) == FinalStore(x.c, s, x.targets, x.events, x.prior)
  {
    hide AllFiles, Records, Proper, FinalStore;
  }

  lemma NeverHanded(c: Setup, s: Store, targets: seq<Target>, events: seq<BuildEvent>, f: File)
    requires |targets| <= |events| && f !in AllFiles(events)
    ensures var p := RunAll(c, s, targets, events);
            f !in p.installed && f !in Files(p.refused) && Count(Files(p.refused), f) <= 1
  {
    var n := |targets|;
    var q, p := BuildFirst(c, s, targets, events, n), RunAll(c, s, targets, events);
    BuiltFilesAreEvents(c, s, targets, events, n);
    AllFilesPrefix(events, n);
    BuildTidy(c, s, targets, events, n);
    UnhandledFiles(q.handled, q.builtFiles);
    HandOverTidy(c, q, Unhandled(q.handled, q.builtFiles));
    RefusedWereBuilt(p);
    InstalledWasBuilt(p, f);
    RefusedOnce(c, s, targets, events, f);
    hide BuildFirst, HandOver, Tidy, Count;
  }

  /** A run between a refusal and the install: it refuses the artifact again, or
      has nothing to do with its package. */
  ghost predicate Between(x: Session, s: Store, f: File, nameOf: string -> string) {
    (Reuses(x, s, f, nameOf) && RefusedIn(x, s, f)) || PassesBy(x, s, f, nameOf)
  }

  ghost predicate AllBetween(s: Store, xs: seq<Session>, f: File, nameOf: string -> string) {
    forall k :: 0 <= k < |xs| ==> Between(xs[k], AfterAll(xs[..k], s), f, nameOf)
  }

  lemma {:induction false} BetweenKeepsRecoverable(s: Store, xs: seq<Session>, f: File, built: Entry,
                                                   nameOf: string -> string)
    requires f.pkgname.Some? && Recoverable(s, f.pkgname.value, f.name, built) && AllBetween(s, xs, f, nameOf)
    ensures Recoverable(AfterAll(xs, s), f.pkgname.value, f.name, built)
  {
    hide FinalStore, RunAll, Concerns, PassesBy;
    if xs != [] {
      var k := |xs| - 1;
      var init, x := xs[..k], xs[k];
      forall j | 0 <= j < |init| ensures Between(init[j], AfterAll(init[..j], s), f, nameOf) {
        assert init[..j] == xs[..j] && init[j] == xs[j];
      }
      BetweenKeepsRecoverable(s, init, f, built, nameOf);
      var before := AfterAll(init, s);
      assert Between(x, before, f, nameOf);
      if PassesBy(x, before, f, nameOf) {
        PassingByKeepsTrack(x, before, f, nameOf);
      } else {
        ReusedArtifactRefused(x.c, before, x.targets, x.events, x.prior, x.i, f, nameOf);
      }
    }
  }

  /** However many runs lie in between, the run that finally installs the reused
      artifact ends with what could be brought back at the start. */
  lemma LaterInstallRestores(s: Store, between: seq<Session>, last: Session, f: File, built: Entry,
                             nameOf: string -> string)
    requires f.pkgname.Some? && Recoverable(s, f.pkgname.value, f.name, built) && AllBetween(s, between, f, nameOf)
    requires var before := AfterAll(between, s);
             && Reuses(last, before, f, nameOf)
             && f in RunAll(last.c, before, last.targets, last.events).installed
    ensures Get(AfterAll(between + [last], s).data, f.pkgname.value) == Some(built)
  {
    BetweenKeepsRecoverable(s, between, f, built, nameOf);
    var before := AfterAll(between, s);
    ReusedArtifactRestores(last.c, before, last.targets, last.events, last.prior, last.i, f, built, nameOf);
    assert (between + [last])[..|between|] == between;
    hide FinalStore, RunAll;
  }

  /** The whole story of a refused build: it is built and refused, left refused
      for any number of runs, and then installed. It ends with the record its
      build left in the file exactly if that record holds no boolean or changed
      nothing but the facts of the build. */
  lemma RefusedThenInstalled(s: Store, x: Session, r: nat, between: seq<Session>, last: Session, f: File,
                             nameOf: string -> string)
    requires Concerns(x.c, s, x.targets, x.events, x.prior, x.i, f, nameOf) && HasSeconds(Get(s.data, f.pkgname.value))
    requires var e := x.events[x.i]; e.Built? && NamedAt(e.records, f.pkgname.value, r) && "pkgver" in e.records[r].1
    requires RefusedIn(x, s, f) && AllBetween(After(x, s), between, f, nameOf)
    requires var before := AfterAll(between, After(x, s));
             && Reuses(last, before, f, nameOf)
             && f in RunAll(last.c, before, last.targets, last.events).installed
    ensures var was, end := Get(s.data, f.pkgname.value), AfterAll(between + [last], After(x, s));
            var built := Filed(was, x.events[x.i].records[r].1);
            && Get(end.data, f.pkgname.value) == Some(Recovered(was, built))
            && (Get(end.data, f.pkgname.value) == Some(built) <==> NoFlags(built) || !Changes(was, built))
  {
    var was := Get(s.data, f.pkgname.value);
    var built := Filed(was, x.events[x.i].records[r].1);
    RefusedBuildIsReverted(x.c, s, x.targets, x.events, x.prior, x.i, r, f, nameOf);
    LaterInstallRestores(After(x, s), between, last, f, Recovered(was, built), nameOf);
    RecoveredIsBuiltIff(was, built);
    hide FinalStore, RunAll, Recovered, Changes, NoFlags, Recoverable, AllBetween, Concerns, AfterAll;
  }
}
