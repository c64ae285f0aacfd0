/** The helpers of sysforge/build_core.py and the build worker that open the
    state file, change the loaded copy and save it: what each leaves in the file. */
module StateFiles {
  import opened Prelude
  import opened Packages
  import opened BuildStates
  import opened StateText

  // ---------------------------------------------------------------------
  // What ends up in the file
  // ---------------------------------------------------------------------

  function RecordInFile(s: Store, records: seq<(string, Entry)>): Store {
    Saved(RecordAll(s, records))
  }

  /** The packages whose record comes back when `files` install. */
  function RestoredNames(s: Store, files: seq<File>): seq<string> {
    if files == [] then []
    else
      var k := |files| - 1;
      var before := RestoreAll(s, files[..k]);
      RestoredNames(s, files[..k])
      + if Stashed(before, files[k].name) then [before.reverted[files[k].name].pkgname] else []
  }

  /** Nothing is written unless some record came back. */
  function RestoreInFile(s: Store, files: seq<File>): Store {
    if RestoredNames(s, files) == [] then s else Saved(RestoreAll(s, files))
  }

  predicate Snapshotted(prior: map<string, Option<Entry>>, f: File) {
    f.pkgname.Some? && f.pkgname.value in prior
  }

  predicate AnySnapshotted(prior: map<string, Option<Entry>>, files: seq<File>) {
    exists f :: f in files && Snapshotted(prior, f)
  }

  function RevertInFile(s: Store, files: seq<File>, prior: map<string, Option<Entry>>): Store {
    if AnySnapshotted(prior, files) then Saved(RevertAll(s, files, prior)) else s
  }

  function ForgetInFile(s: Store, names: set<string>): Store {
    if names !! s.data.Keys then s else Saved(Forget(s, names))
  }

  // ---------------------------------------------------------------------
  // What comes back
  // ---------------------------------------------------------------------

  /** A record of `pn` is stashed under one of the installed files. */
  ghost predicate RestoredName(s: Store, installed: seq<File>, pn: string) {
    pn != "" && exists f :: f in installed && f.name in s.reverted && s.reverted[f.name].pkgname == pn
  }

  ghost predicate NothingRestored(s: Store, installed: seq<File>) {
    forall pn :: !RestoredName(s, installed, pn)
  }

  /** `r` is `s` with the stashes of `files` brought back. */
  ghost predicate RestoresTo(s: Store, files: seq<File>, r: Store) {
    && (forall pn :: pn in r.data <==> pn in s.data || RestoredName(s, files, pn))
    && (forall a :: a in r.reverted <==> a in s.reverted && forall f :: f in files ==> f.name != a)
    && (forall a :: a in r.reverted ==> r.reverted[a] == s.reverted[a])
  }

  lemma {:induction false} RestoredRecords(s: Store, files: seq<File>)
    ensures RestoresTo(s, files, RestoreAll(s, files))
    ensures RestoredNames(s, files) == [] <==> NothingRestored(s, files)
  {
    if files != [] {
      hide *;
      var init := files[..|files| - 1];
      RestoredRecords(s, init);
      RestoreStep(s, files);
      NamesStep(s, files);
      RestoredOneMore(s, init, files[|files| - 1], RestoreAll(s, init));
      NothingNext(s, init, files[|files| - 1], RestoreAll(s, init));
    }
  }

  lemma RestoreStep(s: Store, files: seq<File>)
    requires files != []
    ensures var k := |files| - 1;
            && files == files[..k] + [files[k]]
            && RestoreAll(s, files) == Restore(RestoreAll(s, files[..k]), files[k].name)
  {
  }

  lemma NamesStep(s: Store, files: seq<File>)
    requires files != []
    ensures var k := |files| - 1;
            RestoredNames(s, files) == [] <==>
            RestoredNames(s, files[..k]) == [] && !Stashed(RestoreAll(s, files[..k]), files[k].name)
  {
    hide RestoreAll, Restore, Stashed;
  }

  lemma RestoredNext(s: Store, files: seq<File>, f: File, pn: string)
    ensures RestoredName(s, files + [f], pn) <==>
        RestoredName(s, files, pn) || (pn != "" && f.name in s.reverted && s.reverted[f.name].pkgname == pn)
  {
    assert forall g :: g in files + [f] <==> g in files || g == f;
  }

  lemma RestoredOneMore(s: Store, files: seq<File>, f: File, r: Store)
    requires RestoresTo(s, files, r)
    ensures RestoresTo(s, files + [f], Restore(r, f.name))
  {
    StillStashed(s, files, f, r);
    RestoreKeys(r, f.name);
    hide RestoredName, Restore;
    forall pn ensures RestoredName(s, files + [f], pn) <==>
        RestoredName(s, files, pn) || (Stashed(r, f.name) && r.reverted[f.name].pkgname == pn)
    {
      RestoredNext(s, files, f, pn);
    }
  }

  lemma NothingNext(s: Store, files: seq<File>, f: File, r: Store)
    requires RestoresTo(s, files, r)
    ensures NothingRestored(s, files + [f]) <==> NothingRestored(s, files) && !Stashed(r, f.name)
  {
    StillStashed(s, files, f, r);
    forall pn
      ensures RestoredName(s, files + [f], pn) <==>
          RestoredName(s, files, pn) || (pn != "" && f.name in s.reverted && s.reverted[f.name].pkgname == pn)
    {
      RestoredNext(s, files, f, pn);
    }
    hide RestoredName;
    if Stashed(r, f.name) {
      assert RestoredName(s, files + [f], s.reverted[f.name].pkgname);
    }
  }

  /** A stash that is gone was brought back before. */
  lemma StillStashed(s: Store, files: seq<File>, f: File, r: Store)
    requires RestoresTo(s, files, r)
    ensures f.name in s.reverted && f.name !in r.reverted && s.reverted[f.name].pkgname != "" ==>
        RestoredName(s, files, s.reverted[f.name].pkgname)
    ensures (forall a :: a in r.reverted && a != f.name <==>
               a in s.reverted && forall g :: g in files + [f] ==> g.name != a)
  {
    assert forall g :: g in files + [f] <==> g in files || g == f;
  }

  lemma RestoreKeys(s: Store, a: string)
    ensures var r := Restore(s, a);
            && (forall pn :: pn in r.data <==> pn in s.data || (Stashed(s, a) && s.reverted[a].pkgname == pn))
            && r.reverted == s.reverted - {a}
  {
  }

  // ---------------------------------------------------------------------
  // The helpers
  // ---------------------------------------------------------------------

  /** The build worker's side effect: it records every pkgname it built. */
  method RecordBuilds(file: StateFile, records: seq<(string, Entry)>)
    modifies file
    ensures file.store == RecordInFile(old(file.store), records)
  {
    var bs := new BuildState(file);
    for i := 0 to |records|
      invariant bs.View() == RecordAll(old(file.store), records[..i])
    {
      bs.RecordBuild(records[i].0, records[i].1);
      assert records[..i + 1][..i] == records[..i];
    }
    assert records[..|records|] == records;
    bs.Save(file);
  }

  /** `_restore_reverted_state` */
  method RestoreInstalled(file: StateFile, files: seq<File>)
    modifies file
    ensures file.store == RestoreInFile(old(file.store), files)
    ensures if NothingRestored(old(file.store), files) then file.store == old(file.store) else Clean(file.store)
  {
    RestoredRecords(file.store, files);
    SavedIsClean(RestoreAll(file.store, files));
    hide RestoreAll, RestoredNames, NothingRestored, Clean, Saved;
    var bs := new BuildState(file);
    var restored := RestoreEach(bs, files);
    if restored != [] {
      bs.Save(file);
    }
  }

  method RestoreEach(bs: BuildState, files: seq<File>) returns (restored: seq<string>)
    modifies bs
    ensures bs.View() == RestoreAll(old(bs.View()), files) && restored == RestoredNames(old(bs.View()), files)
  {
    restored := [];
    for i := 0 to |files|
      invariant bs.View() == RestoreAll(old(bs.View()), files[..i])
      invariant restored == RestoredNames(old(bs.View()), files[..i])
    {
      var pn := bs.RestoreReverted(files[i].name);
      assert files[..i + 1][..i] == files[..i];
      if pn.Some? {
        restored := restored + [pn.value];
      }
    }
    assert files[..|files|] == files;
  }

  lemma AnyNext(prior: map<string, Option<Entry>>, files: seq<File>, i: nat)
    requires i < |files|
    ensures AnySnapshotted(prior, files[..i + 1]) <==> AnySnapshotted(prior, files[..i]) || Snapshotted(prior, files[i])
  {
    assert files[..i + 1] == files[..i] + [files[i]];
    assert files[i] in files[..i + 1];
  }

  /** `_revert_uninstalled_state` */
  method RevertUninstalled(file: StateFile, files: seq<File>, prior: map<string, Option<Entry>>)
    modifies file
    ensures file.store == RevertInFile(old(file.store), files, prior)
    ensures (forall f :: f in files ==> f.pkgname.None? || f.pkgname.value !in prior) ==> file.store == old(file.store)
    ensures (exists f :: f in files && f.pkgname.Some? && f.pkgname.value in prior) ==> Clean(file.store)
  {
    SavedIsClean(RevertAll(file.store, files, prior));
    hide RevertAll, Clean, Saved;
    var bs := new BuildState(file);
    var any := RevertEach(bs, files, prior);
    if any {
      bs.Save(file);
    }
  }

  method RevertEach(bs: BuildState, files: seq<File>, prior: map<string, Option<Entry>>) returns (any: bool)
    modifies bs
    ensures bs.View() == RevertAll(old(bs.View()), files, prior) && any == AnySnapshotted(prior, files)
  {
    any := false;
    for i := 0 to |files|
      invariant bs.View() == RevertAll(old(bs.View()), files[..i], prior)
      invariant any == AnySnapshotted(prior, files[..i])
    {
      var pn := files[i].pkgname;
      if pn.Some? && pn.value in prior {
        bs.RevertRecord(pn.value, prior[pn.value], files[i].name);
        any := true;
      }
      assert files[..i + 1][..i] == files[..i];
      AnyNext(prior, files, i);
    }
    assert files[..|files|] == files;
  }

  /** `_forget_uninstalled` */
  method ForgetUninstalled(file: StateFile, names: seq<string>)
    modifies file
    ensures file.store == ForgetInFile(old(file.store), Elems(names))
    ensures forall pn :: pn in file.store.data <==> pn in old(file.store).data && pn !in names
    ensures (forall pn :: pn in names ==> pn !in old(file.store).data) ==> file.store == old(file.store)
  {
    var bs := new BuildState(file);
    var forgotten := ForgetEach(bs, names);
    if forgotten != [] {
      bs.Save(file);
    }
  }

  method ForgetEach(bs: BuildState, names: seq<string>) returns (forgotten: seq<string>)
    modifies bs
    ensures bs.View() == Forget(old(bs.View()), Elems(names))
    ensures forgotten == [] <==> Elems(names) !! old(bs.data.Keys)
  {
    forgotten := [];
    for i := 0 to |names|
      invariant bs.View() == Forget(old(bs.View()), Elems(names[..i]))
      invariant forgotten == [] <==> Elems(names[..i]) !! old(bs.data.Keys)
    {
      ElemsNext(names, i);
      var existed := bs.Delete(names[i]);
      if existed {
        forgotten := forgotten + [names[i]];
      }
    }
    assert names[..|names|] == names;
  }

  // ---------------------------------------------------------------------
  // A record that does not come back
  // ---------------------------------------------------------------------

  /** The first build of a package outside the sandbox: refused, then installed
      by a later run. */
  lemma FalseComesBackTrue()
    ensures var given := map["pkgver" := Str("1.0"), "sandboxed" := Flag(false)];
            var f := File("a-1.0.pkg.tar.zst", Some("a"), {});
            var built := RecordInFile(Store(map[], map[]), [("a", given)]);
            var end := RestoreInFile(RevertInFile(built, [f], map["a" := None]), [f]);
            && built.data == map["a" := given]
            && end.data == map["a" := map["pkgver" := Str("1.0"), "sandboxed" := Str("False")]]
            && !Truthy(given["sandboxed"]) && Truthy(end.data["a"]["sandboxed"])
  {
    var given := map["pkgver" := Str("1.0"), "sandboxed" := Flag(false)];
    assert Texted(given) == map["pkgver" := Str("1.0"), "sandboxed" := Str("False")];
    var f := File("a-1.0.pkg.tar.zst", Some("a"), {});
    assert "pkgver" in SansFacts(given) && given.Keys <= ENTRY_KEYS && Texted(given).Keys <= ENTRY_KEYS;
    assert !Truthy(given["sandboxed"]) && Truthy(Texted(given)["sandboxed"]);
    hide *;
    FirstBuildInFile("a", given);
    FirstRefusalInFile(Store(map["a" := given], map[]), given, f);
    InstallInFile(Store(map[], map[f.name := Stash("a", Texted(given))]), Texted(given), f);
  }

  lemma FirstBuildInFile(pn: string, given: Entry)
    requires given.Keys <= ENTRY_KEYS && "build_seconds" !in given
    ensures RecordInFile(Store(map[], map[]), [(pn, given)]) == Store(map[pn := given], map[])
  {
    WrittenIs(given);
    assert Recorded(None, given) == given;
    assert RecordAll(Store(map[], map[]), [(pn, given)][..0]) == Store(map[], map[]);
  }

  lemma FirstRefusalInFile(s: Store, built: Entry, f: File)
    requires f.pkgname.Some? && s == Store(map[f.pkgname.value := built], map[]) && "pkgver" in SansFacts(built)
    ensures RevertInFile(s, [f], map[f.pkgname.value := None])
         == Store(map[], map[f.name := Stash(f.pkgname.value, Texted(built))])
  {
    var prior: map<string, Option<Entry>> := map[f.pkgname.value := None];
    assert RevertAll(s, [f][..0], prior) == s;
    assert Snapshotted(prior, f) && f in [f];
    assert SansFacts(map[]) == map[];
    assert s.data - {f.pkgname.value} == map[];
  }

  lemma InstallInFile(s: Store, stashed: Entry, f: File)
    requires f.pkgname.Some? && f.pkgname.value != "" && stashed.Keys <= ENTRY_KEYS
    requires s == Store(map[], map[f.name := Stash(f.pkgname.value, stashed)])
    ensures RestoreInFile(s, [f]) == Store(map[f.pkgname.value := stashed], map[])
  {
    WrittenIs(stashed);
    assert RestoreAll(s, [f][..0]) == s;
    assert s.reverted - {f.name} == map[];
  }

  // ---------------------------------------------------------------------
  // Refused and installed, through the file
  // ---------------------------------------------------------------------

  lemma RevertOne(s: Store, f: File, was: Option<Entry>)
    requires f.pkgname.Some?
    ensures RevertInFile(s, [f], map[f.pkgname.value := was]) == Saved(Revert(s, f.pkgname.value, was, f.name))
  {
    var prior := map[f.pkgname.value := was];
    assert RevertAll(s, [f][..0], prior) == s;
    assert Snapshotted(prior, f) && f in [f];
    hide Saved, Revert;
  }

  lemma RestoreOne(s: Store, f: File)
    ensures RestoreInFile(s, [f]) == if Stashed(s, f.name) then Saved(Restore(s, f.name)) else s
  {
    assert RestoreAll(s, [f][..0]) == s && RestoredNames(s, [f][..0]) == [];
    hide Saved, Restore;
  }

  /** What the two saves make of the record of a build that is refused. */
  lemma ThroughTheFile(r: Store, f: File, was: Option<Entry>, built: Entry)
    requires f.pkgname.Some? && f.pkgname.value != "" && built.Keys <= ENTRY_KEYS
    requires Recoverable(r, f.pkgname.value, f.name, built) && (f.name in r.reverted <==> Changes(was, built))
    ensures Get(RestoreInFile(Saved(r), [f]).data, f.pkgname.value) == Some(Recovered(was, built))
  {
    RestoreOne(Saved(r), f);
    WrittenIs(built);
    WrittenIs(Texted(built));
    hide Changes, Written, Texted, RestoreInFile;
  }

  /** A build that is refused and later installed comes back with its own record
      exactly if that record holds no boolean or changed nothing but the facts of
      the build. A reader that asks for truth is misled exactly by the fields that
      were False. */
  lemma RefusedComesBackIff(s: Store, f: File, was: Option<Entry>, given: Entry)
    requires f.pkgname.Some? && f.pkgname.value != "" && f.name !in s.reverted && "pkgver" in given
    requires HasSeconds(was) && (was.Some? ==> was.value.Keys <= ENTRY_KEYS)
    requires Get(s.data, f.pkgname.value) == Some(Filed(was, given))
    ensures var pn, built := f.pkgname.value, Filed(was, given);
            var end := Get(RestoreInFile(RevertInFile(s, [f], map[pn := was]), [f]).data, pn);
            && (end == Some(built) <==> NoFlags(built) || !Changes(was, built))
            && forall k :: k in built ==>
                 && FieldOf(end, k).Some?
                 && ((Truthy(FieldOf(end, k).value) <==> Truthy(built[k]))
                     <==> !(Changes(was, built) && built[k] == Flag(false)))
  {
    var pn, built := f.pkgname.value, Filed(was, given);
    hide Changes, Recoverable, Recovered, NoFlags, Filed, Revert, RestoreInFile, RevertInFile, Saved, Truthy;
    RevertIsRecoverable(s, pn, was, given, f.name);
    RevertOne(s, f, was);
    FiledKeys(was, given);
    ThroughTheFile(Revert(s, pn, was, f.name), f, was, built);
    RecoveredIsBuiltIff(was, built);
    forall k | k in built
      ensures k in Recovered(was, built)
      ensures (Truthy(Recovered(was, built)[k]) <==> Truthy(built[k]))
                <==> !(Changes(was, built) && built[k] == Flag(false))
    {
      RecoveredTruthIff(was, built, k);
    }
  }

  lemma FiledKeys(was: Option<Entry>, given: Entry)
    ensures Filed(was, given).Keys <= ENTRY_KEYS
  {
  }

  // ---------------------------------------------------------------------
  // Files that load
  // ---------------------------------------------------------------------

  predicate EntryLegible(e: Entry) {
    forall k :: k in e && e[k].Str? ==> AllLegible(e[k].s, true)
  }

  /** The file loads: every name and every text of it reads (`TextComesBack`). */
  predicate FileLegible(s: Store) {
    && (forall pn :: pn in s.data ==> AllLegible(pn, false) && EntryLegible(s.data[pn]))
    && (forall a :: a in s.reverted ==>
          AllLegible(a, false) && AllLegible(s.reverted[a].pkgname, true) && EntryLegible(s.reverted[a].entry))
  }

  lemma WrittenLegible(e: Entry)
    requires EntryLegible(e)
    ensures EntryLegible(Written(e)) && EntryLegible(Texted(e))
  {
    hide ENTRY_KEYS;
    assert AllLegible("True", true) && AllLegible("False", true);
  }

  lemma SavedLegible(s: Store)
    requires FileLegible(s)
    ensures FileLegible(Saved(s))
  {
    hide EntryLegible, AllLegible, Written, Texted;
    forall pn | pn in s.data ensures EntryLegible(Written(s.data[pn])) {
      WrittenLegible(s.data[pn]);
    }
    forall a | a in s.reverted ensures EntryLegible(Texted(s.reverted[a].entry)) {
      WrittenLegible(s.reverted[a].entry);
    }
  }

  lemma FactsLegible(p: Entry, e: Entry)
    requires EntryLegible(p) && EntryLegible(e)
    ensures EntryLegible(p + Facts(e))
  {
    hide AllLegible, BUILD_FACTS;
  }

  lemma NameInValue(pn: string)
    requires AllLegible(pn, false)
    ensures AllLegible(pn, true)
  {
  }

  /** A refusal keeps the file loading, if the name of the artifact can be written
      where it has to be. */
  lemma RevertLegible(s: Store, pn: string, was: Option<Entry>, a: string)
    requires FileLegible(s) && pn in s.data && (was.Some? ==> EntryLegible(was.value))
    ensures FileLegible(Revert(s, pn, was, a)) <==>
        AllLegible(a, false) || !Changes(was, s.data[pn]) || s.data[pn] == map[]
  {
    NameInValue(pn);
    if was.Some? {
      FactsLegible(was.value, s.data[pn]);
    }
    hide EntryLegible, AllLegible, Facts, SansFacts;
    var r := Revert(s, pn, was, a);
    if s.data[pn] != map[] && Changes(was, s.data[pn]) {
      assert a in r.reverted && r.reverted[a] == Stash(pn, s.data[pn]);
    }
  }

  lemma RestoreLegible(s: Store, f: File)
    requires FileLegible(s) && (f.name in s.reverted ==> AllLegible(s.reverted[f.name].pkgname, false))
    ensures FileLegible(RestoreInFile(s, [f]))
  {
    RestoreOne(s, f);
    hide EntryLegible, AllLegible, RestoreInFile, Saved;
    if Stashed(s, f.name) {
      assert FileLegible(Restore(s, f.name));
      SavedLegible(Restore(s, f.name));
    }
  }

  /** The same through files that have to load each time: exactly if the file the
      build left loads, and the record never had to be stashed or holds no boolean
      and the name of the artifact can be written. */
  lemma RefusedLoadsIff(s: Store, f: File, was: Option<Entry>, given: Entry)
    requires f.pkgname.Some? && f.pkgname.value != "" && f.name !in s.reverted && "pkgver" in given
    requires HasSeconds(was) && (was.Some? ==> was.value.Keys <= ENTRY_KEYS && EntryLegible(was.value))
    requires Get(s.data, f.pkgname.value) == Some(Filed(was, given))
    ensures var pn, built := f.pkgname.value, Filed(was, given);
            var refused := RevertInFile(s, [f], map[pn := was]);
            var end := RestoreInFile(refused, [f]);
            (FileLegible(s) && FileLegible(refused) && FileLegible(end) && Get(end.data, pn) == Some(built))
              <==> FileLegible(s) && (!Changes(was, built) || (NoFlags(built) && AllLegible(f.name, false)))
  {
    var pn, built := f.pkgname.value, Filed(was, given);
    RefusedComesBackIff(s, f, was, given);
    RevertOne(s, f, was);
    FiledHasVersion(was, given);
    if FileLegible(s) {
      hide Changes, Filed, RestoreInFile, RevertInFile, FileLegible, EntryLegible, AllLegible, NoFlags, Truthy;
      LegibleAtEnd(s, f, was, built);
    }
  }

  lemma FiledHasVersion(was: Option<Entry>, given: Entry)
    requires "pkgver" in given
    ensures Filed(was, given) != map[]
  {
    assert "pkgver" in Filed(was, given);
  }

  lemma LegibleAtEnd(s: Store, f: File, was: Option<Entry>, built: Entry)
    requires FileLegible(s) && f.pkgname.Some? && Get(s.data, f.pkgname.value) == Some(built) && built != map[]
    requires f.name !in s.reverted && (was.Some? ==> EntryLegible(was.value))
    ensures var refused := Saved(Revert(s, f.pkgname.value, was, f.name));
            && (FileLegible(refused) <==> AllLegible(f.name, false) || !Changes(was, built))
            && (FileLegible(refused) ==> FileLegible(RestoreInFile(refused, [f])))
  {
    var pn := f.pkgname.value;
    var refused := Saved(Revert(s, pn, was, f.name));
    StashedAs(s, pn, was, f.name, built);
    RevertLegible(s, pn, was, f.name);
    NameLegible(s, pn);
    if AllLegible(f.name, false) || !Changes(was, built) {
      SavedLegible(Revert(s, pn, was, f.name));
    } else {
      NameIllegible(refused, f.name);
    }
    if FileLegible(refused) {
      hide *;
      RestoreLegible(refused, f);
    }
  }

  lemma NameLegible(s: Store, pn: string)
    requires FileLegible(s) && pn in s.data
    ensures AllLegible(pn, false)
  {
  }

  lemma NameIllegible(s: Store, a: string)
    requires a in s.reverted && !AllLegible(a, false)
    ensures !FileLegible(s)
  {
  }

  /** What the refusal leaves in the stash of the artifact. */
  lemma StashedAs(s: Store, pn: string, was: Option<Entry>, a: string, built: Entry)
    requires Get(s.data, pn) == Some(built) && built != map[] && a !in s.reverted
    ensures var refused := Saved(Revert(s, pn, was, a));
            && pn in s.data && s.data[pn] == built
            && (a in refused.reverted <==> Changes(was, built))
            && (a in refused.reverted ==> refused.reverted[a].pkgname == pn)
  {
    hide Written, Texted, Facts;
  }
}
