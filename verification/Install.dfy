/** `install_built` in sysforge/build_core.py: one all-or-nothing `pacman -U`,
    retried without the packages pacman blames. */
module Install {
  import opened Prelude
  import opened Packages
  import opened BuildStates
  import opened StateFiles

  /** Why an artifact was not installed: a text, as the pieces "; " separates. */
  type Reason = seq<string>

  const INSTALL_REFUSED_REASON: Reason := ["pacman -U refused the transaction (see its error above)"]

  /** pacman installs the whole transaction, or refuses it and may name culprits. */
  datatype Reply = Accepted | Refused(conflicts: map<string, Reason>)

  /** The outside world, free to answer every call differently: `pacman(k, files)`
      is the reply to the k-th transaction of the run, `onSystem(k)` what is
      installed just before it. */
  datatype World = World(pacman: (nat, seq<File>) -> Reply, onSystem: nat -> set<string>)

  datatype Transaction = Transaction(installed: seq<File>, refused: seq<(File, Reason)>, attempts: seq<seq<File>>)

  /** pacman named the package of `f`. */
  predicate Blamed(conflicts: map<string, Reason>, f: File) {
    f.pkgname.Some? && f.pkgname.value in conflicts
  }

  function Culprits(conflicts: map<string, Reason>, files: seq<File>): seq<File> {
    if files == [] then []
    else (if Blamed(conflicts, files[0]) then [files[0]] else []) + Culprits(conflicts, files[1..])
  }

  function Spared(conflicts: map<string, Reason>, files: seq<File>): seq<File> {
    if files == [] then []
    else (if Blamed(conflicts, files[0]) then [] else [files[0]]) + Spared(conflicts, files[1..])
  }

  lemma {:induction false} CulpritsAreBlamed(conflicts: map<string, Reason>, files: seq<File>)
    ensures forall f :: f in Culprits(conflicts, files) <==> f in files && Blamed(conflicts, f)
    ensures forall f :: f in Spared(conflicts, files) <==> f in files && !Blamed(conflicts, f)
  {
    if files != [] {
      CulpritsAreBlamed(conflicts, files[1..]);
      assert files == [files[0]] + files[1..];
    }
  }

  function Blame(conflicts: map<string, Reason>, culprits: seq<File>): (r: seq<(File, Reason)>)
    ensures |r| == |culprits|
    ensures forall i :: 0 <= i < |r| ==> r[i] == (culprits[i], Details(conflicts, culprits[i]))
  {
    seq(|culprits|, i requires 0 <= i < |culprits| => (culprits[i], Details(conflicts, culprits[i])))
  }

  /** What pacman said about the package of `f`. */
  function Details(conflicts: map<string, Reason>, f: File): Reason {
    if Blamed(conflicts, f) then conflicts[f.pkgname.value] else []
  }

  function RefuseAll(files: seq<File>): (r: seq<(File, Reason)>)
    ensures |r| == |files| && forall i :: 0 <= i < |r| ==> r[i] == (files[i], INSTALL_REFUSED_REASON)
  {
    seq(|files|, i requires 0 <= i < |files| => (files[i], INSTALL_REFUSED_REASON))
  }

  function Files(refused: seq<(File, Reason)>): (r: seq<File>)
    ensures |r| == |refused| && forall i :: 0 <= i < |r| ==> r[i] == refused[i].0
  {
    seq(|refused|, i requires 0 <= i < |refused| => refused[i].0)
  }

  lemma {:induction false} CulpritsLeave(conflicts: map<string, Reason>, pending: seq<File>)
    ensures |Culprits(conflicts, pending)| + |Spared(conflicts, pending)| == |pending|
  {
    if pending != [] {
      CulpritsLeave(conflicts, pending[1..]);
    }
  }

  lemma {:induction false} CulpritsCount(conflicts: map<string, Reason>, pending: seq<File>, f: File)
    ensures Count(Culprits(conflicts, pending), f) + Count(Spared(conflicts, pending), f) == Count(pending, f)
  {
    if pending != [] {
      CulpritsCount(conflicts, pending[1..], f);
      CountConcat(if Blamed(conflicts, pending[0]) then [pending[0]] else [], Culprits(conflicts, pending[1..]), f);
      CountConcat(if Blamed(conflicts, pending[0]) then [] else [pending[0]], Spared(conflicts, pending[1..]), f);
    }
  }

  /** The retry loop: what ends up installed, what is refused and why. */
  function Transact(w: World, k: nat, pending: seq<File>): Transaction
    decreases |pending|
  {
    if pending == [] then Transaction([], [], [])
    else match w.pacman(k, pending)
      case Accepted => Transaction(pending, [], [pending])
      case Refused(conflicts) =>
        var culprits := Culprits(conflicts, pending);
        if culprits == [] then Transaction([], RefuseAll(pending), [pending])
        else
          CulpritsLeave(conflicts, pending);
          var rest := Transact(w, k + 1, Spared(conflicts, pending));
          Transaction(rest.installed, Blame(conflicts, culprits) + rest.refused, [pending] + rest.attempts)
  }

  /** The retrying case of `Transact`, spelled out. */
  lemma TransactRetries(w: World, k: nat, pending: seq<File>)
    requires pending != [] && w.pacman(k, pending).Refused?
    requires Culprits(w.pacman(k, pending).conflicts, pending) != []
    ensures var conflicts := w.pacman(k, pending).conflicts;
            var rest := Transact(w, k + 1, Spared(conflicts, pending));
            var t := Transact(w, k, pending);
            && t.installed == rest.installed
            && t.refused == Blame(conflicts, Culprits(conflicts, pending)) + rest.refused
            && t.attempts == [pending] + rest.attempts
            && |Spared(conflicts, pending)| < |pending|
  {
    CulpritsLeave(w.pacman(k, pending).conflicts, pending);
  }

  /** The cases in which `Transact` stops, spelled out. */
  lemma TransactStops(w: World, k: nat, pending: seq<File>)
    ensures pending == [] ==> Transact(w, k, pending) == Transaction([], [], [])
    ensures pending != [] && w.pacman(k, pending).Accepted? ==>
              Transact(w, k, pending) == Transaction(pending, [], [pending])
    ensures pending != [] && w.pacman(k, pending).Refused? ==>
              Culprits(w.pacman(k, pending).conflicts, pending) == [] ==>
                Transact(w, k, pending) == Transaction([], RefuseAll(pending), [pending])
  {
  }

  // ---------------------------------------------------------------------
  // What the retry loop guarantees
  // ---------------------------------------------------------------------

  /** Nothing is lost and nothing is reported twice. */
  lemma {:induction false} TransactSplits(w: World, k: nat, pending: seq<File>, f: File)
    ensures Count(pending, f)
        == Count(Transact(w, k, pending).installed, f) + Count(Files(Transact(w, k, pending).refused), f)
    decreases |pending|
  {
    if pending != [] && w.pacman(k, pending).Refused? {
      var conflicts := w.pacman(k, pending).conflicts;
      var culprits := Culprits(conflicts, pending);
      if culprits == [] {
        assert Files(RefuseAll(pending)) == pending;
      } else {
        TransactRetries(w, k, pending);
        var rest := Transact(w, k + 1, Spared(conflicts, pending));
        TransactSplits(w, k + 1, Spared(conflicts, pending), f);
        CulpritsCount(conflicts, pending, f);
        assert Files(Blame(conflicts, culprits) + rest.refused) == culprits + Files(rest.refused);
        CountConcat(culprits, Files(rest.refused), f);
      }
    }
  }

  lemma {:induction false} SparedInOrder(conflicts: map<string, Reason>, files: seq<File>)
    ensures InOrderOf(Spared(conflicts, files), files)
  {
    hide InOrderOf;
    if files == [] {
      NothingInOrder<File>();
    } else {
      var head := if Blamed(conflicts, files[0]) then [] else [files[0]];
      SparedInOrder(conflicts, files[1..]);
      NothingInOrder<File>();
      InOrderNext([], [], files[0]);
      InOrderConcat(head, [files[0]], Spared(conflicts, files[1..]), files[1..]);
      assert [] + [files[0]] == [files[0]] && files == [files[0]] + files[1..];
    }
  }

  /** `b` is what is left of `a` after something was taken out. */
  ghost predicate StrictPart(b: seq<File>, a: seq<File>) {
    |b| < |a| && InOrderOf(b, a) && forall f :: Count(b, f) <= Count(a, f)
  }

  /** Each retried transaction is a strict part of the one before. */
  lemma {:induction false} AttemptsShrink(w: World, k: nat, pending: seq<File>, i: nat)
    requires i + 1 < |Transact(w, k, pending).attempts|
    ensures Transact(w, k, pending).attempts[0] == pending
    ensures StrictPart(Transact(w, k, pending).attempts[i + 1], Transact(w, k, pending).attempts[i])
    decreases |pending|
  {
    TransactRetries(w, k, pending);
    var conflicts := w.pacman(k, pending).conflicts;
    var left := Spared(conflicts, pending);
    if i > 0 {
      AttemptsShrink(w, k + 1, left, i - 1);
    } else {
      assert Transact(w, k, pending).attempts[1] == left;
      SparedInOrder(conflicts, pending);
      forall f ensures Count(left, f) <= Count(pending, f) {
        CulpritsCount(conflicts, pending, f);
      }
    }
  }

  /** `f` was set aside by attempt `i` with the text pacman gave for its package. */
  ghost predicate SetAsideAt(w: World, k: nat, a: seq<seq<File>>, f: File, why: Reason, i: int) {
    && 0 <= i < |a|
    && f in a[i] && (forall j :: i < j < |a| ==> f !in a[j])
    && w.pacman(k + i, a[i]).Refused?
    && f.pkgname.Some? && f.pkgname.value in w.pacman(k + i, a[i]).conflicts
    && why == w.pacman(k + i, a[i]).conflicts[f.pkgname.value]
  }

  ghost predicate SetAside(w: World, k: nat, a: seq<seq<File>>, f: File, why: Reason) {
    exists i :: SetAsideAt(w, k, a, f, why, i)
  }

  /** `f` went down with a last attempt in which pacman blamed nobody present. */
  ghost predicate RefusedUnnamed(w: World, k: nat, a: seq<seq<File>>, f: File, why: Reason) {
    && a != [] && f in a[|a| - 1] && why == INSTALL_REFUSED_REASON
    && w.pacman(k + |a| - 1, a[|a| - 1]).Refused?
    && NobodyBlamed(w.pacman(k + |a| - 1, a[|a| - 1]).conflicts, a[|a| - 1])
  }

  ghost predicate NobodyBlamed(conflicts: map<string, Reason>, files: seq<File>) {
    forall f :: f in files ==> f.pkgname.None? || f.pkgname.value !in conflicts
  }

  lemma {:induction false} LaterAttempts(w: World, k: nat, pending: seq<File>, j: nat, f: File)
    requires j < |Transact(w, k, pending).attempts| && f in Transact(w, k, pending).attempts[j]
    ensures f in pending
    decreases |pending|
  {
    if j > 0 {
      TransactRetries(w, k, pending);
      LaterAttempts(w, k + 1, Spared(w.pacman(k, pending).conflicts, pending), j - 1, f);
      CulpritsAreBlamed(w.pacman(k, pending).conflicts, pending);
    }
  }

  /** Every refusal carries its true cause. */
  lemma {:induction false} RefusalsAreExplained(w: World, k: nat, pending: seq<File>, f: File, why: Reason)
    requires (f, why) in Transact(w, k, pending).refused
    ensures var a := Transact(w, k, pending).attempts;
            RefusedUnnamed(w, k, a, f, why) || SetAside(w, k, a, f, why)
    decreases |pending|
  {
    hide Transact, Culprits, Spared;
    TransactStops(w, k, pending);
    var conflicts := w.pacman(k, pending).conflicts;
    if Culprits(conflicts, pending) == [] {
      CulpritsAreBlamed(conflicts, pending);
      LastRefusal(w, k, pending, f, why);
    } else {
      TransactRetries(w, k, pending);
      var left := Spared(conflicts, pending);
      var rest := Transact(w, k + 1, left);
      if (f, why) in rest.refused {
        RefusalsAreExplained(w, k + 1, left, f, why);
        ExplainedOneEarlier(w, k, pending, rest.attempts, f, why);
      } else {
        BlamedNow(w, k, pending, f, why);
      }
    }
  }

  lemma LastRefusal(w: World, k: nat, pending: seq<File>, f: File, why: Reason)
    requires pending != [] && w.pacman(k, pending).Refused? && NobodyBlamed(w.pacman(k, pending).conflicts, pending)
    requires (f, why) in RefuseAll(pending)
    ensures RefusedUnnamed(w, k, [pending], f, why)
  {
  }

  lemma ExplainedOneEarlier(w: World, k: nat, pending: seq<File>, a: seq<seq<File>>, f: File, why: Reason)
    requires RefusedUnnamed(w, k + 1, a, f, why) || SetAside(w, k + 1, a, f, why)
    ensures RefusedUnnamed(w, k, [pending] + a, f, why) || SetAside(w, k, [pending] + a, f, why)
  {
    var b := [pending] + a;
    if SetAside(w, k + 1, a, f, why) {
      var i :| SetAsideAt(w, k + 1, a, f, why, i);
      assert b[i + 1] == a[i];
      forall j | i + 1 < j < |b| ensures f !in b[j] {
        assert b[j] == a[j - 1];
      }
      assert SetAsideAt(w, k, b, f, why, i + 1);
    } else {
      assert b[|b| - 1] == a[|a| - 1];
    }
  }

  lemma BlamedNow(w: World, k: nat, pending: seq<File>, f: File, why: Reason)
    requires pending != [] && w.pacman(k, pending).Refused?
    requires var conflicts := w.pacman(k, pending).conflicts;
             var culprits := Culprits(conflicts, pending);
             culprits != [] && (f, why) in Blame(conflicts, culprits)
    ensures SetAsideAt(w, k, Transact(w, k, pending).attempts, f, why, 0)
  {
    TransactRetries(w, k, pending);
    var conflicts := w.pacman(k, pending).conflicts;
    var left := Spared(conflicts, pending);
    var culprits := Culprits(conflicts, pending);
    var i :| 0 <= i < |culprits| && Blame(conflicts, culprits)[i] == (f, why);
    assert culprits[i] == f && f in culprits;
    CulpritsAreBlamed(conflicts, pending);
    var a := Transact(w, k, pending).attempts;
    forall j | 0 < j < |a| ensures f !in a[j] {
      if f in a[j] {
        LaterAttempts(w, k + 1, left, j - 1, f);
      }
    }
  }

  ghost predicate AcceptedAt(w: World, k: nat, a: seq<seq<File>>, installed: seq<File>, i: int) {
    0 <= i < |a| && a[i] == installed && w.pacman(k + i, a[i]).Accepted?
  }

  /** Whatever is reported installed is exactly the last transaction, and pacman
      accepted it. */
  lemma {:induction false} InstalledIsOneTransaction(w: World, k: nat, pending: seq<File>)
    ensures var t := Transact(w, k, pending);
            t.installed != [] ==> AcceptedAt(w, k, t.attempts, t.installed, |t.attempts| - 1)
    decreases |pending|
  {
    hide Transact, Culprits, Spared;
    TransactStops(w, k, pending);
    if pending != [] && w.pacman(k, pending).Refused? && Culprits(w.pacman(k, pending).conflicts, pending) != [] {
      TransactRetries(w, k, pending);
      var left := Spared(w.pacman(k, pending).conflicts, pending);
      InstalledIsOneTransaction(w, k + 1, left);
      var a, rest := Transact(w, k, pending).attempts, Transact(w, k + 1, left);
      if rest.installed != [] {
        assert a[|a| - 1] == rest.attempts[|rest.attempts| - 1];
        assert k + (|a| - 1) == k + 1 + (|rest.attempts| - 1);
      }
    }
  }

  // ---------------------------------------------------------------------
  // The whole call: dedupe, keep-filter, transact, bookkeeping
  // ---------------------------------------------------------------------

  function Dedup(files: seq<File>): (r: seq<File>)
    ensures NoDup(r) && Elems(r) == Elems(files)
  {
    if files == [] then []
    else
      var k := |files| - 1;
      var r := Dedup(files[..k]);
      assert files == files[..k] + [files[k]];
      ElemsConcat(files[..k], [files[k]]);
      assert files[k] in r <==> files[k] in Elems(r);
      if files[k] in r then r else r + [files[k]]
  }

  predicate Keeps(keep: set<string>, f: File) {
    f.pkgname.None? || f.pkgname.value in keep || f.supersedes * keep != {}
  }

  /** `filter_pkgs_to_installed`: unreadable files stay, so pacman reports them. */
  function KeptBy(keep: set<string>, files: seq<File>): (r: seq<File>)
    ensures forall f :: f in r <==> f in files && Keeps(keep, f)
  {
    if files == [] then []
    else KeptBy(keep, files[..|files| - 1]) + if Keeps(keep, files[|files| - 1]) then [files[|files| - 1]] else []
  }

  function DroppedBy(keep: set<string>, files: seq<File>): (r: seq<File>)
    ensures forall f :: f in r <==> f in files && !Keeps(keep, f)
  {
    if files == [] then []
    else DroppedBy(keep, files[..|files| - 1]) + if Keeps(keep, files[|files| - 1]) then [] else [files[|files| - 1]]
  }

  lemma FilterNextFile(keep: set<string>, files: seq<File>)
    requires files != []
    ensures var k := |files| - 1;
            if Keeps(keep, files[k]) then
              && KeptBy(keep, files) == KeptBy(keep, files[..k]) + [files[k]]
              && DroppedBy(keep, files) == DroppedBy(keep, files[..k])
            else
              && KeptBy(keep, files) == KeptBy(keep, files[..k])
              && DroppedBy(keep, files) == DroppedBy(keep, files[..k]) + [files[k]]
  {
  }

  lemma FilterNothing(keep: set<string>, f: File)
    ensures Count(KeptBy(keep, []), f) + Count(DroppedBy(keep, []), f) == Count([], f)
  {
  }

  lemma {:induction false} FilterSplits(keep: set<string>, files: seq<File>, f: File)
    ensures Count(KeptBy(keep, files), f) + Count(DroppedBy(keep, files), f) == Count(files, f)
  {
    hide KeptBy, DroppedBy, Count, Keeps;
    if files == [] {
      FilterNothing(keep, f);
    } else {
      var k := |files| - 1;
      FilterSplits(keep, files[..k], f);
      FilterNextFile(keep, files);
      assert files == files[..k] + [files[k]];
      CountConcat(files[..k], [files[k]], f);
      if Keeps(keep, files[k]) {
        CountConcat(KeptBy(keep, files[..k]), [files[k]], f);
      } else {
        CountConcat(DroppedBy(keep, files[..k]), [files[k]], f);
      }
    }
  }

  function KeepNames(w: World, k: nat, always: set<string>): set<string> {
    w.onSystem(k) + always
  }

  function Kept(w: World, k: nat, files: seq<File>, always: set<string>): seq<File> {
    KeptBy(KeepNames(w, k, always), Dedup(files))
  }

  function Dropped(w: World, k: nat, files: seq<File>, always: set<string>): seq<File> {
    DroppedBy(KeepNames(w, k, always), Dedup(files))
  }

  function PkgnamesOf(files: seq<File>): set<string> {
    set f | f in files && f.pkgname.Some? && f.pkgname.value != "" :: f.pkgname.value
  }

  /** The transactions of one `install_built` call. */
  function Installing(w: World, k: nat, files: seq<File>, always: set<string>): Transaction {
    Transact(w, k, Kept(w, k, files, always))
  }

  /** The build records after the call. */
  function StoreAfterInstall(w: World, k: nat, files: seq<File>, always: set<string>, s: Store): Store {
    RestoreInFile(ForgetInFile(s, PkgnamesOf(Dropped(w, k, files, always))), Installing(w, k, files, always).installed)
  }

  /** The deduplicated input splits exactly into installed, refused and dropped:
      every file of it is in one of the three, once, and nothing else is. */
  lemma InstallConserves(w: World, k: nat, files: seq<File>, always: set<string>, f: File)
    ensures var t := Installing(w, k, files, always);
            Count(t.installed, f) + Count(Files(t.refused), f) + Count(Dropped(w, k, files, always), f)
                == if f in files then 1 else 0
  {
    TransactSplits(w, k, Kept(w, k, files, always), f);
    FilterSplits(KeepNames(w, k, always), Dedup(files), f);
    CountNoDup(Dedup(files), f);
    assert f in files <==> f in Elems(Dedup(files));
  }

  /** `f` is a package that is neither installed nor asked for, and replaces none that is. */
  ghost predicate Unwanted(onSystem: set<string>, always: set<string>, f: File) {
    && f.pkgname.Some? && f.pkgname.value !in onSystem && f.pkgname.value !in always
    && forall n :: n in f.supersedes ==> n !in onSystem && n !in always
  }

  /** Exactly the unwanted files are dropped; every other one is installed or refused. */
  lemma DroppedIffUnwanted(w: World, k: nat, files: seq<File>, always: set<string>, f: File)
    ensures f in Dropped(w, k, files, always) <==> f in files && Unwanted(w.onSystem(k), always, f)
    ensures var t := Installing(w, k, files, always);
            f in t.installed || f in Files(t.refused) <==> f in files && !Unwanted(w.onSystem(k), always, f)
  {
    var t := Installing(w, k, files, always);
    assert f in files <==> f in Elems(Dedup(files));
    assert Keeps(KeepNames(w, k, always), f) <==> !Unwanted(w.onSystem(k), always, f) by {
      assert forall n :: n in f.supersedes * KeepNames(w, k, always) <==>
          n in f.supersedes && (n in w.onSystem(k) || n in always);
    }
    hide Keeps, KeepNames, Unwanted, Transact, DroppedBy, KeptBy;
    InstallConserves(w, k, files, always, f);
    CountIn(t.installed, f);
    CountIn(Files(t.refused), f);
    CountIn(Dropped(w, k, files, always), f);
  }

  ghost predicate DroppedName(dropped: seq<File>, pn: string) {
    pn != "" && exists f :: f in dropped && f.pkgname == Some(pn)
  }

  /** Which packages are on record after the call: those that were, without the
      dropped ones, and those that a restored record brings back. */
  lemma RecordsAfterInstall(w: World, k: nat, files: seq<File>, always: set<string>, s: Store, pn: string)
    ensures pn in StoreAfterInstall(w, k, files, always, s).data <==>
              || (pn in s.data && !DroppedName(Dropped(w, k, files, always), pn))
              || RestoredName(s, Installing(w, k, files, always).installed, pn)
  {
    var dropped, installed := Dropped(w, k, files, always), Installing(w, k, files, always).installed;
    var forgotten := ForgetInFile(s, PkgnamesOf(dropped));
    RestoredRecords(forgotten, installed);
    assert DroppedName(dropped, pn) <==> pn in PkgnamesOf(dropped);
    hide Dropped, Installing, RestoreAll, RestoredNames, DroppedName, PkgnamesOf, Written, Texted;
  }

  /** A pkgname the user asked for is never dropped by the keep-filter. */
  lemma RequestedIsKept(w: World, k: nat, files: seq<File>, always: set<string>, f: File)
    requires f in files && f.pkgname.Some? && f.pkgname.value in always
    ensures f in Installing(w, k, files, always).installed || f in Files(Installing(w, k, files, always).refused)
    ensures f.pkgname.value !in PkgnamesOf(Dropped(w, k, files, always))
  {
    var t := Installing(w, k, files, always);
    InstallConserves(w, k, files, always, f);
    CountIn(t.installed, f);
    CountIn(Files(t.refused), f);
    CountIn(Dropped(w, k, files, always), f);
  }

  /** `install_built` */
  method InstallBuilt(file: StateFile, w: World, k: nat, files: seq<File>, always: set<string>)
    returns (installed: seq<File>, refused: seq<(File, Reason)>, dropped: seq<File>, calls: nat)
    modifies file
    ensures var t := Installing(w, k, files, always);
            installed == t.installed && refused == t.refused && calls == |t.attempts|
    ensures dropped == Dropped(w, k, files, always)
    ensures file.store == StoreAfterInstall(w, k, files, always, old(file.store))
    ensures forall f :: f in dropped <==> f in files && Unwanted(w.onSystem(k), always, f)
    ensures forall f :: f in installed || f in Files(refused) <==> f in files && !Unwanted(w.onSystem(k), always, f)
    ensures forall pn :: pn in file.store.data <==>
              || (pn in old(file.store).data && !DroppedName(dropped, pn))
              || RestoredName(old(file.store), installed, pn)
  {
    hide *;
    var deduped := Dedupe(files);
    var kept;
    kept, dropped := FilterInstalled(deduped, w.onSystem(k) + always);
    ForgetDropped(file, dropped);
    installed, refused, calls := RetryTransaction(w, k, kept);
    RestoreInstalled(file, installed);
    InstallIs(w, k, files, always, old(file.store), deduped, kept, dropped);
    forall f
      ensures f in dropped <==> f in files && Unwanted(w.onSystem(k), always, f)
      ensures f in installed || f in Files(refused) <==> f in files && !Unwanted(w.onSystem(k), always, f)
    {
      DroppedIffUnwanted(w, k, files, always, f);
    }
    forall pn ensures pn in file.store.data <==>
        || (pn in old(file.store).data && !DroppedName(dropped, pn))
        || RestoredName(old(file.store), installed, pn)
    {
      RecordsAfterInstall(w, k, files, always, old(file.store), pn);
    }
  }

  lemma InstallIs(w: World, k: nat, files: seq<File>, always: set<string>, s: Store, deduped: seq<File>,
                  kept: seq<File>, dropped: seq<File>)
    requires deduped == Dedup(files)
    requires var keep := w.onSystem(k) + always; kept == KeptBy(keep, deduped) && dropped == DroppedBy(keep, deduped)
    ensures dropped == Dropped(w, k, files, always) && Installing(w, k, files, always) == Transact(w, k, kept)
    ensures StoreAfterInstall(w, k, files, always, s)
         == RestoreInFile(ForgetInFile(s, PkgnamesOf(dropped)), Transact(w, k, kept).installed)
  {
  }

  /** `filter_pkgs_to_installed` */
  method FilterInstalled(deduped: seq<File>, keep: set<string>) returns (kept: seq<File>, dropped: seq<File>)
    ensures kept == KeptBy(keep, deduped) && dropped == DroppedBy(keep, deduped)
    ensures InOrderOf(kept, deduped) && InOrderOf(dropped, deduped)
  {
    hide InOrderOf;
    NothingInOrder<File>();
    kept, dropped := [], [];
    for i := 0 to |deduped|
      invariant kept == KeptBy(keep, deduped[..i])
      invariant dropped == DroppedBy(keep, deduped[..i])
      invariant InOrderOf(kept, deduped[..i]) && InOrderOf(dropped, deduped[..i])
    {
      assert deduped[..i + 1][..i] == deduped[..i];
      var f := deduped[i];
      InOrderNext(kept, deduped[..i], f);
      InOrderNext(dropped, deduped[..i], f);
      assert deduped[..i + 1] == deduped[..i] + [f];
      if Keeps(keep, f) {
        kept := kept + [f];
      } else {
        dropped := dropped + [f];
      }
    }
    assert deduped[..|deduped|] == deduped;
  }

  method Dedupe(files: seq<File>) returns (deduped: seq<File>)
    ensures deduped == Dedup(files) && InOrderOf(deduped, files)
  {
    hide InOrderOf;
    NothingInOrder<File>();
    deduped := [];
    for i := 0 to |files|
      invariant deduped == Dedup(files[..i]) && InOrderOf(deduped, files[..i])
    {
      assert files[..i + 1][..i] == files[..i];
      InOrderNext(deduped, files[..i], files[i]);
      assert files[..i + 1] == files[..i] + [files[i]];
      if files[i] !in deduped {
        deduped := deduped + [files[i]];
      }
    }
    assert files[..|files|] == files;
  }

  method ForgetDropped(file: StateFile, dropped: seq<File>)
    modifies file
    ensures file.store == ForgetInFile(old(file.store), PkgnamesOf(dropped))
  {
    var names := StaleNames(dropped);
    ForgetUninstalled(file, names);
  }

  method StaleNames(dropped: seq<File>) returns (names: seq<string>)
    ensures Elems(names) == PkgnamesOf(dropped)
  {
    names := [];
    for i := 0 to |dropped|
      invariant Elems(names) == PkgnamesOf(dropped[..i])
    {
      var pn := dropped[i].pkgname;
      assert dropped[..i + 1] == dropped[..i] + [dropped[i]];
      if pn.Some? && pn.value != "" {
        ElemsConcat(names, [pn.value]);
        names := names + [pn.value];
      }
    }
    assert dropped[..|dropped|] == dropped;
  }

  /** The `while pending` loop. */
  method RetryTransaction(w: World, k: nat, kept: seq<File>)
    returns (installed: seq<File>, refused: seq<(File, Reason)>, calls: nat)
    ensures var t := Transact(w, k, kept);
            installed == t.installed && refused == t.refused && calls == |t.attempts|
  {
    hide Transact, Culprits, Spared;
    var pending := kept;
    ghost var whole, rest := Transact(w, k, kept), Transact(w, k, kept);
    installed, refused, calls := [], [], 0;
    while pending != []
      invariant rest == Transact(w, k + calls, pending)
      invariant whole.installed == rest.installed
      invariant whole.refused == refused + rest.refused
      invariant |whole.attempts| == calls + |rest.attempts|
      decreases |pending|
    {
      TransactStops(w, k + calls, pending);
      var reply := w.pacman(k + calls, pending);
      if reply.Accepted? {
        return pending, refused, calls + 1;
      }
      var culprits := Culprits(reply.conflicts, pending);
      if culprits == [] {
        return [], refused + RefuseAll(pending), calls + 1;
      }
      TransactRetries(w, k + calls, pending);
      refused := refused + Blame(reply.conflicts, culprits);
      pending := Spared(reply.conflicts, pending);
      calls := calls + 1;
      rest := Transact(w, k + calls, pending);
    }
    TransactStops(w, k + calls, pending);
  }

  // ---------------------------------------------------------------------
  // Folding reasons per pkgbase
  // ---------------------------------------------------------------------

  /** One more reason for a pkgbase: `out[base].split("; ")`, test, join. A
      reason of several details is one string, so it never equals one piece. */
  function AddReason(known: Reason, why: Reason): Reason {
    if |why| == 1 && why[0] in known then known else known + why
  }

  function FoldReasons(whys: seq<Reason>): Reason {
    if whys == [] then [] else AddReason(FoldReasons(whys[..|whys| - 1]), whys[|whys| - 1])
  }

  /** The reasons of one pkgbase's files, in order. */
  function ReasonsFor(refused: seq<(File, Reason)>, baseOf: map<File, string>, base: string): seq<Reason> {
    if refused == [] then []
    else
      var last := refused[|refused| - 1];
      var rest := ReasonsFor(refused[..|refused| - 1], baseOf, base);
      if BaseOf(baseOf, last.0) == base then rest + [last.1] else rest
  }

  function BaseOf(baseOf: map<File, string>, f: File): string {
    if f in baseOf then baseOf[f] else f.name
  }

  /** `out` holds, for each pkgbase with a refused file, its folded reasons. */
  ghost predicate Folded(out: map<string, Reason>, refused: seq<(File, Reason)>, baseOf: map<File, string>) {
    forall base :: FoldedAt(out, base, ReasonsFor(refused, baseOf, base))
  }

  ghost predicate FoldedAt(out: map<string, Reason>, base: string, whys: seq<Reason>) {
    (base in out <==> whys != []) && (base in out ==> out[base] == FoldReasons(whys))
  }

  /** `not_installed_by_pkgbase` */
  method NotInstalledByPkgbase(refused: seq<(File, Reason)>, baseOf: map<File, string>)
    returns (out: map<string, Reason>)
    ensures Folded(out, refused, baseOf)
    ensures forall base :: base in out <==> exists i :: Belongs(refused, baseOf, i, base)
    ensures forall base, detail :: base in out && detail in out[base] <==>
              exists i :: Belongs(refused, baseOf, i, base) && detail in refused[i].1
  {
    out := FoldAll(refused, baseOf);
    forall base
      ensures base in out <==> exists i :: Belongs(refused, baseOf, i, base)
      ensures forall detail :: base in out && detail in out[base] <==>
                exists i :: Belongs(refused, baseOf, i, base) && detail in refused[i].1
    {
      FoldedMeans(out, refused, baseOf, base);
    }
  }

  lemma FoldedMeans(out: map<string, Reason>, refused: seq<(File, Reason)>, baseOf: map<File, string>, base: string)
    requires Folded(out, refused, baseOf)
    ensures base in out <==> exists i :: Belongs(refused, baseOf, i, base)
    ensures forall detail :: base in out && detail in out[base] <==>
              exists i :: Belongs(refused, baseOf, i, base) && detail in refused[i].1
  {
    hide FoldReasons, ReasonsFor, BaseOf;
    var whys := ReasonsFor(refused, baseOf, base);
    ReasonsForAre(refused, baseOf, base);
    assert FoldedAt(out, base, whys);
    assert whys != [] ==> whys[0] in whys;
    forall detail ensures detail in FoldReasons(whys) <==>
        exists i :: Belongs(refused, baseOf, i, base) && detail in refused[i].1
    {
      FoldKeepsEveryDetail(whys, detail);
    }
    assert whys == [] ==> forall i :: !Belongs(refused, baseOf, i, base);
  }

  /** The i-th refused file belongs to `base`; a file nobody built goes by its own name. */
  ghost predicate Belongs(refused: seq<(File, Reason)>, baseOf: map<File, string>, i: int, base: string) {
    && 0 <= i < |refused|
    && base == if refused[i].0 in baseOf then baseOf[refused[i].0] else refused[i].0.name
  }

  lemma {:induction false} ReasonsForAre(refused: seq<(File, Reason)>, baseOf: map<File, string>, base: string)
    ensures forall i :: Belongs(refused, baseOf, i, base) ==> refused[i].1 in ReasonsFor(refused, baseOf, base)
    ensures forall why :: why in ReasonsFor(refused, baseOf, base) ==>
              exists i :: Belongs(refused, baseOf, i, base) && why == refused[i].1
  {
    if refused != [] {
      var k := |refused| - 1;
      ReasonsForAre(refused[..k], baseOf, base);
      ReasonsForNext(refused, baseOf, base, k);
      assert refused[..k + 1] == refused;
      assert forall i :: Belongs(refused, baseOf, i, base) <==>
          Belongs(refused[..k], baseOf, i, base) || (i == k && BaseOf(baseOf, refused[k].0) == base);
      hide ReasonsFor, BaseOf;
      forall why | why in ReasonsFor(refused, baseOf, base)
        ensures exists i :: Belongs(refused, baseOf, i, base) && why == refused[i].1
      {
        if why in ReasonsFor(refused[..k], baseOf, base) {
          var i :| Belongs(refused[..k], baseOf, i, base) && why == refused[..k][i].1;
          assert Belongs(refused, baseOf, i, base);
        } else {
          assert Belongs(refused, baseOf, k, base);
        }
      }
    }
  }

  method FoldAll(refused: seq<(File, Reason)>, baseOf: map<File, string>) returns (out: map<string, Reason>)
    ensures Folded(out, refused, baseOf)
  {
    out := map[];
    for i := 0 to |refused|
      invariant Folded(out, refused[..i], baseOf)
    {
      var (f, why) := refused[i];
      var base := BaseOf(baseOf, f);
      var known := if base in out then out[base] else [];
      FoldStep(out, refused, baseOf, i);
      if |why| == 1 && why[0] in known {
        assert out[base := known] == out;
      } else {
        out := out[base := known + why];
      }
    }
    assert refused[..|refused|] == refused;
  }

  lemma FoldStep(out: map<string, Reason>, refused: seq<(File, Reason)>, baseOf: map<File, string>, i: nat)
    requires i < |refused| && Folded(out, refused[..i], baseOf)
    ensures var base := BaseOf(baseOf, refused[i].0);
            var known := if base in out then out[base] else [];
            Folded(out[base := AddReason(known, refused[i].1)], refused[..i + 1], baseOf)
  {
    var base := BaseOf(baseOf, refused[i].0);
    var known := if base in out then out[base] else [];
    var out' := out[base := AddReason(known, refused[i].1)];
    var next := refused[..i + 1];
    forall b ensures FoldedAt(out', b, ReasonsFor(next, baseOf, b)) {
      assert FoldedAt(out, b, ReasonsFor(refused[..i], baseOf, b));
      ReasonsForNext(refused, baseOf, b, i);
      FoldNext(ReasonsFor(refused[..i], baseOf, b), refused[i].1);
    }
  }

  lemma ReasonsForNext(refused: seq<(File, Reason)>, baseOf: map<File, string>, base: string, i: nat)
    requires i < |refused|
    ensures ReasonsFor(refused[..i + 1], baseOf, base)
         == if BaseOf(baseOf, refused[i].0) == base then ReasonsFor(refused[..i], baseOf, base) + [refused[i].1]
            else ReasonsFor(refused[..i], baseOf, base)
  {
    assert refused[..i + 1][..i] == refused[..i];
  }

  lemma FoldNext(whys: seq<Reason>, why: Reason)
    ensures FoldReasons(whys + [why]) == AddReason(FoldReasons(whys), why)
    ensures FoldReasons([]) == []
  {
  }

  /** No detail of any refused file is lost. */
  lemma {:induction false} FoldKeepsEveryDetail(whys: seq<Reason>, detail: string)
    ensures detail in FoldReasons(whys) <==> exists why :: why in whys && detail in why
  {
    if whys != [] {
      var k := |whys| - 1;
      FoldKeepsEveryDetail(whys[..k], detail);
      assert whys == whys[..k] + [whys[k]];
    }
  }

  /** Reasons stand in the order in which the files were refused. */
  lemma {:induction false} FoldKeepsOrder(whys: seq<Reason>, n: nat)
    requires n <= |whys|
    ensures FoldReasons(whys[..n]) <= FoldReasons(whys)
    decreases |whys| - n
  {
    if n == |whys| {
      assert whys[..n] == whys;
    } else {
      FoldKeepsOrder(whys, n + 1);
      assert whys[..n + 1][..n] == whys[..n];
    }
  }

  /** Each compound reason is free of repeats and brings only new details. */
  ghost predicate CompoundsAreNew(whys: seq<Reason>) {
    forall i :: 0 <= i < |whys| && |whys[i]| != 1 ==>
      NoDup(whys[i]) && forall j, d :: 0 <= j < i && d in whys[j] ==> d !in whys[i]
  }

  /** "Distinct reasons are joined" holds exactly when no compound reason
      repeats a detail already seen. */
  lemma {:induction false} FoldIsDistinctIff(whys: seq<Reason>)
    ensures NoDup(FoldReasons(whys)) <==> CompoundsAreNew(whys)
  {
    if whys != [] {
      var k := |whys| - 1;
      var init, last := whys[..k], whys[k];
      var known := FoldReasons(init);
      FoldIsDistinctIff(init);
      CompoundsAreNewSnoc(init, last);
      assert whys == init + [last];
      forall d ensures d in known <==> exists why :: why in init && d in why {
        FoldKeepsEveryDetail(init, d);
      }
      ConcatNoDupIff(known, last);
    }
  }

  lemma CompoundsAreNewSnoc(init: seq<Reason>, last: Reason)
    ensures CompoundsAreNew(init + [last]) <==>
              (CompoundsAreNew(init)
                  && (|last| != 1 ==> NoDup(last) && forall why, d :: why in init && d in why ==> d !in last))
  {
    var whys := init + [last];
    if CompoundsAreNew(whys) {
      forall i | 0 <= i < |init| && |init[i]| != 1
        ensures NoDup(init[i]) && forall j, d :: 0 <= j < i && d in init[j] ==> d !in init[i]
      {
        assert whys[i] == init[i];
        assert forall j :: 0 <= j < i ==> whys[j] == init[j];
      }
      if |last| != 1 {
        assert whys[|init|] == last;
        forall why, d | why in init && d in why ensures d !in last {
          var j :| 0 <= j < |init| && init[j] == why;
          assert whys[j] == why;
        }
      }
    } else {
      var i :| 0 <= i < |whys| && |whys[i]| != 1 &&
        !(NoDup(whys[i]) && forall j, d :: 0 <= j < i && d in whys[j] ==> d !in whys[i]);
      if i < |init| {
        assert whys[i] == init[i] && forall j :: 0 <= j < i ==> whys[j] == init[j];
      }
    }
  }

  lemma ConcatNoDupIff(a: Reason, b: Reason)
    ensures NoDup(a + b) <==> NoDup(a) && NoDup(b) && forall d :: d in a ==> d !in b
  {
    var c := a + b;
    if NoDup(c) {
      forall i, j | 0 <= i < j < |a| ensures a[i] != a[j] {
        assert c[i] != c[j];
      }
      forall i, j | 0 <= i < j < |b| ensures b[i] != b[j] {
        assert c[|a| + i] != c[|a| + j];
      }
      forall i, j | 0 <= i < |a| && 0 <= j < |b| ensures a[i] != b[j] {
        assert c[i] != c[|a| + j];
      }
    } else if NoDup(a) && NoDup(b) && forall d :: d in a ==> d !in b {
      NoDupConcat(a, b);
    }
  }

  /** Two members of one split pkgbase that fail for the same two files report
      the pair twice. */
  lemma RepeatedCompoundReason()
    ensures var why := ["/usr/bin/a exists in filesystem", "/usr/bin/b exists in filesystem"];
            FoldReasons([why, why]) == why + why
  {
    var why := ["/usr/bin/a exists in filesystem", "/usr/bin/b exists in filesystem"];
    assert [why, why][..1] == [why];
    assert FoldReasons([why]) == [] + why;
  }
}
