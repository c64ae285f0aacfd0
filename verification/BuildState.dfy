/** The build records (sysforge/primitives/build_state.py): one loaded copy, and
    the file it is loaded from and saved to. */
module BuildStates {
  import opened Prelude
  import opened Packages

  /** The value of one field of a record. */
  datatype Value = Str(s: string) | Flag(b: bool)

  /** One package record: field name to value. */
  type Entry = map<string, Value>

  /** A record a refused install undid, kept under the artifact's file name. */
  datatype Stash = Stash(pkgname: string, entry: Entry)

  datatype Store = Store(data: map<string, Entry>, reverted: map<string, Stash>)

  /** The fields that are written to the file. */
  const ENTRY_KEYS: set<string> := {
    "pkgver", "pkgrel", "epoch", "pkgbase", "pkgbuild_dir", "build_mode", "flags_string", "built_at",
    "built_upstream_commit", "source", "owner_stage", "toolchain_variant", "toolchain_fingerprint",
    "reviewed_commit", "origin_pkgbase", "build_seconds", "sandboxed", "build_inputs", "compiles"
  }

  /** Fields a later `record` keeps when its caller does not pass them. */
  const STICKY: set<string> := {
    "source", "owner_stage", "toolchain_variant", "toolchain_fingerprint", "reviewed_commit",
    "origin_pkgbase", "sandboxed", "build_inputs", "compiles"
  }

  /** Fields about the build that happened, kept by a revert. */
  const BUILD_FACTS: set<string> := {"build_seconds", "reviewed_commit"}

  function Get(data: map<string, Entry>, pn: string): Option<Entry> {
    if pn in data then Some(data[pn]) else None
  }

  /** Field `k` of what is on record, if anything is. */
  function FieldOf(e: Option<Entry>, k: string): Option<Value> {
    if e.Some? && k in e.value then Some(e.value[k]) else None
  }

  function SansFacts(e: Entry): Entry {
    e - BUILD_FACTS
  }

  function Facts(e: Entry): Entry {
    map k | k in e && k in BUILD_FACTS :: e[k]
  }

  // ---------------------------------------------------------------------
  // The ring of past build times
  // ---------------------------------------------------------------------

  function UpToComma(s: string): (k: nat)
    ensures k <= |s| && ',' !in s[..k] && (k < |s| ==> s[k] == ',')
  {
    if s == "" || s[0] == ',' then 0 else 1 + UpToComma(s[1..])
  }

  /** The non-empty pieces between the commas. */
  function Pieces(s: string): (r: seq<string>)
    ensures forall p :: p in r ==> Piece(p)
    decreases |s|
  {
    if s == "" then []
    else
      var k := UpToComma(s);
      (if k == 0 then [] else [s[..k]]) + if k < |s| then Pieces(s[k + 1..]) else []
  }

  predicate Piece(p: string) {
    p != "" && ',' !in p
  }

  function Csv(parts: seq<string>): string {
    if parts == [] then "" else if |parts| == 1 then parts[0] else parts[0] + "," + Csv(parts[1..])
  }

  lemma {:induction false} PieceEnds(p: string, rest: string)
    requires ',' !in p && (rest == "" || rest[0] == ',')
    ensures UpToComma(p + rest) == |p|
  {
    if p == "" {
      assert p + rest == rest;
    } else {
      assert (p + rest)[1..] == p[1..] + rest && p[0] in p;
      PieceEnds(p[1..], rest);
    }
  }

  lemma PiecesStart(p: string, rest: string)
    requires Piece(p) && (rest == "" || rest[0] == ',')
    ensures Pieces(p + rest) == [p] + if rest == "" then [] else Pieces(rest[1..])
  {
    PieceEnds(p, rest);
    hide UpToComma;
    var s := p + rest;
    assert s != "" && s[..|p|] == p && (rest != "" ==> s[|p| + 1..] == rest[1..]);
  }

  lemma {:induction false} PiecesOfCsv(parts: seq<string>)
    requires forall p :: p in parts ==> Piece(p)
    ensures Pieces(Csv(parts)) == parts
  {
    hide Pieces, UpToComma, Piece;
    if parts == [] {
      NoPieces();
    } else {
      var p, rest := parts[0], if |parts| == 1 then "" else "," + Csv(parts[1..]);
      assert Csv(parts) == p + rest && p in parts;
      PiecesOfCsv(parts[1..]);
      PiecesStart(p, rest);
      assert rest != "" ==> rest[1..] == Csv(parts[1..]);
    }
  }

  lemma NoPieces()
    ensures Pieces("") == []
  {
  }

  function LastFive(s: seq<string>): seq<string> {
    if |s| <= 5 then s else s[|s| - 5..]
  }

  /** The build times in a record, oldest first. */
  function Seconds(e: Option<Entry>): seq<string> {
    match FieldOf(e, "build_seconds")
    case Some(Str(s)) => Pieces(s)
    case _ => []
  }

  /** The build time a `record` call passes, if any. */
  function Measured(given: Entry): seq<string> {
    match FieldOf(Some(given), "build_seconds")
    case Some(Str(s)) => [s]
    case _ => []
  }

  function NextSeconds(prior: Option<Entry>, given: Entry): seq<string> {
    if Measured(given) == [] then Seconds(prior) else LastFive(Seconds(prior) + Measured(given))
  }

  /** The record a build leaves: what it passes, over what sticks, and the build
      times so far. */
  function Recorded(prior: Option<Entry>, given: Entry): Entry {
    var kept := map k | k in STICKY && FieldOf(prior, k).Some? :: prior.value[k];
    var ring := NextSeconds(prior, given);
    kept + (given - {"build_seconds"}) + if ring == [] then map[] else map["build_seconds" := Str(Csv(ring))]
  }

  lemma KeptBelowGiven(prior: Option<Entry>, given: Entry, was: Entry, kept: Entry)
    requires was == (if prior.Some? then prior.value else map[])
    requires kept == map k | k in was && k in STICKY && k !in given :: was[k]
    ensures kept + (given - {"build_seconds"})
         == (map k | k in STICKY && FieldOf(prior, k).Some? :: prior.value[k]) + (given - {"build_seconds"})
  {
  }

  function WithoutStashOf(reverted: map<string, Stash>, pn: string): (r: map<string, Stash>)
    ensures forall a :: a in r <==> a in reverted && reverted[a].pkgname != pn
    ensures forall a :: a in r ==> r[a] == reverted[a]
  {
    map a | a in reverted && reverted[a].pkgname != pn :: reverted[a]
  }

  function Record(s: Store, pn: string, given: Entry): Store {
    Store(s.data[pn := Recorded(Get(s.data, pn), given)], WithoutStashOf(s.reverted, pn))
  }

  /** `revert_record`: back to `prior`, keeping what the refused build recorded
      under its artifact, unless the record already stands at `prior`. */
  function Revert(s: Store, pn: string, prior: Option<Entry>, artifact: string): Store {
    var current := if pn in s.data then s.data[pn] else map[];
    var before := match prior case None => map[] case Some(p) => p;
    var reverted :=
      if current != map[] && SansFacts(current) != SansFacts(before)
      then s.reverted[artifact := Stash(pn, current)]
      else s.reverted;
    match prior
    case None => Store(s.data - {pn}, reverted)
    case Some(p) => Store(s.data[pn := p + Facts(current)], reverted)
  }

  predicate Stashed(s: Store, artifact: string) {
    artifact in s.reverted && s.reverted[artifact].pkgname != ""
  }

  /** `restore_reverted`: pop the artifact's stash and reinstate its record. */
  function Restore(s: Store, artifact: string): Store {
    if Stashed(s, artifact) then
      var stash := s.reverted[artifact];
      Store(s.data[stash.pkgname := stash.entry], s.reverted - {artifact})
    else
      s.(reverted := s.reverted - {artifact})
  }

  /** One build records each of its pkgnames. */
  function RecordAll(s: Store, records: seq<(string, Entry)>): Store {
    if records == [] then s
    else Record(RecordAll(s, records[..|records| - 1]), records[|records| - 1].0, records[|records| - 1].1)
  }

  function RestoreAll(s: Store, files: seq<File>): Store {
    if files == [] then s
    else Restore(RestoreAll(s, files[..|files| - 1]), files[|files| - 1].name)
  }

  /** Refused artifacts whose pkgname was snapshotted go back to the snapshot. */
  function RevertAll(s: Store, files: seq<File>, prior: map<string, Option<Entry>>): Store {
    if files == [] then s
    else
      var rest := RevertAll(s, files[..|files| - 1], prior);
      var f := files[|files| - 1];
      if f.pkgname.Some? && f.pkgname.value in prior
      then Revert(rest, f.pkgname.value, prior[f.pkgname.value], f.name)
      else rest
  }

  function Snapshot(s: Store, names: set<string>): (prior: map<string, Option<Entry>>)
    ensures prior.Keys == names
    ensures forall pn :: pn in names ==> prior[pn] == if pn in s.data then Some(s.data[pn]) else None
  {
    map pn | pn in names :: Get(s.data, pn)
  }

  function Forget(s: Store, names: set<string>): Store {
    s.(data := s.data - names)
  }

  // ---------------------------------------------------------------------
  // The file
  // ---------------------------------------------------------------------

  /** What a boolean becomes in the `reverted` table, where every value is quoted. */
  function Quoted(v: Value): Value {
    match v
    case Str(_) => v
    case Flag(b) => Str(if b then "True" else "False")
  }

  /** A record as the main table holds it: known fields, booleans as booleans. */
  function Written(e: Entry): Entry {
    map k | k in e && k in ENTRY_KEYS :: e[k]
  }

  /** A record as the `reverted` table holds it: known fields, all of them text. */
  function Texted(e: Entry): Entry {
    map k | k in e && k in ENTRY_KEYS :: Quoted(e[k])
  }

  /** What a load finds after a save of `s`. */
  function Saved(s: Store): Store {
    Store(map pn | pn in s.data :: Written(s.data[pn]),
          map a | a in s.reverted :: Stash(s.reverted[a].pkgname, Texted(s.reverted[a].entry)))
  }

  predicate NoFlags(e: Entry) {
    forall k :: k in e ==> e[k].Str?
  }

  /** A file the program wrote: saving what it holds changes nothing. */
  ghost predicate Clean(s: Store) {
    && (forall pn :: pn in s.data ==> s.data[pn].Keys <= ENTRY_KEYS)
    && (forall a :: a in s.reverted ==> s.reverted[a].entry.Keys <= ENTRY_KEYS && NoFlags(s.reverted[a].entry))
  }

  lemma WrittenIs(e: Entry)
    requires e.Keys <= ENTRY_KEYS
    ensures Written(e) == e
  {
  }

  lemma TextedIs(e: Entry)
    requires e.Keys <= ENTRY_KEYS
    ensures Texted(e) == e <==> NoFlags(e)
  {
    if NoFlags(e) {
      assert forall k :: k in e ==> Quoted(e[k]) == e[k];
    } else {
      var k :| k in e && !e[k].Str?;
      assert Texted(e)[k] != e[k];
    }
  }

  /** A saved file is one the program wrote, and saving that again is idle. */
  lemma SavedIsClean(s: Store)
    ensures Clean(Saved(s)) && (Clean(s) <==> Saved(s) == s)
  {
    if Clean(s) {
      forall pn | pn in s.data ensures Written(s.data[pn]) == s.data[pn] {
        WrittenIs(s.data[pn]);
      }
      forall a | a in s.reverted ensures Texted(s.reverted[a].entry) == s.reverted[a].entry {
        TextedIs(s.reverted[a].entry);
      }
      assert Saved(s).data == s.data && Saved(s).reverted == s.reverted;
    }
  }

  /** The build_state.toml of one state directory. */
  class StateFile {
    var store: Store

    constructor ()
      ensures store == Store(map[], map[])
    {
      store := Store(map[], map[]);
    }
  }

  /** One loaded copy of the file. Every method but `Save` is one update of one
      of its two tables. */
  class BuildState {
    var data: map<string, Entry>
    var reverted: map<string, Stash>

    function View(): Store
      reads this
    {
      Store(data, reverted)
    }

    constructor (file: StateFile)
      ensures View() == file.store
    {
      data, reverted := file.store.data, file.store.reverted;
    }

    method Save(file: StateFile)
      modifies file
      ensures file.store == Saved(View())
    {
      var d := map pn | pn in data :: Written(data[pn]);
      var r := map a | a in reverted :: Stash(reverted[a].pkgname, Texted(reverted[a].entry));
      file.store := Store(d, r);
    }

    method RecordBuild(pn: string, given: Entry)
      modifies this
      ensures View() == Record(old(View()), pn, given)
    {
      var entry := NextEntry(if pn in data then Some(data[pn]) else None, given);
      data := data[pn := entry];
      DropReverted(pn);
    }

    /** The entry a `record` call puts under the name. */
    method NextEntry(prior: Option<Entry>, given: Entry) returns (entry: Entry)
      ensures entry == Recorded(prior, given)
    {
      hide Seconds, Csv;
      var was := if prior.Some? then prior.value else map[];
      var kept := map k | k in was && k in STICKY && k !in given :: was[k];
      var ring := NextRing(prior, given);
      entry := kept + (given - {"build_seconds"}) + if ring == [] then map[]
          else map["build_seconds" := Str(Csv(ring))];
      KeptBelowGiven(prior, given, was, kept);
    }

    /** The ring a `record` call leaves: a measured time is appended, and at most
        five are kept. */
    method NextRing(prior: Option<Entry>, given: Entry) returns (ring: seq<string>)
      ensures ring == NextSeconds(prior, given)
    {
      hide Seconds;
      ring := Seconds(prior);
      if "build_seconds" in given && given["build_seconds"].Str? {
        ring := ring + [given["build_seconds"].s];
        if |ring| > 5 {
          ring := ring[|ring| - 5..];
        }
      }
    }

    method DropReverted(pn: string)
      modifies this`reverted
      ensures reverted == WithoutStashOf(old(reverted), pn)
    {
      var stale := set a | a in reverted && reverted[a].pkgname == pn;
      reverted := reverted - stale;
    }

    method RevertRecord(pn: string, prior: Option<Entry>, artifact: string)
      modifies this
      ensures View() == Revert(old(View()), pn, prior, artifact)
    {
      var current := if pn in data then data[pn] else map[];
      var before := match prior case None => map[] case Some(p) => p;
      if current != map[] && SansFacts(current) != SansFacts(before) {
        reverted := reverted[artifact := Stash(pn, current)];
      }
      if prior.None? {
        data := data - {pn};
        return;
      }
      data := data[pn := prior.value + Facts(current)];
    }

    method RestoreReverted(artifact: string) returns (restored: Option<string>)
      modifies this
      ensures View() == Restore(old(View()), artifact)
      ensures restored == if Stashed(old(View()), artifact) then Some(old(reverted)[artifact].pkgname) else None
    {
      restored := None;
      if artifact in reverted {
        var stash := reverted[artifact];
        reverted := reverted - {artifact};
        if stash.pkgname != "" {
          data := data[stash.pkgname := stash.entry];
          restored := Some(stash.pkgname);
        }
      } else {
        assert reverted - {artifact} == reverted;
      }
    }

    method Delete(pn: string) returns (existed: bool)
      modifies this
      ensures existed == (pn in old(data))
      ensures View() == Forget(old(View()), {pn})
    {
      existed := pn in data;
      data := data - {pn};
    }
  }

  // ---------------------------------------------------------------------
  // What a series of builds leaves on record
  // ---------------------------------------------------------------------

  /** What the last build of `pn` that passed field `k` passed. */
  function LastPassed(records: seq<(string, Entry)>, pn: string, k: string): Option<Value> {
    if records == [] then None
    else
      var (n, given) := records[|records| - 1];
      if n == pn && k in given then Some(given[k]) else LastPassed(records[..|records| - 1], pn, k)
  }

  /** What the last build of `pn` passed. */
  function LastGiven(records: seq<(string, Entry)>, pn: string): Option<Entry> {
    if records == [] then None
    else if records[|records| - 1].0 == pn then Some(records[|records| - 1].1)
    else LastGiven(records[..|records| - 1], pn)
  }

  function AllMeasured(records: seq<(string, Entry)>, pn: string): seq<string> {
    if records == [] then []
    else
      var (n, given) := records[|records| - 1];
      AllMeasured(records[..|records| - 1], pn) + if n == pn then Measured(given) else []
  }

  /** However many builds follow each other, a sticky field holds what the last
      build that knew it passed, and any other field what the last build passed. */
  lemma {:induction false} FieldsAcrossBuilds(s: Store, records: seq<(string, Entry)>, pn: string, k: string)
    requires k != "build_seconds"
    ensures var now, was := Get(RecordAll(s, records).data, pn), Get(s.data, pn);
            FieldOf(now, k) ==
              if k in STICKY then (if LastPassed(records, pn, k).Some? then LastPassed(records, pn, k)
                  else FieldOf(was, k))
              else if LastGiven(records, pn).Some? then FieldOf(LastGiven(records, pn), k)
              else FieldOf(was, k)
  {
    hide Recorded;
    if records != [] {
      var k' := |records| - 1;
      FieldsAcrossBuilds(s, records[..k'], pn, k);
      FieldsOfBuild(Get(RecordAll(s, records[..k']).data, pn), records[k'].1, k);
    }
  }

  lemma FieldsOfBuild(prior: Option<Entry>, given: Entry, k: string)
    requires k != "build_seconds"
    ensures FieldOf(Some(Recorded(prior, given)), k)
         == if k in given then Some(given[k]) else if k in STICKY then FieldOf(prior, k) else None
  {
    hide NextSeconds, Csv;
  }

  lemma LastFiveAgain(a: seq<string>, b: seq<string>)
    ensures LastFive(LastFive(a) + b) == LastFive(a + b)
  {
  }

  lemma SecondsNext(prior: Option<Entry>, given: Entry)
    requires forall m :: m in Measured(given) ==> Piece(m)
    ensures Seconds(Some(Recorded(prior, given))) == NextSeconds(prior, given)
  {
    hide Pieces, Csv, UpToComma;
    PiecesOfCsv(NextSeconds(prior, given));
  }

  /** `ring` is the last five of `was` with `x` behind it. */
  ghost predicate PushedBy(was: seq<string>, x: string, ring: seq<string>) {
    && |ring| == (if |was| < 5 then |was| + 1 else 5) && |was| + 1 >= |ring| && ring[|ring| - 1] == x
    && forall i :: 0 <= i < |ring| - 1 ==> ring[i] == was[|was| + 1 - |ring| + i]
  }

  /** What one build makes of the times on record: a measured time goes to the end,
      and of more than five only the last five stay. */
  lemma RingAfterBuild(was: seq<string>, prior: Option<Entry>, given: Entry)
    requires forall p :: p in was ==> Piece(p)
    requires prior == (if was == [] then None else Some(map["build_seconds" := Str(Csv(was))]))
    requires "build_seconds" in given ==> given["build_seconds"].Str? && Piece(given["build_seconds"].s)
    ensures var ring := Seconds(Some(Recorded(prior, given)));
            if "build_seconds" !in given then ring == was else PushedBy(was, given["build_seconds"].s, ring)
  {
    hide *;
    SecondsRead(was, prior);
    MeasuredPieces(given);
    SecondsNext(prior, given);
    NextRead(was, prior, given);
  }

  lemma SecondsRead(was: seq<string>, prior: Option<Entry>)
    requires forall p :: p in was ==> Piece(p)
    requires prior == (if was == [] then None else Some(map["build_seconds" := Str(Csv(was))]))
    ensures Seconds(prior) == was
  {
    PiecesOfCsv(was);
    hide Pieces, Csv, Piece;
  }

  lemma MeasuredPieces(given: Entry)
    requires "build_seconds" in given ==> given["build_seconds"].Str? && Piece(given["build_seconds"].s)
    ensures forall m :: m in Measured(given) ==> Piece(m)
  {
  }

  lemma NextRead(was: seq<string>, prior: Option<Entry>, given: Entry)
    requires Seconds(prior) == was && ("build_seconds" in given ==> given["build_seconds"].Str?)
    ensures var ring := NextSeconds(prior, given);
            if "build_seconds" !in given then ring == was else PushedBy(was, given["build_seconds"].s, ring)
  {
    hide Seconds;
  }

  /** The ring holds the last five build times, those on record before included. */
  lemma {:induction false} RingAcrossBuilds(s: Store, records: seq<(string, Entry)>, pn: string)
    requires forall r, m :: r in records && m in Measured(r.1) ==> Piece(m)
    ensures var now, was := Seconds(Get(RecordAll(s, records).data, pn)), Seconds(Get(s.data, pn));
            now == if AllMeasured(records, pn) == [] then was else LastFive(was + AllMeasured(records, pn))
  {
    hide Recorded, Seconds, Measured, LastFive, Piece, Record;
    if records != [] {
      var k := |records| - 1;
      var init, was := records[..k], Seconds(Get(s.data, pn));
      RingAcrossBuilds(s, init, pn);
      RingNext(s, records, pn, was);
    }
  }

  lemma RingNext(s: Store, records: seq<(string, Entry)>, pn: string, was: seq<string>)
    requires records != [] && forall r, m :: r in records && m in Measured(r.1) ==> Piece(m)
    requires var init := records[..|records| - 1];
             Seconds(Get(RecordAll(s, init).data, pn))
               == if AllMeasured(init, pn) == [] then was else LastFive(was + AllMeasured(init, pn))
    ensures Seconds(Get(RecordAll(s, records).data, pn))
         == if AllMeasured(records, pn) == [] then was else LastFive(was + AllMeasured(records, pn))
  {
    hide Recorded, Seconds, Measured, LastFive, Piece;
    var init, last := records[..|records| - 1], records[|records| - 1];
    assert RecordAll(s, records) == Record(RecordAll(s, init), last.0, last.1);
    assert AllMeasured(records, pn) == AllMeasured(init, pn) + if last.0 == pn then Measured(last.1) else [];
    var many, few := AllMeasured(init, pn), Measured(last.1);
    if last.0 == pn {
      assert last in records;
      SecondsNext(Get(RecordAll(s, init).data, pn), last.1);
      LastFiveAgain(was + many, few);
      assert was + many + few == was + (many + few);
      assert few == [] ==> many + few == many;
      assert many == [] ==> many + few == few;
    } else {
      assert AllMeasured(records, pn) == many;
    }
  }

  // ---------------------------------------------------------------------
  // Revert and restore undo each other
  // ---------------------------------------------------------------------

  /** What a build recorded can still be brought back for `artifact`: it is
      stashed under the artifact, or it never left the table. */
  ghost predicate Recoverable(s: Store, pn: string, artifact: string, built: Entry) {
    if artifact in s.reverted then s.reverted[artifact] == Stash(pn, built)
    else Get(s.data, pn) == Some(built)
  }

  /** A record keeps its build times: if the field is there, it holds some. */
  predicate HasSeconds(e: Option<Entry>) {
    FieldOf(e, "build_seconds").Some? ==> Seconds(e) != []
  }

  /** The record a build leaves in the file. */
  function Filed(prior: Option<Entry>, given: Entry): Entry {
    Written(Recorded(prior, given))
  }

  lemma FactsComplete(p: Entry, given: Entry)
    requires SansFacts(Filed(Some(p), given)) == SansFacts(p) && HasSeconds(Some(p)) && p.Keys <= ENTRY_KEYS
    ensures p + Facts(Filed(Some(p), given)) == Filed(Some(p), given)
  {
    var built := Filed(Some(p), given);
    forall k | k in built || k in p ensures k in p + Facts(built) && k in built && built[k] == (p + Facts(built))[k] {
      if k !in BUILD_FACTS {
        assert k in SansFacts(built) || k in SansFacts(p);
      }
    }
  }

  /** `e` is the record `p` with what `built` knows about its own build. */
  ghost predicate FactsReplaced(p: Entry, built: Entry, e: Entry) {
    && (forall k :: k != "build_seconds" && k != "reviewed_commit" ==> FieldOf(Some(e), k) == FieldOf(Some(p), k))
    && (forall k :: k == "build_seconds" || k == "reviewed_commit" ==>
          FieldOf(Some(e), k) == if k in built then Some(built[k]) else FieldOf(Some(p), k))
  }

  lemma FactsOver(p: Entry, built: Entry)
    ensures FactsReplaced(p, built, p + Facts(built))
  {
  }

  /** A refused build: the snapshot returns, up to the facts of the build, and
      what the build recorded can still be brought back: it is stashed exactly
      if it changed anything. */
  lemma RevertIsRecoverable(s: Store, pn: string, prior: Option<Entry>, given: Entry, artifact: string)
    requires "pkgver" in given && artifact !in s.reverted && HasSeconds(prior)
    requires prior.Some? ==> prior.value.Keys <= ENTRY_KEYS
    requires Get(s.data, pn) == Some(Filed(prior, given))
    ensures var s' := Revert(s, pn, prior, artifact);
            && Recoverable(s', pn, artifact, Filed(prior, given))
            && (artifact in s'.reverted <==> Changes(prior, Filed(prior, given)))
            && (prior.None? ==> pn !in s'.data)
            && (prior.Some? ==> pn in s'.data && FactsReplaced(prior.value, Filed(prior, given), s'.data[pn]))
  {
    var built := Filed(prior, given);
    assert "pkgver" in built && "pkgver" in SansFacts(built);
    match prior
    case None =>
      assert "pkgver" !in SansFacts(map[]);
    case Some(p) =>
      FactsOver(p, built);
      hide FactsReplaced, Filed;
      if SansFacts(built) == SansFacts(p) {
        FactsComplete(p, given);
      }
  }

  /** The build recorded something that was not on record before, other than
      facts about itself. */
  predicate Changes(prior: Option<Entry>, built: Entry) {
    SansFacts(built) != SansFacts(if prior.Some? then prior.value else map[])
  }

  /** A second refusal finds the record already reverted and changes nothing. */
  lemma SecondRevertIsIdle(s: Store, pn: string, artifact: string)
    ensures Revert(s, pn, Get(s.data, pn), artifact) == s
  {
    if pn in s.data {
      assert s.data[pn] + Facts(s.data[pn]) == s.data[pn];
      assert s.data[pn := s.data[pn]] == s.data;
    } else {
      assert s.data - {pn} == s.data;
    }
  }

  /** Installing the artifact brings back what can be brought back. */
  lemma RestoreRecovers(s: Store, pn: string, artifact: string, built: Entry)
    requires Recoverable(s, pn, artifact, built) && pn != ""
    ensures Get(Restore(s, artifact).data, pn) == Some(built)
  {
  }

  // ---------------------------------------------------------------------
  // What a stash loses in the file
  // ---------------------------------------------------------------------

  /** What a refused and later installed build ends with: its record, through a
      stash if it changed anything. */
  function Recovered(prior: Option<Entry>, built: Entry): Entry {
    if Changes(prior, built) then Texted(built) else built
  }

  /** The record comes back as it was written exactly when it holds no boolean,
      or never had to be stashed. */
  lemma RecoveredIsBuiltIff(prior: Option<Entry>, built: Entry)
    requires built.Keys <= ENTRY_KEYS
    ensures Recovered(prior, built) == built <==> NoFlags(built) || !Changes(prior, built)
  {
    TextedIs(built);
  }

  /** Python's `bool(value)`. */
  predicate Truthy(v: Value) {
    match v
    case Str(s) => s != ""
    case Flag(b) => b
  }

  /** Of all values, only False changes its truth when it is quoted. */
  lemma QuotedTruthIff(v: Value)
    ensures (Truthy(Quoted(v)) <==> Truthy(v)) <==> v != Flag(false)
  {
  }

  /** Of a build that had to be stashed, a reader that asks for truth gets the
      wrong answer exactly for the fields that were False. */
  lemma RecoveredTruthIff(prior: Option<Entry>, built: Entry, k: string)
    requires built.Keys <= ENTRY_KEYS && k in built
    ensures var end := Recovered(prior, built);
            && k in end
            && ((Truthy(end[k]) <==> Truthy(built[k])) <==> !(Changes(prior, built) && built[k] == Flag(false)))
  {
    hide Changes, ENTRY_KEYS;
    QuotedTruthIff(built[k]);
  }
}
