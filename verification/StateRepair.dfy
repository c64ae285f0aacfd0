/** `sysforge state repair` (sysforge/state_cmd.py): entries written with an
    unexpanded shell variable are rebuilt from their PKGBUILD, and retired
    build_mode tokens are rewritten. */
module StateRepair {
  import opened Prelude
  import opened BuildStates

  const SUFFIX := "-sysforge"

  /** Retired build_mode tokens and what replaced them. */
  const LEGACY: map<string, string> := map["profiled" := "source_built", "pgo_mesa" := "pgo"]

  /** The fields a repair derives anew. */
  const IDENTITY: set<string> := {"pkgver", "pkgrel", "epoch", "pkgbase", "pkgbuild_dir"}

  /** What parsing a PKGBUILD says: absent globals are None. */
  datatype Globals = Globals(names: seq<string>, pkgbase: Option<string>, pkgver: Option<string>,
      pkgrel: Option<string>, epoch: Option<string>)

  datatype Parse = Missing | Failed | Parsed(globals: Globals)

  /** Directory to PKGBUILD. */
  type Pkgbuilds = string -> Parse

  datatype Identity = Identity(names: seq<string>, pkgbase: string, pkgver: string, pkgrel: string, epoch: string)

  datatype Plan = Plan(dir: string, deletes: seq<string>, creates: seq<(string, Entry)>)

  datatype Verdict = Intact | NotFound | Unresolvable | Planned(plan: Plan)

  type Data = map<string, Entry>

  function Field(e: Entry, k: string): string {
    if k in e && e[k].Str? then e[k].s else ""
  }

  function Rec(data: Data, n: string): Entry {
    if n in data then data[n] else map[]
  }

  function Dir(data: Data, n: string): string {
    Field(Rec(data, n), "pkgbuild_dir")
  }

  predicate HasVar(s: string) {
    '$' in s
  }

  predicate Broken(n: string, e: Entry) {
    HasVar(n) || HasVar(Field(e, "pkgbase")) || HasVar(Field(e, "pkgver")) || HasVar(Field(e, "pkgrel"))
        || HasVar(Field(e, "epoch"))
  }

  /** A `$` stands in the name or in one of the fields that must be expanded. */
  ghost predicate Unexpanded(n: string, e: Entry) {
    '$' in n || VarIn(e, "pkgbase") || VarIn(e, "pkgver") || VarIn(e, "pkgrel") || VarIn(e, "epoch")
  }

  ghost predicate VarIn(e: Entry, k: string) {
    k in e && e[k].Str? && '$' in e[k].s
  }

  lemma BrokenMeans(n: string, e: Entry)
    ensures Broken(n, e) <==> Unexpanded(n, e)
  {
  }

  /** Today's token for a build_mode. */
  function Current(mode: Value): Value {
    if mode == Str("profiled") then Str("source_built") else if mode == Str("pgo_mesa") then Str("pgo") else mode
  }

  /** `f` is `e`, its build_mode in the tokens of today. */
  ghost predicate Modernised(e: Entry, f: Entry) {
    && f.Keys == e.Keys && (forall k :: k in e && k != "build_mode" ==> f[k] == e[k])
    && ("build_mode" in e ==> f["build_mode"] == Current(e["build_mode"]))
  }

  lemma NormalisedMeans(e: Entry)
    ensures Modernised(e, Normalised(e))
    ensures Legacy(e) <==>
        "build_mode" in e && (e["build_mode"] == Str("profiled") || e["build_mode"] == Str("pgo_mesa"))
  {
  }

  /** A retired build_mode is replaced; every other one stays. */
  function Normalised(e: Entry): Entry {
    if Legacy(e) then e["build_mode" := Str(LEGACY[e["build_mode"].s])] else e
  }

  predicate Legacy(e: Entry) {
    "build_mode" in e && e["build_mode"].Str? && e["build_mode"].s in LEGACY
  }

  // ---------------------------------------------------------------------
  // Planning one directory
  // ---------------------------------------------------------------------

  function InDir(data: Data, dir: string): string -> bool {
    n => Dir(data, n) == dir
  }

  function IsBroken(data: Data): string -> bool {
    n => Broken(n, Rec(data, n))
  }

  /** The entries of one directory, in the order the state file lists them. */
  function GroupOf(data: Data, order: seq<string>, dir: string): seq<string> {
    Filter(InDir(data, dir), order)
  }

  function OrElse(o: Option<string>, default: string): string {
    if o.Some? then o.value else default
  }

  function Expected(g: Globals): (id: Identity)
    requires g.names != []
    ensures id.names == g.names
    ensures g.pkgbase.Some? && g.pkgbase.value != "" ==> id.pkgbase == g.pkgbase.value
    ensures g.pkgbase.None? || g.pkgbase.value == "" ==> id.pkgbase == g.names[0]
    ensures g.pkgver == Some(id.pkgver) || (g.pkgver.None? && id.pkgver == "")
    ensures g.pkgrel == Some(id.pkgrel) || (g.pkgrel.None? && id.pkgrel == "1")
    ensures g.epoch == Some(id.epoch) || (g.epoch.None? && id.epoch == "0")
  {
    Identity(g.names, if OrElse(g.pkgbase, "") != "" then g.pkgbase.value else g.names[0],
             OrElse(g.pkgver, ""), OrElse(g.pkgrel, "1"), OrElse(g.epoch, "0"))
  }

  predicate Expanded(id: Identity) {
    && (forall n :: n in id.names ==> !HasVar(n))
    && !HasVar(id.pkgbase) && !HasVar(id.pkgver) && !HasVar(id.pkgrel) && !HasVar(id.epoch)
  }

  /** The old entry a new one replaces. */
  function SourceOf(data: Data, group: seq<string>, name: string): string
    requires Filter(IsBroken(data), group) != []
  {
    if name in group then name
    else if name + SUFFIX in group then name + SUFFIX
    else Filter(IsBroken(data), group)[0]
  }

  predicate Renamed(data: Data, group: seq<string>, name: string)
    requires Filter(IsBroken(data), group) != []
  {
    name !in group && (name + SUFFIX in group || Field(Rec(data, SourceOf(data, group, name)), "origin_pkgbase") != "")
  }

  function Carried(src: Entry): Entry {
    map k | k in src && k in ENTRY_KEYS && k !in IDENTITY :: src[k]
  }

  function PkgbaseFor(src: Entry, id: Identity, renamed: bool): string {
    if !renamed then id.pkgbase
    else if Field(src, "pkgbase") != "" && !HasVar(Field(src, "pkgbase")) then Field(src, "pkgbase")
    else id.pkgbase + SUFFIX
  }

  function WithIdentity(e: Entry, id: Identity, pkgbase: string, dir: string): Entry {
    e["pkgver" := Str(id.pkgver)]["pkgrel" := Str(id.pkgrel)]["epoch" := Str(id.epoch)]
     ["pkgbase" := Str(pkgbase)]["pkgbuild_dir" := Str(dir)]
  }

  function Rebuilt(src: Entry, id: Identity, renamed: bool, dir: string): Entry {
    Normalised(WithIdentity(Carried(src), id, PkgbaseFor(src, id, renamed), dir))
  }

  function CreateOne(data: Data, group: seq<string>, id: Identity, dir: string, name: string): (string, Entry)
    requires Filter(IsBroken(data), group) != []
  {
    var renamed := Renamed(data, group, name);
    (if renamed then name + SUFFIX else name, Rebuilt(Rec(data, SourceOf(data, group, name)), id, renamed, dir))
  }

  function Creates(data: Data, group: seq<string>, id: Identity, dir: string): (r: seq<(string, Entry)>)
    requires Filter(IsBroken(data), group) != []
    ensures |r| == |id.names| && forall i :: 0 <= i < |r| ==> r[i] == CreateOne(data, group, id, dir, id.names[i])
  {
    seq(|id.names|, i requires 0 <= i < |id.names| => CreateOne(data, group, id, dir, id.names[i]))
  }

  function Targets(creates: seq<(string, Entry)>): set<string> {
    set c | c in creates :: c.0
  }

  /** What a plan drops: anything broken or never renamed, except its targets. */
  function Dropped(data: Data, targets: set<string>): string -> bool {
    n => n !in targets && (Broken(n, Rec(data, n)) || Field(Rec(data, n), "origin_pkgbase") == "")
  }

  function Within(names: set<string>): string -> bool {
    n => n in names
  }

  function PlanFor(data: Data, group: seq<string>, id: Identity, dir: string): Plan
    requires Filter(IsBroken(data), group) != []
  {
    var creates := Creates(data, group, id, dir);
    Plan(dir, Filter(Dropped(data, Targets(creates)), group) + Filter(Within(Targets(creates)), group), creates)
  }

  function VerdictOn(data: Data, group: seq<string>, dir: string, parse: Pkgbuilds): Verdict {
    if Filter(IsBroken(data), group) == [] then Intact
    else if dir == "" || parse(dir).Missing? then NotFound
    else if parse(dir).Failed? || parse(dir).globals.names == [] || !Expanded(Expected(parse(dir).globals))
        then Unresolvable
    else Planned(PlanFor(data, group, Expected(parse(dir).globals), dir))
  }

  /** There is no PKGBUILD to look into. */
  ghost predicate NoSource(dir: string, parse: Pkgbuilds) {
    dir == "" || parse(dir).Missing?
  }

  /** The PKGBUILD names its packages, and nothing in it is left to the shell. */
  ghost predicate Resolvable(dir: string, parse: Pkgbuilds) {
    && dir != "" && parse(dir).Parsed?
    && var g := parse(dir).globals;
       && g.names != [] && (forall n :: n in g.names ==> '$' !in n)
       && (g.pkgbase.Some? ==> '$' !in g.pkgbase.value) && (g.pkgver.Some? ==> '$' !in g.pkgver.value)
       && (g.pkgrel.Some? ==> '$' !in g.pkgrel.value) && (g.epoch.Some? ==> '$' !in g.epoch.value)
  }

  ghost predicate AnyUnexpanded(data: Data, group: seq<string>) {
    exists n :: n in group && Unexpanded(n, Rec(data, n))
  }

  lemma AnyBroken(data: Data, group: seq<string>)
    ensures Filter(IsBroken(data), group) != [] <==> AnyUnexpanded(data, group)
  {
    var broken := Filter(IsBroken(data), group);
    forall n ensures Broken(n, Rec(data, n)) <==> Unexpanded(n, Rec(data, n)) {
      BrokenMeans(n, Rec(data, n));
    }
    hide Broken, Unexpanded, Rec;
    assert broken != [] ==> broken[0] in broken;
    if AnyUnexpanded(data, group) {
      var n :| n in group && Unexpanded(n, Rec(data, n));
      assert n in broken;
    }
  }

  /** Which directories are left alone, missed, given up or planned. */
  lemma VerdictMeans(data: Data, group: seq<string>, dir: string, parse: Pkgbuilds)
    ensures var v, any := VerdictOn(data, group, dir, parse), AnyUnexpanded(data, group);
            && (v.Intact? <==> !any) && (v.NotFound? <==> any && NoSource(dir, parse))
            && (v.Unresolvable? <==> any && !NoSource(dir, parse) && !Resolvable(dir, parse))
            && (v.Planned? <==> any && Resolvable(dir, parse))
  {
    AnyBroken(data, group);
    hide IsBroken, Filter, AnyUnexpanded, PlanFor;
  }

  // ---------------------------------------------------------------------
  // The two passes and their effect
  // ---------------------------------------------------------------------

  function PlansOf(data: Data, order: seq<string>, dirs: seq<string>, parse: Pkgbuilds): seq<Plan> {
    if dirs == [] then []
    else
      var k := |dirs| - 1;
      var v := VerdictOn(data, GroupOf(data, order, dirs[k]), dirs[k], parse);
      PlansOf(data, order, dirs[..k], parse) + if v.Planned? then [v.plan] else []
  }

  function DirsOf(data: Data, order: seq<string>): set<string> {
    set n | n in order :: Dir(data, n)
  }

  /** Pass 1. */
  function AllPlans(data: Data, order: seq<string>, parse: Pkgbuilds): seq<Plan> {
    PlansOf(data, order, SortedOf(multiset(DirsOf(data, order))), parse)
  }

  function Handled(plans: seq<Plan>): set<string> {
    set p, n | p in plans && n in p.deletes :: n
  }

  function Stale(data: Data, handled: set<string>): string -> bool {
    n => n !in handled && Legacy(Rec(data, n))
  }

  /** Pass 2: the entries whose build_mode is rewritten in place. */
  function FixesOf(data: Data, order: seq<string>, plans: seq<Plan>): seq<string> {
    Filter(Stale(data, Handled(plans)), order)
  }

  function PutAll(data: Data, creates: seq<(string, Entry)>): Data {
    if creates == [] then data
    else PutAll(data, creates[..|creates| - 1])[creates[|creates| - 1].0 := creates[|creates| - 1].1]
  }

  function Apply(data: Data, plan: Plan): Data {
    PutAll(data - Elems(plan.deletes), plan.creates)
  }

  function ApplyAll(data: Data, plans: seq<Plan>): Data {
    if plans == [] then data else Apply(ApplyAll(data, plans[..|plans| - 1]), plans[|plans| - 1])
  }

  /** The entry under a key that pass 2 rewrites. */
  function Fixed(e: Entry, was: Entry): Entry {
    e["build_mode" := Str(Field(Normalised(was), "build_mode"))]
  }

  /** Each token was read before anything was applied. */
  function FixAll(data: Data, was: Data, fixes: seq<string>): Data {
    if fixes == [] then data
    else
      var k := |fixes| - 1;
      var rest := FixAll(data, was, fixes[..k]);
      rest[fixes[k] := Fixed(Rec(rest, fixes[k]), Rec(was, fixes[k]))]
  }

  /** The state file after a repair. */
  function Repaired(data: Data, order: seq<string>, parse: Pkgbuilds): Data {
    var plans := AllPlans(data, order, parse);
    FixAll(ApplyAll(data, plans), data, FixesOf(data, order, plans))
  }

  // ---------------------------------------------------------------------
  // What happens to one key
  // ---------------------------------------------------------------------

  lemma {:induction false} PutCases(data: Data, creates: seq<(string, Entry)>, n: string)
    ensures n !in Targets(creates) ==> Get(PutAll(data, creates), n) == Get(data, n)
    ensures n in Targets(creates) ==> exists c :: c in creates && c.0 == n && Get(PutAll(data, creates), n) == Some(c.1)
  {
    if creates != [] {
      var k := |creates| - 1;
      PutCases(data, creates[..k], n);
      assert creates == creates[..k] + [creates[k]];
      assert creates[k] in creates;
    }
  }

  /** Plan `i` is the last to mention this key, and drops it. */
  predicate DroppedBy(plans: seq<Plan>, i: int, n: string) {
    0 <= i < |plans| && n in plans[i].deletes && forall j :: i <= j < |plans| ==> n !in Targets(plans[j].creates)
  }

  predicate Untouched(plans: seq<Plan>, n: string) {
    forall p :: p in plans ==> n !in p.deletes && n !in Targets(p.creates)
  }

  ghost predicate CreatedBy(plans: seq<Plan>, n: string, e: Entry) {
    exists p :: p in plans && (n, e) in p.creates
  }

  lemma {:induction false} ApplyCases(data: Data, plans: seq<Plan>, n: string)
    ensures var now := Get(ApplyAll(data, plans), n);
            || (now.Some? && CreatedBy(plans, n, now.value))
            || (now.None? && exists i :: DroppedBy(plans, i, n))
            || (now == Get(data, n) && Untouched(plans, n))
  {
    if plans != [] {
      var k := |plans| - 1;
      var p, rest := plans[k], ApplyAll(data, plans[..k]);
      ApplyCases(data, plans[..k], n);
      PutCases(rest - Elems(p.deletes), p.creates, n);
      hide PutAll, ApplyAll, Targets;
      if n in Targets(p.creates) {
        var c :| c in p.creates && c.0 == n && Get(Apply(rest, p), n) == Some(c.1);
        assert p in plans && (n, c.1) in p.creates;
      } else if n in p.deletes {
        assert DroppedBy(plans, k, n);
      } else {
        var was := Get(rest, n);
        if was.Some? && CreatedBy(plans[..k], n, was.value) {
          var q :| q in plans[..k] && (n, was.value) in q.creates;
          assert q in plans;
        } else if i :| DroppedBy(plans[..k], i, n) {
          assert DroppedBy(plans, i, n);
        } else {
          assert plans == plans[..k] + [p];
        }
      }
    }
  }

  lemma FixLast(data: Data, was: Data, fixes: seq<string>)
    ensures fixes == [] ==> FixAll(data, was, fixes) == data
    ensures fixes != [] ==>
              var k := |fixes| - 1;
              var rest := FixAll(data, was, fixes[..k]);
              FixAll(data, was, fixes) == rest[fixes[k] := Fixed(Rec(rest, fixes[k]), Rec(was, fixes[k]))]
  {
  }

  lemma FixTwice(e: Entry, was: Entry)
    ensures Fixed(Fixed(e, was), was) == Fixed(e, was)
  {
  }

  lemma {:induction false} FixCases(data: Data, was: Data, fixes: seq<string>, n: string)
    ensures n in FixAll(data, was, fixes) <==> n in data || n in fixes
    ensures n !in fixes ==> Get(FixAll(data, was, fixes), n) == Get(data, n)
    ensures n in fixes ==> FixAll(data, was, fixes)[n] == Fixed(Rec(data, n), Rec(was, n))
  {
    hide FixAll, Fixed;
    FixLast(data, was, fixes);
    if fixes != [] {
      var k := |fixes| - 1;
      FixCases(data, was, fixes[..k], n);
      assert fixes == fixes[..k] + [fixes[k]];
      FixTwice(Rec(data, n), Rec(was, n));
    }
  }

  /** What a planned verdict stands for. */
  lemma PlannedFor(data: Data, group: seq<string>, dir: string, parse: Pkgbuilds)
    requires VerdictOn(data, group, dir, parse).Planned?
    ensures Filter(IsBroken(data), group) != [] && dir != "" && parse(dir).Parsed?
    ensures parse(dir).globals.names != [] && Expanded(Expected(parse(dir).globals))
    ensures VerdictOn(data, group, dir, parse).plan == PlanFor(data, group, Expected(parse(dir).globals), dir)
    ensures VerdictOn(data, group, dir, parse).plan.dir == dir
  {
    hide Expected, Expanded, Creates, Dropped, Filter;
  }

  lemma PlansStep(data: Data, order: seq<string>, dirs: seq<string>, parse: Pkgbuilds, p: Plan)
    requires dirs != []
    ensures var k := |dirs| - 1;
            var v := VerdictOn(data, GroupOf(data, order, dirs[k]), dirs[k], parse);
            p in PlansOf(data, order, dirs, parse) <==> p in PlansOf(data, order, dirs[..k], parse) || v == Planned(p)
  {
  }

  lemma {:induction false} PlanMembers(data: Data, order: seq<string>, dirs: seq<string>, parse: Pkgbuilds, p: Plan)
    ensures p in PlansOf(data, order, dirs, parse) <==>
        p.dir in dirs && VerdictOn(data, GroupOf(data, order, p.dir), p.dir, parse) == Planned(p)
  {
    hide VerdictOn, GroupOf;
    if dirs != [] {
      var k := |dirs| - 1;
      PlansStep(data, order, dirs, parse, p);
      hide PlansOf;
      PlanMembers(data, order, dirs[..k], parse, p);
      assert dirs == dirs[..k] + [dirs[k]];
      if VerdictOn(data, GroupOf(data, order, dirs[k]), dirs[k], parse).Planned? {
        PlannedFor(data, GroupOf(data, order, dirs[k]), dirs[k], parse);
      }
    }
  }

  /** The plan of a directory that has one. */
  lemma PlanOfDir(data: Data, order: seq<string>, parse: Pkgbuilds, p: Plan)
    ensures p in AllPlans(data, order, parse) <==>
            p.dir in DirsOf(data, order) && VerdictOn(data, GroupOf(data, order, p.dir), p.dir, parse) == Planned(p)
  {
    var dirs := SortedOf(multiset(DirsOf(data, order)));
    SortedOfSet(DirsOf(data, order));
    assert p.dir in dirs <==> p.dir in Elems(dirs);
    PlanMembers(data, order, dirs, parse, p);
  }

  // ---------------------------------------------------------------------
  // Rebuilt entries
  // ---------------------------------------------------------------------

  /** `e` carries every field of `was` but the identity; only a retired
      build_mode differs. */
  ghost predicate CarriedFrom(was: Entry, e: Entry) {
    forall k :: k !in IDENTITY ==>
      && (k in e <==> k in was && k in ENTRY_KEYS)
      && (k in e ==> e[k] == Normalised(was)[k])
  }

  lemma IdentityIsSet(e: Entry, id: Identity, pkgbase: string, dir: string, n: string)
    requires Expanded(id) && !HasVar(n) && !HasVar(pkgbase)
    ensures var f := WithIdentity(e, id, pkgbase, dir);
            && !Broken(n, f) && Field(f, "pkgbuild_dir") == dir
            && forall k :: k !in IDENTITY ==> At(f, k) == At(e, k)
  {
  }

  function At(e: Entry, k: string): Option<Value> {
    if k in e then Some(e[k]) else None
  }

  lemma RebuiltIsSound(src: Entry, id: Identity, renamed: bool, dir: string, n: string)
    requires Expanded(id) && !HasVar(n)
    ensures var e := Rebuilt(src, id, renamed, dir);
            !Broken(n, e) && !Legacy(e) && Field(e, "pkgbuild_dir") == dir && CarriedFrom(src, e)
  {
    var pkgbase := PkgbaseFor(src, id, renamed);
    assert !HasVar(id.pkgbase + SUFFIX);
    IdentityIsSet(Carried(src), id, pkgbase, dir, n);
    var f := WithIdentity(Carried(src), id, pkgbase, dir);
    NormalisedIsHarmless(n, f);
    hide *;
    CarriedOver(src, f);
  }

  /** `e` carries the version the PKGBUILD has now. */
  predicate Renewed(id: Identity, e: Entry) {
    Field(e, "pkgver") == id.pkgver && Field(e, "pkgrel") == id.pkgrel && Field(e, "epoch") == id.epoch
  }

  lemma IdentityIsRenewed(src: Entry, id: Identity, renamed: bool, dir: string)
    ensures var e := Rebuilt(src, id, renamed, dir);
        Renewed(id, e) && Field(e, "pkgbase") == PkgbaseFor(src, id, renamed)
  {
    hide PkgbaseFor, Carried;
  }

  lemma CarriedOver(src: Entry, f: Entry)
    requires forall k :: k !in IDENTITY ==> At(f, k) == At(Carried(src), k)
    ensures CarriedFrom(src, Normalised(f))
  {
  }

  /** The old entry behind a member: its own, else its renamed one, else the first
      unexpanded one of the directory. */
  ghost predicate SourceIs(data: Data, group: seq<string>, name: string, s: string) {
    if name in group then s == name
    else if name + "-sysforge" in group then s == name + "-sysforge"
    else exists j :: FirstUnexpanded(data, group, j) && group[j] == s
  }

  ghost predicate FirstUnexpanded(data: Data, group: seq<string>, j: int) {
    && 0 <= j < |group| && Unexpanded(group[j], Rec(data, group[j]))
    && forall l :: 0 <= l < j ==> !Unexpanded(group[l], Rec(data, group[l]))
  }

  /** The member goes by its renamed name. */
  ghost predicate StaysRenamed(group: seq<string>, name: string, src: Entry) {
    name !in group && (name + "-sysforge" in group || Field(src, "origin_pkgbase") != "")
  }

  /** The record `c` that replaces `src`: name, identity from the PKGBUILD, all other
      fields from `src`. */
  ghost predicate Replaces(group: seq<string>, id: Identity, dir: string, name: string, src: Entry,
                           c: (string, Entry)) {
    && Field(c.1, "pkgver") == id.pkgver && Field(c.1, "pkgrel") == id.pkgrel && Field(c.1, "epoch") == id.epoch
    && Field(c.1, "pkgbuild_dir") == dir && CarriedFrom(src, c.1)
    && if StaysRenamed(group, name, src) then
         && c.0 == name + "-sysforge"
         && Field(c.1, "pkgbase") == (if Field(src, "pkgbase") != "" && '$' !in Field(src, "pkgbase")
                                      then Field(src, "pkgbase") else id.pkgbase + "-sysforge")
       else c.0 == name && Field(c.1, "pkgbase") == id.pkgbase
  }

  ghost predicate ReplacesOne(data: Data, group: seq<string>, id: Identity, dir: string, name: string,
                              c: (string, Entry)) {
    exists s :: SourceIs(data, group, name, s) && Replaces(group, id, dir, name, Rec(data, s), c)
  }

  lemma {:induction false} FilterFirst(keep: string -> bool, s: seq<string>)
    requires Filter(keep, s) != []
    ensures exists j :: 0 <= j < |s| && s[j] == Filter(keep, s)[0] && keep(s[j]) && forall l :: 0 <= l < j ==>
        !keep(s[l])
  {
    if keep(s[0]) {
      assert s[0] == Filter(keep, s)[0];
    } else {
      FilterFirst(keep, s[1..]);
      var j :| 0 <= j < |s[1..]| && s[1..][j] == Filter(keep, s[1..])[0] && keep(s[1..][j])
               && forall l :: 0 <= l < j ==> !keep(s[1..][l]);
      assert s[j + 1] == s[1..][j];
      assert forall l :: 0 < l < j + 1 ==> s[l] == s[1..][l - 1];
    }
  }

  lemma SourceMeans(data: Data, group: seq<string>, name: string)
    requires Filter(IsBroken(data), group) != []
    ensures SourceIs(data, group, name, SourceOf(data, group, name))
  {
    FilterFirst(IsBroken(data), group);
    forall n ensures Broken(n, Rec(data, n)) <==> Unexpanded(n, Rec(data, n)) {
      BrokenMeans(n, Rec(data, n));
    }
    hide Filter, Broken, Unexpanded, Rec;
    var j :| 0 <= j < |group| && group[j] == Filter(IsBroken(data), group)[0] && IsBroken(data)(group[j])
             && forall l :: 0 <= l < j ==> !IsBroken(data)(group[l]);
    assert FirstUnexpanded(data, group, j);
  }

  lemma RebuiltReplaces(src: Entry, id: Identity, renamed: bool, dir: string)
    ensures var e := Rebuilt(src, id, renamed, dir);
            && CarriedFrom(src, e) && Field(e, "pkgbuild_dir") == dir && Renewed(id, e)
            && Field(e, "pkgbase") == if !renamed then id.pkgbase
                else if Field(src, "pkgbase") != "" && '$' !in Field(src, "pkgbase") then Field(src, "pkgbase")
                else id.pkgbase + "-sysforge"
  {
    IdentityIsRenewed(src, id, renamed, dir);
    var f := WithIdentity(Carried(src), id, PkgbaseFor(src, id, renamed), dir);
    assert Field(f, "pkgbuild_dir") == dir;
    NormalisedIsHarmless("", f);
    hide Normalised, Broken, Carried;
    CarriedOver(src, f);
  }

  /** Each member of the PKGBUILD gets the record that replaces its old entry. */
  lemma CreateReplaces(data: Data, group: seq<string>, id: Identity, dir: string, name: string)
    requires Filter(IsBroken(data), group) != []
    ensures ReplacesOne(data, group, id, dir, name, CreateOne(data, group, id, dir, name))
  {
    SourceMeans(data, group, name);
    hide Filter, Rebuilt, Rec, SourceOf, SourceIs, Field, CarriedFrom;
    var s := SourceOf(data, group, name);
    RebuiltReplaces(Rec(data, s), id, Renamed(data, group, name), dir);
  }

  /** A created entry has no variable and no retired token left, belongs to the
      directory, and carries the fields of one old entry of that directory. */
  ghost predicate Sound(data: Data, group: seq<string>, dir: string, c: (string, Entry)) {
    && !Broken(c.0, c.1) && !Legacy(c.1) && Field(c.1, "pkgbuild_dir") == dir
    && exists s :: s in group && CarriedFrom(Rec(data, s), c.1)
  }

  lemma CreateIsSound(data: Data, group: seq<string>, id: Identity, dir: string, name: string)
    requires Filter(IsBroken(data), group) != [] && Expanded(id) && name in id.names
    ensures Sound(data, group, dir, CreateOne(data, group, id, dir, name))
  {
    var s, c := SourceOf(data, group, name), CreateOne(data, group, id, dir, name);
    assert s in group by {
      assert Filter(IsBroken(data), group)[0] in Filter(IsBroken(data), group);
    }
    assert !HasVar(name) && !HasVar(name + SUFFIX);
    hide Rebuilt, Broken, CarriedFrom, SourceOf, Renamed;
    RebuiltIsSound(Rec(data, s), id, Renamed(data, group, name), dir, c.0);
  }

  lemma PlanIsSound(data: Data, group: seq<string>, dir: string, parse: Pkgbuilds, c: (string, Entry))
    requires VerdictOn(data, group, dir, parse).Planned? && c in VerdictOn(data, group, dir, parse).plan.creates
    ensures Sound(data, group, dir, c)
  {
    PlannedFor(data, group, dir, parse);
    hide VerdictOn, Expected, Expanded, Creates, CreateOne, Filter, Sound;
    var id := Expected(parse(dir).globals);
    var creates := Creates(data, group, id, dir);
    var i :| 0 <= i < |creates| && creates[i] == c;
    CreateIsSound(data, group, id, dir, id.names[i]);
  }

  lemma DeletesOf(data: Data, group: seq<string>, targets: set<string>, n: string)
    ensures n in Filter(Dropped(data, targets), group) + Filter(Within(targets), group)
      <==> n in group && (n in targets || Broken(n, Rec(data, n)) || Field(Rec(data, n), "origin_pkgbase") == "")
  {
    hide Filter, Broken, Field, Rec;
  }

  lemma PlanDeletes(data: Data, group: seq<string>, dir: string, parse: Pkgbuilds, n: string)
    requires VerdictOn(data, group, dir, parse).Planned?
    ensures var p := VerdictOn(data, group, dir, parse).plan;
            n in p.deletes <==>
            n in group && (n in Targets(p.creates) || Broken(n, Rec(data, n))
                || Field(Rec(data, n), "origin_pkgbase") == "")
  {
    PlannedFor(data, group, dir, parse);
    hide VerdictOn, Expected, Creates, Filter, Broken, Targets, Expanded, Field, Rec, Dropped, Within, IsBroken;
    DeletesOf(data, group, Targets(VerdictOn(data, group, dir, parse).plan.creates), n);
  }

  predicate Skipped(data: Data, order: seq<string>, dir: string, parse: Pkgbuilds) {
    var v := VerdictOn(data, GroupOf(data, order, dir), dir, parse);
    v.NotFound? || v.Unresolvable?
  }

  // ---------------------------------------------------------------------
  // What a repair leaves
  // ---------------------------------------------------------------------

  /** A broken entry is dropped by the plan of its directory, if there is one. */
  lemma BrokenIsPlanned(data: Data, order: seq<string>, parse: Pkgbuilds, n: string)
    requires n in data && n in order && Broken(n, data[n])
    ensures var v := VerdictOn(data, GroupOf(data, order, Dir(data, n)), Dir(data, n), parse);
            !v.Intact? && (v.Planned? ==> v.plan in AllPlans(data, order, parse) && n in v.plan.deletes)
  {
    var d := Dir(data, n);
    var group := GroupOf(data, order, d);
    assert n in group && n in Filter(IsBroken(data), group);
    var v := VerdictOn(data, group, d, parse);
    assert !v.Intact?;
    hide VerdictOn;
    if v.Planned? {
      PlanDeletes(data, group, d, parse, n);
      PlannedFor(data, group, d, parse);
      PlanOfDir(data, order, parse, v.plan);
    }
  }

  /** Pass 2 on one entry. */
  function FixOne(data: Data, plans: seq<Plan>, n: string, e: Entry): Entry {
    if n !in Handled(plans) && Legacy(Rec(data, n)) then Fixed(e, Rec(data, n)) else e
  }

  lemma EndOf(data: Data, order: seq<string>, parse: Pkgbuilds, n: string)
    requires Elems(order) == data.Keys
    ensures var plans := AllPlans(data, order, parse);
            var mid := ApplyAll(data, plans);
            Get(Repaired(data, order, parse), n) == if n in mid then Some(FixOne(data, plans, n, mid[n])) else None
  {
    hide *;
    var plans := AllPlans(data, order, parse);
    var mid, fixes := ApplyAll(data, plans), FixesOf(data, order, plans);
    RepairedIs(data, order, parse);
    FixNames(data, order, plans, n);
    if n in fixes {
      FixedIsThere(data, plans, n);
    }
    FixCases(mid, data, fixes, n);
    EndOfOne(data, plans, mid, fixes, FixAll(mid, data, fixes), n);
  }

  lemma RepairedIs(data: Data, order: seq<string>, parse: Pkgbuilds)
    ensures var plans := AllPlans(data, order, parse);
            Repaired(data, order, parse) == FixAll(ApplyAll(data, plans), data, FixesOf(data, order, plans))
  {
    hide AllPlans, ApplyAll, FixesOf, FixAll;
  }

  lemma EndOfOne(data: Data, plans: seq<Plan>, mid: Data, fixes: seq<string>, end: Data, n: string)
    requires n in fixes <==> n in data && n !in Handled(plans) && Legacy(Rec(data, n))
    requires n in fixes ==> n in mid
    requires n in end <==> n in mid || n in fixes
    requires n !in fixes ==> Get(end, n) == Get(mid, n)
    requires n in fixes ==> end[n] == Fixed(Rec(mid, n), Rec(data, n))
    ensures Get(end, n) == if n in mid then Some(FixOne(data, plans, n, mid[n])) else None
  {
    hide Handled, Legacy, Fixed;
    if n !in data {
      assert Rec(data, n) == map[];
      NotLegacy();
    }
  }

  lemma FixNames(data: Data, order: seq<string>, plans: seq<Plan>, n: string)
    requires Elems(order) == data.Keys
    ensures n in FixesOf(data, order, plans) <==> n in data && n !in Handled(plans) && Legacy(Rec(data, n))
  {
  }

  /** Pass 2 only rewrites entries that are still there. */
  lemma FixedIsThere(data: Data, plans: seq<Plan>, n: string)
    requires n in data && n !in Handled(plans)
    ensures n in ApplyAll(data, plans)
  {
    ApplyCases(data, plans, n);
    hide ApplyAll;
    forall i | 0 <= i < |plans| ensures !DroppedBy(plans, i, n) {
      assert plans[i] in plans;
    }
  }

  /** What a repair leaves under one key: an entry a plan created, or the old
      one with a retired build_mode replaced. */
  lemma EndCases(data: Data, order: seq<string>, parse: Pkgbuilds, n: string)
    requires Elems(order) == data.Keys && n in Repaired(data, order, parse)
    ensures var plans, e := AllPlans(data, order, parse), Repaired(data, order, parse)[n];
            || (exists p, c :: p in plans && c in p.creates && c.0 == n && e == FixOne(data, plans, n, c.1))
            || (n in data && Untouched(plans, n) && e == Normalised(data[n]))
  {
    hide AllPlans, ApplyAll, Repaired, Targets, FixOne, Handled, Untouched, CreatedBy, DroppedBy, Normalised;
    var plans := AllPlans(data, order, parse);
    var mid := ApplyAll(data, plans);
    EndOf(data, order, parse, n);
    ApplyCases(data, plans, n);
    if CreatedBy(plans, n, mid[n]) {
      CreatedHas(plans, n, mid[n]);
    } else {
      UntouchedIsFixed(data, plans, n);
    }
  }

  lemma CreatedHas(plans: seq<Plan>, n: string, e: Entry)
    requires CreatedBy(plans, n, e)
    ensures exists p, c :: p in plans && c in p.creates && c.0 == n && c.1 == e
  {
    var p :| p in plans && (n, e) in p.creates;
    var c := (n, e);
    assert c in p.creates && c.0 == n && c.1 == e;
  }

  lemma UntouchedIsFixed(data: Data, plans: seq<Plan>, n: string)
    requires n in data && Untouched(plans, n)
    ensures FixOne(data, plans, n, data[n]) == Normalised(data[n])
  {
    hide Targets;
    assert n !in Handled(plans);
  }

  lemma FixOneIsHarmless(data: Data, plans: seq<Plan>, n: string, e: Entry)
    ensures var f := FixOne(data, plans, n, e);
            && (Broken(n, f) <==> Broken(n, e)) && Field(f, "pkgbuild_dir") == Field(e, "pkgbuild_dir")
            && (!Legacy(e) ==> !Legacy(f))
  {
  }

  lemma NormalisedIsHarmless(n: string, e: Entry)
    ensures (Broken(n, Normalised(e)) <==> Broken(n, e))
    ensures Field(Normalised(e), "pkgbuild_dir") == Field(e, "pkgbuild_dir") && !Legacy(Normalised(e))
  {
  }

  lemma PlansAreSound(data: Data, order: seq<string>, parse: Pkgbuilds, p: Plan, c: (string, Entry))
    requires p in AllPlans(data, order, parse) && c in p.creates
    ensures Sound(data, GroupOf(data, order, p.dir), p.dir, c)
  {
    PlanOfDir(data, order, parse, p);
    hide AllPlans, Sound, VerdictOn;
    PlanIsSound(data, GroupOf(data, order, p.dir), p.dir, parse, c);
  }

  /** An unexpanded variable is left only in a group that was reported skipped,
      and no retired build_mode is left anywhere. */
  lemma RepairLeavesOnlySkipped(data: Data, order: seq<string>, parse: Pkgbuilds, n: string)
    requires Elems(order) == data.Keys && n in Repaired(data, order, parse)
    ensures var end := Repaired(data, order, parse);
            && !Legacy(end[n])
            && (Broken(n, end[n]) ==>
                n in data && Dir(end, n) == Dir(data, n) && Skipped(data, order, Dir(data, n), parse))
  {
    var plans, end := AllPlans(data, order, parse), Repaired(data, order, parse);
    EndCases(data, order, parse, n);
    hide AllPlans, Repaired, Broken, Legacy, FixOne, Normalised;
    if p, c :| p in plans && c in p.creates && c.0 == n && end[n] == FixOne(data, plans, n, c.1) {
      PlansAreSound(data, order, parse, p, c);
      FixOneIsHarmless(data, plans, n, c.1);
    } else {
      NormalisedIsHarmless(n, data[n]);
      if Broken(n, data[n]) {
        assert n in Elems(order);
        BrokenIsPlanned(data, order, parse, n);
      }
    }
  }

  lemma {:induction false} NoPlans(data: Data, order: seq<string>, dirs: seq<string>, parse: Pkgbuilds)
    requires forall d :: d in dirs ==> !VerdictOn(data, GroupOf(data, order, d), d, parse).Planned?
    ensures PlansOf(data, order, dirs, parse) == []
  {
    hide VerdictOn, GroupOf;
    if dirs != [] {
      NoPlans(data, order, dirs[..|dirs| - 1], parse);
    }
  }

  /** Whether a broken group is skipped depends on its directory alone. */
  lemma SkippedStays(data: Data, group: seq<string>, later: Data, group': seq<string>, dir: string, parse: Pkgbuilds)
    requires VerdictOn(data, group, dir, parse).NotFound? || VerdictOn(data, group, dir, parse).Unresolvable?
    ensures !VerdictOn(later, group', dir, parse).Planned?
  {
  }

  /** What the file holds after a repair: it is written only if there was
      something to do. */
  function RepairedFile(s: Store, order: seq<string>, parse: Pkgbuilds): Store {
    var plans := AllPlans(s.data, order, parse);
    if plans == [] && FixesOf(s.data, order, plans) == [] then s
    else Saved(Store(Repaired(s.data, order, parse), s.reverted))
  }

  lemma WrittenIsHarmless(n: string, e: Entry)
    ensures var w := Written(e);
            (Broken(n, w) <==> Broken(n, e)) && Field(w, "pkgbuild_dir") == Field(e, "pkgbuild_dir")
                && (Legacy(w) <==> Legacy(e))
  {
    hide HasVar;
    assert Field(Written(e), "pkgbase") == Field(e, "pkgbase") && Field(Written(e), "pkgver") == Field(e, "pkgver");
    assert Field(Written(e), "pkgrel") == Field(e, "pkgrel") && Field(Written(e), "epoch") == Field(e, "epoch");
  }

  /** In the file after a repair, loaded again, a `$` is left only in a group whose
      PKGBUILD cannot be resolved, and no retired build_mode anywhere. */
  lemma FileLeavesOnlySkipped(s: Store, order: seq<string>, parse: Pkgbuilds, n: string)
    requires Elems(order) == s.data.Keys && n in RepairedFile(s, order, parse).data
    ensures var end := RepairedFile(s, order, parse).data;
            && ("build_mode" in end[n] ==> end[n]["build_mode"] == Current(end[n]["build_mode"]))
            && (Unexpanded(n, end[n]) ==>
                n in s.data && Dir(end, n) == Dir(s.data, n) && !Resolvable(Dir(s.data, n), parse))
  {
    var end := RepairedFile(s, order, parse).data;
    var d := Dir(s.data, n);
    FileLeavesSkipped(s, order, parse, n);
    NormalisedMeans(end[n]);
    BrokenMeans(n, end[n]);
    hide RepairedFile, Unexpanded, Broken, VerdictOn, GroupOf, Resolvable;
    VerdictMeans(s.data, GroupOf(s.data, order, d), d, parse);
  }

  lemma FileLeavesSkipped(s: Store, order: seq<string>, parse: Pkgbuilds, n: string)
    requires Elems(order) == s.data.Keys && n in RepairedFile(s, order, parse).data
    ensures var end := RepairedFile(s, order, parse).data;
            && !Legacy(end[n])
            && (Broken(n, end[n]) ==>
                n in s.data && Dir(end, n) == Dir(s.data, n) && Skipped(s.data, order, Dir(s.data, n), parse))
  {
    var end := Repaired(s.data, order, parse);
    if AllPlans(s.data, order, parse) == [] && FixesOf(s.data, order, []) == [] {
      RepairedFrom(s.data, order, parse);
    }
    hide AllPlans, FixesOf, Repaired, Broken, Legacy, Field, Written, Skipped;
    RepairLeavesOnlySkipped(s.data, order, parse, n);
    WrittenIsHarmless(n, end[n]);
  }

  /** A second repair finds nothing to do, whatever order it reads the file in. */
  lemma SecondRepairIsIdle(s: Store, order: seq<string>, parse: Pkgbuilds, order': seq<string>)
    requires Elems(order) == s.data.Keys && Elems(order') == RepairedFile(s, order, parse).data.Keys
    ensures var end := RepairedFile(s, order, parse);
            AllPlans(end.data, order', parse) == [] && FixesOf(end.data, order', []) == []
                && RepairedFile(end, order', parse) == end
  {
    var end := RepairedFile(s, order, parse).data;
    forall d ensures !VerdictOn(end, GroupOf(end, order', d), d, parse).Planned? {
      NothingLeftToPlan(s, order, parse, order', d);
    }
    NoPlans(end, order', SortedOf(multiset(DirsOf(end, order'))), parse);
    forall n | n in order' ensures !Legacy(Rec(end, n)) {
      assert n in Elems(order');
      FileLeavesSkipped(s, order, parse, n);
    }
    FilterNone(Stale(end, Handled([])), order');
  }

  lemma {:induction false} FilterNone(keep: string -> bool, s: seq<string>)
    requires forall x :: x in s ==> !keep(x)
    ensures Filter(keep, s) == []
  {
    if s != [] {
      FilterNone(keep, s[1..]);
    }
  }

  lemma RepairedFrom(data: Data, order: seq<string>, parse: Pkgbuilds)
    requires AllPlans(data, order, parse) == [] && FixesOf(data, order, []) == []
    ensures Repaired(data, order, parse) == data
  {
    hide AllPlans, FixesOf;
  }

  lemma NothingLeftToPlan(s: Store, order: seq<string>, parse: Pkgbuilds, order': seq<string>, d: string)
    requires Elems(order) == s.data.Keys && Elems(order') == RepairedFile(s, order, parse).data.Keys
    ensures var end := RepairedFile(s, order, parse).data; !VerdictOn(end, GroupOf(end, order', d), d, parse).Planned?
  {
    var end := RepairedFile(s, order, parse).data;
    var group := GroupOf(end, order', d);
    var broken := Filter(IsBroken(end), group);
    if broken == [] {
      assert VerdictOn(end, group, d, parse).Intact?;
    } else {
      var n := broken[0];
      assert n in broken;
      assert n in group && Dir(end, n) == d && Broken(n, Rec(end, n));
      assert n in Elems(order');
      hide RepairedFile, VerdictOn, Filter, Broken, IsBroken;
      FileLeavesSkipped(s, order, parse, n);
      SkippedStays(s.data, GroupOf(s.data, order, d), end, group, d, parse);
    }
  }

  // ---------------------------------------------------------------------
  // The exact result, for distinct targets
  // ---------------------------------------------------------------------

  /** Repair targets are distinct, and a target that is already recorded is
      recorded under the directory it is rebuilt from. */
  ghost predicate Separate(data: Data, order: seq<string>, parse: Pkgbuilds) {
    var plans := AllPlans(data, order, parse);
    && Elems(order) == data.Keys
    && (forall p, q, c, d :: p in plans && q in plans && c in p.creates && d in q.creates && c.0 == d.0 ==>
        p == q && c == d)
    && (forall p, c :: p in plans && c in p.creates && c.0 in data ==> Dir(data, c.0) == p.dir)
  }

  /** Only entries of its own directory are dropped by a plan. */
  lemma DropsOwn(data: Data, order: seq<string>, parse: Pkgbuilds, p: Plan, n: string)
    requires Elems(order) == data.Keys && p in AllPlans(data, order, parse)
    ensures n in p.deletes <==>
            n in data && Dir(data, n) == p.dir
                && (n in Targets(p.creates) || Broken(n, data[n]) || Field(data[n], "origin_pkgbase") == "")
  {
    PlanOfDir(data, order, parse, p);
    var group := GroupOf(data, order, p.dir);
    assert n in group <==> n in order && Dir(data, n) == p.dir;
    assert n in order <==> n in Elems(order);
    hide AllPlans, VerdictOn, Targets, Broken, GroupOf;
    PlanDeletes(data, group, p.dir, parse, n);
  }

  lemma OnePlanPerDir(data: Data, order: seq<string>, parse: Pkgbuilds, p: Plan, q: Plan)
    requires p in AllPlans(data, order, parse) && q in AllPlans(data, order, parse) && p.dir == q.dir
    ensures p == q
  {
    PlanOfDir(data, order, parse, p);
    PlanOfDir(data, order, parse, q);
  }

  /** Every target ends up with the record its plan made for it. */
  lemma TargetsAreRebuilt(data: Data, order: seq<string>, parse: Pkgbuilds, p: Plan, c: (string, Entry))
    requires Separate(data, order, parse) && p in AllPlans(data, order, parse) && c in p.creates
    ensures Get(Repaired(data, order, parse), c.0) == Some(c.1)
  {
    var plans, n := AllPlans(data, order, parse), c.0;
    assert !Untouched(plans, n) by {
      assert n in Targets(p.creates);
    }
    hide *;
    forall i | 0 <= i < |plans| ensures !DroppedBy(plans, i, n) {
      TargetIsNotDropped(data, order, parse, p, c, i);
    }
    ApplyCases(data, plans, n);
    MadeOnce(data, order, parse, p, c);
  }

  lemma MadeOnce(data: Data, order: seq<string>, parse: Pkgbuilds, p: Plan, c: (string, Entry))
    requires Separate(data, order, parse) && p in AllPlans(data, order, parse) && c in p.creates
    requires var mid := Get(ApplyAll(data, AllPlans(data, order, parse)), c.0);
             mid.Some? && CreatedBy(AllPlans(data, order, parse), c.0, mid.value)
    ensures Get(Repaired(data, order, parse), c.0) == Some(c.1)
  {
    var plans, n := AllPlans(data, order, parse), c.0;
    assert Elems(order) == data.Keys;
    hide AllPlans, ApplyAll, Repaired, Broken, Handled, Legacy, CreatedBy, Normalised, Separate;
    SameTarget(data, order, parse, p, c, Get(ApplyAll(data, plans), n).value);
    if n in data {
      TargetIsHandled(data, order, parse, p, c);
    }
    EndOf(data, order, parse, n);
    if n !in data {
      assert Rec(data, n) == map[];
      NotLegacy();
    }
  }

  lemma NotLegacy()
    ensures !Legacy(map[])
  {
  }

  lemma SameTarget(data: Data, order: seq<string>, parse: Pkgbuilds, p: Plan, c: (string, Entry), e: Entry)
    requires Separate(data, order, parse) && p in AllPlans(data, order, parse) && c in p.creates
    requires CreatedBy(AllPlans(data, order, parse), c.0, e)
    ensures e == c.1
  {
    hide AllPlans;
    var q :| q in AllPlans(data, order, parse) && (c.0, e) in q.creates;
    var d := (c.0, e);
    assert d in q.creates && d.0 == c.0;
  }

  lemma TargetIsHandled(data: Data, order: seq<string>, parse: Pkgbuilds, p: Plan, c: (string, Entry))
    requires Separate(data, order, parse) && p in AllPlans(data, order, parse) && c in p.creates && c.0 in data
    ensures c.0 in Handled(AllPlans(data, order, parse))
  {
    assert c.0 in Targets(p.creates);
    hide AllPlans, Broken, Targets;
    DropsOwn(data, order, parse, p, c.0);
  }

  lemma TargetIsNotDropped(data: Data, order: seq<string>, parse: Pkgbuilds, p: Plan, c: (string, Entry), i: nat)
    requires Separate(data, order, parse) && p in AllPlans(data, order, parse) && c in p.creates
    requires i < |AllPlans(data, order, parse)|
    ensures !DroppedBy(AllPlans(data, order, parse), i, c.0)
  {
    var q := AllPlans(data, order, parse)[i];
    assert c.0 in Targets(p.creates);
    hide AllPlans, Broken, Targets;
    DropsOwn(data, order, parse, q, c.0);
    if c.0 in q.deletes {
      OnePlanPerDir(data, order, parse, p, q);
    }
  }

  /** Everything no plan drops stays, but for a retired build_mode. */
  lemma UnplannedStays(data: Data, order: seq<string>, parse: Pkgbuilds, n: string)
    requires Separate(data, order, parse) && n in data && n !in Handled(AllPlans(data, order, parse))
    ensures Get(Repaired(data, order, parse), n) == Some(Normalised(data[n]))
  {
    var plans := AllPlans(data, order, parse);
    var mid := ApplyAll(data, plans);
    assert Elems(order) == data.Keys;
    hide *;
    FixedIsThere(data, plans, n);
    NotCreated(data, order, parse, n, mid[n]);
    ApplyCases(data, plans, n);
    NotDropped(plans, n);
    StaysAsItWas(data, order, parse, n);
  }

  lemma NotDropped(plans: seq<Plan>, n: string)
    requires n !in Handled(plans)
    ensures forall i :: !DroppedBy(plans, i, n)
  {
    hide Targets;
    forall i | 0 <= i < |plans| ensures n !in plans[i].deletes {
      assert plans[i] in plans;
    }
  }

  lemma NotCreated(data: Data, order: seq<string>, parse: Pkgbuilds, n: string, e: Entry)
    requires Separate(data, order, parse) && n in data && n !in Handled(AllPlans(data, order, parse))
    ensures !CreatedBy(AllPlans(data, order, parse), n, e)
  {
    var plans := AllPlans(data, order, parse);
    hide AllPlans, Broken;
    forall p | p in plans ensures (n, e) !in p.creates {
      DropsOwn(data, order, parse, p, n);
      CreatedTarget(p.creates, n, e);
    }
  }

  lemma CreatedTarget(creates: seq<(string, Entry)>, n: string, e: Entry)
    ensures (n, e) in creates ==> n in Targets(creates)
  {
  }

  lemma StaysAsItWas(data: Data, order: seq<string>, parse: Pkgbuilds, n: string)
    requires Elems(order) == data.Keys && n in data && n !in Handled(AllPlans(data, order, parse))
    requires BuildStates.Get(ApplyAll(data, AllPlans(data, order, parse)), n) == BuildStates.Get(data, n)
    ensures BuildStates.Get(Repaired(data, order, parse), n) == Some(Normalised(data[n]))
  {
    hide AllPlans, ApplyAll, Repaired, Handled;
    EndOf(data, order, parse, n);
  }

  /** What a plan drops and does not make anew is gone. */
  lemma DroppedIsGone(data: Data, order: seq<string>, parse: Pkgbuilds, p: Plan, n: string)
    requires Separate(data, order, parse) && p in AllPlans(data, order, parse) && n in p.deletes
    requires n !in Targets(p.creates)
    ensures n !in Repaired(data, order, parse)
  {
    var plans := AllPlans(data, order, parse);
    EndOf(data, order, parse, n);
    ApplyCases(data, plans, n);
    hide AllPlans, ApplyAll, Repaired, Broken;
    DropsOwn(data, order, parse, p, n);
    forall q, c | q in plans && c in q.creates ensures c.0 != n {
      if Dir(data, n) == q.dir {
        OnePlanPerDir(data, order, parse, p, q);
        assert c.0 in Targets(p.creates);
      }
    }
  }

  /** A group with nothing broken changes only in retired build_modes. */
  lemma IntactGroupsStay(data: Data, order: seq<string>, parse: Pkgbuilds, n: string)
    requires Separate(data, order, parse) && n in data
    requires !VerdictOn(data, GroupOf(data, order, Dir(data, n)), Dir(data, n), parse).Planned?
    ensures Get(Repaired(data, order, parse), n) == Some(Normalised(data[n]))
  {
    var plans := AllPlans(data, order, parse);
    forall p | p in plans ensures n !in p.deletes {
      DropsOwn(data, order, parse, p, n);
      PlanOfDir(data, order, parse, p);
    }
    hide *;
    UnplannedStays(data, order, parse, n);
  }

  /** Something recorded under the directory is unexpanded, and its PKGBUILD resolves. */
  ghost predicate Repairs(data: Data, dir: string, parse: Pkgbuilds) {
    Resolvable(dir, parse) && exists n :: n in data && Dir(data, n) == dir && Unexpanded(n, data[n])
  }

  lemma RepairsIsPlanned(data: Data, order: seq<string>, dir: string, parse: Pkgbuilds)
    requires Elems(order) == data.Keys
    ensures VerdictOn(data, GroupOf(data, order, dir), dir, parse).Planned? <==> Repairs(data, dir, parse)
  {
    var group := GroupOf(data, order, dir);
    VerdictMeans(data, group, dir, parse);
    assert forall n :: n in group <==> n in data && Dir(data, n) == dir by {
      assert forall n :: n in order <==> n in Elems(order);
    }
    hide VerdictOn, Resolvable, Unexpanded, GroupOf, Dir;
    assert forall n :: n in data ==> Rec(data, n) == data[n];
  }

  /** A key that no plan makes anew keeps its record, in the tokens of today,
      exactly if its directory is not repaired, or if it is expanded and renamed. */
  lemma StaysIff(data: Data, order: seq<string>, parse: Pkgbuilds, n: string)
    requires Separate(data, order, parse) && n in data
    requires forall p :: p in AllPlans(data, order, parse) ==> n !in Targets(p.creates)
    ensures var end := Repaired(data, order, parse);
            && (n in end <==> !Repairs(data, Dir(data, n), parse)
                              || (!Unexpanded(n, data[n]) && Field(data[n], "origin_pkgbase") != ""))
            && (n in end ==> Modernised(data[n], end[n]))
  {
    hide *;
    var dir := Dir(data, n);
    var v := VerdictOn(data, GroupOf(data, order, dir), dir, parse);
    SeparateOrder(data, order, parse);
    RepairsIsPlanned(data, order, dir, parse);
    BrokenMeans(n, data[n]);
    if v.Planned? {
      PlanIsThere(data, order, parse, dir);
      DropsOwn(data, order, parse, v.plan, n);
    }
    if v.Planned? && n in v.plan.deletes {
      DroppedIsGone(data, order, parse, v.plan, n);
    } else {
      NotHandledBy(data, order, parse, n);
      UnplannedStays(data, order, parse, n);
      GetOf(Repaired(data, order, parse), n);
      NormalisedMeans(data[n]);
    }
  }

  lemma SeparateOrder(data: Data, order: seq<string>, parse: Pkgbuilds)
    requires Separate(data, order, parse)
    ensures Elems(order) == data.Keys
  {
    hide AllPlans;
  }

  lemma PlanIsThere(data: Data, order: seq<string>, parse: Pkgbuilds, dir: string)
    requires VerdictOn(data, GroupOf(data, order, dir), dir, parse).Planned?
    ensures var p := VerdictOn(data, GroupOf(data, order, dir), dir, parse).plan;
            p in AllPlans(data, order, parse) && p.dir == dir
  {
    var group := GroupOf(data, order, dir);
    PlannedFor(data, group, dir, parse);
    BrokenInGroup(data, order, dir);
    hide VerdictOn, AllPlans, GroupOf, DirsOf;
    PlanOfDir(data, order, parse, VerdictOn(data, group, dir, parse).plan);
  }

  lemma BrokenInGroup(data: Data, order: seq<string>, dir: string)
    requires Filter(IsBroken(data), GroupOf(data, order, dir)) != []
    ensures dir in DirsOf(data, order)
  {
    var n := Filter(IsBroken(data), GroupOf(data, order, dir))[0];
    assert n in Filter(IsBroken(data), GroupOf(data, order, dir));
    assert n in GroupOf(data, order, dir);
  }

  lemma NotHandledBy(data: Data, order: seq<string>, parse: Pkgbuilds, n: string)
    requires Elems(order) == data.Keys && n in data
    requires var v := VerdictOn(data, GroupOf(data, order, Dir(data, n)), Dir(data, n), parse);
             v.Planned? ==> n !in v.plan.deletes
    ensures n !in Handled(AllPlans(data, order, parse))
  {
    var plans := AllPlans(data, order, parse);
    hide AllPlans, VerdictOn, GroupOf, Dir, Broken, Targets;
    forall p | p in plans ensures n !in p.deletes {
      PlanOfDir(data, order, parse, p);
      DropsOwn(data, order, parse, p, n);
    }
  }

  /** Every entry after a repair has one old entry of its directory behind it:
      itself, or the one whose fields a created record carries. */
  lemma ProvenanceIsKept(data: Data, order: seq<string>, parse: Pkgbuilds, n: string)
    requires Separate(data, order, parse) && n in Repaired(data, order, parse)
    ensures var end := Repaired(data, order, parse);
            || (n in data && end[n] == Normalised(data[n]))
            || exists s :: s in data && Dir(data, s) == Dir(end, n) && CarriedFrom(data[s], end[n])
  {
    var plans, end := AllPlans(data, order, parse), Repaired(data, order, parse);
    EndCases(data, order, parse, n);
    hide AllPlans, Repaired, Broken, Legacy, CarriedFrom, FixOne, Normalised;
    if p, c :| p in plans && c in p.creates && c.0 == n {
      TargetsAreRebuilt(data, order, parse, p, c);
      PlansAreSound(data, order, parse, p, c);
      SoundSource(data, order, p.dir, c);
    }
  }

  lemma SoundSource(data: Data, order: seq<string>, dir: string, c: (string, Entry))
    requires Sound(data, GroupOf(data, order, dir), dir, c) && Elems(order) == data.Keys
    ensures exists s :: s in data && Dir(data, s) == dir && CarriedFrom(data[s], c.1)
  {
    hide CarriedFrom;
    var s :| s in GroupOf(data, order, dir) && CarriedFrom(Rec(data, s), c.1);
    assert s in Elems(order);
  }

  /** A member that is on record, under its own name or else under its renamed
      one, is rebuilt under that name: with the version and pkgbase of the
      PKGBUILD and every other field of its own old entry. */
  lemma MemberIsRebuilt(data: Data, order: seq<string>, parse: Pkgbuilds, p: Plan, name: string, own: string)
    requires Separate(data, order, parse) && p in AllPlans(data, order, parse)
    requires parse(p.dir).Parsed? && name in parse(p.dir).globals.names
    requires own in GroupOf(data, order, p.dir)
    requires (own == name || (own == name + SUFFIX && name !in GroupOf(data, order, p.dir)))
    ensures var end, id := Repaired(data, order, parse), Expected(parse(p.dir).globals);
            && own in data && own in end && CarriedFrom(data[own], end[own]) && Renewed(id, end[own])
            && (own == name ==> Field(end[own], "pkgbase") == id.pkgbase)
  {
    var group, id := GroupOf(data, order, p.dir), Expected(parse(p.dir).globals);
    OwnIsOnRecord(data, order, p.dir, own);
    PlanOfDir(data, order, parse, p);
    MemberHasRecord(data, group, p.dir, parse, name, own);
    var c :| c in p.creates && c.0 == own && CarriedFrom(Rec(data, own), c.1) && Renewed(id, c.1)
        && (own == name ==> Field(c.1, "pkgbase") == id.pkgbase);
    hide *;
    TargetsAreRebuilt(data, order, parse, p, c);
    RecOf(data, own);
    GetOf(Repaired(data, order, parse), own);
  }

  lemma RecOf(data: Data, n: string)
    ensures n in data ==> Rec(data, n) == data[n]
  {
  }

  lemma GetOf(data: Data, n: string)
    ensures BuildStates.Get(data, n).Some? ==> n in data && data[n] == BuildStates.Get(data, n).value
  {
  }

  lemma OwnIsOnRecord(data: Data, order: seq<string>, dir: string, own: string)
    requires Elems(order) == data.Keys && own in GroupOf(data, order, dir)
    ensures own in data
  {
    assert own in Elems(order);
  }

  lemma MemberHasRecord(data: Data, group: seq<string>, dir: string, parse: Pkgbuilds, name: string, own: string)
    requires VerdictOn(data, group, dir, parse).Planned? && parse(dir).Parsed? && name in parse(dir).globals.names
    requires own in group && (own == name || (own == name + SUFFIX && name !in group))
    ensures var id := Expected(parse(dir).globals);
            exists c :: c in VerdictOn(data, group, dir, parse).plan.creates && c.0 == own
                && CarriedFrom(Rec(data, own), c.1) && Renewed(id, c.1)
                        && (own == name ==> Field(c.1, "pkgbase") == id.pkgbase)
  {
    PlannedFor(data, group, dir, parse);
    hide VerdictOn, Expanded, Rebuilt, CarriedFrom, Renewed, Filter, Broken, Field;
    var id := Expected(parse(dir).globals);
    var i :| 0 <= i < |id.names| && id.names[i] == name;
    var c := CreateOne(data, group, id, dir, name);
    assert Creates(data, group, id, dir)[i] == c && c in Creates(data, group, id, dir);
    var renamed := Renamed(data, group, name);
    assert c == (own, Rebuilt(Rec(data, own), id, renamed, dir));
    CreatedFromOwn(data, group, id, dir, name, own, renamed);
  }

  lemma CreatedFromOwn(data: Data, group: seq<string>, id: Identity, dir: string, name: string, own: string,
                       renamed: bool)
    requires Expanded(id) && name in id.names && (own == name ==> !renamed)
    ensures var e := Rebuilt(Rec(data, own), id, renamed, dir);
            CarriedFrom(Rec(data, own), e) && Renewed(id, e) && (own == name ==> Field(e, "pkgbase") == id.pkgbase)
  {
    hide Rebuilt, CarriedFrom, Renewed, Field, Broken;
    RebuiltIsSound(Rec(data, own), id, renamed, dir, name);
    IdentityIsRenewed(Rec(data, own), id, renamed, dir);
  }
}
