/** `cmd_state_repair` as it runs: plans are collected in loops, then applied to
    the state file in place. */
module StateRepairRun {
  import opened Prelude
  import opened BuildStates
  import opened StateRepair

  datatype Report = Report(plans: seq<Plan>, fixes: seq<string>, notFound: seq<string>, unresolvable: seq<string>)

  function MissedIn(data: Data, order: seq<string>, dirs: seq<string>, parse: Pkgbuilds, missing: bool): seq<string> {
    if dirs == [] then []
    else
      var k := |dirs| - 1;
      var v := VerdictOn(data, GroupOf(data, order, dirs[k]), dirs[k], parse);
      MissedIn(data, order, dirs[..k], parse, missing) + if (if missing then v.NotFound? else v.Unresolvable?)
          then [dirs[k]] else []
  }

  /** One more entry to group. */
  lemma GroupNext(data: Data, order: seq<string>, i: nat)
    requires i < |order|
    ensures forall dir ::
        GroupOf(data, order[..i + 1], dir) == GroupOf(data, order[..i], dir) + if Dir(data, order[i]) == dir
            then [order[i]] else []
    ensures DirsOf(data, order[..i + 1]) == DirsOf(data, order[..i]) + {Dir(data, order[i])}
  {
    assert order[..i + 1] == order[..i] + [order[i]];
    hide Filter, Dir;
    forall dir ensures GroupOf(data, order[..i + 1], dir) == GroupOf(data, order[..i], dir) + if Dir(data, order[i])
        == dir then [order[i]] else [] {
      FilterNext(InDir(data, dir), order, i);
    }
  }

  lemma GroupStart(data: Data, order: seq<string>)
    ensures DirsOf(data, order[..0]) == {} && order[..|order|] == order
    ensures forall d :: GroupOf(data, order[..0], d) == []
  {
  }

  /** The entries grouped by their pkgbuild_dir. */
  method GroupByDir(data: Data, order: seq<string>) returns (byDir: map<string, seq<string>>)
    ensures byDir.Keys == DirsOf(data, order)
    ensures forall d :: d in byDir ==> byDir[d] == GroupOf(data, order, d)
    ensures forall d :: d in byDir <==> exists n :: n in order && LiesIn(data, n, d)
    ensures forall d :: d in byDir ==>
              InOrderOf(byDir[d], order) && forall n :: n in byDir[d] <==> n in order && LiesIn(data, n, d)
  {
    hide *;
    byDir := map[];
    GroupStart(data, order);
    for i := 0 to |order|
      invariant byDir.Keys == DirsOf(data, order[..i])
      invariant forall d :: GroupOf(data, order[..i], d) == if d in byDir then byDir[d] else []
    {
      var d := Dir(data, order[i]);
      GroupNext(data, order, i);
      byDir := byDir[d := (if d in byDir then byDir[d] else []) + [order[i]]];
    }
    forall d
      ensures d in byDir <==> exists n :: n in order && LiesIn(data, n, d)
      ensures d in byDir ==>
          InOrderOf(byDir[d], order) && forall n :: n in byDir[d] <==> n in order && LiesIn(data, n, d)
    {
      GroupMeans(data, order, d);
    }
  }

  /** `d` is what the record of `n` names as its directory, or "" if it names none. */
  ghost predicate LiesIn(data: Data, n: string, d: string) {
    if n in data && "pkgbuild_dir" in data[n] && data[n]["pkgbuild_dir"].Str? then data[n]["pkgbuild_dir"].s == d
    else d == ""
  }

  lemma GroupMeans(data: Data, order: seq<string>, d: string)
    ensures d in DirsOf(data, order) <==> exists n :: n in order && LiesIn(data, n, d)
    ensures InOrderOf(GroupOf(data, order, d), order)
    ensures forall n :: n in GroupOf(data, order, d) <==> n in order && LiesIn(data, n, d)
  {
    forall n ensures LiesIn(data, n, d) <==> Dir(data, n) == d {
    }
    FilterInOrder(InDir(data, d), order);
    hide Dir, LiesIn, InOrderOf;
  }

  method CreateRecords(data: Data, group: seq<string>, id: Identity, dir: string)
    returns (creates: seq<(string, Entry)>)
    requires Filter(IsBroken(data), group) != []
    ensures creates == Creates(data, group, id, dir)
    ensures |creates| == |id.names|
    ensures forall i :: 0 <= i < |creates| ==> ReplacesOne(data, group, id, dir, id.names[i], creates[i])
  {
    hide ReplacesOne, Rebuilt, IsBroken, Filter, Rec;
    creates := [];
    for i := 0 to |id.names|
      invariant |creates| == i && forall j :: 0 <= j < i ==> creates[j] == CreateOne(data, group, id, dir, id.names[j])
    {
      var name := id.names[i];
      var src := if name in group then name else if name + SUFFIX in group then name + SUFFIX
          else Filter(IsBroken(data), group)[0];
      var renamed := name !in group && (name + SUFFIX in group || Field(Rec(data, src), "origin_pkgbase") != "");
      var target := if renamed then name + SUFFIX else name;
      creates := creates + [(target, Rebuilt(Rec(data, src), id, renamed, dir))];
    }
    forall i | 0 <= i < |creates| ensures ReplacesOne(data, group, id, dir, id.names[i], creates[i]) {
      CreateReplaces(data, group, id, dir, id.names[i]);
    }
  }

  method Judge(data: Data, group: seq<string>, dir: string, parse: Pkgbuilds) returns (v: Verdict)
    ensures v == VerdictOn(data, group, dir, parse)
    ensures v.Intact? <==> !AnyUnexpanded(data, group)
    ensures v.NotFound? <==> AnyUnexpanded(data, group) && NoSource(dir, parse)
    ensures v.Unresolvable? <==> AnyUnexpanded(data, group) && !NoSource(dir, parse) && !Resolvable(dir, parse)
    ensures v.Planned? <==> AnyUnexpanded(data, group) && Resolvable(dir, parse)
  {
    VerdictMeans(data, group, dir, parse);
    hide AnyUnexpanded, NoSource, Resolvable, IsBroken, Filter, Expanded;
    if Filter(IsBroken(data), group) == [] {
      return Intact;
    }
    if dir == "" || parse(dir).Missing? {
      return NotFound;
    }
    if parse(dir).Failed? || parse(dir).globals.names == [] {
      return Unresolvable;
    }
    var id := Expected(parse(dir).globals);
    if !Expanded(id) {
      return Unresolvable;
    }
    var creates := CreateRecords(data, group, id, dir);
    var targets := Targets(creates);
    return Planned(Plan(dir, Filter(Dropped(data, targets), group) + Filter(Within(targets), group), creates));
  }

  lemma PlanNext(data: Data, order: seq<string>, dirs: seq<string>, parse: Pkgbuilds, i: nat)
    requires i < |dirs|
    ensures var v := VerdictOn(data, GroupOf(data, order, dirs[i]), dirs[i], parse);
            && PlansOf(data, order, dirs[..i + 1], parse)
                == PlansOf(data, order, dirs[..i], parse) + (if v.Planned? then [v.plan] else [])
            && MissedIn(data, order, dirs[..i + 1], parse, true)
                == MissedIn(data, order, dirs[..i], parse, true) + (if v.NotFound? then [dirs[i]] else [])
            && MissedIn(data, order, dirs[..i + 1], parse, false)
                == MissedIn(data, order, dirs[..i], parse, false) + (if v.Unresolvable? then [dirs[i]] else [])
  {
    hide VerdictOn, GroupOf;
    assert dirs[..i + 1][..i] == dirs[..i];
  }

  lemma PlanStart(data: Data, order: seq<string>, dirs: seq<string>, parse: Pkgbuilds)
    requires dirs == SortedOf(multiset(DirsOf(data, order)))
    ensures dirs[..|dirs|] == dirs && forall i :: 0 <= i < |dirs| ==> dirs[i] in DirsOf(data, order)
    ensures PlansOf(data, order, dirs[..0], parse) == []
    ensures PlansOf(data, order, dirs, parse) == AllPlans(data, order, parse)
    ensures MissedIn(data, order, dirs[..0], parse, true) == [] && MissedIn(data, order, dirs[..0], parse, false) == []
  {
    SortedOfSet(DirsOf(data, order));
    hide DirsOf, SortedOf, VerdictOn;
    forall i | 0 <= i < |dirs| ensures dirs[i] in DirsOf(data, order) {
      assert dirs[i] in Elems(dirs);
    }
  }

  function PlanDirs(plans: seq<Plan>): (r: seq<string>)
    ensures |r| == |plans| && forall i :: 0 <= i < |r| ==> r[i] == plans[i].dir
  {
    seq(|plans|, i requires 0 <= i < |plans| => plans[i].dir)
  }

  lemma PlanDirsNext(plans: seq<Plan>, p: Plan)
    ensures PlanDirs(plans + [p]) == PlanDirs(plans) + [p.dir] && PlanDirs([]) == []
  {
  }

  lemma PlannedDir(data: Data, order: seq<string>, dir: string, parse: Pkgbuilds)
    ensures var v := VerdictOn(data, GroupOf(data, order, dir), dir, parse); v.Planned? ==> v.plan.dir == dir
  {
    if VerdictOn(data, GroupOf(data, order, dir), dir, parse).Planned? {
      PlannedFor(data, GroupOf(data, order, dir), dir, parse);
    }
  }

  /** Each list has the order of the directories. */
  lemma {:induction false} PlansInOrder(data: Data, order: seq<string>, dirs: seq<string>, parse: Pkgbuilds, n: nat)
    requires n <= |dirs| && dirs == SortedOf(multiset(DirsOf(data, order)))
    ensures InOrderOf(PlanDirs(PlansOf(data, order, dirs[..n], parse)), dirs[..n])
    ensures InOrderOf(MissedIn(data, order, dirs[..n], parse, true), dirs[..n])
    ensures InOrderOf(MissedIn(data, order, dirs[..n], parse, false), dirs[..n])
  {
    hide *;
    NothingInOrder<string>();
    PlanStart(data, order, dirs, parse);
    PlanDirsNext([], Plan("", [], []));
    assert dirs[..0] == [];
    if n > 0 {
      var init, last := dirs[..n - 1], dirs[n - 1];
      var plans, v := PlansOf(data, order, init, parse), VerdictOn(data, GroupOf(data, order, last), last, parse);
      PlansInOrder(data, order, dirs, parse, n - 1);
      PlanNext(data, order, dirs, parse, n - 1);
      assert dirs[..n] == init + [last];
      InOrderNext(PlanDirs(plans), init, last);
      InOrderNext(MissedIn(data, order, init, parse, true), init, last);
      InOrderNext(MissedIn(data, order, init, parse, false), init, last);
      assert plans + [] == plans && dirs[..n - 1 + 1] == dirs[..n];
      assert forall s: seq<string> :: s + [] == s;
      if v.Planned? {
        PlanDirsNext(plans, v.plan);
        PlannedDir(data, order, last, parse);
      }
    }
  }

  /** Pass 1, over the directories in ascending order. */
  method PlanAll(data: Data, order: seq<string>, parse: Pkgbuilds)
    returns (plans: seq<Plan>, notFound: seq<string>, unresolvable: seq<string>)
    ensures plans == AllPlans(data, order, parse)
    ensures var dirs := SortedOf(multiset(DirsOf(data, order)));
            notFound == MissedIn(data, order, dirs, parse, true)
                && unresolvable == MissedIn(data, order, dirs, parse, false)
    ensures Ascends(PlanDirs(plans)) && Ascends(notFound) && Ascends(unresolvable)
  {
    hide *;
    var byDir := GroupByDir(data, order);
    var dirs := SortedOf(multiset(byDir.Keys));
    PlanStart(data, order, dirs, parse);
    PlansInOrder(data, order, dirs, parse, |dirs|);
    InOrderAscends(PlanDirs(PlansOf(data, order, dirs, parse)), multiset(byDir.Keys));
    InOrderAscends(MissedIn(data, order, dirs, parse, true), multiset(byDir.Keys));
    InOrderAscends(MissedIn(data, order, dirs, parse, false), multiset(byDir.Keys));
    plans, notFound, unresolvable := [], [], [];
    for i := 0 to |dirs|
      invariant plans == PlansOf(data, order, dirs[..i], parse)
      invariant notFound == MissedIn(data, order, dirs[..i], parse, true)
      invariant unresolvable == MissedIn(data, order, dirs[..i], parse, false)
    {
      PlanNext(data, order, dirs, parse, i);
      var v := Judge(data, byDir[dirs[i]], dirs[i], parse);
      match v {
        case Planned(p) => plans := plans + [p];
        case NotFound => notFound := notFound + [dirs[i]];
        case Unresolvable => unresolvable := unresolvable + [dirs[i]];
        case Intact =>
      }
    }
  }

  /** Pass 2: entries whose retired build_mode no plan rewrites. */
  method StaleModes(data: Data, order: seq<string>, plans: seq<Plan>) returns (fixes: seq<string>)
    ensures fixes == FixesOf(data, order, plans) && InOrderOf(fixes, order)
    ensures forall n :: n in fixes <==>
              n in order && Retired(data, n) && forall p :: p in plans ==> n !in p.deletes
  {
    FixesAre(data, order, plans);
    hide InOrderOf, Retired;
    var handled := Handled(plans);
    fixes := [];
    for i := 0 to |order|
      invariant fixes == Filter(Stale(data, handled), order[..i])
    {
      var n := order[i];
      FilterNext(Stale(data, handled), order, i);
      if n !in handled && Legacy(Rec(data, n)) {
        fixes := fixes + [n];
      }
    }
    assert order[..|order|] == order;
  }

  /** The record of `n` has one of the two retired tokens. */
  ghost predicate Retired(data: Data, n: string) {
    n in data && "build_mode" in data[n]
        && (data[n]["build_mode"] == Str("profiled") || data[n]["build_mode"] == Str("pgo_mesa"))
  }

  lemma FixesAre(data: Data, order: seq<string>, plans: seq<Plan>)
    ensures InOrderOf(FixesOf(data, order, plans), order)
    ensures forall n :: n in FixesOf(data, order, plans) <==>
              n in order && Retired(data, n) && forall p :: p in plans ==> n !in p.deletes
  {
    FilterInOrder(Stale(data, Handled(plans)), order);
    forall n ensures Legacy(Rec(data, n)) <==> Retired(data, n) {
      NormalisedMeans(Rec(data, n));
    }
    hide InOrderOf, Legacy, Retired, Rec;
    forall n ensures n in Handled(plans) <==> exists p :: p in plans && n in p.deletes {
    }
  }

  method ApplyPlan(bs: BuildState, plan: Plan)
    modifies bs
    ensures bs.data == Apply(old(bs.data), plan) && bs.reverted == old(bs.reverted)
  {
    for i := 0 to |plan.deletes|
      invariant bs.data == old(bs.data) - Elems(plan.deletes[..i]) && bs.reverted == old(bs.reverted)
    {
      ElemsNext(plan.deletes, i);
      var _ := bs.Delete(plan.deletes[i]);
    }
    assert plan.deletes[..|plan.deletes|] == plan.deletes;
    ghost var mid := bs.data;
    for i := 0 to |plan.creates|
      invariant bs.data == PutAll(mid, plan.creates[..i]) && bs.reverted == old(bs.reverted)
    {
      assert plan.creates[..i + 1][..i] == plan.creates[..i];
      bs.data := bs.data[plan.creates[i].0 := plan.creates[i].1];
    }
    assert plan.creates[..|plan.creates|] == plan.creates;
  }

  method PlanRepair(data: Data, order: seq<string>, parse: Pkgbuilds) returns (report: Report)
    ensures report.plans == AllPlans(data, order, parse)
    ensures report.fixes == FixesOf(data, order, report.plans)
    ensures forall d :: d in report.notFound <==>
              AnyUnexpanded(data, GroupOf(data, order, d)) && NoSource(d, parse)
    ensures forall d :: d in report.unresolvable <==>
              AnyUnexpanded(data, GroupOf(data, order, d)) && !NoSource(d, parse) && !Resolvable(d, parse)
    ensures forall d :: (exists p :: p in report.plans && p.dir == d) <==>
              AnyUnexpanded(data, GroupOf(data, order, d)) && Resolvable(d, parse)
  {
    var plans, notFound, unresolvable := PlanAll(data, order, parse);
    var fixes := StaleModes(data, order, plans);
    report := Report(plans, fixes, notFound, unresolvable);
    hide *;
    forall d
      ensures d in notFound <==> AnyUnexpanded(data, GroupOf(data, order, d)) && NoSource(d, parse)
      ensures d in unresolvable <==>
          AnyUnexpanded(data, GroupOf(data, order, d)) && !NoSource(d, parse) && !Resolvable(d, parse)
      ensures (exists p :: p in plans && p.dir == d) <==>
          AnyUnexpanded(data, GroupOf(data, order, d)) && Resolvable(d, parse)
    {
      ReportOn(data, order, parse, d);
    }
  }

  /** What is reported about one directory. */
  lemma ReportOn(data: Data, order: seq<string>, parse: Pkgbuilds, d: string)
    ensures var any, dirs := AnyUnexpanded(data, GroupOf(data, order, d)), SortedOf(multiset(DirsOf(data, order)));
            && (d in MissedIn(data, order, dirs, parse, true) <==> any && NoSource(d, parse))
            && (d in MissedIn(data, order, dirs, parse, false) <==>
                  any && !NoSource(d, parse) && !Resolvable(d, parse))
            && ((exists p :: p in AllPlans(data, order, parse) && p.dir == d) <==> any && Resolvable(d, parse))
  {
    hide *;
    var dirs, group := SortedOf(multiset(DirsOf(data, order))), GroupOf(data, order, d);
    AnyIsDir(data, order, d);
    MissedAre(data, order, dirs, parse, d);
    VerdictMeans(data, group, d, parse);
    if VerdictOn(data, group, d, parse).Planned? {
      PlanIsThere(data, order, parse, d);
    }
    forall p | p in AllPlans(data, order, parse) && p.dir == d ensures VerdictOn(data, group, d, parse).Planned? {
      PlanOfDir(data, order, parse, p);
    }
  }

  lemma AnyIsDir(data: Data, order: seq<string>, d: string)
    ensures AnyUnexpanded(data, GroupOf(data, order, d)) ==> d in SortedOf(multiset(DirsOf(data, order)))
  {
    AnyBroken(data, GroupOf(data, order, d));
    SortedOfSet(DirsOf(data, order));
    var dirs := SortedOf(multiset(DirsOf(data, order)));
    assert d in dirs <==> d in Elems(dirs);
    hide GroupOf, DirsOf, SortedOf, AnyUnexpanded;
    if AnyUnexpanded(data, GroupOf(data, order, d)) {
      BrokenInGroup(data, order, d);
    }
  }

  method ApplyPlans(bs: BuildState, plans: seq<Plan>)
    modifies bs
    ensures bs.data == ApplyAll(old(bs.data), plans) && bs.reverted == old(bs.reverted)
  {
    hide *;
    ApplyStart(bs.data, plans);
    for i := 0 to |plans|
      invariant bs.data == ApplyAll(old(bs.data), plans[..i]) && bs.reverted == old(bs.reverted)
    {
      ApplyNext(old(bs.data), plans, i);
      ApplyPlan(bs, plans[i]);
    }
  }

  /** The rewrites of pass 2. None is looked up under a key that is gone. */
  method ApplyFixes(bs: BuildState, fixes: seq<string>, modes: seq<string>, ghost was: Data, ghost order: seq<string>,
                    ghost parse: Pkgbuilds)
    requires Elems(order) == was.Keys && bs.data == ApplyAll(was, AllPlans(was, order, parse))
    requires fixes == FixesOf(was, order, AllPlans(was, order, parse)) && modes == Modes(was, fixes)
    modifies bs
    ensures bs.data == Repaired(was, order, parse) && bs.reverted == old(bs.reverted)
  {
    hide AllPlans, ApplyAll, FixesOf, FixAll, Repaired, Normalised, Field, Elems;
    ghost var plans := AllPlans(was, order, parse);
    FixEnd(was, order, parse, plans, fixes);
    for i := 0 to |fixes|
      invariant bs.data == FixAll(ApplyAll(was, plans), was, fixes[..i]) && bs.reverted == old(bs.reverted)
    {
      FixNext(was, order, parse, plans, fixes, i);
      bs.data := bs.data[fixes[i] := bs.data[fixes[i]]["build_mode" := Str(modes[i])]];
    }
  }

  /** `cmd_state_repair`: `order` is the order in which the file lists its
      entries. */
  method Repair(file: StateFile, order: seq<string>, parse: Pkgbuilds, dryRun: bool) returns (report: Report)
    requires Elems(order) == file.store.data.Keys
    modifies file
    ensures file.store == if dryRun then old(file.store) else RepairedFile(old(file.store), order, parse)
    ensures if dryRun || (report.plans == [] && report.fixes == []) then file.store == old(file.store)
            else Clean(file.store)
    ensures report.plans == AllPlans(old(file.store).data, order, parse)
    ensures report.fixes == FixesOf(old(file.store).data, order, report.plans)
    ensures forall d :: d in report.notFound <==>
              AnyUnexpanded(old(file.store).data, GroupOf(old(file.store).data, order, d)) && NoSource(d, parse)
    ensures forall d :: d in report.unresolvable <==>
              && AnyUnexpanded(old(file.store).data, GroupOf(old(file.store).data, order, d))
              && !NoSource(d, parse) && !Resolvable(d, parse)
    ensures forall d :: (exists p :: p in report.plans && p.dir == d) <==>
              AnyUnexpanded(old(file.store).data, GroupOf(old(file.store).data, order, d)) && Resolvable(d, parse)
  {
    hide AllPlans, FixesOf, Repaired, Saved, Clean, AnyUnexpanded, GroupOf, NoSource, Resolvable, Elems, Modes;
    var bs := new BuildState(file);
    ghost var was := bs.data;
    report := PlanRepair(bs.data, order, parse);
    if dryRun || (report.plans == [] && report.fixes == []) {
      return;
    }
    var modes := Modes(bs.data, report.fixes);
    ApplyPlans(bs, report.plans);
    ApplyFixes(bs, report.fixes, modes, was, order, parse);
    bs.Save(file);
    SavedIsClean(bs.View());
  }

  /** The replacement tokens, read before anything changes. */
  function Modes(data: Data, fixes: seq<string>): (r: seq<string>)
    ensures |r| == |fixes| && forall i :: 0 <= i < |r| ==> r[i] == Field(Normalised(Rec(data, fixes[i])), "build_mode")
  {
    seq(|fixes|, i requires 0 <= i < |fixes| => Field(Normalised(Rec(data, fixes[i])), "build_mode"))
  }

  lemma {:induction false} MissedAre(data: Data, order: seq<string>, dirs: seq<string>, parse: Pkgbuilds, d: string)
    ensures var v := VerdictOn(data, GroupOf(data, order, d), d, parse);
            && (d in MissedIn(data, order, dirs, parse, true) <==> d in dirs && v.NotFound?)
            && (d in MissedIn(data, order, dirs, parse, false) <==> d in dirs && v.Unresolvable?)
  {
    hide VerdictOn, GroupOf;
    if dirs != [] {
      var k := |dirs| - 1;
      MissedAre(data, order, dirs[..k], parse, d);
      assert dirs == dirs[..k] + [dirs[k]];
    }
  }

  lemma ApplyStart(was: Data, plans: seq<Plan>)
    ensures plans[..|plans|] == plans && ApplyAll(was, plans[..0]) == was
  {
  }

  lemma ApplyNext(was: Data, plans: seq<Plan>, i: nat)
    requires i < |plans|
    ensures ApplyAll(was, plans[..i + 1]) == Apply(ApplyAll(was, plans[..i]), plans[i])
  {
    assert plans[..i + 1][..i] == plans[..i];
  }

  lemma FixNext(was: Data, order: seq<string>, parse: Pkgbuilds, plans: seq<Plan>, fixes: seq<string>, i: nat)
    requires Elems(order) == was.Keys && plans == AllPlans(was, order, parse) && fixes == FixesOf(was, order, plans)
    requires i < |fixes|
    ensures var now := FixAll(ApplyAll(was, plans), was, fixes[..i]);
            && fixes[i] in now
            && FixAll(ApplyAll(was, plans), was, fixes[..i + 1]) ==
               now[fixes[i] := Fixed(now[fixes[i]], Rec(was, fixes[i]))]
  {
    hide AllPlans, ApplyAll, FixesOf, Normalised, Field;
    var mid, n := ApplyAll(was, plans), fixes[i];
    var now := FixAll(mid, was, fixes[..i]);
    assert n in fixes;
    assert fixes[..i + 1][..i] == fixes[..i];
    assert FixAll(mid, was, fixes[..i + 1]) == now[n := Fixed(Rec(now, n), Rec(was, n))];
    assert n in now ==> Rec(now, n) == now[n];
    hide *;
    FixNames(was, order, plans, n);
    FixedIsThere(was, plans, n);
    FixCases(mid, was, fixes[..i], n);
  }

  lemma FixEnd(was: Data, order: seq<string>, parse: Pkgbuilds, plans: seq<Plan>, fixes: seq<string>)
    requires plans == AllPlans(was, order, parse) && fixes == FixesOf(was, order, plans)
    ensures fixes[..0] == [] && fixes[..|fixes|] == fixes
    ensures FixAll(ApplyAll(was, plans), was, []) == ApplyAll(was, plans)
    ensures FixAll(ApplyAll(was, plans), was, fixes) == Repaired(was, order, parse)
  {
    hide AllPlans, ApplyAll, FixesOf, Normalised, Field, Rec;
  }
}
