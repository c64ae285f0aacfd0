/** The worklist that finds what a refused dependency takes with it
    (sysforge/build_core.py), against the least closed set. */
module RequirerWalk {
  import opened Prelude

  datatype ResolvedDep = ResolvedDep(name: string, requiredBy: seq<string>)

  /** The dependency a name stands for: the last one of that name. */
  function ByName(deps: seq<ResolvedDep>): map<string, seq<string>> {
    if deps == [] then map[] else ByName(deps[..|deps| - 1])[deps[|deps| - 1].name := deps[|deps| - 1].requiredBy]
  }

  function Requirers(deps: seq<ResolvedDep>, name: string): seq<string> {
    if name in ByName(deps) then ByName(deps)[name] else []
  }

  ghost predicate ClosedUnder(deps: seq<ResolvedDep>, s: set<string>) {
    forall n, p :: n in s && p in Requirers(deps, n) ==> p in s
  }

  /** `p` is listed as a requirer in the last entry called `name`. */
  ghost predicate RequiredBy(deps: seq<ResolvedDep>, name: string, p: string) {
    exists i :: LastOf(deps, name, i) && p in deps[i].requiredBy
  }

  ghost predicate LastOf(deps: seq<ResolvedDep>, name: string, i: int) {
    0 <= i < |deps| && deps[i].name == name && forall j :: i < j < |deps| ==> deps[j].name != name
  }

  lemma {:induction false} RequirersAre(deps: seq<ResolvedDep>, name: string, p: string)
    ensures p in Requirers(deps, name) <==> RequiredBy(deps, name, p)
  {
    if deps != [] {
      var k := |deps| - 1;
      RequirersAre(deps[..k], name, p);
      if deps[k].name == name {
        assert LastOf(deps, name, k);
      } else {
        assert forall i :: LastOf(deps, name, i) <==> LastOf(deps[..k], name, i);
      }
    }
  }

  /** Whoever requires a member is a member. */
  ghost predicate ClosedUpward(deps: seq<ResolvedDep>, s: set<string>) {
    forall n, p :: n in s && RequiredBy(deps, n, p) ==> p in s
  }

  lemma ClosedMeans(deps: seq<ResolvedDep>)
    ensures forall s :: ClosedUpward(deps, s) <==> ClosedUnder(deps, s)
  {
    forall n, p ensures p in Requirers(deps, n) <==> RequiredBy(deps, n, p) {
      RequirersAre(deps, n, p);
    }
    hide Requirers, RequiredBy;
  }

  function Mentioned(deps: seq<ResolvedDep>): set<string> {
    set d, p | d in deps && p in d.requiredBy :: p
  }

  lemma {:induction false} RequirersAreMentioned(deps: seq<ResolvedDep>, name: string)
    ensures Elems(Requirers(deps, name)) <= Mentioned(deps)
  {
    if deps != [] {
      RequirersAreMentioned(deps[..|deps| - 1], name);
      assert deps[|deps| - 1] in deps;
    }
  }

  /** `_requirer_closure`: the least set that holds the seeds and, with a
      dependency, everything that requires it. */
  method RequirerClosure(deps: seq<ResolvedDep>, seeds: seq<string>) returns (affected: set<string>)
    ensures Elems(seeds) <= affected && ClosedUpward(deps, affected)
    ensures forall s :: Elems(seeds) <= s && ClosedUpward(deps, s) ==> affected <= s
  {
    hide *;
    ClosedMeans(deps);
    affected := Elems(seeds);
    var frontier := seeds;
    WorkStarts(deps, seeds);
    while frontier != []
      invariant Working(deps, seeds, affected, frontier)
      decreases |Elems(seeds) + Mentioned(deps) - affected|, |frontier|
    {
      var name, more := frontier[|frontier| - 1], [];
      ghost var before := affected;
      affected, more := AddParents(deps, name, affected);
      WorkStep(deps, seeds, before, frontier, affected, more);
      WorkBound(deps, seeds, affected, frontier[..|frontier| - 1] + more);
      WorkShrinks(deps, seeds, before, affected, more);
      frontier := frontier[..|frontier| - 1] + more;
    }
    WorkEnds(deps, seeds, affected);
  }

  /** The state of the worklist: what is affected but not on it has its
      requirers affected too. */
  ghost predicate Working(deps: seq<ResolvedDep>, seeds: seq<string>, affected: set<string>, frontier: seq<string>) {
    && Elems(seeds) <= affected <= Elems(seeds) + Mentioned(deps) && Elems(frontier) <= affected
    && (forall n, p :: n in affected && n !in frontier && p in Requirers(deps, n) ==> p in affected)
    && (forall s :: Elems(seeds) <= s && ClosedUnder(deps, s) ==> affected <= s)
  }

  lemma WorkBound(deps: seq<ResolvedDep>, seeds: seq<string>, affected: set<string>, frontier: seq<string>)
    requires Working(deps, seeds, affected, frontier)
    ensures affected <= Elems(seeds) + Mentioned(deps)
  {
  }

  lemma WorkStarts(deps: seq<ResolvedDep>, seeds: seq<string>)
    ensures Working(deps, seeds, Elems(seeds), seeds)
  {
  }

  lemma WorkEnds(deps: seq<ResolvedDep>, seeds: seq<string>, affected: set<string>)
    requires Working(deps, seeds, affected, [])
    ensures Elems(seeds) <= affected && ClosedUnder(deps, affected)
    ensures forall s :: Elems(seeds) <= s && ClosedUnder(deps, s) ==> affected <= s
  {
  }

  lemma WorkStep(deps: seq<ResolvedDep>, seeds: seq<string>, before: set<string>, frontier: seq<string>,
                 affected: set<string>, more: seq<string>)
    requires Working(deps, seeds, before, frontier) && frontier != []
    requires affected == before + Elems(Requirers(deps, frontier[|frontier| - 1])) && Elems(more) == affected - before
    ensures Working(deps, seeds, affected, frontier[..|frontier| - 1] + more)
  {
    var rest, name := frontier[..|frontier| - 1], frontier[|frontier| - 1];
    assert frontier == rest + [name] && name in Elems(frontier);
    RequirersAreMentioned(deps, name);
    ElemsConcat(rest, more);
    hide Requirers, Mentioned;
    assert forall n :: n in affected && n !in Elems(more) ==> n in before;
    assert forall n :: n in more ==> n in Elems(more);
    forall s | Elems(seeds) <= s && ClosedUnder(deps, s) ensures affected <= s {
      assert name in s && forall p :: p in Requirers(deps, name) ==> p in s;
    }
  }

  lemma WorkShrinks(deps: seq<ResolvedDep>, seeds: seq<string>, before: set<string>, affected: set<string>,
                    more: seq<string>)
    requires before <= affected <= Elems(seeds) + Mentioned(deps) && Elems(more) == affected - before
    ensures var all := Elems(seeds) + Mentioned(deps); more != [] ==> |all - affected| < |all - before|
    ensures more == [] ==> affected == before
  {
    var all := Elems(seeds) + Mentioned(deps);
    hide Mentioned;
    if more == [] {
      assert affected == before + Elems(more);
    } else {
      assert more[0] in Elems(more);
      assert all - before == (all - affected) + Elems(more);
    }
  }

  /** The parents of one dependency that were not affected yet. */
  method AddParents(deps: seq<ResolvedDep>, name: string, affected: set<string>)
    returns (next: set<string>, more: seq<string>)
    ensures next == affected + Elems(Requirers(deps, name)) && Elems(more) == next - affected
  {
    hide Requirers;
    next, more := affected, [];
    var parents := Requirers(deps, name);
    for i := 0 to |parents|
      invariant next == affected + Elems(parents[..i]) && Elems(more) == next - affected
    {
      ElemsNext(parents, i);
      ElemsConcat(more, [parents[i]]);
      if parents[i] !in next {
        next := next + {parents[i]};
        more := more + [parents[i]];
      }
    }
    assert parents[..|parents|] == parents;
  }

  /** One name, one list of requirers: the resolver may list a dependency twice
      but not under two different lists. */
  ghost predicate Consistent(deps: seq<ResolvedDep>) {
    forall d, e :: d in deps && e in deps && d.name == e.name ==> d.requiredBy == e.requiredBy
  }

  lemma {:induction false} RequirersOf(deps: seq<ResolvedDep>, d: ResolvedDep)
    requires d in deps && Consistent(deps)
    ensures Requirers(deps, d.name) == d.requiredBy
  {
    var k := |deps| - 1;
    assert deps == deps[..k] + [deps[k]];
    if deps[k].name != d.name {
      RequirersOf(deps[..k], d);
    }
  }

  /** After a refusal no kept dependency requires a dropped one. */
  lemma KeptNeedsNoDropped(deps: seq<ResolvedDep>, affected: set<string>, dropped: ResolvedDep, kept: ResolvedDep)
    requires Consistent(deps) && ClosedUpward(deps, affected)
    requires dropped in deps && dropped.name in affected && kept in deps && kept.name !in affected
    ensures kept.name !in dropped.requiredBy
  {
    RequirersOf(deps, dropped);
    ClosedMeans(deps);
    assert forall p :: p in Requirers(deps, dropped.name) ==> p in affected;
  }
}
