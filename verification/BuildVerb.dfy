/** `build_and_install` in sysforge/build_core.py: review gate, ordering,
    dependency refusals, the build loop, and the revert of records whose
    artifact never reached the system. */
module BuildVerb {
  import opened Prelude
  import opened Packages
  import opened BuildStates
  import opened StateFiles
  import opened Install
  import opened BatchOrder
  import opened BuildLoop
  import opened RunHandover

  /** The review gate's decision on one target. */
  datatype Decision = Abort | Skip | Refuse(why: string) | Keep

  /** The dependency preparation: aborted, or the names refused with a reason. */
  datatype DepReply = DepAbort | DepsReady(refused: map<string, string>)

  // ---------------------------------------------------------------------
  // The gates in front of the loop
  // ---------------------------------------------------------------------

  /** What one call returns. */
  datatype Outcome = Outcome(
    built: seq<string>, failed: seq<string>, pgoSkipped: seq<string>, installed: seq<File>,
    installFailed: bool, notInstalled: map<string, Reason>,
    reviewSkipped: seq<string>, reviewRefused: map<string, string>, aborted: bool)

  const NOTHING: Outcome := Outcome([], [], [], [], false, map[], [], map[], false)

  /** The targets that survive the review gate. */
  function Reviewed(targets: seq<Target>, decisions: seq<Decision>): seq<Target>
    requires |targets| <= |decisions|
  {
    if targets == [] then []
    else
      var k := |targets| - 1;
      var rest := Reviewed(targets[..k], decisions);
      if decisions[k].Keep? then rest + [targets[k]] else rest
  }

  function SkippedBy(targets: seq<Target>, decisions: seq<Decision>): seq<string>
    requires |targets| <= |decisions|
  {
    if targets == [] then []
    else
      var k := |targets| - 1;
      var rest := SkippedBy(targets[..k], decisions);
      if decisions[k].Skip? then rest + [targets[k].pkgbase] else rest
  }

  function RefusedBy(targets: seq<Target>, decisions: seq<Decision>): map<string, string>
    requires |targets| <= |decisions|
  {
    if targets == [] then map[]
    else
      var k := |targets| - 1;
      var rest := RefusedBy(targets[..k], decisions);
      if decisions[k].Refuse? then rest[targets[k].pkgbase := decisions[k].why] else rest
  }

  /** How often `b` is listed in a refusal map: at most once. */
  function Listed(refused: map<string, string>, b: string): nat {
    if b in refused then 1 else 0
  }

  ghost predicate AnyAbort(targets: seq<Target>, decisions: seq<Decision>)
    requires |targets| <= |decisions|
  {
    exists i :: 0 <= i < |targets| && decisions[i].Abort?
  }

  /** `t` is where the decision `d` on it puts it, and nowhere else. */
  ghost predicate Placed(t: Target, d: Decision, kept: seq<Target>, skipped: seq<string>,
                         refused: map<string, string>) {
    && (t in kept <==> d.Keep?)
    && (t.pkgbase in skipped <==> d.Skip?)
    && (t.pkgbase in refused <==> d.Refuse?)
    && (d.Refuse? ==> refused[t.pkgbase] == d.why)
  }

  method ReviewGate(targets: seq<Target>, decisions: seq<Decision>)
    returns (kept: seq<Target>, skipped: seq<string>, refused: map<string, string>, aborted: bool)
    requires |targets| <= |decisions| && NoDup(Bases(targets))
    ensures aborted <==> AnyAbort(targets, decisions)
    ensures !aborted ==> kept == Reviewed(targets, decisions)
    ensures !aborted ==> skipped == SkippedBy(targets, decisions) && refused == RefusedBy(targets, decisions)
    ensures !aborted ==> forall i :: 0 <= i < |targets| ==> Placed(targets[i], decisions[i], kept, skipped, refused)
    ensures !aborted ==> InOrderOf(kept, targets) && InOrderOf(skipped, Bases(targets))
  {
    kept, skipped, refused, aborted := [], [], map[], false;
    hide Placed;
    for i := 0 to |targets|
      invariant forall j :: 0 <= j < i ==> !decisions[j].Abort?
      invariant kept == Reviewed(targets[..i], decisions)
      invariant skipped == SkippedBy(targets[..i], decisions) && refused == RefusedBy(targets[..i], decisions)
    {
      var t := targets[i];
      assert targets[..i + 1][..i] == targets[..i];
      match decisions[i]
      case Abort =>
        return kept, skipped, refused, true;
      case Skip =>
        skipped := skipped + [t.pkgbase];
      case Refuse(why) =>
        refused := refused[t.pkgbase := why];
      case Keep =>
        kept := kept + [t];
    }
    assert targets[..|targets|] == targets;
    GatePlaces(targets, decisions);
    GateInOrder(targets, decisions);
  }

  lemma {:induction false} GateInOrder(targets: seq<Target>, decisions: seq<Decision>)
    requires |targets| <= |decisions|
    ensures InOrderOf(Reviewed(targets, decisions), targets)
    ensures InOrderOf(SkippedBy(targets, decisions), Bases(targets))
  {
    hide InOrderOf;
    if targets == [] {
      NothingInOrder<Target>();
      NothingInOrder<string>();
    } else {
      var k := |targets| - 1;
      var t, init := targets[k], targets[..k];
      GateInOrder(init, decisions);
      InOrderNext(Reviewed(init, decisions), init, t);
      InOrderNext(SkippedBy(init, decisions), Bases(init), t.pkgbase);
      assert targets == init + [t] && Bases(targets) == Bases(init) + [t.pkgbase];
    }
  }

  /** The three lists agree on the first `n` targets and say nothing about others. */
  lemma {:induction false} GateMembers(targets: seq<Target>, decisions: seq<Decision>)
    requires |targets| <= |decisions|
    ensures forall t :: t in Reviewed(targets, decisions) <==>
              exists i :: 0 <= i < |targets| && targets[i] == t && decisions[i].Keep?
    ensures forall b :: b in SkippedBy(targets, decisions) <==>
              exists i :: 0 <= i < |targets| && targets[i].pkgbase == b && decisions[i].Skip?
    ensures forall b :: b in RefusedBy(targets, decisions) <==>
              exists i :: 0 <= i < |targets| && targets[i].pkgbase == b && decisions[i].Refuse?
  {
    if targets != [] {
      GateMembers(targets[..|targets| - 1], decisions);
    }
  }

  lemma {:induction false} GateReason(targets: seq<Target>, decisions: seq<Decision>, i: nat)
    requires i < |targets| <= |decisions| && NoDup(Bases(targets)) && decisions[i].Refuse?
    ensures targets[i].pkgbase in RefusedBy(targets, decisions)
    ensures RefusedBy(targets, decisions)[targets[i].pkgbase] == decisions[i].why
  {
    var k := |targets| - 1;
    if i < k {
      assert Bases(targets)[i] != Bases(targets)[k];
      BatchLast(targets, "");
      GateReason(targets[..k], decisions, i);
    }
  }

  lemma OneTargetPerBase(targets: seq<Target>)
    requires NoDup(Bases(targets))
    ensures forall i, j :: 0 <= i < |targets| && 0 <= j < |targets| && targets[i].pkgbase == targets[j].pkgbase ==>
        i == j
  {
    assert forall i :: 0 <= i < |targets| ==> Bases(targets)[i] == targets[i].pkgbase;
  }

  lemma GatePlace(targets: seq<Target>, decisions: seq<Decision>, i: nat)
    requires i < |targets| <= |decisions| && NoDup(Bases(targets))
    ensures Placed(targets[i], decisions[i],
                   Reviewed(targets, decisions), SkippedBy(targets, decisions), RefusedBy(targets, decisions))
  {
    OneTargetPerBase(targets);
    hide Bases, Reviewed, SkippedBy, RefusedBy, NoDup;
    GateMembers(targets, decisions);
    if decisions[i].Refuse? {
      GateReason(targets, decisions, i);
    }
  }

  lemma GatePlaces(targets: seq<Target>, decisions: seq<Decision>)
    requires |targets| <= |decisions| && NoDup(Bases(targets))
    ensures forall i :: 0 <= i < |targets| ==>
              Placed(targets[i], decisions[i],
                     Reviewed(targets, decisions), SkippedBy(targets, decisions), RefusedBy(targets, decisions))
  {
    hide *;
    forall i | 0 <= i < |targets|
      ensures Placed(targets[i], decisions[i],
                     Reviewed(targets, decisions), SkippedBy(targets, decisions), RefusedBy(targets, decisions))
    {
      GatePlace(targets, decisions, i);
    }
  }

  /** The last target of a duplicate-free batch is new. */
  lemma BatchLast(targets: seq<Target>, b: string)
    requires targets != [] && NoDup(Bases(targets))
    ensures var k := |targets| - 1;
            && NoDup(Bases(targets[..k])) && targets[k].pkgbase !in Bases(targets[..k])
            && Count(Bases(targets), b) == Count(Bases(targets[..k]), b) + if b == targets[k].pkgbase then 1 else 0
  {
    var k := |targets| - 1;
    assert Bases(targets) == Bases(targets[..k]) + [targets[k].pkgbase];
    CountNext(Bases(targets[..k]), targets[k].pkgbase);
    forall x, y | 0 <= x < y < k ensures Bases(targets[..k])[x] != Bases(targets[..k])[y] {
      assert Bases(targets)[x] != Bases(targets)[y];
    }
  }

  /** How often the gate puts `b` anywhere. */
  function GateCount(targets: seq<Target>, decisions: seq<Decision>, b: string): nat
    requires |targets| <= |decisions|
  {
    Count(Bases(Reviewed(targets, decisions)), b) + Count(SkippedBy(targets, decisions), b)
    + Listed(RefusedBy(targets, decisions), b)
  }

  lemma ListedNext(refused: map<string, string>, base: string, why: string, b: string)
    requires base !in refused
    ensures Listed(refused[base := why], b) == Listed(refused, b) + if b == base then 1 else 0
  {
  }

  lemma KeptNext(kept: seq<Target>, t: Target, b: string)
    ensures Count(Bases(kept + [t]), b) == Count(Bases(kept), b) + if b == t.pkgbase then 1 else 0
  {
    BasesSnoc(kept, t);
    CountNext(Bases(kept), t.pkgbase);
  }

  lemma GateStep(targets: seq<Target>, decisions: seq<Decision>, b: string)
    requires 0 < |targets| <= |decisions| && !decisions[|targets| - 1].Abort?
    requires targets[|targets| - 1].pkgbase !in RefusedBy(targets[..|targets| - 1], decisions)
    ensures var k := |targets| - 1;
            GateCount(targets, decisions, b)
              == GateCount(targets[..k], decisions, b) + if b == targets[k].pkgbase then 1 else 0
  {
    hide Count, Bases, Listed;
    var k := |targets| - 1;
    match decisions[k]
    case Keep => KeptNext(Reviewed(targets[..k], decisions), targets[k], b);
    case Skip => CountNext(SkippedBy(targets[..k], decisions), targets[k].pkgbase);
    case Refuse(why) => ListedNext(RefusedBy(targets[..k], decisions), targets[k].pkgbase, why, b);
  }

  /** Every target is kept, skipped or refused, once. */
  lemma {:induction false} GateCounts(targets: seq<Target>, decisions: seq<Decision>, b: string)
    requires |targets| <= |decisions| && NoDup(Bases(targets)) && !AnyAbort(targets, decisions)
    ensures Count(Bases(targets), b) == GateCount(targets, decisions, b)
  {
    if targets != [] {
      var k := |targets| - 1;
      BatchLast(targets, b);
      GateMembers(targets[..k], decisions);
      assert targets[k].pkgbase !in RefusedBy(targets[..k], decisions) by {
        BaseIn(targets[..k], targets[k].pkgbase);
      }
      assert !AnyAbort(targets[..k], decisions) && !decisions[k].Abort?;
      hide *;
      GateCounts(targets[..k], decisions, b);
      GateStep(targets, decisions, b);
    }
  }

  /** The counts leave no room for a repeated or a refused base among the kept. */
  lemma KeptBases(targets: seq<Target>, kept: seq<Target>, skipped: seq<string>, refused: map<string, string>)
    requires NoDup(Bases(targets))
    requires forall b :: Count(Bases(targets), b) == Count(Bases(kept), b) + Count(skipped, b) + Listed(refused, b)
    ensures NoDup(Bases(kept)) && refused.Keys !! Elems(Bases(kept))
  {
    forall b ensures Count(Bases(kept), b) + Listed(refused, b) <= 1 {
      CountNoDup(Bases(targets), b);
    }
    CountsNoDup(Bases(kept));
    forall b | b in refused ensures b !in Elems(Bases(kept)) {
      CountIn(Bases(kept), b);
    }
  }

  lemma BasesSnoc(targets: seq<Target>, t: Target)
    ensures Bases(targets + [t]) == Bases(targets) + [t.pkgbase]
  {
  }

  /** A refused dependency name that `t` goes by. */
  function Hit(t: Target, refused: map<string, string>): (r: set<string>)
    ensures forall n :: n in r <==> n in refused && (n == t.pkgbase || n in t.pkgnames)
  {
    ({t.pkgbase} + Elems(t.pkgnames)) * refused.Keys
  }

  function Unrefused(targets: seq<Target>, refused: map<string, string>): seq<Target> {
    if targets == [] then []
    else
      var k := |targets| - 1;
      var rest := Unrefused(targets[..k], refused);
      if Hit(targets[k], refused) == {} then rest + [targets[k]] else rest
  }

  function Restrict(intra: IntraDeps, kept: set<string>): (r: IntraDeps)
    ensures forall b :: b in r ==> b in kept
    ensures forall b, d :: d in Deps(r, b) <==> b in kept && d in kept && d in Deps(intra, b)
  {
    map b | b in intra && b in kept :: intra[b] * kept
  }

  lemma {:induction false} UnrefusedMembers(targets: seq<Target>, refused: map<string, string>, t: Target)
    ensures t in Unrefused(targets, refused) <==> t in targets && Hit(t, refused) == {}
  {
    if targets != [] {
      var k := |targets| - 1;
      UnrefusedMembers(targets[..k], refused, t);
      assert targets == targets[..k] + [targets[k]];
    }
  }

  lemma BaseIn(targets: seq<Target>, d: string)
    ensures d in Bases(targets) <==> exists t :: t in targets && t.pkgbase == d
  {
  }

  /** A target of the whole batch that was kept is kept in every prefix that
      holds it. */
  lemma KeptInPrefix(targets: seq<Target>, refused: map<string, string>, n: nat, d: string)
    requires n <= |targets| && NoDup(Bases(targets))
    requires d in Bases(targets)[..n] && d in Bases(Unrefused(targets, refused))
    ensures d in Bases(Unrefused(targets[..n], refused))
  {
    var m :| 0 <= m < n && Bases(targets)[m] == d;
    BaseIn(Unrefused(targets, refused), d);
    var t :| t in Unrefused(targets, refused) && t.pkgbase == d;
    UnrefusedMembers(targets, refused, t);
    var k :| 0 <= k < |targets| && targets[k] == t;
    assert Bases(targets)[k] == Bases(targets)[m];
    assert targets[..n][m] == t;
    UnrefusedMembers(targets[..n], refused, t);
    BaseIn(Unrefused(targets[..n], refused), d);
  }

  ghost predicate KeptDepsFirst(order: seq<string>, intra: IntraDeps, kept: seq<string>) {
    forall j, d :: 0 <= j < |order| && d in Deps(intra, order[j]) && d in kept ==> d in order[..j]
  }

  lemma {:induction false} PrefixKeepsOrder(targets: seq<Target>, refused: map<string, string>, intra: IntraDeps,
                                            n: nat)
    requires n <= |targets| && NoDup(Bases(targets)) && DepsFirst(Bases(targets), intra)
    ensures KeptDepsFirst(Bases(Unrefused(targets[..n], refused)), intra, Bases(Unrefused(targets, refused)))
  {
    if n > 0 {
      PrefixKeepsOrder(targets, refused, intra, n - 1);
      assert targets[..n][..n - 1] == targets[..n - 1];
      var before, kept := Unrefused(targets[..n - 1], refused), Bases(Unrefused(targets, refused));
      var t := targets[n - 1];
      assert Unrefused(targets[..n], refused) == before + if Hit(t, refused) == {} then [t] else [];
      if Hit(t, refused) != {} {
        assert Unrefused(targets[..n], refused) == before;
      } else {
        BasesSnoc(before, t);
        var order := Bases(before + [t]);
        forall j, d | 0 <= j < |order| && d in Deps(intra, order[j]) && d in kept ensures d in order[..j] {
          if j < |before| {
            assert order[..j] == Bases(before)[..j];
          } else {
            assert d in Deps(intra, Bases(targets)[n - 1]);
            KeptInPrefix(targets, refused, n - 1, d);
            assert order[..j] == Bases(before);
          }
        }
      }
    }
  }

  /** Dropping refused targets keeps a deps-first order for those that stay. */
  lemma RefusalKeepsOrder(targets: seq<Target>, refused: map<string, string>, intra: IntraDeps)
    requires NoDup(Bases(targets)) && DepsFirst(Bases(targets), intra)
    ensures var kept := Bases(Unrefused(targets, refused));
            DepsFirst(kept, Restrict(intra, Elems(kept)))
  {
    PrefixKeepsOrder(targets, refused, intra, |targets|);
    assert targets[..|targets|] == targets;
    var kept := Bases(Unrefused(targets, refused));
    forall j, d | 0 <= j < |kept| && d in Deps(Restrict(intra, Elems(kept)), kept[j]) ensures d in kept[..j] {
      assert d in Deps(intra, kept[j]) && d in Elems(kept);
    }
  }

  /** The refusals a refused dependency causes, target by target. */
  function RefusedFor(targets: seq<Target>, refused: map<string, string>): map<string, string> {
    if targets == [] then map[]
    else
      var k := |targets| - 1;
      var rest, t := RefusedFor(targets[..k], refused), targets[k];
      if Hit(t, refused) == {} then rest else rest[t.pkgbase := RefusalOf(t, refused)]
  }

  lemma {:induction false} RefusedForNames(targets: seq<Target>, refused: map<string, string>, b: string)
    ensures b in RefusedFor(targets, refused) <==>
            exists i :: 0 <= i < |targets| && targets[i].pkgbase == b && Hit(targets[i], refused) != {}
  {
    hide Hit, RefusalOf;
    if targets != [] {
      RefusedForNames(targets[..|targets| - 1], refused, b);
    }
  }

  lemma {:induction false} RefusedForReason(targets: seq<Target>, refused: map<string, string>, i: nat)
    requires i < |targets| && NoDup(Bases(targets))
    ensures var b, m := targets[i].pkgbase, RefusedFor(targets, refused);
            (b in m <==> Hit(targets[i], refused) != {}) && (b in m ==> m[b] == RefusalOf(targets[i], refused))
  {
    hide Hit, RefusalOf;
    var k := |targets| - 1;
    RefusedForNames(targets, refused, targets[i].pkgbase);
    assert forall j :: 0 <= j < |targets| && targets[j].pkgbase == targets[i].pkgbase ==>
        Bases(targets)[j] == Bases(targets)[i];
    if i < k {
      BatchLast(targets, "");
      RefusedForReason(targets[..k], refused, i);
    }
  }

  /** Drop the targets a refused dependency takes with it. */
  method DropRefused(targets: seq<Target>, refused: map<string, string>, refusedSoFar: map<string, string>)
    returns (still: seq<Target>, reviewRefused: map<string, string>)
    requires NoDup(Bases(targets)) && refusedSoFar.Keys !! Elems(Bases(targets))
    ensures still == Unrefused(targets, refused) && reviewRefused == refusedSoFar + RefusedFor(targets, refused)
    ensures forall t :: t in targets ==>
              && (t in still <==> !AnyRefused(t, refused))
              && (t.pkgbase in reviewRefused <==> AnyRefused(t, refused))
              && (AnyRefused(t, refused) ==> FirstReason(t, refused, reviewRefused[t.pkgbase]))
    ensures InOrderOf(still, targets)
    ensures forall b :: b in refusedSoFar ==> b in reviewRefused && reviewRefused[b] == refusedSoFar[b]
  {
    hide *;
    still, reviewRefused := [], refusedSoFar;
    DropStart(targets, refused, refusedSoFar);
    for i := 0 to |targets|
      invariant still == Unrefused(targets[..i], refused)
      invariant reviewRefused == refusedSoFar + RefusedFor(targets[..i], refused)
    {
      var t := targets[i];
      DropNext(targets, refused, refusedSoFar, i);
      if Hit(t, refused) == {} {
        still := still + [t];
      } else {
        reviewRefused := reviewRefused[t.pkgbase := RefusalOf(t, refused)];
      }
    }
    DroppedAre(targets, refused, refusedSoFar);
    UnrefusedInOrder(targets, refused);
    forall t | t in targets
      ensures AnyRefused(t, refused) <==> Hit(t, refused) != {}
      ensures AnyRefused(t, refused) ==> FirstReason(t, refused, RefusalOf(t, refused))
    {
      HitIs(t, refused);
    }
  }

  lemma HitIs(t: Target, refused: map<string, string>)
    ensures AnyRefused(t, refused) <==> Hit(t, refused) != {}
    ensures AnyRefused(t, refused) ==> FirstReason(t, refused, RefusalOf(t, refused))
  {
    hide RefusalOf;
    assert forall n :: n in Hit(t, refused) <==> Refuses(refused, t, n);
    if Hit(t, refused) != {} {
      var n :| n in Hit(t, refused);
      assert Refuses(refused, t, n);
    }
  }

  /** What is left stays in its order. */
  lemma {:induction false} UnrefusedInOrder(targets: seq<Target>, refused: map<string, string>)
    ensures InOrderOf(Unrefused(targets, refused), targets)
  {
    hide Hit, InOrderOf;
    if targets == [] {
      NothingInOrder<Target>();
    } else {
      var k := |targets| - 1;
      UnrefusedInOrder(targets[..k], refused);
      InOrderNext(Unrefused(targets[..k], refused), targets[..k], targets[k]);
      assert targets == targets[..k] + [targets[k]];
    }
  }

  lemma DropStart(targets: seq<Target>, refused: map<string, string>, refusedSoFar: map<string, string>)
    ensures targets[..|targets|] == targets && Unrefused(targets[..0], refused) == []
    ensures refusedSoFar + RefusedFor(targets[..0], refused) == refusedSoFar
  {
  }

  lemma DropNext(targets: seq<Target>, refused: map<string, string>, refusedSoFar: map<string, string>, i: nat)
    requires i < |targets|
    ensures var t, all := targets[i], refusedSoFar + RefusedFor(targets[..i], refused);
            && Unrefused(targets[..i + 1], refused)
               == Unrefused(targets[..i], refused) + (if Hit(t, refused) == {} then [t] else [])
            && refusedSoFar + RefusedFor(targets[..i + 1], refused)
               == if Hit(t, refused) == {} then all else all[t.pkgbase := RefusalOf(t, refused)]
  {
    hide Hit, RefusalOf;
    var init := targets[..i + 1];
    assert init[..i] == targets[..i] && init[i] == targets[i];
  }

  lemma DroppedAre(targets: seq<Target>, refused: map<string, string>, refusedSoFar: map<string, string>)
    requires NoDup(Bases(targets)) && refusedSoFar.Keys !! Elems(Bases(targets))
    ensures var still, all := Unrefused(targets, refused), refusedSoFar + RefusedFor(targets, refused);
            && (forall t :: t in targets ==>
                  if Hit(t, refused) == {} then t in still && t.pkgbase !in all
                  else t !in still && t.pkgbase in all && all[t.pkgbase] == RefusalOf(t, refused))
            && (forall b :: b in refusedSoFar ==> b in all && all[b] == refusedSoFar[b])
  {
    hide Hit, RefusalOf, Unrefused, RefusedFor;
    var still, all := Unrefused(targets, refused), refusedSoFar + RefusedFor(targets, refused);
    forall t | t in targets
      ensures if Hit(t, refused) == {} then t in still && t.pkgbase !in all
              else t !in still && t.pkgbase in all && all[t.pkgbase] == RefusalOf(t, refused)
    {
      var i :| 0 <= i < |targets| && targets[i] == t;
      RefusedForReason(targets, refused, i);
      UnrefusedMembers(targets, refused, t);
      assert Bases(targets)[i] in Elems(Bases(targets));
    }
    forall b | b in refusedSoFar ensures b in all && all[b] == refusedSoFar[b] {
      RefusedForNames(targets, refused, b);
      assert forall i :: 0 <= i < |targets| ==> Bases(targets)[i] in Elems(Bases(targets));
    }
  }

  function DropCount(targets: seq<Target>, refused: map<string, string>, b: string): nat {
    Count(Bases(Unrefused(targets, refused)), b) + Listed(RefusedFor(targets, refused), b)
  }

  lemma DropStep(targets: seq<Target>, refused: map<string, string>, b: string)
    requires targets != [] && targets[|targets| - 1].pkgbase !in RefusedFor(targets[..|targets| - 1], refused)
    ensures var k := |targets| - 1;
            DropCount(targets, refused, b) == DropCount(targets[..k], refused, b) + if b == targets[k].pkgbase then 1
                else 0
  {
    hide Count, Bases, Listed, Hit, RefusalOf;
    var k := |targets| - 1;
    if Hit(targets[k], refused) == {} {
      KeptNext(Unrefused(targets[..k], refused), targets[k], b);
    } else {
      ListedNext(RefusedFor(targets[..k], refused), targets[k].pkgbase, RefusalOf(targets[k], refused), b);
    }
  }

  /** Every target is still in the batch or refused, once. */
  lemma {:induction false} DropCounts(targets: seq<Target>, refused: map<string, string>, b: string)
    requires NoDup(Bases(targets))
    ensures Count(Bases(targets), b) == DropCount(targets, refused, b)
  {
    if targets != [] {
      var k := |targets| - 1;
      BatchLast(targets, b);
      RefusedForNames(targets[..k], refused, targets[k].pkgbase);
      BaseIn(targets[..k], targets[k].pkgbase);
      assert targets[k].pkgbase !in RefusedFor(targets[..k], refused);
      hide *;
      DropCounts(targets[..k], refused, b);
      DropStep(targets, refused, b);
    }
  }

  ghost predicate Refuses(refused: map<string, string>, t: Target, n: string) {
    n in refused && (n == t.pkgbase || n in t.pkgnames)
  }

  ghost predicate AnyRefused(t: Target, refused: map<string, string>) {
    exists n :: Refuses(refused, t, n)
  }

  /** The reason given for that refused name of `t` which sorts first. */
  ghost predicate FirstReason(t: Target, refused: map<string, string>, why: string) {
    exists n :: Refuses(refused, t, n) && why == refused[n] && forall m :: Refuses(refused, t, m) ==> Le(n, m)
  }

  function RefusalOf(t: Target, refused: map<string, string>): (why: string)
    requires Hit(t, refused) != {}
    ensures FirstReason(t, refused, why)
  {
    assert multiset(Hit(t, refused)) != multiset{} by {
      var n :| n in Hit(t, refused);
      assert n in multiset(Hit(t, refused));
    }
    var name := Least(multiset(Hit(t, refused)));
    assert name in Hit(t, refused);
    refused[name]
  }

  /** A pkgbase ends in exactly one of the five lists. */
  ghost predicate Partitions(bases: seq<string>, o: Outcome) {
    forall b :: Count(bases, b) == Count(o.built, b) + Count(o.failed, b) + Count(o.pgoSkipped, b)
                                 + Count(o.reviewSkipped, b) + Listed(o.reviewRefused, b)
  }

  lemma SameCounts(a: seq<Target>, b: seq<Target>)
    requires multiset(a) == multiset(b) && NoDup(Bases(a)) && NoDup(Bases(b)) && Elems(Bases(a)) == Elems(Bases(b))
    ensures forall x :: Count(Bases(a), x) == Count(Bases(b), x)
    ensures forall t :: t in b ==> t in a
  {
    assert forall t :: t in b ==> t in multiset(b);
    forall x ensures Count(Bases(a), x) == Count(Bases(b), x) {
      CountNoDup(Bases(a), x);
      CountNoDup(Bases(b), x);
      assert x in Bases(a) <==> x in Elems(Bases(a));
    }
  }

  lemma FewerTargets(targets: seq<Target>, still: seq<Target>)
    requires NoDup(Bases(targets)) && NoDup(Bases(still)) && forall t :: t in still ==> t in targets
    ensures |still| <= |targets|
  {
    forall b | b in Elems(Bases(still)) ensures b in Elems(Bases(targets)) {
      BaseIn(still, b);
      BaseIn(targets, b);
    }
    NoDupSize(Bases(still));
    NoDupSize(Bases(targets));
    SubsetSize(Elems(Bases(still)), Elems(Bases(targets)));
  }

  /** Build a gated and ordered batch and settle the records of what was refused. */
  method BuildBatch(file: StateFile, c: Setup, run: seq<Target>, events: seq<BuildEvent>,
                    prior: map<string, Option<Entry>>)
    returns (o: Outcome)
    requires |run| <= |events|
    modifies file
    ensures file.store == FinalStore(c, old(file.store), run, events, prior)
    ensures ReportsRun(o, RunAll(c, old(file.store), run, events))
    ensures o.reviewSkipped == [] && o.reviewRefused == map[] && !o.aborted
    ensures forall b :: Count(Bases(run), b) == Count(o.built, b) + Count(o.failed, b) + Count(o.pgoSkipped, b)
    ensures NoDup(Bases(run)) ==> Splits(run, events, |run|, o.built, o.failed, o.pgoSkipped)
  {
    var acc := new Accumulators();
    acc.Run(file, c, run, events);
    RunPartitions(c, old(file.store), run, events);
    hide RunAll, Count, Splits, Collects, NoDup;
    var refused := acc.refused;
    RevertUninstalled(file, Files(refused), prior);
    var baseOf := PkgbaseOf(acc.filesOf, acc.built);
    var byBase := NotInstalledByPkgbase(refused, baseOf);
    o := Outcome(acc.built, acc.failed, acc.pgoSkipped, acc.installed, refused != [], byBase, [], map[], false);
  }

  /** The outcome reports what the run did. */
  ghost predicate ReportsRun(o: Outcome, p: Progress) {
    && o.built == p.built && o.failed == p.failed && o.pgoSkipped == p.pgoSkipped
    && o.installed == p.installed && (o.installFailed <==> p.refused != [])
    && Folded(o.notInstalled, p.refused, BaseOf(p.filesOf, p.built))
  }

  lemma RunPartitions(c: Setup, s: Store, run: seq<Target>, events: seq<BuildEvent>)
    requires |run| <= |events|
    ensures var p := RunAll(c, s, run, events);
            forall b :: Count(Bases(run), b) == Count(p.built, b) + Count(p.failed, b) + Count(p.pgoSkipped, b)
  {
    JitKeepsNothingElse(c, s, run, events);
    hide RunAll, BuildFirst, Count;
    assert Bases(run)[..|run|] == Bases(run);
    var p := RunAll(c, s, run, events);
    forall b ensures Count(Bases(run), b) == Count(p.built, b) + Count(p.failed, b) + Count(p.pgoSkipped, b) {
      BuildPartitions(c, s, run, events, |run|, b);
    }
  }

  lemma JitKeepsNothingElse(c: Setup, s: Store, run: seq<Target>, events: seq<BuildEvent>)
    requires |run| <= |events|
    ensures var p, q := RunAll(c, s, run, events), BuildFirst(c, s, run, events, |run|);
            p.built == q.built && p.failed == q.failed && p.pgoSkipped == q.pgoSkipped
  {
  }

  function OwnFiles(filesOf: map<string, seq<File>>, base: string): seq<File> {
    if base in filesOf then filesOf[base] else []
  }

  /** Each built file and the pkgbase it belongs to; a later one wins. */
  function BaseOf(filesOf: map<string, seq<File>>, built: seq<string>): map<File, string> {
    if built == [] then map[]
    else
      var k := |built| - 1;
      BaseOf(filesOf, built[..k]) + map f | f in OwnFiles(filesOf, built[k]) :: built[k]
  }

  /** The k-th built target is the last one with the file. */
  ghost predicate OwnedBy(filesOf: map<string, seq<File>>, built: seq<string>, f: File, k: int) {
    && 0 <= k < |built| && built[k] in filesOf && f in filesOf[built[k]]
    && forall l :: k < l < |built| && built[l] in filesOf ==> f !in filesOf[built[l]]
  }

  lemma OwnedNext(filesOf: map<string, seq<File>>, built: seq<string>, f: File, l: int)
    requires built != []
    ensures var k := |built| - 1;
            OwnedBy(filesOf, built, f, l) <==>
            if f in OwnFiles(filesOf, built[k]) then l == k else OwnedBy(filesOf, built[..k], f, l)
  {
  }

  lemma BaseOfNext(filesOf: map<string, seq<File>>, built: seq<string>, f: File)
    requires built != []
    ensures var k := |built| - 1;
            var r, rest := BaseOf(filesOf, built), BaseOf(filesOf, built[..k]);
            if f in OwnFiles(filesOf, built[k]) then f in r && r[f] == built[k]
            else (f in r <==> f in rest) && (f in r ==> r[f] == rest[f])
  {
  }

  lemma {:induction false} BaseOfIs(filesOf: map<string, seq<File>>, built: seq<string>, f: File)
    ensures forall k :: OwnedBy(filesOf, built, f, k) ==>
              f in BaseOf(filesOf, built) && BaseOf(filesOf, built)[f] == built[k]
    ensures f in BaseOf(filesOf, built) ==> exists k :: OwnedBy(filesOf, built, f, k)
  {
    if built != [] {
      var k := |built| - 1;
      BaseOfIs(filesOf, built[..k], f);
      BaseOfNext(filesOf, built, f);
      forall l ensures OwnedBy(filesOf, built, f, l) <==>
          if f in OwnFiles(filesOf, built[k]) then l == k else OwnedBy(filesOf, built[..k], f, l)
      {
        OwnedNext(filesOf, built, f, l);
      }
      assert f in OwnFiles(filesOf, built[k]) ==> OwnedBy(filesOf, built, f, k);
      hide OwnFiles, OwnedBy;
    }
  }

  method PkgbaseOf(filesOf: map<string, seq<File>>, built: seq<string>) returns (baseOf: map<File, string>)
    ensures baseOf == BaseOf(filesOf, built)
    ensures forall f, k :: OwnedBy(filesOf, built, f, k) ==> f in baseOf && baseOf[f] == built[k]
    ensures forall f :: f in baseOf ==> exists k :: OwnedBy(filesOf, built, f, k)
  {
    baseOf := map[];
    for i := 0 to |built|
      invariant baseOf == BaseOf(filesOf, built[..i])
    {
      assert built[..i + 1][..i] == built[..i];
      var files := OwnFiles(filesOf, built[i]);
      baseOf := baseOf + map f | f in files :: built[i];
    }
    assert built[..|built|] == built;
    forall f
      ensures forall k :: OwnedBy(filesOf, built, f, k) ==> f in baseOf && baseOf[f] == built[k]
      ensures f in baseOf ==> exists k :: OwnedBy(filesOf, built, f, k)
    {
      BaseOfIs(filesOf, built, f);
    }
  }

  // ---------------------------------------------------------------------
  // The whole call
  // ---------------------------------------------------------------------

  /** What the outside world answers to one call. */
  datatype Answers = Answers(w: World, decisions: seq<Decision>, deps: DepReply, events: seq<BuildEvent>)

  /** One call: its outcome, the batch in build order before and after the dependency refusals, all edges of the
      batch, and the surroundings of the build loop. */
  datatype Call = Call(o: Outcome, ordered: seq<Target>, run: seq<Target>, intra: IntraDeps, c: Setup)

  function RefusedDeps(x: Answers): map<string, string> {
    if x.deps.DepsReady? then x.deps.refused else map[]
  }

  /** The verdict on a target once the dependencies are known, too. */
  function Judged(t: Target, d: Decision, refused: map<string, string>): (r: Decision)
    ensures !(d.Keep? && AnyRefused(t, refused)) ==> r == d
    ensures d.Keep? && AnyRefused(t, refused) ==> r.Refuse? && FirstReason(t, refused, r.why)
  {
    HitIs(t, refused);
    if d.Keep? && Hit(t, refused) != {} then Refuse(RefusalOf(t, refused)) else d
  }

  ghost predicate Answered(x: Answers, targets: seq<Target>) {
    |targets| <= |x.decisions| && |targets| <= |x.events|
  }

  /** When the call aborts, and what it does with each target when it does not. */
  ghost predicate Gates(x: Answers, targets: seq<Target>, r: Call)
    requires Answered(x, targets)
  {
    && (r.o.aborted <==>
          AnyAbort(targets, x.decisions) || (x.deps.DepAbort? && Reviewed(targets, x.decisions) != []))
    && (r.o.aborted ==> r.run == [])
    && (!r.o.aborted ==> r.o.reviewSkipped == SkippedBy(targets, x.decisions))
    && (!r.o.aborted ==> forall i :: 0 <= i < |targets| ==>
          Placed(targets[i], Judged(targets[i], x.decisions[i], RefusedDeps(x)),
                 r.run, r.o.reviewSkipped, r.o.reviewRefused))
  }

  /** In which order the kept targets are built. */
  ghost predicate Orders(x: Answers, parse: Target -> Option<Meta>, targets: seq<Target>, r: Call)
    requires Answered(x, targets)
  {
    && OrderedAs(Reviewed(targets, x.decisions), parse, r.ordered, r.intra)
    && r.run == Unrefused(r.ordered, RefusedDeps(x))
    && NoDup(Bases(r.run))
    && Links(Reviewed(targets, x.decisions), parse, r.run, r.c.intra)
    && (!Cyclic(r.intra) ==> DepsFirst(Bases(r.run), r.c.intra))
  }

  /** The edges the loop goes by: exactly the build dependencies between targets
      that are still in the batch. */
  ghost predicate Links(kept: seq<Target>, parse: Target -> Option<Meta>, run: seq<Target>, intra: IntraDeps) {
    && (forall t, d :: t in run ==>
          (d in Deps(intra, t.pkgbase) <==> d in Bases(run) && NeedsMember(kept, parse, t, d)))
    && (forall b :: b in intra ==> b in Bases(run))
  }

  lemma LinksStay(kept: seq<Target>, parse: Target -> Option<Meta>, ordered: seq<Target>, intra: IntraDeps,
                  run: seq<Target>)
    requires OrderedAs(kept, parse, ordered, intra) && forall t :: t in run ==> t in kept
    ensures Links(kept, parse, run, Restrict(intra, Elems(Bases(run))))
  {
    hide InBatch, Cyclic, DepsFirst, StaticOrder, NeedsMember, NoDup;
    var bases := Bases(run);
    var left := Restrict(intra, Elems(bases));
    forall t, d | t in run ensures d in Deps(left, t.pkgbase) <==> d in bases && NeedsMember(kept, parse, t, d) {
      var i :| 0 <= i < |run| && run[i] == t;
      assert bases[i] == t.pkgbase && t.pkgbase in Elems(bases);
      assert d in Deps(left, t.pkgbase) <==> d in Deps(intra, t.pkgbase) && d in Elems(bases);
    }
  }

  /** What the build loop then does, in the outcome and in the state file. */
  ghost predicate Carries(x: Answers, before: Store, after: Store, r: Call) {
    if r.run == [] then
      && after == before && r.o.built == r.o.failed == r.o.pgoSkipped == [] && r.o.installed == []
      && !r.o.installFailed && r.o.notInstalled == map[]
    else
      && |r.run| <= |x.events|
      && r.c == Setup(x.w, Pkgnames(r.run), Restrict(r.intra, Elems(Bases(r.run))))
      && after == FinalStore(r.c, before, r.run, x.events, Snapshot(before, Pkgnames(r.ordered)))
      && ReportsRun(r.o, RunAll(r.c, before, r.run, x.events))
      && Splits(r.run, x.events, |r.run|, r.o.built, r.o.failed, r.o.pgoSkipped)
  }

  /** `build_and_install` */
  method BuildAndInstall(file: StateFile, targets: seq<Target>, parse: Target -> Option<Meta>, x: Answers)
    returns (r: Call)
    requires NoDup(Bases(targets)) && Answered(x, targets)
    modifies file
    ensures Gates(x, targets, r)
    ensures !r.o.aborted ==> Orders(x, parse, targets, r)
    ensures Carries(x, old(file.store), file.store, r)
    ensures !r.o.aborted ==> Partitions(Bases(targets), r.o)
  {
    hide *;
    EnoughAnswers(x, targets);
    var kept, skipped, refused, aborted := ReviewGate(targets, x.decisions);
    var o := NOTHING.(reviewSkipped := skipped, reviewRefused := refused, aborted := aborted);
    r := Call(o, [], [], map[], Setup(x.w, {}, map[]));
    if aborted || kept == [] {
      EarlyEnd(file.store, targets, parse, x, r);
      return;
    }
    KeptIsSound(targets, x.decisions);
    var ordered, intra := OrderTargets(kept, parse);
    var snapshotted := Pkgnames(ordered);
    var prior := Snapshot(file.store, snapshotted);
    if x.deps.DepAbort? {
      r := r.(o := o.(aborted := true));
      DepEnd(file.store, targets, x, r);
      return;
    }
    OrderedIsSound(targets, x, parse, ordered, intra);
    var run, reviewRefused := DropRefused(ordered, x.deps.refused, refused);
    o := o.(reviewRefused := reviewRefused);
    r := Call(o, ordered, run, intra, Setup(x.w, Pkgnames(run), Restrict(intra, Elems(Bases(run)))));
    GatedIsSound(targets, x, parse, r);
    if run == [] {
      NothingLeft(file.store, targets, x, r);
      return;
    }
    var built := BuildBatch(file, r.c, run, x.events, prior);
    r := r.(o := built.(reviewSkipped := skipped, reviewRefused := reviewRefused));
    BuiltIsSound(old(file.store), file.store, targets, x, parse, o, built, r);
  }

  lemma EnoughAnswers(x: Answers, targets: seq<Target>)
    requires Answered(x, targets)
    ensures |targets| <= |x.decisions| && |targets| <= |x.events|
  {
  }

  /** The call ends at the review gate. */
  lemma EarlyEnd(s: Store, targets: seq<Target>, parse: Target -> Option<Meta>, x: Answers, r: Call)
    requires NoDup(Bases(targets)) && Answered(x, targets)
    requires r.run == [] && r.ordered == [] && r.intra == map[] && r.c == Setup(x.w, {}, map[])
    requires r.o == NOTHING.(reviewSkipped := r.o.reviewSkipped, reviewRefused := r.o.reviewRefused,
        aborted := r.o.aborted)
    requires r.o.aborted <==> AnyAbort(targets, x.decisions)
    requires !r.o.aborted ==>
               && Reviewed(targets, x.decisions) == []
               && r.o.reviewSkipped == SkippedBy(targets, x.decisions)
                   && r.o.reviewRefused == RefusedBy(targets, x.decisions)
    ensures Gates(x, targets, r) && (!r.o.aborted ==> Orders(x, parse, targets, r)) && Carries(x, s, s, r)
    ensures !r.o.aborted ==> Partitions(Bases(targets), r.o)
  {
    if !r.o.aborted {
      GatePlaces(targets, x.decisions);
      forall b ensures Count(Bases(targets), b) == GateCount(targets, x.decisions, b) {
        GateCounts(targets, x.decisions, b);
      }
      assert !Cyclic(map[]) by {
        assert forall c :: IsCycle(map[], c) ==> c[1] in Deps(map[], c[0]);
      }
    }
  }

  lemma KeptIsSound(targets: seq<Target>, decisions: seq<Decision>)
    requires |targets| <= |decisions| && NoDup(Bases(targets)) && !AnyAbort(targets, decisions)
    ensures var kept := Reviewed(targets, decisions);
            NoDup(Bases(kept)) && RefusedBy(targets, decisions).Keys !! Elems(Bases(kept))
  {
    forall b ensures Count(Bases(targets), b) == GateCount(targets, decisions, b) {
      GateCounts(targets, decisions, b);
    }
    hide Reviewed, SkippedBy, RefusedBy, Count, Listed;
    KeptBases(targets, Reviewed(targets, decisions), SkippedBy(targets, decisions), RefusedBy(targets, decisions));
  }

  /** The dependency preparation aborts. */
  lemma DepEnd(s: Store, targets: seq<Target>, x: Answers, r: Call)
    requires Answered(x, targets) && x.deps.DepAbort? && Reviewed(targets, x.decisions) != []
    requires r.run == []
    requires r.o == NOTHING.(reviewSkipped := r.o.reviewSkipped, reviewRefused := r.o.reviewRefused, aborted := true)
    ensures Gates(x, targets, r) && Carries(x, s, s, r)
  {
  }

  /** Sorting moves targets and no more. */
  lemma OrderedIsSound(targets: seq<Target>, x: Answers,
                       parse: Target -> Option<Meta>, ordered: seq<Target>, intra: IntraDeps)
    requires NoDup(Bases(targets)) && Answered(x, targets) && !AnyAbort(targets, x.decisions)
    requires OrderedAs(Reviewed(targets, x.decisions), parse, ordered, intra)
    ensures NoDup(Bases(ordered)) && RefusedBy(targets, x.decisions).Keys !! Elems(Bases(ordered))
    ensures forall b :: Count(Bases(Reviewed(targets, x.decisions)), b) == Count(Bases(ordered), b)
    ensures forall t :: t in ordered <==> t in Reviewed(targets, x.decisions)
  {
    var kept := Reviewed(targets, x.decisions);
    KeptIsSound(targets, x.decisions);
    hide Reviewed, RefusedBy, AnyAbort, Count, StaticOrder, Cyclic, DepsFirst, NeedsMember;
    SameCounts(kept, ordered);
    SameCounts(ordered, kept);
  }

  /** Gate and dependency refusals together put every target in its place. */
  lemma PlacedInTheEnd(targets: seq<Target>, x: Answers,
                       parse: Target -> Option<Meta>, ordered: seq<Target>, intra: IntraDeps, i: nat)
    requires NoDup(Bases(targets)) && Answered(x, targets) && !AnyAbort(targets, x.decisions) && i < |targets|
    requires OrderedAs(Reviewed(targets, x.decisions), parse, ordered, intra) && x.deps.DepsReady?
    ensures Placed(targets[i], Judged(targets[i], x.decisions[i], x.deps.refused),
                   Unrefused(ordered, x.deps.refused), SkippedBy(targets, x.decisions),
                   RefusedBy(targets, x.decisions) + RefusedFor(ordered, x.deps.refused))
  {
    var t, refused := targets[i], x.deps.refused;
    GatePlace(targets, x.decisions, i);
    OrderedIsSound(targets, x, parse, ordered, intra);
    DroppedAre(ordered, refused, RefusedBy(targets, x.decisions));
    RefusedForNames(ordered, refused, t.pkgbase);
    UnrefusedMembers(ordered, refused, t);
    GateMembers(targets, x.decisions);
    OneTargetPerBase(targets);
    hide Reviewed, RefusedBy, RefusedFor, SkippedBy, Unrefused, OrderedAs, Bases, Hit, RefusalOf, AnyAbort, NoDup,
        Count;
    if !x.decisions[i].Keep? {
      NoOtherTarget(targets, x.decisions, ordered, i);
    }
  }

  /** A target that is not kept has no namesake in the sorted batch. */
  lemma NoOtherTarget(targets: seq<Target>, decisions: seq<Decision>, ordered: seq<Target>, i: nat)
    requires i < |targets| <= |decisions| && !decisions[i].Keep?
    requires forall x, y :: 0 <= x < |targets| && 0 <= y < |targets| && targets[x].pkgbase == targets[y].pkgbase ==>
        x == y
    requires forall t :: t in ordered <==> t in Reviewed(targets, decisions)
    ensures forall j :: 0 <= j < |ordered| ==> ordered[j].pkgbase != targets[i].pkgbase
  {
    GateMembers(targets, decisions);
    hide Reviewed, SkippedBy, RefusedBy;
    forall j | 0 <= j < |ordered| ensures ordered[j].pkgbase != targets[i].pkgbase {
      assert ordered[j] in ordered;
    }
  }

  /** Gate and dependency refusals together lose nobody. */
  lemma CountedInTheEnd(targets: seq<Target>, x: Answers,
                        parse: Target -> Option<Meta>, ordered: seq<Target>, intra: IntraDeps, b: string)
    requires NoDup(Bases(targets)) && Answered(x, targets) && !AnyAbort(targets, x.decisions)
    requires OrderedAs(Reviewed(targets, x.decisions), parse, ordered, intra) && x.deps.DepsReady?
    ensures Count(Bases(targets), b)
         == Count(Bases(Unrefused(ordered, x.deps.refused)), b) + Count(SkippedBy(targets, x.decisions), b)
            + Listed(RefusedBy(targets, x.decisions) + RefusedFor(ordered, x.deps.refused), b)
  {
    var refused := x.deps.refused;
    OrderedIsSound(targets, x, parse, ordered, intra);
    GateCounts(targets, x.decisions, b);
    DropCounts(ordered, refused, b);
    RefusedForNames(ordered, refused, b);
    BaseIn(ordered, b);
    hide Reviewed, RefusedBy, RefusedFor, SkippedBy, Unrefused, OrderedAs, Hit, RefusalOf, AnyAbort, Count;
    if b in RefusedBy(targets, x.decisions) {
      assert b !in Elems(Bases(ordered));
    }
  }

  lemma GatedIsSound(targets: seq<Target>, x: Answers, parse: Target -> Option<Meta>, r: Call)
    requires NoDup(Bases(targets)) && Answered(x, targets) && !AnyAbort(targets, x.decisions)
    requires OrderedAs(Reviewed(targets, x.decisions), parse, r.ordered, r.intra) && x.deps.DepsReady?
    requires r.run == Unrefused(r.ordered, x.deps.refused) && r.c.intra == Restrict(r.intra, Elems(Bases(r.run)))
    requires !r.o.aborted && r.o.reviewSkipped == SkippedBy(targets, x.decisions)
    requires r.o.reviewRefused == RefusedBy(targets, x.decisions) + RefusedFor(r.ordered, x.deps.refused)
    ensures Gates(x, targets, r) && Orders(x, parse, targets, r) && NoDup(Bases(r.run)) && |r.run| <= |x.events|
    ensures forall b :: Count(Bases(targets), b)
                     == Count(Bases(r.run), b) + Count(r.o.reviewSkipped, b) + Listed(r.o.reviewRefused, b)
  {
    forall b ensures Count(Bases(targets), b)
                  == Count(Bases(r.run), b) + Count(r.o.reviewSkipped, b) + Listed(r.o.reviewRefused, b) {
      CountedInTheEnd(targets, x, parse, r.ordered, r.intra, b);
    }
    forall i | 0 <= i < |targets|
      ensures Placed(targets[i], Judged(targets[i], x.decisions[i], RefusedDeps(x)), r.run, r.o.reviewSkipped,
          r.o.reviewRefused)
    {
      PlacedInTheEnd(targets, x, parse, r.ordered, r.intra, i);
    }
    KeptBases(targets, r.run, r.o.reviewSkipped, r.o.reviewRefused);
    RunIsFromTargets(targets, x, parse, r);
    FewerTargets(targets, r.run);
    if !Cyclic(r.intra) {
      RefusalKeepsOrder(r.ordered, x.deps.refused, r.intra);
    }
    RunLinks(targets, x, parse, r);
    hide Links, OrderedAs, Restrict, Bases, Elems, NoDup, Partitions;
    hide Reviewed, RefusedBy, RefusedFor, SkippedBy, Unrefused, Placed, Hit, RefusalOf, AnyAbort, Count, Cyclic,
        DepsFirst, Judged;
  }

  lemma RunLinks(targets: seq<Target>, x: Answers, parse: Target -> Option<Meta>, r: Call)
    requires NoDup(Bases(targets)) && Answered(x, targets) && !AnyAbort(targets, x.decisions)
    requires OrderedAs(Reviewed(targets, x.decisions), parse, r.ordered, r.intra)
    requires r.run == Unrefused(r.ordered, RefusedDeps(x)) && r.c.intra == Restrict(r.intra, Elems(Bases(r.run)))
    ensures Links(Reviewed(targets, x.decisions), parse, r.run, r.c.intra)
  {
    OrderedIsSound(targets, x, parse, r.ordered, r.intra);
    hide *;
    forall t | t in r.run ensures t in Reviewed(targets, x.decisions) {
      UnrefusedMembers(r.ordered, RefusedDeps(x), t);
    }
    LinksStay(Reviewed(targets, x.decisions), parse, r.ordered, r.intra, r.run);
  }

  lemma RunIsFromTargets(targets: seq<Target>, x: Answers, parse: Target -> Option<Meta>, r: Call)
    requires NoDup(Bases(targets)) && Answered(x, targets) && !AnyAbort(targets, x.decisions)
    requires OrderedAs(Reviewed(targets, x.decisions), parse, r.ordered, r.intra)
    requires r.run == Unrefused(r.ordered, RefusedDeps(x))
    ensures forall t :: t in r.run ==> t in targets
  {
    OrderedIsSound(targets, x, parse, r.ordered, r.intra);
    GateMembers(targets, x.decisions);
    hide Reviewed, RefusedBy, SkippedBy, Unrefused, OrderedAs, AnyAbort, Count, Hit;
    forall t | t in r.run ensures t in targets {
      UnrefusedMembers(r.ordered, RefusedDeps(x), t);
    }
  }

  /** All targets are refused because of their dependencies. */
  lemma NothingLeft(s: Store, targets: seq<Target>, x: Answers, r: Call)
    requires Answered(x, targets) && r.run == []
    requires r.o == NOTHING.(reviewSkipped := r.o.reviewSkipped, reviewRefused := r.o.reviewRefused, aborted := false)
    requires forall b :: Count(Bases(targets), b)
                      == Count(Bases(r.run), b) + Count(r.o.reviewSkipped, b) + Listed(r.o.reviewRefused, b)
    ensures Carries(x, s, s, r) && Partitions(Bases(targets), r.o)
  {
    assert Bases(r.run) == [];
  }

  /** The outcome of the build loop under the lists of the gates. */
  lemma BuiltIsSound(before: Store, after: Store, targets: seq<Target>, x: Answers, parse: Target -> Option<Meta>,
                     gated: Outcome, built: Outcome, r: Call)
    requires Answered(x, targets) && r.run != [] && |r.run| <= |x.events| && !gated.aborted
    requires Gates(x, targets, r.(o := gated)) && Orders(x, parse, targets, r.(o := gated))
    requires r.o == built.(reviewSkipped := gated.reviewSkipped, reviewRefused := gated.reviewRefused) && !built.aborted
    requires r.c == Setup(x.w, Pkgnames(r.run), Restrict(r.intra, Elems(Bases(r.run))))
    requires after == FinalStore(r.c, before, r.run, x.events, Snapshot(before, Pkgnames(r.ordered)))
    requires ReportsRun(built, RunAll(r.c, before, r.run, x.events))
    requires Splits(r.run, x.events, |r.run|, built.built, built.failed, built.pgoSkipped)
    requires forall b ::
               Count(Bases(r.run), b) == Count(built.built, b) + Count(built.failed, b) + Count(built.pgoSkipped, b)
    requires forall b :: Count(Bases(targets), b)
                      == Count(Bases(r.run), b) + Count(gated.reviewSkipped, b) + Listed(gated.reviewRefused, b)
    ensures Gates(x, targets, r) && Orders(x, parse, targets, r) && Carries(x, before, after, r)
    ensures Partitions(Bases(targets), r.o)
  {
    hide Placed, Judged, OrderedAs, Unrefused, Cyclic, DepsFirst, FinalStore, RunAll, Count, Reviewed, SkippedBy,
        AnyAbort, Folded, Splits, Links;
  }

  // ---------------------------------------------------------------------
  // Order across refusals
  // ---------------------------------------------------------------------

  lemma {:induction false} UnrefusedPrefix(targets: seq<Target>, refused: map<string, string>, n: nat)
    requires n <= |targets|
    ensures Unrefused(targets[..n], refused) <= Unrefused(targets, refused)
    decreases |targets| - n
  {
    hide Hit;
    if n == |targets| {
      assert targets[..n] == targets;
    } else {
      UnrefusedPrefix(targets, refused, n + 1);
      assert targets[..n + 1][..n] == targets[..n];
    }
  }

  /** Dropping targets moves none of the others past each other. */
  lemma KeptBefore(ordered: seq<Target>, refused: map<string, string>, j: nat, n: nat, d: string)
    requires j < |ordered| && NoDup(Bases(ordered))
    requires var run := Unrefused(ordered, refused); n < |run| && run[n] == ordered[j] && d in Bases(run)
    requires d in Bases(ordered)[..j]
    ensures d in Bases(Unrefused(ordered, refused))[..n]
  {
    hide Hit;
    var run, before := Unrefused(ordered, refused), Unrefused(ordered[..j], refused);
    KeptAt(ordered, refused, j, n);
    KeptInPrefix(ordered, refused, j, d);
    UnrefusedPrefix(ordered, refused, j);
    assert Bases(before) == Bases(run)[..n];
  }

  /** A kept target stands behind those kept before it. */
  lemma KeptAt(ordered: seq<Target>, refused: map<string, string>, j: nat, n: nat)
    requires j < |ordered| && NoDup(Bases(ordered))
    requires var run := Unrefused(ordered, refused); n < |run| && run[n] == ordered[j]
    ensures |Unrefused(ordered[..j], refused)| == n
  {
    hide Hit;
    var run, before := Unrefused(ordered, refused), Unrefused(ordered[..j], refused);
    UnrefusedPrefix(ordered, refused, j + 1);
    assert ordered[..j + 1][..j] == ordered[..j];
    UnrefusedMembers(ordered, refused, run[n]);
    assert run[n] in run;
    assert run[|before|] == run[n];
    UnrefusedIsNoDup(ordered, refused);
    OneTargetPerBase(run);
  }

  lemma UnrefusedIsNoDup(targets: seq<Target>, refused: map<string, string>)
    requires NoDup(Bases(targets))
    ensures NoDup(Bases(Unrefused(targets, refused)))
  {
    forall b ensures Count(Bases(Unrefused(targets, refused)), b) <= 1 {
      DropCounts(targets, refused, b);
      CountNoDup(Bases(targets), b);
    }
    CountsNoDup(Bases(Unrefused(targets, refused)));
  }

  /** Whatever was refused in between: a batch member that is still built and
      that a target transitively build-depends on, through refused targets or not,
      has been attempted when that target starts to build. */
  lemma AttemptedAcrossRefusals(x: Answers,
                                parse: Target -> Option<Meta>, targets: seq<Target>, before: Store, after: Store,
                                r: Call, n: nat, path: seq<string>)
    requires Answered(x, targets) && Orders(x, parse, targets, r) && Carries(x, before, after, r) && !Cyclic(r.intra)
    requires n < |r.run| && DepPath(r.intra, path) && |path| >= 2 && path[0] == r.run[n].pkgbase
    requires path[|path| - 1] in Bases(r.run)
    ensures Attempts(BeforeBuild(r.c, before, r.run, x.events, n), path[|path| - 1]) == 1
  {
    hide *;
    OrdersRun(x, parse, targets, before, after, r);
    KeptPathPrecedes(r.ordered, r.intra, RefusedDeps(x), r.run, n, path);
    AttemptedBefore(r.c, before, r.run, x.events, n, path[|path| - 1]);
  }

  lemma KeptPathPrecedes(ordered: seq<Target>, intra: IntraDeps, refused: map<string, string>, run: seq<Target>,
                         n: nat, path: seq<string>)
    requires NoDup(Bases(ordered)) && DepsFirst(Bases(ordered), intra) && run == Unrefused(ordered, refused)
    requires n < |run| && DepPath(intra, path) && |path| >= 2 && path[0] == run[n].pkgbase
    requires path[|path| - 1] in Bases(run)
    ensures path[|path| - 1] in Bases(run)[..n]
  {
    hide *;
    UnrefusedMembers(ordered, refused, run[n]);
    assert run[n] in run;
    var j :| 0 <= j < |ordered| && ordered[j] == run[n];
    BasesAt(ordered, j);
    PathPrecedes(Bases(ordered), intra, path, j);
    KeptBefore(ordered, refused, j, n, path[|path| - 1]);
  }

  lemma BasesAt(targets: seq<Target>, j: nat)
    requires j < |targets|
    ensures j < |Bases(targets)| && Bases(targets)[j] == targets[j].pkgbase
  {
  }

  lemma OrdersRun(x: Answers, parse: Target -> Option<Meta>, targets: seq<Target>, before: Store, after: Store,
                  r: Call)
    requires Answered(x, targets) && Orders(x, parse, targets, r) && Carries(x, before, after, r) && !Cyclic(r.intra)
    ensures r.run == Unrefused(r.ordered, RefusedDeps(x)) && NoDup(Bases(r.run)) && NoDup(Bases(r.ordered))
    ensures DepsFirst(Bases(r.ordered), r.intra) && |r.run| <= |x.events|
  {
    hide Unrefused, Cyclic, FinalStore, ReportsRun, RunAll, StaticOrder, DepsFirst, Links, Splits, NeedsMember, NoDup,
        InBatch, Restrict;
  }

  lemma AttemptedBefore(c: Setup, s: Store, run: seq<Target>, events: seq<BuildEvent>, n: nat, d: string)
    requires n < |run| && n < |events| && NoDup(Bases(run)) && d in Bases(run)[..n]
    ensures Attempts(BeforeBuild(c, s, run, events, n), d) == 1
  {
    hide BuildFirst, JitInstall, Count;
    JitKeepsLists(c, BuildFirst(c, s, run, events, n), run[n]);
    BuildPartitions(c, s, run, events, n, d);
    DepCountedOnce(Bases(run), n, d);
  }

  /** The member `d` that a kept target build-depends on is built before it, and
      each file `d` brought has been given to an install call when the build of the
      dependent starts. */
  lemma DependencyHandedOver(x: Answers, parse: Target -> Option<Meta>, targets: seq<Target>, before: Store,
                             after: Store, r: Call, n: nat, i: nat, f: File)
    requires Answered(x, targets) && Orders(x, parse, targets, r) && Carries(x, before, after, r) && !Cyclic(r.intra)
    requires n < |r.run| && i < |r.run|
    requires NeedsMember(Reviewed(targets, x.decisions), parse, r.run[n], r.run[i].pkgbase)
    requires Yields(r.run[i], x.events[i], f)
    ensures i < n && Given(BeforeBuild(r.c, before, r.run, x.events, n), f)
  {
    var c, run, d := r.c, r.run, r.run[i].pkgbase;
    hide OrderedAs, Unrefused, FinalStore, ReportsRun, Splits, NeedsMember, Cyclic, Yields;
    DirectLink(Reviewed(targets, x.decisions), parse, run, c.intra, n, i);
    hide *;
    YieldsStay(c, before, run, x.events, n, i, f);
    var path := [run[n].pkgbase, d];
    LinkIsPath(c.intra, run[n].pkgbase, d);
    DepsReadyBeforeBuild(c, before, run, x.events, n, path);
  }

  lemma LinkIsPath(intra: IntraDeps, b: string, d: string)
    requires d in Deps(intra, b)
    ensures DepPath(intra, [b, d])
  {
  }

  lemma DirectLink(kept: seq<Target>, parse: Target -> Option<Meta>, run: seq<Target>, intra: IntraDeps, n: nat,
                   i: nat)
    requires n < |run| && i < |run| && NoDup(Bases(run))
    requires Links(kept, parse, run, intra) && DepsFirst(Bases(run), intra)
    requires NeedsMember(kept, parse, run[n], run[i].pkgbase)
    ensures i < n && run[i].pkgbase in Deps(intra, run[n].pkgbase)
  {
    hide NeedsMember;
    assert Bases(run)[i] in Bases(run) && run[n] in run;
    assert Bases(run)[i] in Deps(intra, Bases(run)[n]);
    var m :| 0 <= m < n && Bases(run)[m] == Bases(run)[i];
  }

  /** What an earlier target brought is still known when a later one starts. */
  lemma YieldsStay(c: Setup, s: Store, run: seq<Target>, events: seq<BuildEvent>, n: nat, i: nat, f: File)
    requires i < n < |run| && n < |events| && NoDup(Bases(run)) && Yields(run[i], events[i], f)
    ensures f in FilesOf(BeforeBuild(c, s, run, events, n), run[i].pkgbase)
  {
    BuildCollects(c, s, run, events, n);
    JitKeepsLists(c, BuildFirst(c, s, run, events, n), run[n]);
    hide BuildFirst, JitInstall, Fails, NoDup;
    assert YieldsAt(run[i], events[i], BuildFirst(c, s, run, events, n).filesOf);
  }

  /** `c` needs `b`, and `b` needs `a`. If `b` is refused, `a` is built, but nothing
      hands it over before `c` builds. */
  lemma RefusedLinkBreaks(w: World, s: Store, f: File, e: BuildEvent)
    ensures var a, b, c := Target("a", ["a"], false), Target("b", ["b"], false), Target("c", ["c"], false);
            var ordered, intra := [a, b, c], map["b" := {"a"}, "c" := {"b"}];
            var run := Unrefused(ordered, map["b" := "unreviewed"]);
            var setup := Setup(w, Pkgnames(run), Restrict(intra, Elems(Bases(run))));
            && DepsFirst(Bases(ordered), intra) && DepPath(intra, ["c", "b", "a"]) && run == [a, c]
            && var q := BeforeBuild(setup, s, run, [Built([f], [], false), e], 1);
               f in FilesOf(q, "a") && !Given(q, f)
  {
    var a, b, c := Target("a", ["a"], false), Target("b", ["b"], false), Target("c", ["c"], false);
    var ordered, intra: IntraDeps := [a, b, c], map["b" := {"a"}, "c" := {"b"}];
    RefusedMiddle(a, b, c);
    LinksAreFirst(a, b, c, intra);
    var run := [a, c];
    KeptLinks(run, intra);
    hide Unrefused, Restrict, BeforeBuild, DepsFirst, DepPath, Elems;
    NothingHanded(Setup(w, Pkgnames(run), Restrict(intra, Elems(Bases(run)))), s, run, f, e);
  }

  lemma RefusedMiddle(a: Target, b: Target, c: Target)
    requires a == Target("a", ["a"], false) && b == Target("b", ["b"], false) && c == Target("c", ["c"], false)
    ensures Unrefused([a, b, c], map["b" := "unreviewed"]) == [a, c]
  {
    var refused := map["b" := "unreviewed"];
    assert "b" in Hit(b, refused) && Hit(a, refused) == {} && Hit(c, refused) == {};
    assert [a, b, c][..2] == [a, b] && [a, b][..1] == [a] && [a][..0] == [];
    assert Unrefused([a], refused) == [a] && Unrefused([a, b], refused) == [a];
  }

  lemma LinksAreFirst(a: Target, b: Target, c: Target, intra: IntraDeps)
    requires a.pkgbase == "a" && b.pkgbase == "b" && c.pkgbase == "c" && intra == map["b" := {"a"}, "c" := {"b"}]
    ensures DepsFirst(Bases([a, b, c]), intra) && DepPath(intra, ["c", "b", "a"])
  {
    var bases := Bases([a, b, c]);
    assert bases == ["a", "b", "c"];
    assert bases[..1][0] == "a" && bases[..2][1] == "b";
  }

  lemma KeptLinks(run: seq<Target>, intra: IntraDeps)
    requires |run| == 2 && run[0].pkgbase == "a" && run[1].pkgbase == "c" && intra == map["b" := {"a"}, "c" := {"b"}]
    ensures var kept := Restrict(intra, Elems(Bases(run))); Deps(kept, "a") == {} && Deps(kept, "c") == {}
  {
    assert Bases(run) == ["a", "c"] && "b" !in Elems(Bases(run));
  }

  /** With no edges left, nothing is handed over before the last install. */
  lemma NothingHanded(setup: Setup, s: Store, run: seq<Target>, f: File, e: BuildEvent)
    requires |run| == 2 && run[0].pkgbase == "a" && run[1].pkgbase == "c"
    requires Deps(setup.intra, "a") == {} && Deps(setup.intra, "c") == {}
    ensures var q := BeforeBuild(setup, s, run, [Built([f], [], false), e], 1); f in FilesOf(q, "a") && !Given(q, f)
  {
    var events := [Built([f], [], false), e];
    assert NoDup(Bases(run)) && DepsFirst(Bases(run), setup.intra);
    HandedOverIff(setup, s, run, events, 1, f);
    var p := BuildFirst(setup, s, run, events, 1);
    BuildSteps(setup, s, run, events, 1);
    JitKeepsLists(setup, p, run[1]);
    FirstDelivers(setup, s, run[0], f);
    BuildSteps(setup, s, run, events, 0);
    hide BuildFirst, JitInstall, BuildOne, Given;
  }

  lemma FirstDelivers(setup: Setup, s: Store, t: Target, f: File)
    requires t.pkgbase == "a"
    ensures f in FilesOf(BuildOne(setup, Start(s), t, Built([f], [], false)), "a")
  {
    JitKeepsLists(setup, Start(s), t);
    hide JitInstall, RecordInFile;
  }
}
