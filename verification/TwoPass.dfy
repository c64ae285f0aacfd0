/** The toolchain-first build of `update` (sysforge/update.py): two passes of
    `build_and_install`, combined by `merge_outcomes`. */
module TwoPass {
  import opened Prelude
  import opened Packages
  import opened BuildStates
  import opened BatchOrder
  import opened BuildVerb

  /** `merge_outcomes` */
  function MergeOutcomes(first: Outcome, second: Outcome): Outcome {
    Outcome(first.built + second.built, first.failed + second.failed, first.pgoSkipped + second.pgoSkipped,
            first.installed + second.installed, first.installFailed || second.installFailed,
            first.notInstalled + second.notInstalled, first.reviewSkipped + second.reviewSkipped,
            first.reviewRefused + second.reviewRefused, first.aborted || second.aborted)
  }

  /** `o` reports what two passes did: the lists of the first, then those of the
      second; where both have a reason for one pkgbase, that of the second. */
  ghost predicate Merges(first: Outcome, second: Outcome, o: Outcome) {
    && (o.aborted <==> first.aborted || second.aborted)
    && (o.installFailed <==> first.installFailed || second.installFailed)
    && Joins(first.built, second.built, o.built) && Joins(first.failed, second.failed, o.failed)
    && Joins(first.pgoSkipped, second.pgoSkipped, o.pgoSkipped)
    && Joins(first.reviewSkipped, second.reviewSkipped, o.reviewSkipped)
    && Joins(first.installed, second.installed, o.installed)
    && Overrides(first.notInstalled, second.notInstalled, o.notInstalled)
    && Overrides(first.reviewRefused, second.reviewRefused, o.reviewRefused)
  }

  ghost predicate Joins<T>(a: seq<T>, b: seq<T>, c: seq<T>) {
    |c| == |a| + |b| && a <= c && c[|a|..] == b
  }

  ghost predicate Overrides<T(!new)>(a: map<string, T>, b: map<string, T>, c: map<string, T>) {
    && (forall k :: k in c <==> k in a || k in b)
    && (forall k :: k in b ==> c[k] == b[k])
    && (forall k :: k in a && k !in b ==> c[k] == a[k])
  }

  function Others(owned: Target -> bool): Target -> bool {
    t => !owned(t)
  }

  /** `split_toolchain_first`, given who owns what: each half in the given order. */
  method SplitToolchainFirst(targets: seq<Target>, owned: Target -> bool)
    returns (toolchain: seq<Target>, rest: seq<Target>)
    ensures toolchain == Filter(owned, targets) && rest == Filter(Others(owned), targets)
    ensures forall t :: (t in toolchain <==> t in targets && owned(t)) && (t in rest <==> t in targets && !owned(t))
    ensures InOrderOf(toolchain, targets) && InOrderOf(rest, targets)
  {
    hide Filter, InOrderOf;
    FilterInOrder(owned, targets);
    FilterInOrder(Others(owned), targets);
    FilterNothing(owned);
    FilterNothing(Others(owned));
    assert targets[..0] == [] && targets[..|targets|] == targets;
    toolchain, rest := [], [];
    for i := 0 to |targets|
      invariant toolchain == Filter(owned, targets[..i]) && rest == Filter(Others(owned), targets[..i])
    {
      FilterNext(owned, targets, i);
      FilterNext(Others(owned), targets, i);
      if owned(targets[i]) {
        toolchain := toolchain + [targets[i]];
      } else {
        rest := rest + [targets[i]];
      }
    }
  }

  lemma FilterNothing(keep: Target -> bool)
    ensures Filter(keep, []) == []
  {
  }

  /** Every target is in one half, once. */
  lemma {:induction false} SplitCounts(targets: seq<Target>, owned: Target -> bool, b: string)
    ensures Count(Bases(targets), b)
        == Count(Bases(Filter(owned, targets)), b) + Count(Bases(Filter(Others(owned), targets)), b)
    ensures |Filter(owned, targets)| + |Filter(Others(owned), targets)| == |targets|
  {
    if targets != [] {
      SplitCounts(targets[1..], owned, b);
      assert Bases(targets) == [targets[0].pkgbase] + Bases(targets[1..]);
      FrontCount(targets[0], Filter(owned, targets[1..]), b);
      FrontCount(targets[0], Filter(Others(owned), targets[1..]), b);
    }
  }

  lemma FrontCount(t: Target, rest: seq<Target>, b: string)
    ensures Count(Bases([t] + rest), b) == Count(Bases(rest), b) + if b == t.pkgbase then 1 else 0
  {
    assert Bases([t] + rest) == [t.pkgbase] + Bases(rest);
  }

  /** Two passes over the halves of a batch partition the batch. */
  lemma MergePartitions(bases: seq<string>, left: seq<string>, right: seq<string>, first: Outcome, second: Outcome)
    requires NoDup(bases) && forall b :: Count(bases, b) == Count(left, b) + Count(right, b)
    requires Partitions(left, first) && Partitions(right, second)
    ensures Partitions(bases, MergeOutcomes(first, second))
  {
    var o := MergeOutcomes(first, second);
    forall b ensures Count(bases, b) == Count(o.built, b) + Count(o.failed, b) + Count(o.pgoSkipped, b)
                                      + Count(o.reviewSkipped, b) + Listed(o.reviewRefused, b) {
      CountConcat(first.built, second.built, b);
      CountConcat(first.failed, second.failed, b);
      CountConcat(first.pgoSkipped, second.pgoSkipped, b);
      CountConcat(first.reviewSkipped, second.reviewSkipped, b);
      CountNoDup(bases, b);
    }
  }

  lemma HalfIsNoDup(bases: seq<string>, left: seq<string>, right: seq<string>)
    requires NoDup(bases) && forall b :: Count(bases, b) == Count(left, b) + Count(right, b)
    ensures NoDup(left) && NoDup(right)
  {
    forall b ensures Count(left, b) <= 1 && Count(right, b) <= 1 {
      CountNoDup(bases, b);
    }
    CountsNoDup(left);
    CountsNoDup(right);
  }

  /** One `build_and_install` call on a batch, all of it. */
  ghost predicate Settles(x: Answers,
                          parse: Target -> Option<Meta>, targets: seq<Target>, before: Store, after: Store, r: Call)
    requires Answered(x, targets)
  {
    && Gates(x, targets, r)
    && (!r.o.aborted ==> Orders(x, parse, targets, r) && Partitions(Bases(targets), r.o))
    && Carries(x, before, after, r)
  }

  /** What the build phase of `update` leaves: one pass over the whole batch, or
      one over the toolchain targets and, unless that aborts, one over the rest on
      the file the first pass left. `first` and `second` are the two calls. */
  ghost predicate Phases(targets: seq<Target>,
                         owned: Target -> bool, parse: Target -> Option<Meta>, one: Answers, two: Answers,
                         before: Store, between: Store, after: Store, first: Call, second: Call, o: Outcome)
    requires Answered(one, targets) && Answered(two, targets)
  {
    var toolchain, rest := Filter(owned, targets), Filter(Others(owned), targets);
    if toolchain == [] || rest == [] then
      Settles(one, parse, targets, before, after, first) && o == first.o
    else
      && Settles(one, parse, toolchain, before, between, first)
      && if first.o.aborted then after == between && o == first.o
         else Settles(two, parse, rest, between, after, second) && Merges(first.o, second.o, o)
  }

  /** `_phase_build`: toolchain packages first, then the packages they compile. */
  method BuildInPasses(file: StateFile, targets: seq<Target>, owned: Target -> bool, parse: Target -> Option<Meta>,
                       one: Answers, two: Answers)
    returns (o: Outcome, first: Call, second: Call, ghost between: Store)
    requires NoDup(Bases(targets)) && Answered(one, targets) && Answered(two, targets)
    modifies file
    ensures Phases(targets, owned, parse, one, two, old(file.store), between, file.store, first, second, o)
    ensures !o.aborted ==> Partitions(Bases(targets), o)
  {
    hide *;
    var toolchain, rest := SplitToolchainFirst(targets, owned);
    HalvesAreSound(targets, owned, one, two);
    if toolchain != [] && rest != [] {
      first := BuildAndInstall(file, toolchain, parse, one);
      between, second, o := file.store, first, first.o;
      if !first.o.aborted {
        second := BuildAndInstall(file, rest, parse, two);
        o := MergeOutcomes(first.o, second.o);
      }
      TwoPhases(targets, owned, parse, one, two, old(file.store), between, file.store, first, second, o);
    } else {
      first := BuildAndInstall(file, targets, parse, one);
      between, second, o := file.store, first, first.o;
      OnePhase(targets, owned, parse, one, two, old(file.store), file.store, first);
    }
  }

  lemma HalvesAreSound(targets: seq<Target>, owned: Target -> bool, one: Answers, two: Answers)
    requires NoDup(Bases(targets)) && Answered(one, targets) && Answered(two, targets)
    ensures NoDup(Bases(Filter(owned, targets))) && NoDup(Bases(Filter(Others(owned), targets)))
    ensures Answered(one, Filter(owned, targets)) && Answered(two, Filter(Others(owned), targets))
  {
    forall b ensures Count(Bases(targets), b)
                  == Count(Bases(Filter(owned, targets)), b) + Count(Bases(Filter(Others(owned), targets)), b) {
      SplitCounts(targets, owned, b);
    }
    SplitCounts(targets, owned, "");
    HalfIsNoDup(Bases(targets), Bases(Filter(owned, targets)), Bases(Filter(Others(owned), targets)));
  }

  lemma OnePhase(targets: seq<Target>, owned: Target -> bool, parse: Target -> Option<Meta>, one: Answers, two: Answers,
                 before: Store, after: Store, r: Call)
    requires Answered(one, targets) && Answered(two, targets)
    requires Filter(owned, targets) == [] || Filter(Others(owned), targets) == []
    requires Gates(one, targets, r) && Carries(one, before, after, r)
    requires !r.o.aborted ==> Orders(one, parse, targets, r) && Partitions(Bases(targets), r.o)
    ensures Phases(targets, owned, parse, one, two, before, after, after, r, r, r.o)
    ensures !r.o.aborted ==> Partitions(Bases(targets), r.o)
  {
    hide Gates, Orders, Carries, Partitions;
  }

  lemma TwoPhases(targets: seq<Target>,
                  owned: Target -> bool, parse: Target -> Option<Meta>, one: Answers, two: Answers,
                  before: Store, between: Store, after: Store, first: Call, second: Call, o: Outcome)
    requires NoDup(Bases(targets)) && Answered(one, targets) && Answered(two, targets)
    requires Filter(owned, targets) != [] && Filter(Others(owned), targets) != []
    requires var toolchain := Filter(owned, targets);
             && Answered(one, toolchain) && Gates(one, toolchain, first) && Carries(one, before, between, first)
             && (!first.o.aborted ==> Orders(one, parse, toolchain, first) && Partitions(Bases(toolchain), first.o))
    requires var rest := Filter(Others(owned), targets);
             Answered(two, rest) &&
             if first.o.aborted then after == between && o == first.o
             else
               && Gates(two, rest, second) && Carries(two, between, after, second)
                   && o == MergeOutcomes(first.o, second.o)
               && (!second.o.aborted ==> Orders(two, parse, rest, second) && Partitions(Bases(rest), second.o))
    ensures Phases(targets, owned, parse, one, two, before, between, after, first, second, o)
    ensures !o.aborted ==> Partitions(Bases(targets), o)
  {
    hide Gates, Orders, Carries, Partitions, Filter;
    if !o.aborted {
      forall b ensures Count(Bases(targets), b)
                    == Count(Bases(Filter(owned, targets)), b) + Count(Bases(Filter(Others(owned), targets)), b) {
        SplitCounts(targets, owned, b);
      }
      MergePartitions(Bases(targets), Bases(Filter(owned, targets)), Bases(Filter(Others(owned), targets)), first.o,
          second.o);
    }
  }
}
