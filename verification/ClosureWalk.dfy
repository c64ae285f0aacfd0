/** The breadth-first closure of `sysforge doctor` over installed dependencies
    (sysforge/doctor.py), against plain reachability. */
module ClosureWalk {
  import opened Prelude
  import opened DepTokens

  /** The installed packages and what each of them depends on, as pacman lists
      it: names with version constraints, sonames included. */
  datatype Installed = Installed(names: set<string>, depends: string -> seq<string>)

  predicate HasSo(name: string) {
    |name| >= 3 && (name[..3] == ".so" || HasSo(name[1..]))
  }

  predicate Follows(db: Installed, dep: string) {
    !HasSo(StripVersion(dep)) && StripVersion(dep) in db.names
  }

  /** The installed packages `name` directly depends on. */
  function Next(db: Installed, name: string): set<string> {
    if name !in db.names then {} else set dep | dep in db.depends(name) && Follows(db, dep) :: StripVersion(dep)
  }

  /** The packages within `k` dependency steps of the roots. */
  function Ball(db: Installed, roots: seq<string>, k: nat): set<string> {
    if k == 0 then Elems(roots)
    else
      var b := Ball(db, roots, k - 1);
      b + set n, x | n in b && x in Next(db, n) :: x
  }

  /** `n` is installed and has a dependency token that names the installed package
      `x`, which is no soname. */
  ghost predicate DependsOn(db: Installed, n: string, x: string) {
    && n in db.names && x in db.names && !Occurs(x, ".so")
    && exists token :: token in db.depends(n) && Names(token, x)
  }

  lemma {:induction false} HasSoIs(name: string)
    ensures HasSo(name) <==> Occurs(name, ".so")
  {
    if |name| >= 3 {
      HasSoIs(name[1..]);
      if Occurs(name, ".so") {
        var i :| OccursAt(name, ".so", i);
        assert i > 0 ==> name[1..][i - 1..] == name[i..] && OccursAt(name[1..], ".so", i - 1);
        assert i == 0 ==> name[i..] == name;
      }
      if Occurs(name[1..], ".so") {
        var i :| OccursAt(name[1..], ".so", i);
        assert name[1..][i..] == name[i + 1..] && OccursAt(name, ".so", i + 1);
      }
      if name[..3] == ".so" {
        assert name[0..] == name && OccursAt(name, ".so", 0);
      }
    }
  }

  lemma NextIs(db: Installed, n: string, x: string)
    ensures x in Next(db, n) <==> DependsOn(db, n, x)
  {
    HasSoIs(x);
    forall token ensures StripVersion(token) == x <==> Names(token, x) {
      StripMeans(token, x);
    }
    hide HasSo, Names, StripVersion, Occurs;
  }

  /** A chain of dependencies from a root to `x`. */
  ghost predicate Chain(db: Installed, roots: seq<string>, p: seq<string>, x: string) {
    && p != [] && p[0] in roots && p[|p| - 1] == x
    && forall i :: 0 <= i < |p| - 1 ==> DependsOn(db, p[i], p[i + 1])
  }

  ghost predicate ChainWithin(db: Installed, roots: seq<string>, k: nat, x: string) {
    exists p :: Chain(db, roots, p, x) && |p| <= k + 1
  }

  /** Within `k` steps lies what a chain of at most `k` dependencies leads to. */
  lemma {:induction false} BallIsChains(db: Installed, roots: seq<string>, k: nat, x: string)
    ensures x in Ball(db, roots, k) <==> ChainWithin(db, roots, k, x)
  {
    hide Ball, DependsOn;
    BallStep(db, roots, if k == 0 then 0 else k - 1, x);
    if k == 0 {
      if x in roots {
        assert Chain(db, roots, [x], x);
      }
    } else {
      var m := k - 1;
      forall n ensures n in Ball(db, roots, m) <==> ChainWithin(db, roots, m, n) {
        BallIsChains(db, roots, m, n);
      }
      forall n ensures x in Next(db, n) <==> DependsOn(db, n, x) {
        NextIs(db, n, x);
      }
      ChainSteps(db, roots, k, x);
    }
  }

  lemma ChainSteps(db: Installed, roots: seq<string>, k: nat, x: string)
    requires k > 0
    ensures ChainWithin(db, roots, k, x) <==>
        ChainWithin(db, roots, k - 1, x) || exists n :: ChainWithin(db, roots, k - 1, n) && DependsOn(db, n, x)
  {
    hide DependsOn;
    if ChainWithin(db, roots, k, x) && !ChainWithin(db, roots, k - 1, x) {
      var p :| Chain(db, roots, p, x) && |p| <= k + 1;
      var init := p[..|p| - 1];
      assert |p| > 1 by {
        assert |p| == 1 ==> |p| <= k;
      }
      assert Chain(db, roots, init, init[|init| - 1]) && DependsOn(db, p[|p| - 2], p[|p| - 1]);
      assert ChainWithin(db, roots, k - 1, init[|init| - 1]);
    }
    if n :| ChainWithin(db, roots, k - 1, n) && DependsOn(db, n, x) {
      var p :| Chain(db, roots, p, n) && |p| <= k;
      assert Chain(db, roots, p + [x], x);
    }
  }

  lemma BallStep(db: Installed, roots: seq<string>, k: nat, x: string)
    ensures x in Ball(db, roots, k + 1) <==>
        x in Ball(db, roots, k) || exists n :: n in Ball(db, roots, k) && x in Next(db, n)
    ensures x in Ball(db, roots, 0) <==> x in roots
  {
  }

  lemma {:induction false} BallsGrow(db: Installed, roots: seq<string>, i: nat, j: nat)
    requires i <= j
    ensures Ball(db, roots, i) <= Ball(db, roots, j)
    decreases j
  {
    if i < j {
      BallsGrow(db, roots, i, j - 1);
    }
  }

  lemma {:induction false} BallsAreKnown(db: Installed, roots: seq<string>, k: nat)
    ensures Ball(db, roots, k) <= Elems(roots) + db.names
  {
    if k > 0 {
      BallsAreKnown(db, roots, k - 1);
    }
  }

  /** A set that holds the roots and all their followed dependencies holds every
      reachable package. */
  lemma {:induction false} ClosedHoldsBall(db: Installed, roots: seq<string>, s: set<string>, k: nat)
    requires Elems(roots) <= s && forall n :: n in s ==> Next(db, n) <= s
    ensures Ball(db, roots, k) <= s
  {
    if k > 0 {
      ClosedHoldsBall(db, roots, s, k - 1);
    }
  }

  /** What `_walk_closure` should list. */
  ghost predicate Listed(db: Installed, roots: seq<string>, shallow: bool, x: string) {
    if shallow then x in Ball(db, roots, 1) else exists k :: x in Ball(db, roots, k)
  }

  /** Nearer packages come first: whatever stands before a package within `k`
      steps is itself within `k` steps. */
  ghost predicate ByDistance(db: Installed, roots: seq<string>, order: seq<string>) {
    forall i, j, k: nat :: 0 <= i < j < |order| && order[j] in Ball(db, roots, k) ==> order[i] in Ball(db, roots, k)
  }

  function Queued(queue: seq<(string, nat)>): set<string> {
    set q | q in queue :: q.0
  }

  /** What is listed lies within distance `d`, and everything nearer is listed. */
  ghost predicate Near(db: Installed, roots: seq<string>, d: nat, order: seq<string>) {
    NoDup(order) && ByDistance(db, roots, order) && Elems(order) <= Ball(db, roots, d)
        && (d > 0 ==> Ball(db, roots, d - 1) <= Elems(order))
  }

  /** The queue holds packages at distance `d` and then `d + 1`. */
  ghost predicate Levels(db: Installed, roots: seq<string>, shallow: bool, d: nat, queue: seq<(string, nat)>) {
    && (forall q :: q in queue ==> d <= q.1 <= d + 1 && q.0 in Ball(db, roots, q.1) && (shallow ==> q.1 <= 1))
    && (forall i, j :: 0 <= i < j < |queue| ==> queue[i].1 <= queue[j].1)
    && (shallow ==> d <= 1)
  }

  ghost predicate Pending(db: Installed, roots: seq<string>, d: nat, order: seq<string>, queue: seq<(string, nat)>) {
    forall x :: x in Ball(db, roots, d) ==> x in order || exists q :: q in queue && q.0 == x && q.1 == d
  }

  ghost predicate NextMet(db: Installed, roots: seq<string>, shallow: bool, order: seq<string>,
                          queue: seq<(string, nat)>) {
    forall n :: n in order && Expanded(db, roots, shallow, n) ==> Next(db, n) <= Elems(order) + Queued(queue)
  }

  /** The state of the walk while it works through distance `d`. */
  ghost predicate Walking(db: Installed, roots: seq<string>, shallow: bool, d: nat, order: seq<string>,
                          queue: seq<(string, nat)>) {
    && Near(db, roots, d, order) && Levels(db, roots, shallow, d, queue)
    && Pending(db, roots, d, order, queue) && NextMet(db, roots, shallow, order, queue)
  }

  ghost predicate Expanded(db: Installed, roots: seq<string>, shallow: bool, n: string) {
    shallow ==> n in roots
  }

  /** The dependencies of `name` the walk has not met yet. */
  function Fresh(db: Installed, deps: seq<string>, order: seq<string>, depth: nat): seq<(string, nat)> {
    if deps == [] then []
    else
      var k := |deps| - 1;
      Fresh(db, deps[..k], order, depth) +
      if Follows(db, deps[k]) && StripVersion(deps[k]) !in order then [(StripVersion(deps[k]), depth)] else []
  }

  lemma {:induction false} FreshHas(db: Installed, deps: seq<string>, order: seq<string>, depth: nat, q: (string, nat))
    ensures q in Fresh(db, deps, order, depth) <==>
            q.1 == depth && q.0 !in order && exists dep :: dep in deps && Follows(db, dep) && StripVersion(dep) == q.0
  {
    hide Follows, StripVersion;
    if deps != [] {
      var k := |deps| - 1;
      FreshHas(db, deps[..k], order, depth, q);
      assert deps == deps[..k] + [deps[k]];
    }
  }

  lemma WalkStarts(db: Installed, roots: seq<string>, shallow: bool, queue: seq<(string, nat)>)
    requires |queue| == |roots| && forall i :: 0 <= i < |roots| ==> queue[i] == (roots[i], 0)
    ensures Walking(db, roots, shallow, 0, [], queue) && Elems<string>([]) == {}
  {
  }

  /** Once the front of the queue is at the next distance, everything nearer has
      been listed and everything at that distance is waiting. */
  lemma FrontDistance(db: Installed, roots: seq<string>, shallow: bool, d: nat, order: seq<string>,
                      queue: seq<(string, nat)>)
    requires Walking(db, roots, shallow, d, order, queue) && queue != []
    ensures Walking(db, roots, shallow, queue[0].1, order, queue)
  {
    hide Ball, ByDistance, Next;
    assert queue[0] in queue;
    if queue[0].1 == d + 1 {
      assert forall q :: q in queue ==> q.1 == d + 1;
      BallsGrow(db, roots, d, d + 1);
      forall x | x in Ball(db, roots, d + 1) ensures x in order || exists q :: q in queue && q.0 == x && q.1 == d + 1 {
        BallStep(db, roots, d, x);
        if x !in Ball(db, roots, d) {
          var n :| n in Ball(db, roots, d) && x in Next(db, n);
          BallStep(db, roots, 0, n);
          assert n in order && Expanded(db, roots, shallow, n);
          assert x in Elems(order) + Queued(queue);
        }
      }
    }
  }

  lemma SkipFront(db: Installed, roots: seq<string>, shallow: bool, d: nat, order: seq<string>,
                  queue: seq<(string, nat)>)
    requires Walking(db, roots, shallow, d, order, queue) && queue != [] && queue[0].0 in Elems(order)
    ensures Walking(db, roots, shallow, d, order, queue[1..])
  {
  }

  lemma AppendByDistance(db: Installed, roots: seq<string>, d: nat, order: seq<string>, name: string)
    requires ByDistance(db, roots, order) && Elems(order) <= Ball(db, roots, d)
    requires name !in order && (d > 0 ==> Ball(db, roots, d - 1) <= Elems(order))
    ensures ByDistance(db, roots, order + [name])
  {
    hide Ball;
    var next := order + [name];
    forall k: nat | k < d ensures name !in Ball(db, roots, k) {
      BallsGrow(db, roots, k, d - 1);
    }
    forall i, j, k: nat | 0 <= i < j < |next| && next[j] in Ball(db, roots, k) ensures next[i] in Ball(db, roots, k) {
      if j == |order| {
        BallsGrow(db, roots, d, k);
        assert next[i] in Elems(order);
      }
    }
  }

  /** The queue after a visit. */
  function AfterVisit(db: Installed, shallow: bool, order: seq<string>, queue: seq<(string, nat)>): seq<(string, nat)>
    requires queue != []
  {
    var name, depth := queue[0].0, queue[0].1;
    queue[1..] + if name in db.names && !(shallow && depth >= 1)
        then Fresh(db, db.depends(name), order + [name], depth + 1) else []
  }

  lemma AfterVisitIs(db: Installed, shallow: bool, order: seq<string>, queue: seq<(string, nat)>)
    requires queue != []
    ensures var name, depth := queue[0].0, queue[0].1;
            AfterVisit(db, shallow, order, queue) ==
              if name in db.names && !(shallow && depth >= 1)
                  then queue[1..] + Fresh(db, db.depends(name), order + [name], depth + 1) else queue[1..]
  {
  }

  lemma VisitQueues(db: Installed, roots: seq<string>, shallow: bool, d: nat, order: seq<string>,
                    queue: seq<(string, nat)>, q: (string, nat))
    requires Walking(db, roots, shallow, d, order, queue) && queue != [] && queue[0].1 == d
    requires q in AfterVisit(db, shallow, order, queue)
    ensures d <= q.1 <= d + 1 && q.0 in Ball(db, roots, q.1) && (shallow ==> q.1 <= 1)
    ensures (q !in queue[1..] ==> q.1 == d + 1)
  {
    hide ByDistance, Fresh, Follows, Ball, Near, Pending, NextMet;
    var name := queue[0].0;
    assert queue[0] in queue && queue == [queue[0]] + queue[1..];
    if q !in queue[1..] {
      FreshHas(db, db.depends(name), order + [name], d + 1, q);
      assert q.0 in Next(db, name);
      BallStep(db, roots, d, q.0);
    }
  }

  lemma VisitExpands(db: Installed, roots: seq<string>, shallow: bool, d: nat, order: seq<string>,
                     queue: seq<(string, nat)>, n: string, x: string)
    requires Walking(db, roots, shallow, d, order, queue) && queue != [] && queue[0].0 !in order && queue[0].1 == d
    requires n in order + [queue[0].0] && Expanded(db, roots, shallow, n) && x in Next(db, n)
    ensures x in Elems(order + [queue[0].0]) + Queued(AfterVisit(db, shallow, order, queue))
  {
    hide ByDistance, Fresh, Follows, Ball, Pending;
    var name, after := queue[0].0, AfterVisit(db, shallow, order, queue);
    assert queue == [queue[0]] + queue[1..];
    if n in order {
      assert x in Elems(order) + Queued(queue);
      if x !in order && x != name {
        var q :| q in queue && q.0 == x;
        assert q in queue[1..] && q in after;
      }
    } else {
      BallsGrow(db, roots, 0, if d > 0 then d - 1 else 0);
      BallStep(db, roots, 0, name);
      assert d > 0 ==> name !in Ball(db, roots, 0);
      if x !in order + [name] {
        var q := (x, d + 1);
        FreshHas(db, db.depends(name), order + [name], d + 1, q);
        assert q in after;
      }
    }
  }

  lemma VisitFront(db: Installed, roots: seq<string>, shallow: bool, d: nat, order: seq<string>,
                   queue: seq<(string, nat)>)
    requires Walking(db, roots, shallow, d, order, queue) && queue != [] && queue[0].0 !in Elems(order)
    requires queue[0].1 == d
    ensures Walking(db, roots, shallow, d, order + [queue[0].0], AfterVisit(db, shallow, order, queue))
    ensures Elems(order + [queue[0].0]) == Elems(order) + {queue[0].0}
  {
    hide Near, Levels, Pending, NextMet, AfterVisit;
    VisitNear(db, roots, shallow, d, order, queue);
    VisitLevels(db, roots, shallow, d, order, queue);
    VisitPending(db, roots, shallow, d, order, queue);
    VisitNext(db, roots, shallow, d, order, queue);
  }

  lemma VisitNear(db: Installed, roots: seq<string>, shallow: bool, d: nat, order: seq<string>,
                  queue: seq<(string, nat)>)
    requires Walking(db, roots, shallow, d, order, queue) && queue != [] && queue[0].0 !in Elems(order)
    requires queue[0].1 == d
    ensures Near(db, roots, d, order + [queue[0].0])
  {
    assert queue[0] in queue;
    AppendByDistance(db, roots, d, order, queue[0].0);
    hide ByDistance, Ball, Pending, NextMet;
  }

  lemma VisitLevels(db: Installed, roots: seq<string>, shallow: bool, d: nat, order: seq<string>,
                    queue: seq<(string, nat)>)
    requires Walking(db, roots, shallow, d, order, queue) && queue != [] && queue[0].1 == d
    ensures Levels(db, roots, shallow, d, AfterVisit(db, shallow, order, queue))
  {
    var after := AfterVisit(db, shallow, order, queue);
    hide Walking, Ball, AfterVisit;
    forall q | q in after ensures d <= q.1 <= d + 1 && q.0 in Ball(db, roots, q.1) && (shallow ==> q.1 <= 1) {
      VisitQueues(db, roots, shallow, d, order, queue, q);
    }
    VisitSorted(db, roots, shallow, d, order, queue);
  }

  lemma VisitSorted(db: Installed, roots: seq<string>, shallow: bool, d: nat, order: seq<string>,
                    queue: seq<(string, nat)>)
    requires Walking(db, roots, shallow, d, order, queue) && queue != [] && queue[0].1 == d
    ensures var after := AfterVisit(db, shallow, order, queue); forall i, j :: 0 <= i < j < |after| ==>
        after[i].1 <= after[j].1
    ensures shallow ==> d <= 1
  {
    hide Near, Pending, NextMet, Ball, Fresh, AfterVisit;
    AfterVisitIs(db, shallow, order, queue);
    var name := queue[0].0;
    FreshDepths(db, db.depends(name), order + [name], d + 1);
    SortedAfter(queue[1..], Fresh(db, db.depends(name), order + [name], d + 1), d + 1);
  }

  lemma VisitNext(db: Installed, roots: seq<string>, shallow: bool, d: nat, order: seq<string>,
                  queue: seq<(string, nat)>)
    requires Walking(db, roots, shallow, d, order, queue) && queue != [] && queue[0].0 !in order && queue[0].1 == d
    ensures NextMet(db, roots, shallow, order + [queue[0].0], AfterVisit(db, shallow, order, queue))
  {
    hide Walking, Next, Queued, AfterVisit;
    var name, after := queue[0].0, AfterVisit(db, shallow, order, queue);
    forall n | n in order + [name] && Expanded(db, roots, shallow, n)
        ensures Next(db, n) <= Elems(order + [name]) + Queued(after) {
      forall x | x in Next(db, n) ensures x in Elems(order + [name]) + Queued(after) {
        VisitExpands(db, roots, shallow, d, order, queue, n, x);
      }
    }
  }

  lemma FreshDepths(db: Installed, deps: seq<string>, order: seq<string>, depth: nat)
    ensures forall q :: q in Fresh(db, deps, order, depth) ==> q.1 == depth
  {
  }

  lemma VisitPending(db: Installed, roots: seq<string>, shallow: bool, d: nat, order: seq<string>,
                     queue: seq<(string, nat)>)
    requires Walking(db, roots, shallow, d, order, queue) && queue != []
    ensures Pending(db, roots, d, order + [queue[0].0], AfterVisit(db, shallow, order, queue))
  {
  }

  lemma SortedAfter(front: seq<(string, nat)>, rest: seq<(string, nat)>, depth: nat)
    requires forall i, j :: 0 <= i < j < |front| ==> front[i].1 <= front[j].1
    requires (forall q :: q in front ==> q.1 <= depth) && (forall q :: q in rest ==> q.1 == depth)
    ensures var all := front + rest; forall i, j :: 0 <= i < j < |all| ==> all[i].1 <= all[j].1
  {
  }

  lemma VisitShrinks(db: Installed, roots: seq<string>, shallow: bool, d: nat, order: seq<string>,
                     queue: seq<(string, nat)>)
    requires Walking(db, roots, shallow, d, order, queue) && queue != [] && queue[0].0 !in Elems(order)
    ensures var all := Elems(roots) + db.names; |all - (Elems(order) + {queue[0].0})| < |all - Elems(order)|
  {
    var all, name := Elems(roots) + db.names, queue[0].0;
    assert queue[0] in queue;
    BallsAreKnown(db, roots, queue[0].1);
    assert all - Elems(order) == (all - (Elems(order) + {name})) + {name};
  }

  lemma WalkEnds(db: Installed, roots: seq<string>, shallow: bool, d: nat, order: seq<string>)
    requires Walking(db, roots, shallow, d, order, [])
    ensures NoDup(order) && ByDistance(db, roots, order)
    ensures forall x :: x in order <==> Listed(db, roots, shallow, x)
  {
    BallsGrow(db, roots, 0, d);
    assert forall x :: x in Ball(db, roots, d) ==> x in order;
    forall x ensures x in order <==> Listed(db, roots, shallow, x) {
      if shallow {
        BallsGrow(db, roots, d, 1);
        assert d == 0 ==> forall n :: n in Ball(db, roots, 0) ==>
            n in order && Next(db, n) <= Elems(order) + Queued([]);
      } else {
        if k :| x in Ball(db, roots, k) {
          ClosedHoldsBall(db, roots, Elems(order), k);
        }
      }
    }
  }

  /** `_walk_closure`: every reachable package once, nearest first. */
  method WalkClosure(db: Installed, roots: seq<string>, shallow: bool) returns (order: seq<string>)
    ensures NoDup(order)
    ensures forall x :: x in order <==> Listed(db, roots, shallow, x)
    ensures ByDistance(db, roots, order)
    ensures forall x :: x in order <==>
              if shallow then ChainWithin(db, roots, 1, x) else exists k: nat :: ChainWithin(db, roots, k, x)
  {
    hide *;
    order := [];
    var seen: set<string> := {};
    var queue: seq<(string, nat)> := seq(|roots|, i requires 0 <= i < |roots| => (roots[i], 0));
    ghost var d: nat := 0;
    WalkStarts(db, roots, shallow, queue);
    while queue != []
      invariant Walking(db, roots, shallow, d, order, queue) && seen == Elems(order)
      decreases |Elems(roots) + db.names - seen|, |queue|
    {
      var name, depth := queue[0].0, queue[0].1;
      FrontDistance(db, roots, shallow, d, order, queue);
      d := depth;
      if name in seen {
        SkipFront(db, roots, shallow, d, order, queue);
        queue := queue[1..];
      } else {
        VisitShrinks(db, roots, shallow, d, order, queue);
        VisitFront(db, roots, shallow, d, order, queue);
        ghost var after := AfterVisit(db, shallow, order, queue);
        AfterVisitIs(db, shallow, order, queue);
        seen := seen + {name};
        order := order + [name];
        queue := queue[1..];
        if name in db.names && !(shallow && depth >= 1) {
          queue := Enqueue(db, db.depends(name), order, seen, depth + 1, queue);
        }
        assert queue == after;
      }
    }
    WalkEnds(db, roots, shallow, d, order);
    forall x ensures x in order <==>
        if shallow then ChainWithin(db, roots, 1, x) else exists k: nat :: ChainWithin(db, roots, k, x)
    {
      ListedMeans(db, roots, shallow, x);
    }
  }

  lemma ListedMeans(db: Installed, roots: seq<string>, shallow: bool, x: string)
    ensures Listed(db, roots, shallow, x) <==>
        if shallow then ChainWithin(db, roots, 1, x) else exists k: nat :: ChainWithin(db, roots, k, x)
  {
    forall k: nat ensures x in Ball(db, roots, k) <==> ChainWithin(db, roots, k, x) {
      BallIsChains(db, roots, k, x);
    }
    hide Ball, ChainWithin;
  }

  method Enqueue(db: Installed, deps: seq<string>, ghost order: seq<string>, seen: set<string>, depth: nat,
                 queue: seq<(string, nat)>)
    returns (next: seq<(string, nat)>)
    requires seen == Elems(order)
    ensures next == queue + Fresh(db, deps, order, depth)
  {
    hide HasSo, StripVersion;
    next := queue;
    for i := 0 to |deps|
      invariant next == queue + Fresh(db, deps[..i], order, depth)
    {
      assert deps[..i + 1][..i] == deps[..i];
      var base := StripVersion(deps[i]);
      if !HasSo(base) && base !in seen && base in db.names {
        next := next + [(base, depth)];
      }
    }
    assert deps[..|deps|] == deps;
  }
}
