/** The exact build order of an acyclic batch: which of two members comes first.
    A comment in `_order_targets_by_intra_deps` (sysforge/build_core.py) says that
    unrelated members keep their given order. */
module OrderStability {
  import opened Prelude
  import opened BatchOrder

  /** `b` has a chain of `k` dependencies inside the batch. */
  ghost predicate HasChain(intra: IntraDeps, b: string, k: nat)
    decreases k
  {
    k == 0 || exists d :: d in Deps(intra, b) && HasChain(intra, d, k - 1)
  }

  /** The longest chain of `x` is shorter than that of `y`. */
  ghost predicate Shallower(intra: IntraDeps, x: string, y: string) {
    exists k: nat :: !HasChain(intra, x, k) && HasChain(intra, y, k)
  }

  /** Of the dependencies of `b`, the one that `order` puts last. */
  ghost predicate LastDep(order: seq<string>, intra: IntraDeps, b: string, d: string) {
    d in Deps(intra, b) && forall e :: e in Deps(intra, b) && e != d ==> Before(order, e, d)
  }

  /** `x` goes by its last dependency, and after that by its place in the batch. */
  ghost predicate EarlierRelease(bases: seq<string>, intra: IntraDeps, order: seq<string>, x: string, y: string) {
    exists d, e :: LastDep(order, intra, x, d) && LastDep(order, intra, y, e)
                   && (Before(order, d, e) || (d == e && Before(bases, x, y)))
  }

  /** The i-th target is `x` or depends on it. */
  predicate Mentions(bases: seq<string>, intra: IntraDeps, x: string, i: int)
    requires 0 <= i < |bases|
  {
    x == bases[i] || x in Deps(intra, bases[i])
  }

  /** The i-th target mentions `x`, and none before it does. */
  ghost predicate FirstIn(bases: seq<string>, intra: IntraDeps, x: string, i: int) {
    0 <= i < |bases| && Mentions(bases, intra, x, i) && forall h :: 0 <= h < i ==> !Mentions(bases, intra, x, h)
  }

  /** `x` is mentioned in front of `y`; a target mentions itself, then its
      dependencies by name. */
  ghost predicate MentionedFirst(bases: seq<string>, intra: IntraDeps, x: string, y: string) {
    exists i, j :: FirstIn(bases, intra, x, i) && FirstIn(bases, intra, y, j)
                   && (i < j || (i == j && y != bases[i] && (x == bases[i] || Le(x, y))))
  }

  /** Which of two members is built first: the one with the shorter longest chain.
      Among members without dependencies, the one mentioned first, be it as a
      target or as a dependency of one; among others on one level, the one whose
      last dependency is built first; then the one given first. */
  ghost predicate Earlier(bases: seq<string>, intra: IntraDeps, order: seq<string>, x: string, y: string) {
    || Shallower(intra, x, y)
    || (!Shallower(intra, y, x)
        && if Deps(intra, x) == {} then x != y && MentionedFirst(bases, intra, x, y)
            else EarlierRelease(bases, intra, order, x, y))
  }

  // ---------------------------------------------------------------------
  // Positions
  // ---------------------------------------------------------------------

  lemma BeforeOnce(s: seq<string>, x: string, y: string)
    requires NoDup(s)
    ensures !(Before(s, x, y) && Before(s, y, x))
  {
  }

  lemma BeforeTotal(s: seq<string>, x: string, y: string)
    requires x in s && y in s && x != y
    ensures Before(s, x, y) || Before(s, y, x)
  {
    var i :| 0 <= i < |s| && s[i] == x;
    var j :| 0 <= j < |s| && s[j] == y;
    assert i < j || j < i;
  }

  lemma BeforeInPrefix(pre: seq<string>, s: seq<string>, x: string, y: string)
    requires pre <= s && Before(pre, x, y)
    ensures Before(s, x, y)
  {
    var i, j :| 0 <= i < j < |pre| && pre[i] == x && pre[j] == y;
    assert s[i] == x && s[j] == y;
  }

  lemma BeforeAcross(a: seq<string>, b: seq<string>, x: string, y: string)
    requires x in a && y in b
    ensures Before(a + b, x, y)
  {
    var i :| 0 <= i < |a| && a[i] == x;
    var j :| 0 <= j < |b| && b[j] == y;
    assert (a + b)[i] == x && (a + b)[|a| + j] == y;
  }

  /** A filter keeps the order of what it keeps. */
  lemma {:induction false} FilterOrder(keep: string -> bool, s: seq<string>, i: nat, j: nat)
    requires i < j < |Filter(keep, s)|
    ensures Before(s, Filter(keep, s)[i], Filter(keep, s)[j])
  {
    hide Before;
    var rest := Filter(keep, s[1..]);
    if keep(s[0]) && i == 0 {
      assert rest[j - 1] in rest && rest[j - 1] in s[1..];
      BeforeAcross([s[0]], s[1..], s[0], rest[j - 1]);
      assert [s[0]] + s[1..] == s;
    } else {
      var k := if keep(s[0]) then 1 else 0;
      FilterOrder(keep, s[1..], i - k, j - k);
      BeforeLater(s, rest[i - k], rest[j - k]);
    }
  }

  lemma BeforeLater(s: seq<string>, x: string, y: string)
    requires s != [] && Before(s[1..], x, y)
    ensures Before(s, x, y)
  {
    var i, j :| 0 <= i < j < |s[1..]| && s[1..][i] == x && s[1..][j] == y;
    assert s[i + 1] == x && s[j + 1] == y;
  }

  // ---------------------------------------------------------------------
  // Levels
  // ---------------------------------------------------------------------

  lemma {:induction false} ChainShortens(intra: IntraDeps, b: string, k: nat, m: nat)
    requires k <= m && HasChain(intra, b, m)
    ensures HasChain(intra, b, k)
    decreases m
  {
    if k > 0 {
      var d :| d in Deps(intra, b) && HasChain(intra, d, m - 1);
      ChainShortens(intra, d, k - 1, m - 1);
    }
  }

  lemma ShallowerOnce(intra: IntraDeps, x: string, y: string)
    ensures !(Shallower(intra, x, y) && Shallower(intra, y, x))
  {
    if Shallower(intra, x, y) && Shallower(intra, y, x) {
      var k: nat :| !HasChain(intra, x, k) && HasChain(intra, y, k);
      var m: nat :| !HasChain(intra, y, m) && HasChain(intra, x, m);
      if k <= m {
        ChainShortens(intra, x, k, m);
      } else {
        ChainShortens(intra, y, m, k);
      }
    }
  }

  /** Both longest chains have `k` links. */
  lemma SameLevel(intra: IntraDeps, x: string, y: string, k: nat)
    requires HasChain(intra, x, k) && !HasChain(intra, x, k + 1) && HasChain(intra, y, k)
    ensures !Shallower(intra, x, y) || HasChain(intra, y, k + 1)
  {
    if m: nat :| !HasChain(intra, x, m) && HasChain(intra, y, m) {
      if m <= k {
        ChainShortens(intra, x, m, k);
      } else {
        ChainShortens(intra, y, k + 1, m);
      }
    }
  }

  // ---------------------------------------------------------------------
  // One round
  // ---------------------------------------------------------------------

  /** What the round releases goes by last dependency, then by place. */
  lemma {:induction false} ReleaseOrder(bases: seq<string>, intra: IntraDeps, order: seq<string>, pre: seq<string>,
                                        group: seq<string>, i: nat, j: nat)
    requires NoDup(order) && pre + group <= order
    requires i < j < |Release(bases, intra, group, Elems(pre))|
    ensures var r := Release(bases, intra, group, Elems(pre)); EarlierRelease(bases, intra, order, r[i], r[j])
    decreases |group|
  {
    var node, rest, pre' := group[0], group[1..], pre + [group[0]];
    var head, tail := Unlocked(bases, intra, node, Elems(pre')), Release(bases, intra, rest, Elems(pre'));
    ReleaseHead(bases, intra, group, pre);
    var r := Release(bases, intra, group, Elems(pre));
    assert pre' + rest == pre + group;
    hide EarlierRelease, Release, Unlocked, NoDup;
    if i >= |head| {
      ReleaseOrder(bases, intra, order, pre', rest, i - |head|, j - |head|);
    } else if j < |head| {
      UnlockedOrder(bases, intra, order, pre, node, i, j);
    } else {
      ReleaseAcross(bases, intra, order, pre, group, r[i], r[j]);
    }
  }

  lemma ReleaseHead(bases: seq<string>, intra: IntraDeps, group: seq<string>, pre: seq<string>)
    requires group != []
    ensures var pre' := pre + [group[0]];
            Release(bases, intra, group, Elems(pre))
              == Unlocked(bases, intra, group[0], Elems(pre')) + Release(bases, intra, group[1..], Elems(pre'))
  {
    ElemsConcat(pre, [group[0]]);
    assert Elems([group[0]]) == {group[0]};
  }

  /** A member that `node` releases has `node` as its last dependency. */
  lemma UnlockedLast(bases: seq<string>, intra: IntraDeps, order: seq<string>, pre: seq<string>, node: string,
                     b: string)
    requires pre + [node] <= order && b in Unlocked(bases, intra, node, Elems(pre + [node]))
    ensures LastDep(order, intra, b, node)
  {
    forall e | e in Deps(intra, b) && e != node ensures Before(order, e, node) {
      assert e in Elems(pre + [node]);
      BeforeAcross(pre, [node], e, node);
      BeforeInPrefix(pre + [node], order, e, node);
    }
  }

  lemma UnlockedOrder(bases: seq<string>, intra: IntraDeps, order: seq<string>, pre: seq<string>, node: string,
                      i: nat, j: nat)
    requires pre + [node] <= order && i < j < |Unlocked(bases, intra, node, Elems(pre + [node]))|
    ensures var u := Unlocked(bases, intra, node, Elems(pre + [node])); EarlierRelease(bases, intra, order, u[i], u[j])
  {
    var u := Unlocked(bases, intra, node, Elems(pre + [node]));
    FilterOrder(UnlockedBy(intra, node, Elems(pre + [node])), bases, i, j);
    UnlockedLast(bases, intra, order, pre, node, u[i]);
    UnlockedLast(bases, intra, order, pre, node, u[j]);
    hide Before, LastDep;
  }

  /** What the rest of the group releases has its last dependency in the rest. */
  lemma {:induction false} ReleasedLast(bases: seq<string>, intra: IntraDeps, order: seq<string>, pre: seq<string>,
                                        group: seq<string>, b: string)
    requires pre + group <= order && b in Release(bases, intra, group, Elems(pre))
    ensures exists d :: d in group && LastDep(order, intra, b, d)
    decreases |group|
  {
    var node, rest, pre' := group[0], group[1..], pre + [group[0]];
    ReleaseHead(bases, intra, group, pre);
    assert pre' + rest == pre + group;
    hide LastDep, Unlocked, Release;
    if b in Unlocked(bases, intra, node, Elems(pre')) {
      assert pre' <= pre + group;
      UnlockedLast(bases, intra, order, pre, node, b);
      assert node in group;
    } else {
      ReleasedLast(bases, intra, order, pre', rest, b);
      var d :| d in rest && LastDep(order, intra, b, d);
      assert d in group;
    }
  }

  lemma ReleaseAcross(bases: seq<string>, intra: IntraDeps, order: seq<string>, pre: seq<string>, group: seq<string>,
                      x: string, y: string)
    requires group != [] && pre + group <= order
    requires var pre' := pre + [group[0]];
             x in Unlocked(bases, intra, group[0], Elems(pre')) && y in Release(bases, intra, group[1..], Elems(pre'))
    ensures EarlierRelease(bases, intra, order, x, y)
  {
    var node, rest, pre' := group[0], group[1..], pre + [group[0]];
    assert pre' + rest == pre + group && pre' <= pre + group;
    hide LastDep, Unlocked, Release, Before;
    UnlockedLast(bases, intra, order, pre, node, x);
    ReleasedLast(bases, intra, order, pre', rest, y);
    var e :| e in rest && LastDep(order, intra, y, e);
    assert node in pre';
    BeforeAcross(pre', rest, node, e);
    BeforeInPrefix(pre' + rest, order, node, e);
  }

  // ---------------------------------------------------------------------
  // All rounds
  // ---------------------------------------------------------------------

  /** `done` holds exactly the members without a chain of `k`. */
  ghost predicate Levels(bases: seq<string>, intra: IntraDeps, done: seq<string>, k: nat) {
    forall b :: b in bases ==> (b in done <==> !HasChain(intra, b, k))
  }

  ghost predicate AllEarlier(bases: seq<string>, intra: IntraDeps, order: seq<string>, s: seq<string>) {
    forall i, j :: 0 <= i < j < |s| ==> Earlier(bases, intra, order, s[i], s[j])
  }

  /** What is handed out or ready after `k` rounds has no chain of `k + 1`. */
  lemma NextLevel(bases: seq<string>, intra: IntraDeps, done: seq<string>, ready: seq<string>, k: nat, b: string)
    requires SortState(bases, intra, done, ready) && InBatch(bases, intra) && b in bases
    requires Levels(bases, intra, done, k)
    ensures b in done + ready <==> !HasChain(intra, b, k + 1)
  {
    assert b in done + ready <==> b in Elems(done) + Elems(ready);
    if b in done + ready {
      forall d | d in Deps(intra, b) ensures !HasChain(intra, d, k) {
        assert d in Elems(bases) && d in Elems(done);
      }
    } else {
      var d :| d in Deps(intra, b) && d !in Elems(done);
      assert d in Elems(bases);
    }
  }

  /** Two members of the next round are on one level, and it orders them. */
  lemma ReleasedEarlier(bases: seq<string>, intra: IntraDeps, order: seq<string>, done: seq<string>,
                        ready: seq<string>, k: nat,
                        i: nat, j: nat)
    requires SortState(bases, intra, done, ready) && InBatch(bases, intra) && NoDup(order) && done + ready <= order
    requires Levels(bases, intra, done, k)
    requires i < j < |Release(bases, intra, ready, Elems(done))|
    ensures var r := Release(bases, intra, ready, Elems(done)); Earlier(bases, intra, order, r[i], r[j])
  {
    var r := Release(bases, intra, ready, Elems(done));
    ReleaseLevel(bases, intra, done, ready, k, r[i]);
    ReleaseLevel(bases, intra, done, ready, k, r[j]);
    ReleaseOrder(bases, intra, order, done, ready, i, j);
    hide EarlierRelease, Release, SortState, HasChain, Shallower;
    SameLevel(intra, r[j], r[i], k + 1);
  }

  lemma ReleaseLevel(bases: seq<string>, intra: IntraDeps, done: seq<string>, ready: seq<string>, k: nat, b: string)
    requires SortState(bases, intra, done, ready) && InBatch(bases, intra)
    requires Levels(bases, intra, done, k)
    requires b in Release(bases, intra, ready, Elems(done))
    ensures b in bases && Deps(intra, b) != {} && HasChain(intra, b, k + 1) && !HasChain(intra, b, k + 2)
  {
    ReleaseIsNewlyReady(bases, intra, ready, Elems(done));
    NextLevel(bases, intra, done, ready, k, b);
    forall c | c in bases ensures c in done + ready <==> !HasChain(intra, c, k + 1) {
      NextLevel(bases, intra, done, ready, k, c);
    }
    forall d | d in Deps(intra, b) ensures !HasChain(intra, d, k + 1) {
      assert d in Elems(bases) && d in done + ready;
    }
    assert b !in done + ready;
  }

  lemma RoundKeepsLevels(bases: seq<string>, intra: IntraDeps, done: seq<string>, ready: seq<string>, k: nat)
    requires SortState(bases, intra, done, ready) && InBatch(bases, intra) && Levels(bases, intra, done, k)
    ensures Levels(bases, intra, done + ready, k + 1)
  {
    hide SortState, InBatch, HasChain;
    forall b | b in bases ensures b in done + ready <==> !HasChain(intra, b, k + 1) {
      NextLevel(bases, intra, done, ready, k, b);
    }
  }

  lemma RoundKeepsEarlier(bases: seq<string>, intra: IntraDeps, order: seq<string>, done: seq<string>,
                          ready: seq<string>, k: nat)
    requires SortState(bases, intra, done, ready) && InBatch(bases, intra) && NoDup(order)
    requires Levels(bases, intra, done, k)
    requires AllEarlier(bases, intra, order, done + ready) && done + ready <= order
    ensures AllEarlier(bases, intra, order, done + ready + Release(bases, intra, ready, Elems(done)))
  {
    hide SortState, Release, Earlier, InBatch, HasChain, Levels, NoDup;
    var r, s := Release(bases, intra, ready, Elems(done)), done + ready;
    forall i, j | 0 <= i < j < |s + r| ensures Earlier(bases, intra, order, (s + r)[i], (s + r)[j]) {
      if j < |s| {
        assert (s + r)[i] == s[i] && (s + r)[j] == s[j];
      } else if i >= |s| {
        ReleasedEarlier(bases, intra, order, done, ready, k, i - |s|, j - |s|);
      } else {
        EarlierRound(bases, intra, order, done, ready, k, s[i], r[j - |s|]);
      }
    }
  }

  lemma EarlierRound(bases: seq<string>, intra: IntraDeps, order: seq<string>, done: seq<string>, ready: seq<string>,
                     k: nat,
                     x: string, y: string)
    requires SortState(bases, intra, done, ready) && InBatch(bases, intra)
    requires Levels(bases, intra, done, k)
    requires x in done + ready && y in Release(bases, intra, ready, Elems(done))
    ensures Earlier(bases, intra, order, x, y)
  {
    ReleaseLevel(bases, intra, done, ready, k, y);
    assert x in Elems(done) + Elems(ready);
    NextLevel(bases, intra, done, ready, k, x);
    hide Release, SortState, HasChain, EarlierRelease;
  }

  lemma {:induction false} RoundsAreEarlier(bases: seq<string>, intra: IntraDeps, order: seq<string>,
                                            done: seq<string>, ready: seq<string>, k: nat, i: nat, j: nat)
    requires SortState(bases, intra, done, ready) && InBatch(bases, intra) && NoDup(order)
    requires Levels(bases, intra, done, k) && AllEarlier(bases, intra, order, done + ready)
    requires Rounds(bases, intra, done, ready) == order
    requires i < j < |order|
    ensures Earlier(bases, intra, order, order[i], order[j])
    decreases Elems(bases) - Elems(done)
  {
    RoundsExtend(bases, intra, done, ready);
    if ready == [] {
      assert done + ready == order;
    } else {
      RoundKeepsLevels(bases, intra, done, ready, k);
      RoundKeepsEarlier(bases, intra, order, done, ready, k);
      RoundKeepsState(bases, intra, done, ready);
      ElemsConcat(done, ready);
      assert ready[0] in Elems(ready) && ready[0] in Elems(done) + Elems(ready);
      hide Levels, AllEarlier, Release, Earlier;
      RoundsAreEarlier(bases, intra, order, done + ready, Release(bases, intra, ready, Elems(done)), k + 1, i, j);
    }
  }

  lemma SourceIsShallow(intra: IntraDeps, x: string, y: string)
    requires Deps(intra, y) == {}
    ensures !Shallower(intra, x, y)
  {
    forall m: nat | HasChain(intra, y, m) ensures HasChain(intra, x, m) {
      assert m == 0;
    }
  }

  lemma MentionedFirstOnce(bases: seq<string>, intra: IntraDeps, x: string, y: string)
    requires x != y
    ensures !(MentionedFirst(bases, intra, x, y) && MentionedFirst(bases, intra, y, x))
  {
    if MentionedFirst(bases, intra, x, y) && MentionedFirst(bases, intra, y, x) && Le(x, y) && Le(y, x) {
      LeAntisymmetric(x, y);
    }
  }

  /** In `more`, `x` first occurs in front of `y`. */
  ghost predicate OccursFirst(more: seq<string>, x: string, y: string) {
    exists p :: 0 <= p < |more| && more[p] == x && y in more[p..] && y !in more[..p + 1]
  }

  lemma OccursFirstLater(more: seq<string>, x: string, y: string)
    requires more != [] && y != more[0] && OccursFirst(more[1..], x, y)
    ensures OccursFirst(more, x, y)
  {
    var p :| 0 <= p < |more[1..]| && more[1..][p] == x && y in more[1..][p..] && y !in more[1..][..p + 1];
    assert more[p + 1] == x && more[p + 1..] == more[1..][p..] && more[..p + 2] == [more[0]] + more[1..][..p + 1];
  }

  /** What is appended comes in the order in which it first occurs. */
  lemma {:induction false} AppendOrder(nodes: seq<string>, more: seq<string>, i: nat, j: nat)
    requires NoDup(nodes) && i < j < |Append(nodes, more)|
    ensures nodes <= Append(nodes, more)
    ensures var r := Append(nodes, more);
            j >= |nodes| ==> r[j] in more && r[j] !in nodes && (i >= |nodes| ==> OccursFirst(more, r[i], r[j]))
    decreases |more|
  {
    hide OccursFirst;
    if more != [] {
      var head, rest := more[0], more[1..];
      var next := if head in nodes then nodes else nodes + [head];
      var r := Append(nodes, more);
      NoDupConcat(nodes, if head in nodes then [] else [head]);
      AppendOrder(next, rest, i, j);
      if i >= |next| {
        OccursFirstLater(more, r[i], r[j]);
      } else if i >= |nodes| {
        HeadOccursFirst(more, r[j]);
      }
    }
  }

  lemma HeadOccursFirst(more: seq<string>, y: string)
    requires more != [] && y in more && y != more[0]
    ensures OccursFirst(more, more[0], y)
  {
    assert more[0..] == more && more[..1] == [more[0]];
  }

  /** The sorter knows what is mentioned. */
  lemma {:induction false} NodesAreMentioned(bases: seq<string>, intra: IntraDeps, x: string)
    ensures x in NodeOrder(bases, intra) <==> exists i :: FirstIn(bases, intra, x, i)
  {
    hide Deps;
    if bases != [] {
      var k := |bases| - 1;
      NodesAreMentioned(bases[..k], intra, x);
      AddedElems(bases[k], intra);
      assert Elems(NodeOrder(bases, intra))
          == Elems(NodeOrder(bases[..k], intra)) + ({bases[k]} + Deps(intra, bases[k]));
      assert x in NodeOrder(bases, intra) <==> x in Elems(NodeOrder(bases, intra));
      assert x in NodeOrder(bases[..k], intra) <==> x in Elems(NodeOrder(bases[..k], intra));
      FirstInPrefix(bases, intra, x);
    }
  }

  lemma {:induction false} MentionHasFirst(bases: seq<string>, intra: IntraDeps, x: string, h: nat)
    requires h < |bases| && Mentions(bases, intra, x, h)
    ensures exists i :: i <= h && FirstIn(bases, intra, x, i)
  {
    if !FirstIn(bases, intra, x, h) {
      var g :| 0 <= g < h && Mentions(bases, intra, x, g);
      MentionHasFirst(bases, intra, x, g);
    }
  }

  lemma FirstInPrefix(bases: seq<string>, intra: IntraDeps, x: string)
    requires bases != []
    ensures var k := |bases| - 1;
            && (forall i :: FirstIn(bases[..k], intra, x, i) <==> i < k && FirstIn(bases, intra, x, i))
            && (Mentions(bases, intra, x, k) ==> exists i :: FirstIn(bases, intra, x, i))
  {
    var k := |bases| - 1;
    hide Deps;
    assert forall i :: 0 <= i < k ==> (Mentions(bases[..k], intra, x, i) <==> Mentions(bases, intra, x, i));
    if Mentions(bases, intra, x, k) {
      MentionHasFirst(bases, intra, x, k);
    }
  }

  lemma MentionedLater(bases: seq<string>, intra: IntraDeps, x: string, y: string)
    requires bases != [] && MentionedFirst(bases[..|bases| - 1], intra, x, y)
    ensures MentionedFirst(bases, intra, x, y)
  {
    FirstInPrefix(bases, intra, x);
    FirstInPrefix(bases, intra, y);
  }

  /** The nodes of the sorter stand in the order in which they are first mentioned. */
  lemma {:induction false} NodesByMention(bases: seq<string>, intra: IntraDeps, i: nat, j: nat)
    requires i < j < |NodeOrder(bases, intra)|
    ensures var r := NodeOrder(bases, intra); MentionedFirst(bases, intra, r[i], r[j])
  {
    var k := |bases| - 1;
    var nodes, more := NodeOrder(bases[..k], intra), Added(bases[k], intra);
    var r := NodeOrder(bases, intra);
    AppendOrder(nodes, more, i, j);
    assert i < |nodes| ==> r[i] == nodes[i];
    assert j < |nodes| ==> r[j] == nodes[j];
    hide Deps, Added, Append, NodeOrder;
    hide MentionedFirst, FirstIn, OccursFirst;
    if j < |nodes| {
      NodesByMention(bases[..k], intra, i, j);
      MentionedLater(bases, intra, nodes[i], nodes[j]);
    } else {
      NewMention(bases, intra, r[j]);
      if i < |nodes| {
        OldThenNew(bases, intra, r[i], r[j]);
      } else {
        NewMention(bases, intra, r[i]);
        BothNew(bases, intra, r[i], r[j]);
      }
    }
  }

  lemma OldThenNew(bases: seq<string>, intra: IntraDeps, x: string, y: string)
    requires bases != [] && x in NodeOrder(bases[..|bases| - 1], intra) && FirstIn(bases, intra, y, |bases| - 1)
    ensures MentionedFirst(bases, intra, x, y)
  {
    NodesAreMentioned(bases[..|bases| - 1], intra, x);
    FirstInPrefix(bases, intra, x);
    hide FirstIn, NodeOrder;
  }

  /** A target stands in front of its dependencies, and these are sorted. */
  lemma BothNew(bases: seq<string>, intra: IntraDeps, x: string, y: string)
    requires bases != [] && OccursFirst(Added(bases[|bases| - 1], intra), x, y)
    requires FirstIn(bases, intra, x, |bases| - 1) && FirstIn(bases, intra, y, |bases| - 1)
    ensures MentionedFirst(bases, intra, x, y)
  {
    hide *;
    AddedInOrder(bases[|bases| - 1], intra, x, y);
    MentionedTogether(bases, intra, x, y, |bases| - 1);
  }

  lemma MentionedTogether(bases: seq<string>, intra: IntraDeps, x: string, y: string, i: nat)
    requires FirstIn(bases, intra, x, i) && FirstIn(bases, intra, y, i) && i < |bases|
    requires y != bases[i] && (x == bases[i] || Le(x, y))
    ensures MentionedFirst(bases, intra, x, y)
  {
    hide FirstIn;
  }

  lemma AddedInOrder(base: string, intra: IntraDeps, x: string, y: string)
    requires OccursFirst(Added(base, intra), x, y)
    ensures y != base && (x == base || Le(x, y))
  {
    var deps := SortedOf(multiset(Deps(intra, base)));
    var more := Added(base, intra);
    SortedOfAscends(multiset(Deps(intra, base)));
    hide SortedOf, Deps, Ascending;
    var p :| 0 <= p < |more| && more[p] == x && y in more[p..] && y !in more[..p + 1];
    assert more[..p + 1][0] == base && more[..p + 1][p] == x;
    if p > 0 {
      assert more[p..] == deps[p - 1..];
      AscendsFrom(deps, p - 1, y);
    }
  }

  lemma {:induction false} AscendsFrom(s: seq<string>, p: nat, y: string)
    requires p < |s| && Ascending(s) && y in s[p..]
    ensures s[p] == y || Le(s[p], y)
  {
    if p == 0 {
      assert s == [s[0]] + s[1..];
    } else {
      assert s[p..] == s[1..][p - 1..];
      AscendsFrom(s[1..], p - 1, y);
    }
  }

  /** Not mentioned before the last target. */
  lemma NewMention(bases: seq<string>, intra: IntraDeps, y: string)
    requires bases != []
    requires y in Added(bases[|bases| - 1], intra) && y !in NodeOrder(bases[..|bases| - 1], intra)
    ensures FirstIn(bases, intra, y, |bases| - 1)
  {
    var k := |bases| - 1;
    NodesAreMentioned(bases[..k], intra, y);
    FirstInPrefix(bases, intra, y);
    AddedElems(bases[k], intra);
    assert y in Elems(Added(bases[k], intra));
  }

  /** Members without dependencies stand as they are first mentioned. */
  lemma SourcesEarlier(bases: seq<string>, intra: IntraDeps, order: seq<string>, i: nat, j: nat)
    requires i < j < |Sources(bases, intra)|
    ensures Earlier(bases, intra, order, Sources(bases, intra)[i], Sources(bases, intra)[j])
  {
    var sources := Sources(bases, intra);
    var x, y := sources[i], sources[j];
    assert x in sources && y in sources;
    assert Deps(intra, x) == {} && Deps(intra, y) == {};
    FilterNoDup((b: string) => Deps(intra, b) == {}, NodeOrder(bases, intra));
    hide Shallower, NodeOrder, Filter, EarlierRelease, Deps, MentionedFirst;
    FilterOrder((b: string) => Deps(intra, b) == {}, NodeOrder(bases, intra), i, j);
    var m, n :| 0 <= m < n < |NodeOrder(bases, intra)| && NodeOrder(bases, intra)[m] == x
                && NodeOrder(bases, intra)[n] == y;
    NodesByMention(bases, intra, m, n);
    SourceIsShallow(intra, y, x);
  }

  /** Before the first round. */
  lemma SourcesAreEarlier(bases: seq<string>, intra: IntraDeps, order: seq<string>)
    ensures Levels(bases, intra, [], 0) && AllEarlier(bases, intra, order, [] + Sources(bases, intra))
  {
    hide Earlier, Sources;
    var sources := Sources(bases, intra);
    assert [] + sources == sources;
    forall i, j | 0 <= i < j < |sources| ensures Earlier(bases, intra, order, sources[i], sources[j]) {
      SourcesEarlier(bases, intra, order, i, j);
    }
  }

  lemma OrderIsEarlier(bases: seq<string>, intra: IntraDeps, x: string, y: string)
    requires NoDup(bases) && InBatch(bases, intra) && Before(StaticOrder(bases, intra), x, y)
    ensures Earlier(bases, intra, StaticOrder(bases, intra), x, y)
  {
    var order := StaticOrder(bases, intra);
    SourcesStart(bases, intra);
    SourcesAreEarlier(bases, intra, order);
    SortSucceedsIffAcyclic(bases, intra);
    var i, j :| 0 <= i < j < |order| && order[i] == x && order[j] == y;
    RoundsAreEarlier(bases, intra, order, [], Sources(bases, intra), 0, i, j);
  }

  // ---------------------------------------------------------------------
  // The exact order
  // ---------------------------------------------------------------------

  lemma LastDepOnce(order: seq<string>, intra: IntraDeps, b: string, d: string, e: string)
    requires NoDup(order) && LastDep(order, intra, b, d) && LastDep(order, intra, b, e)
    ensures d == e
  {
    BeforeOnce(order, d, e);
  }

  lemma EarlierReleaseOnce(bases: seq<string>, intra: IntraDeps, order: seq<string>, x: string, y: string)
    requires NoDup(bases) && NoDup(order)
    ensures !(EarlierRelease(bases, intra, order, x, y) && EarlierRelease(bases, intra, order, y, x))
  {
    if EarlierRelease(bases, intra, order, x, y) && EarlierRelease(bases, intra, order, y, x) {
      var d, e :| LastDep(order, intra, x, d) && LastDep(order, intra, y, e)
                  && (Before(order, d, e) || (d == e && Before(bases, x, y)));
      var e', d' :| LastDep(order, intra, y, e') && LastDep(order, intra, x, d')
                    && (Before(order, e', d') || (e' == d' && Before(bases, y, x)));
      LastDepOnce(order, intra, x, d, d');
      LastDepOnce(order, intra, y, e, e');
      hide Before, LastDep;
      BeforeOnce(order, d, e);
      BeforeOnce(bases, x, y);
      BeforeOnce(order, d, d);
    }
  }

  lemma EarlierOnce(bases: seq<string>, intra: IntraDeps, order: seq<string>, x: string, y: string)
    requires NoDup(bases) && NoDup(order)
    ensures !(Earlier(bases, intra, order, x, y) && Earlier(bases, intra, order, y, x))
  {
    ShallowerOnce(intra, x, y);
    if x != y {
      MentionedFirstOnce(bases, intra, x, y);
    }
    EarlierReleaseOnce(bases, intra, order, x, y);
    LevelOfSources(intra, x, y);
    LevelOfSources(intra, y, x);
    hide Shallower, Before, EarlierRelease, MentionedFirst;
  }

  /** On one level, both members have dependencies or neither has. */
  lemma LevelOfSources(intra: IntraDeps, x: string, y: string)
    ensures Deps(intra, x) == {} && Deps(intra, y) != {} ==> Shallower(intra, x, y)
  {
    if Deps(intra, x) == {} && Deps(intra, y) != {} {
      var d :| d in Deps(intra, y);
      assert HasChain(intra, d, 0);
      assert HasChain(intra, y, 1) && !HasChain(intra, x, 1);
    }
  }

  /** Of any two members of an acyclic batch, related or not, exactly the earlier
      one is built first. */
  lemma BuiltFirstIffEarlier(bases: seq<string>, intra: IntraDeps, x: string, y: string)
    requires NoDup(bases) && InBatch(bases, intra) && !Cyclic(intra) && x in bases && y in bases && x != y
    ensures Before(StaticOrder(bases, intra), x, y) <==> Earlier(bases, intra, StaticOrder(bases, intra), x, y)
  {
    var order := StaticOrder(bases, intra);
    SortSucceedsIffAcyclic(bases, intra);
    assert x in Elems(bases) && y in Elems(bases);
    hide StaticOrder, Cyclic, InBatch, NoDup, Earlier, Before, DepsFirst;
    BeforeTotal(order, x, y);
    if Before(order, x, y) {
      OrderIsEarlier(bases, intra, x, y);
    } else {
      OrderIsEarlier(bases, intra, y, x);
      EarlierOnce(bases, intra, order, x, y);
    }
  }

  // ---------------------------------------------------------------------
  // Two batches in which unrelated members change places
  // ---------------------------------------------------------------------

  ghost predicate DependsOn(intra: IntraDeps, x: string, y: string) {
    exists p :: DepPath(intra, p) && |p| >= 2 && p[0] == x && p[|p| - 1] == y
  }

  ghost predicate Unrelated(intra: IntraDeps, x: string, y: string) {
    !DependsOn(intra, x, y) && !DependsOn(intra, y, x)
  }

  /** One edge, from `b` to `a`: nothing else depends on anything. */
  lemma OneEdge(b: string, a: string)
    requires b != a
    ensures var intra: IntraDeps := map[b := {a}];
            !Cyclic(intra) && forall x, y :: DependsOn(intra, x, y) ==> x == b && y == a
  {
    var intra: IntraDeps := map[b := {a}];
    forall p | DepPath(intra, p) && |p| >= 2 ensures |p| == 2 && p[0] == b && p[1] == a {
      assert p[1] in Deps(intra, p[0]);
      assert |p| > 2 ==> p[2] in Deps(intra, p[1]);
    }
  }

  /** A batch of three with one edge. */
  lemma ThreeMembers(x: string, y: string, z: string, b: string, a: string)
    requires x != y && y != z && z != x && a in [x, y, z] && b in [x, y, z]
    ensures NoDup([x, y, z]) && InBatch([x, y, z], map[b := {a}])
    ensures Before([x, y, z], y, z)
  {
    assert [x, y, z][1] == y && [x, y, z][2] == z;
    assert a in Elems([x, y, z]);
  }

  /** `b` needs `a`, and `c` nothing: `c` moves in front of `b`. */
  lemma IndependentOvertakes()
    ensures var bases, intra := ["a", "b", "c"], map["b" := {"a"}];
            && NoDup(bases) && InBatch(bases, intra) && Unrelated(intra, "b", "c")
            && Before(bases, "b", "c") && Before(StaticOrder(bases, intra), "c", "b")
  {
    var bases := ["a", "b", "c"];
    var intra: IntraDeps := map["b" := {"a"}];
    LevelOfSources(intra, "c", "b");
    hide StaticOrder, Cyclic, DependsOn, Shallower, Before, NoDup, InBatch, EarlierRelease, NodeOrder;
    ThreeMembers("a", "b", "c", "b", "a");
    OneEdge("b", "a");
    BuiltFirstIffEarlier(bases, intra, "c", "b");
  }

  /** `c` needs `a`, and `b` nothing: `a` is mentioned by `c`, in front of `b`. */
  lemma MentionOvertakes()
    ensures var bases, intra := ["c", "b", "a"], map["c" := {"a"}];
            && NoDup(bases) && InBatch(bases, intra) && Unrelated(intra, "b", "a")
            && Before(bases, "b", "a") && Before(StaticOrder(bases, intra), "a", "b")
  {
    hide StaticOrder, Cyclic, DependsOn, NodeOrder, Earlier, Before, NoDup, InBatch;
    var bases := ["c", "b", "a"];
    var intra: IntraDeps := map["c" := {"a"}];
    ThreeMembers("c", "b", "a", "c", "a");
    MentionedEarlier(bases, intra);
    OneEdge("c", "a");
    BuiltFirstIffEarlier(bases, intra, "a", "b");
  }

  lemma MentionedEarlier(bases: seq<string>, intra: IntraDeps)
    requires bases == ["c", "b", "a"] && intra == map["c" := {"a"}]
    ensures forall order :: Earlier(bases, intra, order, "a", "b")
  {
    assert Deps(intra, "a") == {} && FirstIn(bases, intra, "a", 0) && FirstIn(bases, intra, "b", 1);
    hide Shallower, Before, Deps, EarlierRelease;
    SourceIsShallow(intra, "b", "a");
  }
}
