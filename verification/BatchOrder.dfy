/** Intra-batch dependency ordering: `_order_targets_by_intra_deps` in
    sysforge/build_core.py, with the `graphlib` sorter it runs. */
module BatchOrder {
  import opened Prelude
  import opened Packages
  import opened DepTokens

  // ---------------------------------------------------------------------
  // Edges inside the batch
  // ---------------------------------------------------------------------

  /** What the PKGBUILD parser reports about one target. */
  datatype Meta = Meta(offers: seq<string>, depends: seq<string>, makedepends: seq<string>, checkdepends: seq<string>)

  type IntraDeps = map<string, set<string>>

  /** A parse failure counts as a PKGBUILD that declares nothing. */
  function MetaOf(parse: Target -> Option<Meta>, t: Target): Meta {
    match parse(t)
    case Some(m) => m
    case None => Meta([], [], [], [])
  }

  /** The names `t` claims to provide, in the order they are registered. */
  function Claims(parse: Target -> Option<Meta>, t: Target): seq<string> {
    t.pkgnames + Stripped(MetaOf(parse, t).offers)
  }

  /** The dependency names of `t` that the edge search looks up. */
  function Wanted(parse: Target -> Option<Meta>, t: Target): seq<string> {
    var m := MetaOf(parse, t);
    Stripped(m.depends + m.makedepends + m.checkdepends)
  }

  function Stripped(tokens: seq<string>): seq<string> {
    if tokens == [] then []
    else if LooksUnresolved(tokens[0]) then Stripped(tokens[1..])
    else [StripVersion(tokens[0])] + Stripped(tokens[1..])
  }

  /** `t` is a package called `name`, or offers that name. */
  ghost predicate Claimed(parse: Target -> Option<Meta>, t: Target, name: string) {
    name in t.pkgnames ||
      (parse(t).Some? && exists token :: token in parse(t).value.offers && Resolved(token) && Names(token, name))
  }

  /** One of the three dependency lists of `t` asks for `name`. */
  ghost predicate Needed(parse: Target -> Option<Meta>, t: Target, name: string) {
    parse(t).Some? && exists token ::
      && Resolved(token) && Names(token, name)
      && (token in parse(t).value.depends || token in parse(t).value.makedepends
          || token in parse(t).value.checkdepends)
  }

  lemma {:induction false} StrippedAre(tokens: seq<string>, name: string)
    ensures name in Stripped(tokens) <==> exists token :: token in tokens && Resolved(token) && Names(token, name)
  {
    hide Names, LooksUnresolved, StripVersion, Resolved;
    if tokens != [] {
      StrippedAre(tokens[1..], name);
      ResolvedIs(tokens[0]);
      StripMeans(tokens[0], name);
      assert tokens == [tokens[0]] + tokens[1..];
    }
  }

  /** The names looked up are those the lists ask for, no more and no less. */
  lemma NamesRead(parse: Target -> Option<Meta>, t: Target)
    ensures forall name :: name in Claims(parse, t) <==> Claimed(parse, t, name)
    ensures forall name :: name in Wanted(parse, t) <==> Needed(parse, t, name)
  {
    var m := MetaOf(parse, t);
    forall name ensures name in Claims(parse, t) <==> Claimed(parse, t, name) {
      StrippedAre(m.offers, name);
    }
    forall name ensures name in Wanted(parse, t) <==> Needed(parse, t, name) {
      StrippedAre(m.depends + m.makedepends + m.checkdepends, name);
    }
    hide Names, Resolved, Stripped;
  }

  /** `name` belongs to the earliest target that claims it. */
  ghost predicate Owns(targets: seq<Target>, parse: Target -> Option<Meta>, name: string, k: int) {
    0 <= k < |targets| && Claimed(parse, targets[k], name)
        && forall i :: 0 <= i < k ==> !Claimed(parse, targets[i], name)
  }

  /** Target `t` build-depends on batch member `d`. */
  ghost predicate NeedsMember(targets: seq<Target>, parse: Target -> Option<Meta>, t: Target, d: string) {
    d != t.pkgbase && exists name, k ::
        Needed(parse, t, name) && Owns(targets, parse, name, k) && targets[k].pkgbase == d
  }

  function Deps(intra: IntraDeps, base: string): set<string> {
    if base in intra then intra[base] else {}
  }

  ghost predicate InBatch(bases: seq<string>, intra: IntraDeps) {
    forall b :: b in intra ==> b in bases && intra[b] <= Elems(bases)
  }

  /** Register every claim with first-wins (`setdefault`). */
  method Providers(targets: seq<Target>, parse: Target -> Option<Meta>) returns (owner: map<string, string>)
    ensures forall k, name :: Owns(targets, parse, name, k) ==> name in owner && owner[name] == targets[k].pkgbase
    ensures forall name :: name in owner ==> exists k :: Owns(targets, parse, name, k)
  {
    hide Claimed, Claims;
    owner := map[];
    for i := 0 to |targets|
      invariant forall name :: name in owner <==> exists k :: k < i && Owns(targets, parse, name, k)
      invariant forall k, name :: k < i && Owns(targets, parse, name, k) ==>
          name in owner && owner[name] == targets[k].pkgbase
    {
      var claims := Claims(parse, targets[i]);
      NamesRead(parse, targets[i]);
      ghost var before := owner;
      for c := 0 to |claims|
        invariant forall name :: name in owner <==> name in before || name in claims[..c]
        invariant forall name :: name in owner ==>
            owner[name] == if name in before then before[name] else targets[i].pkgbase
      {
        if claims[c] !in owner {
          owner := owner[claims[c] := targets[i].pkgbase];
        }
      }
      assert claims[..|claims|] == claims;
      forall name ensures name in owner <==> exists k :: k < i + 1 && Owns(targets, parse, name, k) {
        if name in claims && name !in before {
          FirstClaim(targets, parse, name, i);
        }
      }
    }
    forall name | name in owner ensures exists k :: Owns(targets, parse, name, k) {
      var k :| k < |targets| && Owns(targets, parse, name, k);
    }
  }

  lemma FirstClaim(targets: seq<Target>, parse: Target -> Option<Meta>, name: string, i: nat)
    requires i < |targets| && Claimed(parse, targets[i], name)
    ensures exists k :: k <= i && Owns(targets, parse, name, k)
  {
    if !Owns(targets, parse, name, i) {
      var j :| 0 <= j < i && Claimed(parse, targets[j], name);
      FirstClaim(targets, parse, name, j);
    }
  }

  /** The batch members one target depends on. */
  method MemberDeps(targets: seq<Target>, parse: Target -> Option<Meta>, owner: map<string, string>, t: Target)
    returns (depBases: set<string>)
    requires forall k, name :: Owns(targets, parse, name, k) ==> name in owner && owner[name] == targets[k].pkgbase
    requires forall name :: name in owner ==> exists k :: Owns(targets, parse, name, k)
    ensures forall d :: d in depBases <==> NeedsMember(targets, parse, t, d)
  {
    hide Needed, Wanted, Owns;
    NamesRead(parse, t);
    var wanted := Wanted(parse, t);
    depBases := {};
    for w := 0 to |wanted|
      invariant forall d :: d in depBases <==>
        d != t.pkgbase && exists name :: name in wanted[..w] && name in owner && owner[name] == d
    {
      if wanted[w] in owner && owner[wanted[w]] != t.pkgbase {
        depBases := depBases + {owner[wanted[w]]};
      }
    }
    assert wanted[..|wanted|] == wanted;
    forall d ensures d in depBases <==> NeedsMember(targets, parse, t, d) {
      if d in depBases {
        var name :| name in wanted && name in owner && owner[name] == d;
        var k :| Owns(targets, parse, name, k);
      }
    }
  }

  lemma NeedsBatchMember(targets: seq<Target>, parse: Target -> Option<Meta>, t: Target, d: string)
    requires NeedsMember(targets, parse, t, d)
    ensures d in Elems(Bases(targets))
  {
  }

  /** The `intra_deps` map: exactly the build dependencies inside the batch. */
  method CollectIntraDeps(targets: seq<Target>, parse: Target -> Option<Meta>) returns (intra: IntraDeps)
    requires NoDup(Bases(targets))
    ensures forall t, d :: t in targets ==> (d in Deps(intra, t.pkgbase) <==> NeedsMember(targets, parse, t, d))
    ensures InBatch(Bases(targets), intra)
    ensures forall b :: b in intra ==> intra[b] != {}
  {
    hide NeedsMember, Owns;
    var owner := Providers(targets, parse);
    ghost var bases := Bases(targets);
    intra := map[];
    for i := 0 to |targets|
      invariant forall b :: b in intra ==> b in bases[..i] && intra[b] != {} && intra[b] <= Elems(bases)
      invariant forall j, d :: 0 <= j < i ==>
        (d in Deps(intra, targets[j].pkgbase) <==> NeedsMember(targets, parse, targets[j], d))
    {
      var depBases := MemberDeps(targets, parse, owner, targets[i]);
      forall d | d in depBases ensures d in Elems(bases) {
        NeedsBatchMember(targets, parse, targets[i], d);
      }
      assert bases[i] == targets[i].pkgbase && bases[i] !in bases[..i];
      if depBases != {} {
        intra := intra[targets[i].pkgbase := depBases];
      }
    }
  }

  // ---------------------------------------------------------------------
  // Paths and cycles
  // ---------------------------------------------------------------------

  /** Each entry of `p` build-depends on the next. */
  ghost predicate DepPath(intra: IntraDeps, p: seq<string>) {
    forall k :: 0 <= k < |p| - 1 ==> p[k + 1] in Deps(intra, p[k])
  }

  ghost predicate IsCycle(intra: IntraDeps, c: seq<string>) {
    |c| >= 2 && c[0] == c[|c| - 1] && DepPath(intra, c)
  }

  ghost predicate Cyclic(intra: IntraDeps) {
    exists c :: IsCycle(intra, c)
  }

  /** Every dependency stands before its dependents. */
  ghost predicate DepsFirst(order: seq<string>, intra: IntraDeps) {
    forall j, d :: 0 <= j < |order| && d in Deps(intra, order[j]) ==> d in order[..j]
  }

  /** In a deps-first order the whole transitive closure stands before, too. */
  lemma {:induction false} PathPrecedes(order: seq<string>, intra: IntraDeps, p: seq<string>, j: nat)
    requires DepsFirst(order, intra) && DepPath(intra, p) && |p| >= 2
    requires j < |order| && order[j] == p[0]
    ensures exists i :: 0 <= i < j && order[i] == p[|p| - 1]
    decreases |p|
  {
    assert p[1] in Deps(intra, p[0]);
    var m :| 0 <= m < j && order[m] == p[1];
    if |p| > 2 {
      assert DepPath(intra, p[1..]) by {
        forall k | 0 <= k < |p[1..]| - 1 ensures p[1..][k + 1] in Deps(intra, p[1..][k]) {
          assert p[k + 2] in Deps(intra, p[k + 1]);
        }
      }
      PathPrecedes(order, intra, p[1..], m);
    }
  }

  lemma CycleBlocksOrder(order: seq<string>, intra: IntraDeps)
    requires NoDup(order) && DepsFirst(order, intra) && InBatch(order, intra)
    ensures !Cyclic(intra)
  {
    if c :| IsCycle(intra, c) {
      assert c[1] in Deps(intra, c[0]);
      assert c[0] in order;
      var j :| 0 <= j < |order| && order[j] == c[0];
      PathPrecedes(order, intra, c, j);
    }
  }

  /** Every member of `stuck` waits for another member of `stuck`. */
  ghost predicate Stuck(stuck: set<string>, intra: IntraDeps) {
    forall b :: b in stuck ==> Deps(intra, b) * stuck != {}
  }

  lemma {:induction false} Walk(stuck: set<string>, intra: IntraDeps, n: string, len: nat) returns (p: seq<string>)
    requires n in stuck && Stuck(stuck, intra)
    ensures |p| == len + 1 && p[0] == n && Elems(p) <= stuck && DepPath(intra, p)
    decreases len
  {
    if len == 0 {
      p := [n];
    } else {
      var d :| d in Deps(intra, n) * stuck;
      var rest := Walk(stuck, intra, d, len - 1);
      p := [n] + rest;
      assert Elems(p) == {n} + Elems(rest);
      forall k | 0 <= k < |p| - 1 ensures p[k + 1] in Deps(intra, p[k]) {
        if k > 0 {
          assert rest[k - 1 + 1] in Deps(intra, rest[k - 1]);
        }
      }
    }
  }

  /** A sort that gets stuck has a dependency cycle to show for it. */
  lemma StuckHasCycle(stuck: set<string>, intra: IntraDeps)
    requires stuck != {} && Stuck(stuck, intra)
    ensures Cyclic(intra)
  {
    var n :| n in stuck;
    var p := Walk(stuck, intra, n, |stuck|);
    Pigeonhole(p, stuck);
    var i, j :| 0 <= i < j < |p| && p[i] == p[j];
    CutCycle(intra, p, i, j);
  }

  lemma CutCycle(intra: IntraDeps, p: seq<string>, i: nat, j: nat)
    requires DepPath(intra, p) && i < j < |p| && p[i] == p[j]
    ensures IsCycle(intra, p[i..j + 1])
  {
  }

  // ---------------------------------------------------------------------
  // The sorter: rounds of ready nodes
  // ---------------------------------------------------------------------

  function Append(nodes: seq<string>, more: seq<string>): (r: seq<string>)
    requires NoDup(nodes)
    ensures NoDup(r) && Elems(r) == Elems(nodes) + Elems(more)
    decreases |more|
  {
    if more == [] then nodes
    else
      assert Elems(more) == {more[0]} + Elems(more[1..]);
      if more[0] in nodes then Append(nodes, more[1..])
      else
        NoDupConcat(nodes, [more[0]]);
        assert Elems(nodes + [more[0]]) == Elems(nodes) + {more[0]};
        Append(nodes + [more[0]], more[1..])
  }

  /** `sorter.add(base, *sorted(deps))` */
  function Added(base: string, intra: IntraDeps): seq<string> {
    [base] + SortedOf(multiset(Deps(intra, base)))
  }

  lemma AddedElems(base: string, intra: IntraDeps)
    ensures Elems(Added(base, intra)) == {base} + Deps(intra, base)
  {
    SortedOfSet(Deps(intra, base));
    ElemsConcat([base], SortedOf(multiset(Deps(intra, base))));
  }

  /** Insertion order of the sorter's nodes: each target, then its sorted deps. */
  function NodeOrder(bases: seq<string>, intra: IntraDeps): (r: seq<string>)
    ensures NoDup(r)
  {
    if bases == [] then []
    else
      var k := |bases| - 1;
      Append(NodeOrder(bases[..k], intra), Added(bases[k], intra))
  }

  lemma {:induction false} NodeOrderElems(bases: seq<string>, all: set<string>, intra: IntraDeps)
    requires Elems(bases) <= all && forall b :: b in intra ==> intra[b] <= all
    ensures Elems(bases) <= Elems(NodeOrder(bases, intra)) <= all
  {
    if bases != [] {
      var k := |bases| - 1;
      NodeOrderElems(bases[..k], all, intra);
      var base := bases[k];
      assert Elems(NodeOrder(bases, intra)) == Elems(NodeOrder(bases[..k], intra)) + ({base} + Deps(intra, base)) by {
        AddedElems(base, intra);
      }
      assert Elems(bases) == Elems(bases[..k]) + {base} by {
        ElemsNext(bases, k);
        assert bases[..k + 1] == bases;
      }
    }
  }

  function UnlockedBy(intra: IntraDeps, node: string, done: set<string>): string -> bool {
    b => node in Deps(intra, b) && Deps(intra, b) <= done
  }

  /** The dependents of `node` that become ready once `done` (with `node`) is built. */
  function Unlocked(bases: seq<string>, intra: IntraDeps, node: string, done: set<string>): seq<string> {
    Filter(UnlockedBy(intra, node, done), bases)
  }

  /** The next ready list: `group` is marked done node by node. */
  function Release(bases: seq<string>, intra: IntraDeps, group: seq<string>, done: set<string>): seq<string> {
    if group == [] then []
    else
      var done' := done + {group[0]};
      Unlocked(bases, intra, group[0], done') + Release(bases, intra, group[1..], done')
  }

  lemma {:induction false} ReleaseIsNewlyReady(bases: seq<string>, intra: IntraDeps, group: seq<string>,
                                               done: set<string>)
    requires NoDup(bases) && NoDup(group) && Elems(group) !! done
    ensures NoDup(Release(bases, intra, group, done))
    ensures forall b :: b in Release(bases, intra, group, done) <==>
              b in bases && Deps(intra, b) <= done + Elems(group) && !(Deps(intra, b) <= done)
    decreases |group|
  {
    if group == [] {
      assert Elems(group) == {};
    } else {
      var node, rest := group[0], group[1..];
      var done' := done + {node};
      assert Elems(group) == {node} + Elems(rest);
      assert done' + Elems(rest) == done + Elems(group);
      assert node !in Elems(rest);
      ReleaseIsNewlyReady(bases, intra, rest, done');
      var unlocked := Unlocked(bases, intra, node, done');
      FilterNoDup(UnlockedBy(intra, node, done'), bases);
      NoDupConcat(unlocked, Release(bases, intra, rest, done'));
    }
  }

  /** What holds between two rounds: `order` is handed out, `ready` is next. */
  ghost predicate SortState(bases: seq<string>, intra: IntraDeps, order: seq<string>, ready: seq<string>) {
    && NoDup(bases)
    && NoDup(order) && NoDup(ready) && Elems(order) !! Elems(ready)
    && DepsFirst(order, intra)
    && (forall b :: b in Elems(order) + Elems(ready) <==> b in bases && Deps(intra, b) <= Elems(order))
  }

  lemma RoundKeepsState(bases: seq<string>, intra: IntraDeps, order: seq<string>, ready: seq<string>)
    requires SortState(bases, intra, order, ready)
    ensures SortState(bases, intra, order + ready, Release(bases, intra, ready, Elems(order)))
  {
    var order' := order + ready;
    NoDupConcat(order, ready);
    ReleaseIsNewlyReady(bases, intra, ready, Elems(order));
    assert Elems(order') == Elems(order) + Elems(ready);
    forall j, d | 0 <= j < |order'| && d in Deps(intra, order'[j]) ensures d in order'[..j] {
      if j < |order| {
        assert order[..j] == order'[..j];
      } else {
        assert order'[j] in Elems(ready);
        assert d in Elems(order);
        assert order <= order'[..j];
      }
    }
  }

  function Rounds(bases: seq<string>, intra: IntraDeps, order: seq<string>, ready: seq<string>): (r: seq<string>)
    requires SortState(bases, intra, order, ready)
    ensures SortState(bases, intra, r, [])
    decreases Elems(bases) - Elems(order)
  {
    if ready == [] then order
    else
      RoundKeepsState(bases, intra, order, ready);
      assert ready[0] in Elems(ready) && ready[0] in Elems(order + ready);
      assert Elems(order + ready) == Elems(order) + Elems(ready);
      Rounds(bases, intra, order + ready, Release(bases, intra, ready, Elems(order)))
  }

  /** Nodes without predecessors, in insertion order. */
  function Sources(bases: seq<string>, intra: IntraDeps): seq<string> {
    Filter((b: string) => Deps(intra, b) == {}, NodeOrder(bases, intra))
  }

  lemma SourcesStart(bases: seq<string>, intra: IntraDeps)
    requires NoDup(bases) && InBatch(bases, intra)
    ensures SortState(bases, intra, [], Sources(bases, intra))
  {
    NodeOrderElems(bases, Elems(bases), intra);
    FilterNoDup((b: string) => Deps(intra, b) == {}, NodeOrder(bases, intra));
    assert forall b :: b in NodeOrder(bases, intra) <==> b in Elems(NodeOrder(bases, intra));
  }

  /** `list(sorter.static_order())`, as far as it gets. */
  function StaticOrder(bases: seq<string>, intra: IntraDeps): seq<string>
    requires NoDup(bases) && InBatch(bases, intra)
  {
    SourcesStart(bases, intra);
    Rounds(bases, intra, [], Sources(bases, intra))
  }

  lemma SortedNamesAreBases(bases: seq<string>, intra: IntraDeps, order: seq<string>)
    requires SortState(bases, intra, order, [])
    ensures Elems(order) <= Elems(bases)
  {
  }

  /** Whatever the sorter cannot hand out waits on something it cannot hand out. */
  lemma LeftoverIsStuck(bases: seq<string>, intra: IntraDeps, order: seq<string>)
    requires SortState(bases, intra, order, []) && InBatch(bases, intra)
    ensures Stuck(Elems(bases) - Elems(order), intra)
  {
    var left := Elems(bases) - Elems(order);
    forall b | b in left ensures Deps(intra, b) * left != {} {
      assert b !in Elems(order) + Elems<string>([]);
      var d :| d in Deps(intra, b) && d !in Elems(order);
      assert d in Deps(intra, b) * left;
    }
  }

  /** The sort is a permutation exactly when the batch has no dependency cycle. */
  lemma SortSucceedsIffAcyclic(bases: seq<string>, intra: IntraDeps)
    requires NoDup(bases) && InBatch(bases, intra)
    ensures NoDup(StaticOrder(bases, intra)) && DepsFirst(StaticOrder(bases, intra), intra)
    ensures |StaticOrder(bases, intra)| == |bases| <==> !Cyclic(intra)
    ensures |StaticOrder(bases, intra)| == |bases| ==> Elems(StaticOrder(bases, intra)) == Elems(bases)
  {
    SourcesStart(bases, intra);
    var order := StaticOrder(bases, intra);
    NoDupSize(order);
    NoDupSize(bases);
    SortedNamesAreBases(bases, intra, order);
    SubsetSize(Elems(order), Elems(bases));
    if Elems(order) == Elems(bases) {
      assert InBatch(order, intra) by {
        assert forall b :: b in order <==> b in Elems(order);
        assert forall b :: b in bases <==> b in Elems(bases);
      }
      CycleBlocksOrder(order, intra);
    } else {
      LeftoverIsStuck(bases, intra, order);
      StuckHasCycle(Elems(bases) - Elems(order), intra);
    }
  }

  lemma {:induction false} RoundsExtend(bases: seq<string>, intra: IntraDeps, order: seq<string>, ready: seq<string>)
    requires SortState(bases, intra, order, ready)
    ensures order + ready <= Rounds(bases, intra, order, ready)
    decreases Elems(bases) - Elems(order)
  {
    if ready == [] {
      assert order + ready == order;
    } else {
      RoundKeepsState(bases, intra, order, ready);
      assert ready[0] in Elems(ready) && ready[0] in Elems(order + ready);
      assert Elems(order + ready) == Elems(order) + Elems(ready);
      RoundsExtend(bases, intra, order + ready, Release(bases, intra, ready, Elems(order)));
    }
  }

  /** The order starts with exactly the members that have no batch dependency. */
  lemma SourcesLead(bases: seq<string>, intra: IntraDeps)
    requires NoDup(bases) && InBatch(bases, intra)
    ensures Sources(bases, intra) <= StaticOrder(bases, intra)
    ensures forall b :: b in Sources(bases, intra) <==> b in bases && Deps(intra, b) == {}
  {
    SourcesStart(bases, intra);
    var sources := Sources(bases, intra);
    RoundsExtend(bases, intra, [], sources);
    assert [] + sources == sources;
    hide Sources, Rounds;
    forall b ensures b in sources <==> b in bases && Deps(intra, b) == {} {
      assert b in Elems<string>([]) + Elems(sources) <==> b in sources;
    }
  }

  function CountLeft(preds: seq<string>, done: set<string>): nat {
    if preds == [] then 0
    else (if preds[0] in done then 0 else 1) + CountLeft(preds[1..], done)
  }

  /** How many dependencies of `b` are not built yet. */
  function Left(intra: IntraDeps, b: string, done: set<string>): nat {
    CountLeft(SortedOf(multiset(Deps(intra, b))), done)
  }

  lemma {:induction false} CountLeftStep(preds: seq<string>, node: string, done: set<string>)
    requires NoDup(preds) && node !in done
    ensures CountLeft(preds, done + {node}) == CountLeft(preds, done) - if node in preds then 1 else 0
  {
    if preds != [] {
      ElemsHead(preds);
      CountLeftStep(preds[1..], node, done);
    }
  }

  lemma LeftStep(intra: IntraDeps, b: string, node: string, done: set<string>)
    requires node !in done
    ensures Left(intra, b, done + {node}) == Left(intra, b, done) - if node in Deps(intra, b) then 1 else 0
    ensures Left(intra, b, done + {node}) == 0 <==> Deps(intra, b) <= done + {node}
  {
    var preds := SortedOf(multiset(Deps(intra, b)));
    SortedOfSet(Deps(intra, b));
    assert node in preds <==> node in Elems(preds);
    CountLeftStep(preds, node, done);
    CountLeftZero(preds, done + {node});
  }

  lemma {:induction false} CountLeftZero(preds: seq<string>, done: set<string>)
    ensures CountLeft(preds, done) == 0 <==> Elems(preds) <= done
  {
    if preds != [] {
      ElemsHead(preds);
      CountLeftZero(preds[1..], done);
    }
  }

  /** `waiting[i]` is how many dependencies of `bases[i]` are still to be built. */
  ghost predicate Counts(bases: seq<string>, intra: IntraDeps, waiting: seq<nat>, done: set<string>) {
    |waiting| == |bases| && forall i :: 0 <= i < |bases| ==> waiting[i] == Left(intra, bases[i], done)
  }

  lemma FilterStart(keep: string -> bool, s: seq<string>)
    ensures Filter(keep, s[..0]) == [] && s[..|s|] == s
  {
  }

  /** `done(node)`: one fewer predecessor for each successor; those left with
      none become ready. `keep` names the successors whose last one it was. */
  method Decrement(bases: seq<string>, intra: IntraDeps, counts: seq<nat>, node: string, ghost keep: string -> bool)
    returns (waiting: seq<nat>, unlocked: seq<string>)
    requires |counts| == |bases|
    requires forall i :: 0 <= i < |bases| ==> (keep(bases[i]) <==> node in Deps(intra, bases[i]) && counts[i] == 1)
    requires forall i :: 0 <= i < |bases| && node in Deps(intra, bases[i]) ==> counts[i] >= 1
    ensures |waiting| == |bases|
    ensures forall i :: 0 <= i < |bases| ==> waiting[i] == counts[i] - if node in Deps(intra, bases[i]) then 1 else 0
    ensures unlocked == Filter(keep, bases)
  {
    hide Filter, Deps;
    waiting, unlocked := counts, [];
    FilterStart(keep, bases);
    for i := 0 to |bases|
      invariant |waiting| == |bases|
      invariant forall j :: 0 <= j < i ==> waiting[j] == counts[j] - if node in Deps(intra, bases[j]) then 1 else 0
      invariant forall j :: i <= j < |bases| ==> waiting[j] == counts[j]
      invariant unlocked == Filter(keep, bases[..i])
    {
      FilterNext(keep, bases, i);
      if node in Deps(intra, bases[i]) {
        waiting := waiting[i := waiting[i] - 1];
        if waiting[i] == 0 {
          unlocked := unlocked + [bases[i]];
        }
      }
    }
  }

  lemma CountsStep(bases: seq<string>, intra: IntraDeps, counts: seq<nat>, node: string, done: set<string>)
    requires node !in done && Counts(bases, intra, counts, done)
    ensures forall i :: 0 <= i < |bases| ==>
        Left(intra, bases[i], done + {node}) + (if node in Deps(intra, bases[i]) then 1 else 0) == counts[i]
    ensures forall i :: 0 <= i < |bases| ==>
              (UnlockedBy(intra, node, done + {node})(bases[i]) <==> node in Deps(intra, bases[i]) && counts[i] == 1)
  {
    forall i | 0 <= i < |bases|
      ensures Left(intra, bases[i], done + {node}) + (if node in Deps(intra, bases[i]) then 1 else 0) == counts[i]
      ensures UnlockedBy(intra, node, done + {node})(bases[i]) <==> node in Deps(intra, bases[i]) && counts[i] == 1
    {
      LeftStep(intra, bases[i], node, done);
    }
  }

  method MarkDone(bases: seq<string>, intra: IntraDeps, counts: seq<nat>, node: string, ghost done: set<string>)
    returns (waiting: seq<nat>, unlocked: seq<string>)
    requires node !in done && Counts(bases, intra, counts, done)
    ensures Counts(bases, intra, waiting, done + {node})
    ensures unlocked == Unlocked(bases, intra, node, done + {node})
  {
    CountsStep(bases, intra, counts, node, done);
    waiting, unlocked := Decrement(bases, intra, counts, node, UnlockedBy(intra, node, done + {node}));
  }

  /** `done(*group)`: the next ready list. */
  method MarkGroupDone(bases: seq<string>, intra: IntraDeps, counts: seq<nat>, group: seq<string>,
                       ghost done: set<string>)
    returns (waiting: seq<nat>, ready: seq<string>)
    requires NoDup(group) && Elems(group) !! done && Counts(bases, intra, counts, done)
    ensures Counts(bases, intra, waiting, done + Elems(group))
    ensures ready == Release(bases, intra, group, done)
  {
    hide *;
    waiting, ready := counts, [];
    var rest := group;
    ghost var built := done;
    assert [] + Release(bases, intra, group, done) == Release(bases, intra, group, done);
    while rest != []
      invariant NoDup(rest) && Elems(rest) !! built
      invariant built + Elems(rest) == done + Elems(group)
      invariant Counts(bases, intra, waiting, built)
      invariant ready + Release(bases, intra, rest, built) == Release(bases, intra, group, done)
      decreases |rest|
    {
      GroupStep(bases, intra, rest, built, ready);
      var unlocked;
      waiting, unlocked := MarkDone(bases, intra, waiting, rest[0], built);
      ready := ready + unlocked;
      built := built + {rest[0]};
      rest := rest[1..];
    }
    GroupEnd(bases, intra, built);
  }

  /** One node of the group. */
  lemma GroupStep(bases: seq<string>, intra: IntraDeps, rest: seq<string>, built: set<string>, ready: seq<string>)
    requires rest != [] && NoDup(rest) && Elems(rest) !! built
    ensures var built' := built + {rest[0]};
            && rest[0] !in built && NoDup(rest[1..]) && Elems(rest[1..]) !! built'
            && built' + Elems(rest[1..]) == built + Elems(rest)
            && ready + Release(bases, intra, rest, built)
               == ready + Unlocked(bases, intra, rest[0], built') + Release(bases, intra, rest[1..], built')
  {
    ElemsHead(rest);
    hide Unlocked, NoDup;
  }

  lemma GroupEnd(bases: seq<string>, intra: IntraDeps, built: set<string>)
    ensures Elems<string>([]) == {} && built + Elems<string>([]) == built && Release(bases, intra, [], built) == []
  {
  }

  method InitialCounts(bases: seq<string>, intra: IntraDeps) returns (waiting: seq<nat>)
    ensures Counts(bases, intra, waiting, {})
  {
    waiting := seq(|bases|, i requires 0 <= i < |bases| => Left(intra, bases[i], {}));
  }

  /** The sorter proper: predecessor counters, decremented as nodes are done. */
  method RunSorter(bases: seq<string>, intra: IntraDeps) returns (order: seq<string>)
    requires NoDup(bases) && InBatch(bases, intra)
    ensures order == StaticOrder(bases, intra)
  {
    SourcesStart(bases, intra);
    var waiting := InitialCounts(bases, intra);
    order := [];
    assert Elems(order) == {};
    var ready := Sources(bases, intra);
    while ready != []
      invariant SortState(bases, intra, order, ready)
      invariant Rounds(bases, intra, order, ready) == StaticOrder(bases, intra)
      invariant Counts(bases, intra, waiting, Elems(order))
      decreases Elems(bases) - Elems(order)
    {
      RoundKeepsState(bases, intra, order, ready);
      ElemsConcat(order, ready);
      assert ready[0] in Elems(ready) && ready[0] in Elems(order) + Elems(ready);
      var group := ready;
      waiting, ready := MarkGroupDone(bases, intra, waiting, group, Elems(order));
      order := order + group;
    }
  }

  // ---------------------------------------------------------------------
  // The ordering itself
  // ---------------------------------------------------------------------

  /** The edges are the build dependencies inside the batch; the result is a
      permutation of the batch that puts every dependency first, unless a real
      dependency cycle exists: then, and only then, the given order is kept. */
  ghost predicate OrderedAs(targets: seq<Target>,
                            parse: Target -> Option<Meta>, ordered: seq<Target>, intra: IntraDeps) {
    && (forall t, d :: t in targets ==> (d in Deps(intra, t.pkgbase) <==> NeedsMember(targets, parse, t, d)))
    && InBatch(Bases(targets), intra)
    && multiset(ordered) == multiset(targets)
    && NoDup(Bases(ordered)) && Elems(Bases(ordered)) == Elems(Bases(targets))
    && (Cyclic(intra) || intra == map[] ==> ordered == targets)
    && (!Cyclic(intra) ==> DepsFirst(Bases(ordered), intra))
    && (!Cyclic(intra) && intra != map[] && NoDup(Bases(targets)) ==>
        Bases(ordered) == StaticOrder(Bases(targets), intra))
  }

  ghost predicate Ahead(order: seq<Target>, a: Target, b: Target) {
    exists i, j :: 0 <= i < j < |order| && order[i] == a && order[j] == b
  }

  /** A target that asks for a name which another one owns stands behind that one. */
  ghost predicate OwnersLead(targets: seq<Target>, parse: Target -> Option<Meta>, order: seq<Target>) {
    forall j, k, name ::
      0 <= j < |targets| && Owns(targets, parse, name, k) && targets[k].pkgbase != targets[j].pkgbase
      && Needed(parse, targets[j], name) ==>
        Ahead(order, targets[k], targets[j])
  }

  lemma TokenPutsOwnerFirst(targets: seq<Target>, parse: Target -> Option<Meta>, ordered: seq<Target>,
                            intra: IntraDeps, j: nat, k: nat, name: string)
    requires NoDup(Bases(targets)) && OrderedAs(targets, parse, ordered, intra) && !Cyclic(intra)
    requires j < |targets| && k < |targets| && targets[k].pkgbase != targets[j].pkgbase
    requires Needed(parse, targets[j], name) && Owns(targets, parse, name, k)
    ensures Ahead(ordered, targets[k], targets[j])
  {
    var t, d := targets[j], targets[k].pkgbase;
    assert NeedsMember(targets, parse, t, d);
    SortedKeepsEdges(targets, parse, ordered, intra, t, d);
    hide *;
    SameTargets(targets, ordered);
    var n :| 0 <= n < |ordered| && ordered[n] == t;
    DepStandsFirst(ordered, intra, n, d);
    var m :| 0 <= m < n && ordered[m].pkgbase == d;
    OneTargetOfBase(targets, ordered[m], targets[k]);
    FirstOfTwo(ordered, m, n);
  }

  lemma FirstOfTwo(order: seq<Target>, i: nat, j: nat)
    requires i < j < |order|
    ensures Ahead(order, order[i], order[j])
  {
  }

  lemma SortedKeepsEdges(targets: seq<Target>, parse: Target -> Option<Meta>, ordered: seq<Target>,
                         intra: IntraDeps, t: Target, d: string)
    requires OrderedAs(targets, parse, ordered, intra) && !Cyclic(intra)
    requires t in targets && NeedsMember(targets, parse, t, d)
    ensures d in Deps(intra, t.pkgbase) && DepsFirst(Bases(ordered), intra) && multiset(ordered) == multiset(targets)
  {
    hide NeedsMember, StaticOrder, Cyclic, DepsFirst, Deps, InBatch;
  }

  lemma SameTargets(targets: seq<Target>, ordered: seq<Target>)
    requires multiset(ordered) == multiset(targets)
    ensures forall t :: t in ordered <==> t in targets
  {
    assert forall t :: (t in ordered <==> t in multiset(ordered)) && (t in targets <==> t in multiset(targets));
  }

  lemma DepStandsFirst(ordered: seq<Target>, intra: IntraDeps, n: nat, d: string)
    requires n < |ordered| && d in Deps(intra, ordered[n].pkgbase) && DepsFirst(Bases(ordered), intra)
    ensures exists m :: 0 <= m < n && ordered[m].pkgbase == d
  {
    hide Deps;
    assert d in Deps(intra, Bases(ordered)[n]);
    var m :| 0 <= m < n && Bases(ordered)[m] == d;
  }

  lemma OneTargetOfBase(targets: seq<Target>, a: Target, b: Target)
    requires NoDup(Bases(targets)) && a in targets && b in targets && a.pkgbase == b.pkgbase
    ensures a == b
  {
    var i :| 0 <= i < |targets| && targets[i] == a;
    var j :| 0 <= j < |targets| && targets[j] == b;
    assert Bases(targets)[i] == Bases(targets)[j];
  }

  lemma OwnersFirst(targets: seq<Target>, parse: Target -> Option<Meta>, ordered: seq<Target>, intra: IntraDeps)
    requires NoDup(Bases(targets)) && OrderedAs(targets, parse, ordered, intra)
    ensures !Cyclic(intra) ==> OwnersLead(targets, parse, ordered)
  {
    hide OrderedAs, Needed, Cyclic, Ahead, NoDup, Bases;
    if !Cyclic(intra) {
      forall j, k, name | 0 <= j < |targets| && Owns(targets, parse, name, k)
        && targets[k].pkgbase != targets[j].pkgbase && Needed(parse, targets[j], name)
        ensures Ahead(ordered, targets[k], targets[j])
      {
        TokenPutsOwnerFirst(targets, parse, ordered, intra, j, k, name);
      }
    }
  }

  /** `_order_targets_by_intra_deps` */
  method OrderTargets(targets: seq<Target>, parse: Target -> Option<Meta>)
    returns (ordered: seq<Target>, intra: IntraDeps)
    requires NoDup(Bases(targets))
    ensures OrderedAs(targets, parse, ordered, intra)
    ensures !Cyclic(intra) ==> OwnersLead(targets, parse, ordered)
  {
    if |targets| < 2 {
      LoneTargetNeedsNobody(targets, parse);
      ordered, intra := targets, map[];
      OwnersFirst(targets, parse, ordered, intra);
      return;
    }
    intra := CollectIntraDeps(targets, parse);
    if intra == map[] {
      ordered := targets;
      OwnersFirst(targets, parse, ordered, intra);
      return;
    }
    var bases := Bases(targets);
    var names := RunSorter(bases, intra);
    SortSucceedsIffAcyclic(bases, intra);
    ordered := targets;
    if |names| == |bases| {
      ordered := PickTargets(targets, names);
    }
    OwnersFirst(targets, parse, ordered, intra);
  }

  /** The targets in the order of their names. */
  method PickTargets(targets: seq<Target>, names: seq<string>) returns (ordered: seq<Target>)
    requires NoDup(Bases(targets)) && NoDup(names) && Elems(names) == Elems(Bases(targets))
    ensures Bases(ordered) == names && multiset(ordered) == multiset(targets)
  {
    ordered := [];
    for i := 0 to |names|
      invariant |ordered| == i && forall k :: 0 <= k < i ==> ordered[k] in targets && ordered[k].pkgbase == names[k]
    {
      assert names[i] in Elems(Bases(targets));
      var k :| 0 <= k < |targets| && targets[k].pkgbase == names[i];
      ordered := ordered + [targets[k]];
    }
    assert Bases(ordered) == names;
    ReorderIsPermutation(targets, ordered);
  }

  lemma LoneTargetNeedsNobody(targets: seq<Target>, parse: Target -> Option<Meta>)
    requires |targets| < 2
    ensures forall t, d :: t in targets ==> !NeedsMember(targets, parse, t, d)
  {
  }

  lemma ReorderIsPermutation(a: seq<Target>, b: seq<Target>)
    requires NoDup(Bases(a)) && NoDup(Bases(b)) && Elems(Bases(a)) == Elems(Bases(b))
    requires forall t :: t in b ==> t in a
    ensures multiset(a) == multiset(b)
  {
    forall t | t in a ensures t in b {
      var i :| 0 <= i < |a| && a[i] == t;
      assert Bases(a)[i] in Elems(Bases(b));
      var j :| 0 <= j < |b| && Bases(b)[j] == t.pkgbase;
      assert b[j] in a;
      var k :| 0 <= k < |a| && a[k] == b[j];
      assert Bases(a)[k] == Bases(a)[i];
    }
    assert forall i, j :: 0 <= i < j < |a| ==> Bases(a)[i] != Bases(a)[j];
    assert forall i, j :: 0 <= i < j < |b| ==> Bases(b)[i] != Bases(b)[j];
    assert Elems(a) == Elems(b);
    NoDupPermutation(a, b);
  }
}
