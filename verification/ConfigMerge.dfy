/** What the config merge guarantees, on all pairs of trees. */
module ConfigMerge {
  import opened Prelude
  import opened ConfigTree

  // ---------------------------------------------------------------------
  // Which keyed entries the merged body holds
  // ---------------------------------------------------------------------

  lemma KeysConcat(a: Body, b: Body)
    ensures Keys(a + b) == Keys(a) + Keys(b)
  {
  }

  lemma UniqueConcat(a: Body, b: Body)
    requires UniqueTop(a) && UniqueTop(b) && Keys(a) !! Keys(b)
    ensures UniqueTop(a + b)
  {
    var c := a + b;
    forall i, j | 0 <= i < j < |c| && c[i].key.Some? ensures c[i].key != c[j].key {
      if i < |a| <= j {
        assert c[i] in a && c[j] in b;
        assert c[i].key.value in Keys(a) && (c[j].key.Some? ==> c[j].key.value in Keys(b));
      }
    }
  }

  lemma RunMembers(src: Body, i: nat, e: Entry)
    requires i < |src| && e.key.Some? && src[i].key.Some?
    ensures e in RunOf(src, i) <==> e == src[i]
  {
  }

  lemma SpliceMembers(b: Body, idx: nat, run: Body, e: Entry)
    requires idx <= |b| && e.key.Some?
    ensures e in Splice(b, idx, run) <==> e in b || e in run
  {
  }

  lemma {:induction false} BareMembers(src: Body, live: set<string>, n: nat, e: Entry)
    requires n <= |src| && e.key.Some?
    ensures e in BareBlock(src, live, n) <==> e in src[..n] && New(e, live) && Bare(e)
  {
    if n > 0 {
      BareMembers(src, live, n - 1, e);
      assert src[..n] == src[..n - 1] + [src[n - 1]];
      if New(src[n - 1], live) {
        RunMembers(src, n - 1, e);
      }
    }
  }

  lemma {:induction false} SpliceAllMembers(src: Body, live: set<string>, n: nat, b: Body, e: Entry)
    requires n <= |src| && e.key.Some?
    ensures e in SpliceAll(b, SectionRuns(src, live, n)) <==> e in b || (e in src[..n] && New(e, live) && Section(e))
  {
    if n == 0 {
      NoSections(src, live, b);
    } else {
      assert src[..n] == src[..n - 1] + [src[n - 1]];
      hide SpliceAll, SectionRuns, Section, New;
      SpliceAllMembers(src, live, n - 1, b, e);
      SpliceNextMembers(src, live, n, b, e);
    }
  }

  lemma SpliceNextMembers(src: Body, live: set<string>, n: nat, b: Body, e: Entry)
    requires 0 < n <= |src| && e.key.Some?
    ensures e in SpliceAll(b, SectionRuns(src, live, n)) <==>
            || e in SpliceAll(b, SectionRuns(src, live, n - 1))
            || (e == src[n - 1] && New(e, live) && Section(e))
  {
    if New(src[n - 1], live) && Section(src[n - 1]) {
      var c := SpliceAll(b, SectionRuns(src, live, n - 1));
      SectionStep(src, live, n, b);
      hide SpliceAll, SectionRuns, Splice, RunOf, Anchor;
      RunMembers(src, n - 1, e);
      SpliceMembers(c, AfterAnchor(c, Anchor(src, n - 1)), RunOf(src, n - 1), e);
    }
  }

  /** One more new section to splice. */
  lemma SectionStep(src: Body, live: set<string>, n: nat, b: Body)
    requires 0 < n <= |src| && New(src[n - 1], live) && Section(src[n - 1])
    ensures var c := SpliceAll(b, SectionRuns(src, live, n - 1));
            SpliceAll(b, SectionRuns(src, live, n)) == Splice(c, AfterAnchor(c, Anchor(src, n - 1)), RunOf(src, n - 1))
  {
  }

  /** The keyed entries of the result: the live ones, with shared tables merged,
      and the shipped ones whose key is new. Nothing else, and nothing changed. */
  lemma MergeMembers(src: Body, dst: Body, e: Entry)
    requires e.key.Some?
    ensures e in Merge(src, dst) <==> e in MergeTables(src, dst) || (e in src && New(e, Keys(dst)))
  {
    var live, tables := Keys(dst), MergeTables(src, dst);
    var withBare := Splice(tables, FirstSection(tables), BareBlock(src, live, |src|));
    SpliceMembers(tables, FirstSection(tables), BareBlock(src, live, |src|), e);
    BareMembers(src, live, |src|, e);
    SpliceAllMembers(src, live, |src|, withBare, e);
    assert src[..|src|] == src;
  }

  lemma TablesKeys(src: Body, dst: Body)
    ensures Keys(MergeTables(src, dst)) == Keys(dst)
    ensures UniqueTop(dst) ==> UniqueTop(MergeTables(src, dst))
  {
  }

  lemma MergeKeys(src: Body, dst: Body)
    ensures Keys(Merge(src, dst)) == Keys(src) + Keys(dst)
  {
    var m := Merge(src, dst);
    TablesKeys(src, dst);
    forall k ensures k in Keys(m) <==> k in Keys(src) + Keys(dst) {
      if k in Keys(m) {
        var e :| e in m && e.key == Some(k);
        MergeMembers(src, dst, e);
      }
      if k in Keys(dst) {
        var e :| e in MergeTables(src, dst) && e.key == Some(k);
        MergeMembers(src, dst, e);
      } else if k in Keys(src) {
        var e :| e in src && e.key == Some(k);
        MergeMembers(src, dst, e);
      }
    }
  }

  // ---------------------------------------------------------------------
  // Keys stay unique
  // ---------------------------------------------------------------------

  lemma SpliceUnique(b: Body, idx: nat, run: Body)
    requires idx <= |b| && UniqueTop(b) && UniqueTop(run) && Keys(b) !! Keys(run)
    ensures UniqueTop(Splice(b, idx, run))
    ensures Keys(Splice(b, idx, run)) == Keys(b) + Keys(run)
  {
    if run != [] {
      var front := if idx > 0 && !b[idx - 1].item.Whitespace? then [NEWLINE] else [];
      var back := if idx < |b| && !b[idx].item.Whitespace? && !run[|run| - 1].item.Whitespace? then [NEWLINE] else [];
      assert b == b[..idx] + b[idx..];
      KeysConcat(b[..idx], b[idx..]);
      KeysConcat(front, run);
      KeysConcat(front + run, back);
      KeysConcat(b[..idx], front + run + back);
      KeysConcat(b[..idx] + (front + run + back), b[idx..]);
      UniqueConcat(front, run);
      UniqueConcat(front + run, back);
      UniqueConcat(b[..idx], front + run + back);
      DisjointSlices(b, idx);
      UniqueConcat(b[..idx] + (front + run + back), b[idx..]);
    }
  }

  lemma DisjointSlices(b: Body, idx: nat)
    requires idx <= |b| && UniqueTop(b)
    ensures UniqueTop(b[..idx]) && UniqueTop(b[idx..]) && Keys(b[..idx]) !! Keys(b[idx..])
  {
  }

  lemma RunKeys(src: Body, i: nat)
    requires i < |src| && src[i].key.Some?
    ensures Keys(RunOf(src, i)) == {src[i].key.value} && UniqueTop(RunOf(src, i))
  {
  }

  lemma BareKeys(src: Body, live: set<string>, n: nat, k: string)
    requires n <= |src| && k in Keys(BareBlock(src, live, n))
    ensures k !in live && exists e :: e in src[..n] && Bare(e) && e.key == Some(k)
  {
  }

  lemma {:induction false} BareUnique(src: Body, live: set<string>, n: nat)
    requires n <= |src| && UniqueTop(src)
    ensures UniqueTop(BareBlock(src, live, n))
  {
    if n > 0 {
      BareUnique(src, live, n - 1);
      if New(src[n - 1], live) && Bare(src[n - 1]) {
        var before := BareBlock(src, live, n - 1);
        RunKeys(src, n - 1);
        forall k | k in Keys(before) ensures k != src[n - 1].key.value {
          BareKeys(src, live, n - 1, k);
          var e :| e in src[..n - 1] && Bare(e) && e.key == Some(k);
          var j :| 0 <= j < n - 1 && src[j] == e;
          assert src[j].key != src[n - 1].key;
        }
        UniqueConcat(before, RunOf(src, n - 1));
      }
    }
  }

  /** The keys of `b` are live, or those of shipped bare keys. */
  ghost predicate LiveOrBare(src: Body, live: set<string>, b: Body) {
    forall k :: k in Keys(b) ==> k in live || exists e :: e in src && Bare(e) && e.key == Some(k)
  }

  lemma {:induction false} SpliceAllUnique(src: Body, live: set<string>, n: nat, b: Body)
    requires n <= |src| && UniqueTop(src) && UniqueTop(b) && LiveOrBare(src, live, b)
    ensures UniqueTop(SpliceAll(b, SectionRuns(src, live, n)))
  {
    if n == 0 {
      NoSections(src, live, b);
    } else {
      hide *;
      SpliceAllUnique(src, live, n - 1, b);
      SpliceNextUnique(src, live, n, b);
    }
  }

  lemma SpliceNextUnique(src: Body, live: set<string>, n: nat, b: Body)
    requires 0 < n <= |src| && UniqueTop(src) && LiveOrBare(src, live, b)
    requires UniqueTop(SpliceAll(b, SectionRuns(src, live, n - 1)))
    ensures UniqueTop(SpliceAll(b, SectionRuns(src, live, n)))
  {
    hide UniqueTop, LiveOrBare, Splice, Anchor, RunOf, Keys;
    if New(src[n - 1], live) && Section(src[n - 1]) {
      var c := SpliceAll(b, SectionRuns(src, live, n - 1));
      SectionStep(src, live, n, b);
      RunKeys(src, n - 1);
      SectionIsFresh(src, live, n, b);
      hide SpliceAll, SectionRuns;
      SpliceUnique(c, AfterAnchor(c, Anchor(src, n - 1)), RunOf(src, n - 1));
    }
  }

  lemma SectionIsFresh(src: Body, live: set<string>, n: nat, b: Body)
    requires 0 < n <= |src| && UniqueTop(src) && New(src[n - 1], live) && Section(src[n - 1])
    requires LiveOrBare(src, live, b)
    ensures src[n - 1].key.value !in Keys(SpliceAll(b, SectionRuns(src, live, n - 1)))
  {
    var c := SpliceAll(b, SectionRuns(src, live, n - 1));
    forall e | e in c && e.key.Some? ensures e.key != src[n - 1].key {
      SpliceAllMembers(src, live, n - 1, b, e);
      if e in b {
        assert e.key.value in Keys(b);
        if e.key.value !in live {
          var e' :| e' in src && Bare(e') && e'.key == e.key;
          OtherKey(src, n - 1, e');
        }
      } else {
        var j :| 0 <= j < n - 1 && src[j] == e;
        assert src[j].key != src[n - 1].key;
      }
    }
  }

  lemma OtherKey(src: Body, i: nat, e: Entry)
    requires i < |src| && UniqueTop(src) && src[i].key.Some? && e in src && e != src[i] && e.key.Some?
    ensures e.key != src[i].key
  {
  }

  lemma MergeUniqueTop(src: Body, dst: Body)
    requires UniqueTop(src) && UniqueTop(dst)
    ensures UniqueTop(Merge(src, dst))
  {
    var live, tables := Keys(dst), MergeTables(src, dst);
    TablesKeys(src, dst);
    BareUnique(src, live, |src|);
    var bare := BareBlock(src, live, |src|);
    assert src[..|src|] == src;
    forall k | k in Keys(bare) ensures k !in live && exists e :: e in src && Bare(e) && e.key == Some(k) {
      BareKeys(src, live, |src|, k);
    }
    SpliceUnique(tables, FirstSection(tables), bare);
    SpliceAllUnique(src, live, |src|, Splice(tables, FirstSection(tables), bare));
  }

  /** With unique keys, an entry is found under its key. */
  lemma FoundAt(b: Body, e: Entry)
    requires UniqueTop(b) && e in b && e.key.Some?
    ensures IndexOf(b, e.key.value) < |b| && b[IndexOf(b, e.key.value)] == e
    ensures forall d :: d in b && d.key == e.key ==> d == e
  {
  }

  /** A live table under the key of a shipped table becomes their merge. */
  lemma SharedTable(src: Body, dst: Body, e: Entry, t: Entry)
    requires UniqueTop(src) && e in src && e.key.Some? && e.item.Table?
    requires t in MergeTables(src, dst) && t.key == e.key && t.item.Table?
    ensures exists d :: d in dst && d.key == e.key && d.item.Table? && t.item.body == Merge(e.item.body, d.item.body)
  {
    FoundAt(src, e);
    var m := MergeTables(src, dst);
    var i :| 0 <= i < |m| && m[i] == t;
    assert dst[i] in dst;
    MergeEntryCases(src, dst[i]);
    hide MergeEntry, Merge, MergeBodies;
  }

  lemma MergeEntryCases(src: Body, d: Entry)
    ensures var e := MergeEntry(src, d);
            if d.key.Some? && d.item.Table? && TableIndex(src, d.key.value) < |src|
            then e == Entry(d.key, Table(Merge(src[TableIndex(src, d.key.value)].item.body, d.item.body)))
            else e == d
  {
  }

  /** The live entry `d` after the merge. */
  lemma LiveEntryAfter(src: Body, dst: Body, d: Entry)
    requires d in dst && d.key.Some?
    ensures MergeEntry(src, d) in Merge(src, dst)
  {
    var i :| 0 <= i < |dst| && dst[i] == d;
    assert MergeTables(src, dst)[i] == MergeEntry(src, d);
    MergeMembers(src, dst, MergeEntry(src, d));
  }

  // ---------------------------------------------------------------------
  // The merge reaches a fixed point
  // ---------------------------------------------------------------------

  /** Every shipped key path is present, at every depth, except below a name
      whose live value is not a table. */
  ghost predicate Saturated(src: Body, dst: Body)
    decreases src
  {
    forall i :: 0 <= i < |src| ==> Covered(src[i], dst)
  }

  ghost predicate Covered(e: Entry, dst: Body)
    decreases e
  {
    e.key.Some? ==>
      && e.key.value in Keys(dst)
      && match e.item
         case Table(body) => forall t :: t in dst && t.key == e.key && t.item.Table? ==> Saturated(body, t.item.body)
         case _ => true
  }

  lemma {:induction false} SelfSaturated(b: Body)
    requires UniqueKeys(b)
    ensures Saturated(b, b)
    decreases b
  {
    forall i | 0 <= i < |b| ensures Covered(b[i], b) {
      assert b[i] in b && UniqueBelow(b[i]);
      SelfCovered(b[i], b);
    }
  }

  lemma {:induction false} SelfCovered(e: Entry, b: Body)
    requires UniqueTop(b) && e in b && UniqueBelow(e)
    ensures Covered(e, b)
    decreases e
  {
    if e.key.Some? {
      FoundAt(b, e);
      match e.item
      case Table(body) => SelfSaturated(body);
      case _ =>
    }
  }

  /** After the merge, nothing shipped is missing. */
  lemma {:induction false} MergeSaturates(src: Body, dst: Body)
    requires UniqueKeys(src) && UniqueKeys(dst)
    ensures Saturated(src, Merge(src, dst))
    decreases src
  {
    MergeKeys(src, dst);
    forall i | 0 <= i < |src| ensures Covered(src[i], Merge(src, dst)) {
      var e := src[i];
      assert e in src && UniqueBelow(e);
      if e.key.Some? {
        assert e.key.value in Keys(src);
        CoverTable(src, dst, e);
      }
    }
  }

  lemma {:induction false} CoverTable(src: Body, dst: Body, e: Entry)
    requires UniqueKeys(src) && UniqueKeys(dst) && e in src && UniqueBelow(e) && e.key.Some?
    ensures e.item.Table? ==>
              forall t :: t in Merge(src, dst) && t.key == e.key && t.item.Table? ==>
                  Saturated(e.item.body, t.item.body)
    decreases e
  {
    FoundAt(src, e);
    match e.item
    case Table(body) =>
      forall t | t in Merge(src, dst) && t.key == e.key && t.item.Table? ensures Saturated(body, t.item.body) {
        MergeMembers(src, dst, t);
        if t in MergeTables(src, dst) {
          SharedTable(src, dst, e, t);
          var d :| d in dst && d.key == e.key && d.item.Table? && t.item.body == Merge(body, d.item.body);
          TableBelow(dst, d);
          MergeSaturates(body, d.item.body);
        } else {
          SelfSaturated(body);
        }
      }
    case _ =>
  }

  lemma TableBelow(b: Body, e: Entry)
    requires UniqueKeys(b) && e in b && e.item.Table?
    ensures UniqueKeys(e.item.body)
  {
  }

  lemma {:induction false} NothingNew(src: Body, dst: Body, n: nat)
    requires n <= |src| && Saturated(src, dst)
    ensures BareBlock(src, Keys(dst), n) == [] && SectionRuns(src, Keys(dst), n) == []
  {
    if n > 0 {
      NothingNew(src, dst, n - 1);
      assert Covered(src[n - 1], dst);
    }
  }

  /** A merge that finds everything in place changes nothing. */
  lemma {:induction false} SaturatedIsFixed(src: Body, dst: Body)
    requires Saturated(src, dst)
    ensures Merge(src, dst) == dst
    decreases src
  {
    NothingNew(src, dst, |src|);
    forall i | 0 <= i < |dst| ensures MergeEntry(src, dst[i]) == dst[i] {
      var d := dst[i];
      if d.key.Some? && d.item.Table? && TableIndex(src, d.key.value) < |src| {
        var e := src[TableIndex(src, d.key.value)];
        assert Covered(e, dst) && d in dst;
        FixedBelow(e, d.item.body);
      }
    }
    assert MergeTables(src, dst) == dst;
  }

  lemma {:induction false} FixedBelow(e: Entry, live: Body)
    requires e.item.Table? && Saturated(e.item.body, live)
    ensures MergeBodies(e, live) == live
    decreases e
  {
    match e.item
    case Table(body) => SaturatedIsFixed(body, live);
  }

  /** The returned list is empty exactly when nothing shipped is missing. */
  lemma {:induction false} AddedNothingIff(src: Body, dst: Body)
    requires UniqueKeys(dst)
    ensures Added(src, dst) == [] <==> Saturated(src, dst)
    decreases src
  {
    if src != [] {
      var k := |src| - 1;
      AddedNothingIff(src[..k], dst);
      AddedByNothingIff(src[k], dst);
      assert Saturated(src, dst) <==> Saturated(src[..k], dst) && Covered(src[k], dst) by {
        assert forall i :: 0 <= i < k ==> src[..k][i] == src[i];
      }
    }
  }

  lemma {:induction false} AddedByNothingIff(e: Entry, dst: Body)
    requires UniqueKeys(dst)
    ensures AddedBy(e, dst) == [] <==> Covered(e, dst)
    decreases e
  {
    if e.key.Some? {
      var i := IndexOf(dst, e.key.value);
      if i < |dst| {
        assert dst[i] in dst;
        FoundAt(dst, dst[i]);
        match e.item
        case Table(body) =>
          if dst[i].item.Table? {
            TableBelow(dst, dst[i]);
            AddedNothingIff(body, dst[i].item.body);
            var inner := Added(body, dst[i].item.body);
            assert |Under(e.key.value, inner)| == |inner|;
          }
        case _ =>
      } else {
        assert e.key.value !in Keys(dst);
      }
    }
  }

  /** A second merge into the same tree, not read anew in between, injects nothing
      and leaves the body as it is. */
  lemma MergeIsIdempotent(src: Body, dst: Body)
    requires UniqueKeys(src) && UniqueKeys(dst)
    ensures UniqueKeys(Merge(src, dst))
    ensures Merge(src, Merge(src, dst)) == Merge(src, dst) && Added(src, Merge(src, dst)) == []
  {
    MergeSaturates(src, dst);
    SaturatedIsFixed(src, Merge(src, dst));
    MergeUnique(src, dst);
    AddedNothingIff(src, Merge(src, dst));
  }

  /** Keys stay unique at every depth. */
  lemma {:induction false} MergeUnique(src: Body, dst: Body)
    requires UniqueKeys(src) && UniqueKeys(dst)
    ensures UniqueKeys(Merge(src, dst))
    decreases src
  {
    MergeUniqueTop(src, dst);
    var m := Merge(src, dst);
    forall i | 0 <= i < |m| ensures UniqueBelow(m[i]) {
      EntryUnique(src, dst, m[i]);
    }
  }

  lemma {:induction false} EntryUnique(src: Body, dst: Body, t: Entry)
    requires UniqueKeys(src) && UniqueKeys(dst) && t in Merge(src, dst)
    ensures UniqueBelow(t)
    decreases src, 0
  {
    MergeOrigin(src, dst, t);
    if t in src {
      var i :| 0 <= i < |src| && src[i] == t;
      assert UniqueBelow(src[i]);
    } else if t != NEWLINE {
      var tables := MergeTables(src, dst);
      var i :| 0 <= i < |tables| && tables[i] == t;
      var d := dst[i];
      assert UniqueBelow(d);
      if d.key.Some? && d.item.Table? && TableIndex(src, d.key.value) < |src| {
        var e := src[TableIndex(src, d.key.value)];
        assert UniqueBelow(e);
        MergedBodyUnique(e, d.item.body);
      }
    }
  }

  lemma {:induction false} MergedBodyUnique(e: Entry, live: Body)
    requires e.item.Table? && UniqueBelow(e) && UniqueKeys(live)
    ensures UniqueKeys(MergeBodies(e, live))
    decreases e
  {
    match e.item
    case Table(body) => MergeUnique(body, live);
  }

  lemma {:induction false} BareOrigin(src: Body, live: set<string>, n: nat, e: Entry)
    requires n <= |src| && e in BareBlock(src, live, n)
    ensures e in src
  {
    if e !in BareBlock(src, live, n - 1) {
      assert e in RunOf(src, n - 1);
    } else {
      BareOrigin(src, live, n - 1, e);
    }
  }

  lemma SectionOrigin(src: Body, live: set<string>, n: nat, b: Body, e: Entry)
    requires 0 < n <= |src| && e in SpliceAll(b, SectionRuns(src, live, n))
    ensures e in SpliceAll(b, SectionRuns(src, live, n - 1)) || e in src || e == NEWLINE
  {
    if New(src[n - 1], live) && Section(src[n - 1]) {
      var c := SpliceAll(b, SectionRuns(src, live, n - 1));
      SectionStep(src, live, n, b);
      hide SpliceAll, SectionRuns, Splice, Anchor;
      SpliceOrigin(c, AfterAnchor(c, Anchor(src, n - 1)), RunOf(src, n - 1), e);
    }
  }

  lemma NoSections(src: Body, live: set<string>, b: Body)
    ensures SpliceAll(b, SectionRuns(src, live, 0)) == b
  {
  }

  lemma {:induction false} SectionsOrigin(src: Body, live: set<string>, n: nat, b: Body, e: Entry)
    requires n <= |src| && e in SpliceAll(b, SectionRuns(src, live, n))
    ensures e in b || e in src || e == NEWLINE
  {
    hide *;
    if n == 0 {
      NoSections(src, live, b);
    } else {
      SectionOrigin(src, live, n, b, e);
      if e in SpliceAll(b, SectionRuns(src, live, n - 1)) {
        SectionsOrigin(src, live, n - 1, b, e);
      }
    }
  }

  lemma SpliceOrigin(b: Body, idx: nat, run: Body, e: Entry)
    requires idx <= |b| && e in Splice(b, idx, run)
    ensures e in b || e in run || e == NEWLINE
  {
  }

  /** Every entry of the result is live, shipped, or a blank line. */
  lemma MergeOrigin(src: Body, dst: Body, e: Entry)
    requires e in Merge(src, dst)
    ensures e in MergeTables(src, dst) || e in src || e == NEWLINE
  {
    var live, tables := Keys(dst), MergeTables(src, dst);
    var bare := BareBlock(src, live, |src|);
    var withBare := Splice(tables, FirstSection(tables), bare);
    SectionsOrigin(src, live, |src|, withBare, e);
    if e in withBare {
      SpliceOrigin(tables, FirstSection(tables), bare, e);
      if e in bare {
        BareOrigin(src, live, |src|, e);
      }
    }
  }
}
