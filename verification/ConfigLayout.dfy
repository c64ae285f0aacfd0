/** Where injected items land: each keeps the comments that lead it, and each
    injected section stands next to its shipped neighbour. A nested body is the
    merge of two nested bodies, so all this holds at every depth. */
module ConfigLayout {
  import opened Prelude
  import opened ConfigTree
  import opened ConfigMerge
  import opened ConfigShape

  predicate At(b: Body, block: Body, p: int) {
    0 <= p <= |b| - |block| && b[p..p + |block|] == block
  }

  /** `block` occurs in `b` in one piece. */
  ghost predicate Contains(b: Body, block: Body) {
    exists p :: At(b, block, p)
  }

  /** Nothing can be spliced into `block` behind the key `anchor`. */
  ghost predicate Sealed(block: Body, anchor: Option<string>) {
    anchor.Some? ==> forall k :: 0 <= k < |block| - 1 ==> block[k].key != anchor
  }

  lemma ContainsInside(x: Body, mid: Body, y: Body, block: Body)
    requires Contains(mid, block)
    ensures Contains(x + mid + y, block)
  {
    var p :| At(mid, block, p);
    assert At(x + mid + y, block, |x| + p);
  }

  lemma InsertKeepsBlock(x: Body, mid: Body, y: Body, block: Body)
    requires Contains(x + y, block)
    requires y == [] || (x != [] && x[|x| - 1].key.Some? && Sealed(block, x[|x| - 1].key))
    ensures Contains(x + mid + y, block)
  {
    var b, c := x + y, x + mid + y;
    var p :| At(b, block, p);
    assert forall k :: 0 <= k < |block| ==> block[k] == b[p + k];
    if p + |block| <= |x| {
      assert At(c, block, p);
    } else {
      assert |x| <= p by {
        assert p < |x| ==> block[|x| - 1 - p] == x[|x| - 1];
      }
      assert At(c, block, p + |mid|);
    }
  }

  lemma SpliceKeepsBlock(b: Body, anchor: Option<string>, run: Body, block: Body)
    requires Contains(b, block) && Sealed(block, anchor)
    ensures Contains(Splice(b, AfterAnchor(b, anchor), run), block)
  {
    var idx := AfterAnchor(b, anchor);
    if run != [] {
      var front := if idx > 0 && !b[idx - 1].item.Whitespace? then [NEWLINE] else [];
      var back := if idx < |b| && !b[idx].item.Whitespace? && !run[|run| - 1].item.Whitespace? then [NEWLINE] else [];
      assert b == b[..idx] + b[idx..];
      InsertKeepsBlock(b[..idx], front + run + back, b[idx..], block);
    }
  }

  lemma SpliceHasRun(b: Body, idx: nat, run: Body, block: Body)
    requires idx <= |b| && Contains(run, block)
    ensures Contains(Splice(b, idx, run), block)
  {
    var pre, post := SpliceParts(b, idx, run);
    ContainsInside(pre, run, post, block);
  }

  lemma ContainsSelf(block: Body)
    ensures Contains(block, block)
  {
    assert At(block, block, 0);
  }

  /** A block stays in one piece while sections are spliced, as long as none is
      anchored inside it. */
  lemma {:induction false} SectionsKeepBlock(src: Body, live: set<string>, m: nat, n: nat, b: Body, block: Body)
    requires m <= n <= |src| && Contains(SpliceAll(b, SectionRuns(src, live, m)), block)
    requires forall j :: m <= j < n ==> Sealed(block, Anchor(src, j))
    ensures Contains(SpliceAll(b, SectionRuns(src, live, n)), block)
    decreases n - m
  {
    if m < n {
      SectionsKeepBlock(src, live, m, n - 1, b, block);
      if New(src[n - 1], live) && Section(src[n - 1]) {
        SectionStep(src, live, n, b);
        hide *;
        SpliceKeepsBlock(SpliceAll(b, SectionRuns(src, live, n - 1)), Anchor(src, n - 1), RunOf(src, n - 1), block);
      } else {
        SectionSkip(src, live, n);
      }
    }
  }

  lemma RunIsSealed(src: Body, i: nat, anchor: Option<string>)
    requires i < |src|
    ensures Sealed(RunOf(src, i), anchor)
  {
  }

  lemma ContainsLonger(front: Body, block: Body, back: Body)
    ensures Contains(front + block, block)
    ensures forall b :: Contains(block, b) ==> Contains(block + back, b)
  {
    ContainsSelf(block);
    assert front + block + [] == front + block && [] + block + back == block + back;
    hide Contains;
    ContainsInside(front, block, [], block);
    forall b | Contains(block, b) ensures Contains(block + back, b) {
      ContainsInside([], block, back, b);
    }
  }

  lemma {:induction false} BareBlockHas(src: Body, live: set<string>, i: nat, n: nat)
    requires i < n <= |src| && New(src[i], live) && Bare(src[i])
    ensures Contains(BareBlock(src, live, n), RunOf(src, i))
  {
    hide Contains, RunOf;
    var before := BareBlock(src, live, n - 1);
    if i == n - 1 {
      ContainsLonger(before, RunOf(src, i), []);
    } else {
      BareBlockHas(src, live, i, n - 1);
      if New(src[n - 1], live) && Bare(src[n - 1]) {
        ContainsLonger([], before, RunOf(src, n - 1));
      }
    }
  }

  lemma WithBareHasRun(src: Body, dst: Body, i: nat)
    requires i < |src| && New(src[i], Keys(dst)) && Bare(src[i])
    ensures Contains(WithBare(src, dst), RunOf(src, i))
  {
    hide Contains, RunOf, Splice, BareBlock, MergeTables;
    var tables := MergeTables(src, dst);
    BareBlockHas(src, Keys(dst), i, |src|);
    SpliceHasRun(tables, FirstSection(tables), BareBlock(src, Keys(dst), |src|), RunOf(src, i));
  }

  lemma SplicedHasRun(src: Body, live: set<string>, i: nat, b: Body)
    requires i < |src| && New(src[i], live) && Section(src[i])
    ensures Contains(SpliceAll(b, SectionRuns(src, live, i + 1)), RunOf(src, i))
  {
    hide *;
    var c, run := SpliceAll(b, SectionRuns(src, live, i)), RunOf(src, i);
    SectionStep(src, live, i + 1, b);
    ContainsSelf(run);
    SpliceHasRun(c, AfterAnchor(c, Anchor(src, i)), run, run);
  }

  /** The comments and blank lines directly before entry `i` start at `r`. */
  ghost predicate LeadFrom(src: Body, r: int, i: nat)
    requires i < |src|
  {
    0 <= r <= i && (r > 0 ==> src[r - 1].key.Some?) && forall j :: r <= j < i ==> src[j].key.None?
  }

  lemma LeadIsRun(src: Body, r: nat, i: nat)
    requires i < |src| && LeadFrom(src, r, i)
    ensures RunOf(src, i) == src[r..i + 1]
  {
    assert RunStart(src, i) == r;
  }

  /** Each injected item, bare key or section, keeps its leading comments directly
      before it. */
  lemma LeadingCommentsStay(src: Body, dst: Body, r: nat, i: nat)
    requires i < |src| && New(src[i], Keys(dst)) && LeadFrom(src, r, i)
    ensures Contains(Merge(src, dst), src[r..i + 1])
  {
    hide *;
    LeadIsRun(src, r, i);
    RunStays(src, dst, i);
  }

  lemma RunStays(src: Body, dst: Body, i: nat)
    requires i < |src| && New(src[i], Keys(dst))
    ensures Contains(Merge(src, dst), RunOf(src, i))
  {
    var b, run := WithBare(src, dst), RunOf(src, i);
    assert Bare(src[i]) || Section(src[i]);
    hide *;
    forall j | 0 <= j < |src| ensures Sealed(run, Anchor(src, j)) {
      RunIsSealed(src, i, Anchor(src, j));
    }
    MergeInTwoSteps(src, dst);
    if Bare(src[i]) {
      WithBareHasRun(src, dst, i);
      SectionsKeepBlock(src, Keys(dst), 0, |src|, b, run);
    } else {
      SplicedHasRun(src, Keys(dst), i, b);
      SectionsKeepBlock(src, Keys(dst), i + 1, |src|, b, run);
    }
  }

  // ---------------------------------------------------------------------
  // Sections follow their shipped neighbour
  // ---------------------------------------------------------------------

  /** `run` stands right behind the entry with this key, with at most one blank
      line between. */
  ghost predicate Follows(b: Body, anchor: Option<string>, run: Body) {
    exists d: Entry, gap: Body :: d.key == anchor && (gap == [] || gap == [NEWLINE]) && Contains(b, [d] + gap + run)
  }

  lemma {:induction false} SkippedHaveNoSection(src: Body, live: set<string>, n: nat)
    requires n <= |src| && Anchor(src, n).None?
    ensures SectionRuns(src, live, n) == []
  {
    if n > 0 {
      SkippedHaveNoSection(src, live, n - 1);
    }
  }

  /** The anchor of a new section is there when its turn comes: it is live, or
      it was spliced in itself. */
  lemma AnchorIsThere(src: Body, dst: Body, i: nat)
    requires i < |src| && Anchor(src, i).Some?
    ensures var c := SpliceAll(WithBare(src, dst), SectionRuns(src, Keys(dst), i));
        IndexOf(c, Anchor(src, i).value) < |c|
  {
    var live, b, tables := Keys(dst), WithBare(src, dst), MergeTables(src, dst);
    AnchorOf(src, i);
    var j :| 0 <= j < i && src[j].key == Anchor(src, i) && Section(src[j]);
    var name := src[j].key.value;
    var e: Entry;
    if name in live {
      TablesKeys(src, dst);
      e :| e in tables && e.key == Some(name);
      SpliceMembers(tables, FirstSection(tables), BareBlock(src, live, |src|), e);
    } else {
      e := src[j];
      assert e in src[..i];
    }
    SpliceAllMembers(src, live, i, b, e);
    hide SpliceAll, SectionRuns, WithBare, Splice;
    var c := SpliceAll(b, SectionRuns(src, live, i));
    assert e in c && e.key == Some(name);
  }

  /** Sections further down are anchored further down. */
  lemma LaterAnchor(src: Body, i: nat, j: nat)
    requires i < j <= |src| && UniqueTop(src) && Section(src[i]) && Anchor(src, i).Some?
    ensures Anchor(src, j) != Anchor(src, i)
  {
    AnchorOf(src, i);
    var k :| 0 <= k < i && src[k].key == Anchor(src, i) && Section(src[k]);
    LastSection(src, i, j);
    var m :| i <= m < j && src[m].key == Anchor(src, j);
    assert src[k].key != src[m].key;
  }

  lemma {:induction false} LastSection(src: Body, i: nat, j: nat)
    requires i < j <= |src| && Section(src[i])
    ensures exists m :: i <= m < j && src[m].key == Anchor(src, j)
  {
    if Section(src[j - 1]) {
      assert src[j - 1].key == Anchor(src, j);
    } else {
      LastSection(src, i, j - 1);
      var m :| i <= m < j - 1 && src[m].key == Anchor(src, j - 1);
      assert src[m].key == Anchor(src, j);
    }
  }

  /** Splicing behind an anchor puts the run right behind it. */
  lemma SpliceFollows(b: Body, anchor: Option<string>, run: Body) returns (block: Body, d: Entry, gap: Body)
    requires anchor.Some? && IndexOf(b, anchor.value) < |b| && run != []
    ensures d.key == anchor && (gap == [] || gap == [NEWLINE]) && block == [d] + gap + run
    ensures Contains(Splice(b, AfterAnchor(b, anchor), run), block)
  {
    var idx := AfterAnchor(b, anchor);
    d := b[idx - 1];
    gap := if !d.item.Whitespace? then [NEWLINE] else [];
    block := [d] + gap + run;
    var rest := SpliceBehind(b, idx, run, gap);
    hide *;
    ContainsSelf(block);
    ContainsInside(b[..idx - 1], block, rest, block);
  }

  /** A splice behind an entry, seen from that entry on. */
  lemma SpliceBehind(b: Body, idx: nat, run: Body, gap: Body) returns (rest: Body)
    requires 0 < idx <= |b| && run != [] && gap == if !b[idx - 1].item.Whitespace? then [NEWLINE] else []
    ensures Splice(b, idx, run) == b[..idx - 1] + ([b[idx - 1]] + gap + run) + rest
  {
    var back := if idx < |b| && !b[idx].item.Whitespace? && !run[|run| - 1].item.Whitespace? then [NEWLINE] else [];
    rest := back + b[idx..];
    assert Splice(b, idx, run) == b[..idx] + (gap + run + back) + b[idx..];
    hide Splice;
    assert b[..idx] == b[..idx - 1] + [b[idx - 1]];
    Regroup(b[..idx - 1], [b[idx - 1]], gap, run, back, b[idx..]);
  }

  lemma Regroup<T>(x: seq<T>, d: seq<T>, gap: seq<T>, run: seq<T>, back: seq<T>, y: seq<T>)
    ensures (x + d) + (gap + run + back) + y == x + (d + gap + run) + (back + y)
  {
  }

  /** Entry `a` is the last shipped section before entry `i`. */
  ghost predicate Precedes(src: Body, a: int, i: nat)
    requires i < |src|
  {
    0 <= a < i && Section(src[a]) && forall j :: a < j < i ==> !Section(src[j])
  }

  lemma {:induction false} AnchorIs(src: Body, i: nat)
    requires i < |src|
    ensures forall a :: Precedes(src, a, i) ==> Anchor(src, i) == src[a].key
    ensures (forall j :: 0 <= j < i ==> !Section(src[j])) ==> Anchor(src, i).None?
  {
    if i > 0 && !Section(src[i - 1]) {
      AnchorIs(src, i - 1);
      assert forall a :: Precedes(src, a, i) ==> Precedes(src, a, i - 1);
    }
  }

  /** Each injected section follows its shipped predecessor section, with only
      white space and its own comments between. So a run of consecutive new
      sections keeps its shipped order. */
  lemma SectionsFollowAnchors(src: Body, dst: Body, a: nat, r: nat, i: nat)
    requires UniqueTop(src) && i < |src| && New(src[i], Keys(dst)) && Section(src[i])
    requires Precedes(src, a, i) && LeadFrom(src, r, i)
    ensures Follows(Merge(src, dst), src[a].key, src[r..i + 1])
  {
    AnchorIs(src, i);
    assert src[a].key.Some?;
    hide *;
    LeadIsRun(src, r, i);
    RunFollows(src, dst, i);
  }

  lemma RunFollows(src: Body, dst: Body, i: nat)
    requires UniqueTop(src) && i < |src| && New(src[i], Keys(dst)) && Section(src[i]) && Anchor(src, i).Some?
    ensures Follows(Merge(src, dst), Anchor(src, i), RunOf(src, i))
  {
    hide SpliceAll, SectionRuns, Splice, AfterAnchor, WithBare, Merge, MergeTables, Sealed, UniqueTop;
    var live, b, anchor, run := Keys(dst), WithBare(src, dst), Anchor(src, i), RunOf(src, i);
    var c := SpliceAll(b, SectionRuns(src, live, i));
    AnchorIsThere(src, dst, i);
    SectionStep(src, live, i + 1, b);
    var block, d, gap := SpliceFollows(c, anchor, run);
    forall j | i + 1 <= j < |src| ensures Sealed(block, Anchor(src, j)) {
      LaterAnchor(src, i, j);
      RunIsSealed(src, i, Anchor(src, j));
      BlockIsSealed(d, gap, run, Anchor(src, j));
    }
    SectionsKeepBlock(src, live, i + 1, |src|, b, block);
    MergeInTwoSteps(src, dst);
  }

  lemma BlockIsSealed(d: Entry, gap: Body, run: Body, anchor: Option<string>)
    requires d.key != anchor && (gap == [] || gap == [NEWLINE]) && Sealed(run, anchor)
    ensures Sealed([d] + gap + run, anchor)
  {
  }

  lemma WithBareHas(src: Body, dst: Body, x: Entry)
    requires x in MergeTables(src, dst)
    ensures x in WithBare(src, dst)
  {
  }

  /** The first shipped section has no predecessor: if it is new it goes behind
      everything in the live file. */
  lemma FirstSectionGoesLast(src: Body, dst: Body, i: nat, x: Entry)
    requires i < |src| && New(src[i], Keys(dst)) && Section(src[i])
    requires (forall j :: 0 <= j < i ==> !Section(src[j])) && x in MergeTables(src, dst)
    ensures Before(Merge(src, dst), x, src[i])
  {
    AnchorIs(src, i);
    hide *;
    var live, b := Keys(dst), WithBare(src, dst);
    WithBareHas(src, dst, x);
    SplicedLast(src, live, b, i, x);
    SectionsBefore(src, live, i + 1, |src|, b, x, src[i]);
    MergeInTwoSteps(src, dst);
  }

  lemma SplicedLast(src: Body, live: set<string>, b: Body, i: nat, x: Entry)
    requires i < |src| && New(src[i], live) && Section(src[i]) && Anchor(src, i).None? && x in b
    ensures Before(SpliceAll(b, SectionRuns(src, live, i + 1)), x, src[i])
  {
    hide Splice, RunOf, Before, SectionRuns, Anchor;
    SkippedHaveNoSection(src, live, i);
    SectionStep(src, live, i + 1, b);
    RunHas(src, i);
    assert SpliceAll(b, []) == b && b[..|b|] == b;
    hide SpliceAll;
    HeadBeforeRun(b, |b|, RunOf(src, i), x, src[i]);
  }

  lemma {:induction false} BareBlockOrder(src: Body, live: set<string>, i: nat, j: nat, n: nat)
    requires i < j < n <= |src| && New(src[i], live) && Bare(src[i]) && New(src[j], live) && Bare(src[j])
    ensures Before(BareBlock(src, live, n), src[i], src[j])
  {
    hide Before, RunOf;
    if j == n - 1 {
      BareHas(src, live, i, n - 1);
      RunHas(src, j);
      BeforeInBlocks(BareBlock(src, live, n - 1), RunOf(src, j), src[i], src[j]);
    } else {
      BareBlockOrder(src, live, i, j, n - 1);
      if New(src[n - 1], live) && Bare(src[n - 1]) {
        BeforeLonger(BareBlock(src, live, n - 1), RunOf(src, n - 1), src[i], src[j]);
      }
    }
  }

  lemma BareHas(src: Body, live: set<string>, i: nat, n: nat)
    requires i < n <= |src| && New(src[i], live) && Bare(src[i])
    ensures src[i] in BareBlock(src, live, n)
  {
    BareMembers(src, live, n, src[i]);
    hide BareBlock;
    assert src[..n][i] == src[i];
  }

  lemma BeforeInBlocks(a: Body, b: Body, x: Entry, y: Entry)
    requires x in a && y in b
    ensures Before(a + b, x, y)
  {
    var i :| 0 <= i < |a| && a[i] == x;
    var j :| 0 <= j < |b| && b[j] == y;
    assert (a + b)[i] == x && (a + b)[|a| + j] == y;
  }

  lemma BeforeLonger(a: Body, b: Body, x: Entry, y: Entry)
    requires Before(a, x, y)
    ensures Before(a + b, x, y) && Before(b + a, x, y)
  {
    var i, j :| 0 <= i < j < |a| && a[i] == x && a[j] == y;
    assert (a + b)[i] == x && (a + b)[j] == y;
    assert (b + a)[|b| + i] == x && (b + a)[|b| + j] == y;
  }

  /** Injected bare keys stand in shipped order. */
  lemma BareKeysInOrder(src: Body, dst: Body, i: nat, j: nat)
    requires i < j < |src| && New(src[i], Keys(dst)) && Bare(src[i]) && New(src[j], Keys(dst)) && Bare(src[j])
    ensures Before(Merge(src, dst), src[i], src[j])
  {
    hide *;
    var live, t := Keys(dst), MergeTables(src, dst);
    var block := BareBlock(src, live, |src|);
    BareBlockOrder(src, live, i, j, |src|);
    var pre, post := SpliceParts(t, FirstSection(t), block);
    BeforeLonger(block, post, src[i], src[j]);
    BeforeLonger(block + post, pre, src[i], src[j]);
    assert pre + (block + post) == pre + block + post;
    MergeInTwoSteps(src, dst);
    WithBareIs(src, dst);
    SectionsBefore(src, live, 0, |src|, WithBare(src, dst), src[i], src[j]);
  }

  lemma WithBareIs(src: Body, dst: Body)
    ensures var t := MergeTables(src, dst);
            WithBare(src, dst) == Splice(t, FirstSection(t), BareBlock(src, Keys(dst), |src|))
    ensures SpliceAll(WithBare(src, dst), SectionRuns(src, Keys(dst), 0)) == WithBare(src, dst)
  {
  }

  /** An insertion leaves white space on both sides of the run, and adds a blank
      line only where there was none. */
  lemma SplicePads(b: Body, idx: nat, run: Body) returns (p: nat)
    requires idx <= |b| && run != []
    ensures var r := Splice(b, idx, run);
            && At(r, run, p) && b[..idx] <= r && |r| >= |b| && r[|r| - (|b| - idx)..] == b[idx..]
            && p <= idx + 1 && |b| - idx <= |r| - p - |run| <= |b| - idx + 1
            && (p > 0 ==> r[p - 1].item.Whitespace?)
            && (idx < |b| ==> run[|run| - 1].item.Whitespace? || r[p + |run|].item.Whitespace?)
            && (p == idx <==> idx == 0 || b[idx - 1].item.Whitespace?)
            && (|r| - p - |run| == |b| - idx <==>
                  idx == |b| || b[idx].item.Whitespace? || run[|run| - 1].item.Whitespace?)
  {
    var front := if idx > 0 && !b[idx - 1].item.Whitespace? then [NEWLINE] else [];
    p := idx + |front|;
  }
}
