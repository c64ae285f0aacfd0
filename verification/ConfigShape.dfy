/** Order and layout of the merged config: the live file survives as it was,
    bare keys stay before sections, injected sections stand next to their
    shipped neighbours and every injected item keeps its leading comments. */
module ConfigShape {
  import opened Prelude
  import opened ConfigTree
  import opened ConfigMerge

  // ---------------------------------------------------------------------
  // Add-only: the old body is a subsequence of the new one
  // ---------------------------------------------------------------------

  /** `b` is `a` itself, or the same table with entries added inside. */
  ghost predicate Grown(a: Entry, b: Entry)
    decreases b
  {
    a == b || (a.key == b.key && match b.item
      case Table(y) => a.item.Table? && Embeds(a.item.body, y)
      case _ => false)
  }

  /** The entries of `a`, comments and blank lines included, occur in `b` in
      order, unchanged but for entries added inside tables. */
  ghost predicate Embeds(a: Body, b: Body)
    decreases b
  {
    a == [] || (b != [] && ((Grown(a[0], b[0]) && Embeds(a[1..], b[1..])) || Embeds(a, b[1..])))
  }

  lemma {:induction false} EmbedsPointwise(a: Body, b: Body)
    requires |a| == |b| && forall i :: 0 <= i < |a| ==> Grown(a[i], b[i])
    ensures Embeds(a, b)
    decreases |a|
  {
    if a != [] {
      EmbedsPointwise(a[1..], b[1..]);
    }
  }

  lemma {:induction false} EmbedsPrepend(a: Body, mid: Body, y: Body)
    requires Embeds(a, y)
    ensures Embeds(a, mid + y)
  {
    if mid == [] {
      assert mid + y == y;
    } else {
      EmbedsPrepend(a, mid[1..], y);
      assert (mid + y)[1..] == mid[1..] + y;
    }
  }

  lemma {:induction false} EmbedsInsert(a: Body, x: Body, mid: Body, y: Body)
    requires Embeds(a, x + y)
    ensures Embeds(a, x + mid + y)
    decreases |x|
  {
    if x == [] {
      assert x + y == y && x + mid + y == mid + y;
      EmbedsPrepend(a, mid, y);
    } else if a != [] {
      assert (x + y)[0] == (x + mid + y)[0] == x[0];
      assert (x + y)[1..] == x[1..] + y && (x + mid + y)[1..] == x[1..] + mid + y;
      if Embeds(a, x[1..] + y) {
        EmbedsInsert(a, x[1..], mid, y);
      } else {
        EmbedsInsert(a[1..], x[1..], mid, y);
      }
    }
  }

  lemma SpliceEmbeds(a: Body, b: Body, idx: nat, run: Body)
    requires idx <= |b| && Embeds(a, b)
    ensures Embeds(a, Splice(b, idx, run))
  {
    if run != [] {
      var front := if idx > 0 && !b[idx - 1].item.Whitespace? then [NEWLINE] else [];
      var back := if idx < |b| && !b[idx].item.Whitespace? && !run[|run| - 1].item.Whitespace? then [NEWLINE] else [];
      assert b == b[..idx] + b[idx..];
      EmbedsInsert(a, b[..idx], front + run + back, b[idx..]);
    }
  }

  lemma {:induction false} SpliceAllEmbeds(a: Body, b: Body, runs: seq<(Option<string>, Body)>)
    requires Embeds(a, b)
    ensures Embeds(a, SpliceAll(b, runs))
  {
    if runs != [] {
      var k := |runs| - 1;
      SpliceAllEmbeds(a, b, runs[..k]);
      var c := SpliceAll(b, runs[..k]);
      SpliceEmbeds(a, c, AfterAnchor(c, runs[k].0), runs[k].1);
    }
  }

  /** The merge only adds, at every depth. */
  lemma {:induction false} MergeEmbeds(src: Body, dst: Body)
    ensures Embeds(dst, Merge(src, dst))
    decreases src
  {
    var live, tables := Keys(dst), MergeTables(src, dst);
    forall i | 0 <= i < |dst| ensures Grown(dst[i], tables[i]) {
      var d := dst[i];
      if d.key.Some? && d.item.Table? && TableIndex(src, d.key.value) < |src| {
        BodyEmbeds(src[TableIndex(src, d.key.value)], d.item.body);
      }
    }
    EmbedsPointwise(dst, tables);
    SpliceEmbeds(dst, tables, FirstSection(tables), BareBlock(src, live, |src|));
    SpliceAllEmbeds(dst, Splice(tables, FirstSection(tables), BareBlock(src, live, |src|)),
        SectionRuns(src, live, |src|));
  }

  lemma {:induction false} BodyEmbeds(e: Entry, live: Body)
    requires e.item.Table?
    ensures Embeds(live, MergeBodies(e, live))
    decreases e
  {
    match e.item
    case Table(body) => MergeEmbeds(body, live);
  }

  // ---------------------------------------------------------------------
  // Bare keys before sections
  // ---------------------------------------------------------------------

  /** TOML's rule for one body: no bare key after a table header. */
  ghost predicate BareFirst(b: Body) {
    forall i, j :: 0 <= i < j < |b| && Section(b[i]) ==> !Bare(b[j])
  }

  ghost predicate NoSection(b: Body) {
    forall e :: e in b ==> !Section(e)
  }

  ghost predicate NoBare(b: Body) {
    forall e :: e in b ==> !Bare(e)
  }

  lemma SpliceBareFirst(b: Body, idx: nat, run: Body)
    requires idx <= |b| && BareFirst(b)
    requires (NoSection(b[..idx]) && NoSection(run)) || (NoBare(run) && NoBare(b[idx..]))
    ensures BareFirst(Splice(b, idx, run))
  {
  }

  lemma RunShape(src: Body, i: nat)
    requires i < |src|
    ensures Section(src[i]) ==> NoBare(RunOf(src, i))
    ensures Bare(src[i]) ==> NoSection(RunOf(src, i))
  {
  }

  lemma {:induction false} BareBlockShape(src: Body, live: set<string>, n: nat)
    requires n <= |src|
    ensures NoSection(BareBlock(src, live, n))
  {
    if n > 0 {
      BareBlockShape(src, live, n - 1);
      if New(src[n - 1], live) && Bare(src[n - 1]) {
        RunShape(src, n - 1);
      }
    }
  }

  /** In each body, a name both files use is a section in both or in neither. */
  ghost predicate SameKind(src: Body, dst: Body) {
    forall e, d :: e in src && d in dst && e.key.Some? && e.key == d.key ==> (IsSection(e.item) <==> IsSection(d.item))
  }

  lemma TablesShape(src: Body, dst: Body)
    requires BareFirst(dst)
    ensures BareFirst(MergeTables(src, dst))
  {
  }

  /** No bare key stands behind the entry with this key. */
  ghost predicate NoBareAfter(b: Body, name: Option<string>) {
    forall p, q :: 0 <= p < q < |b| && b[p].key == name ==> !Bare(b[q])
  }

  lemma AnchorIsClear(b: Body, anchor: Option<string>)
    requires anchor.Some? ==> NoBareAfter(b, anchor)
    ensures NoBare(b[AfterAnchor(b, anchor)..])
  {
  }

  lemma {:induction false} AnchorOf(src: Body, i: nat)
    requires i <= |src| && Anchor(src, i).Some?
    ensures exists j :: 0 <= j < i && src[j].key == Anchor(src, i) && Section(src[j]) && forall m :: j < m < i ==>
        !Section(src[m])
  {
    if Section(src[i - 1]) {
      assert src[i - 1].key == Anchor(src, i);
    } else {
      AnchorOf(src, i - 1);
      var j :| 0 <= j < i - 1 && src[j].key == Anchor(src, i) && Section(src[j]) && forall m :: j < m < i - 1 ==>
          !Section(src[m]);
      assert forall m :: j < m < i ==> !Section(src[m]);
    }
  }

  lemma InsertNoBareAfter(x: Body, mid: Body, y: Body, name: Option<string>)
    requires NoBareAfter(x + y, name) && NoBare(mid) && forall e :: e in mid ==> e.key != name
    ensures NoBareAfter(x + mid + y, name)
  {
    var b, c := x + y, x + mid + y;
    assert forall k :: |x| <= k < |x| + |mid| ==> c[k] == mid[k - |x|];
    forall p, q | 0 <= p < q < |c| && c[p].key == name ensures !Bare(c[q]) {
      if |x| <= q < |x| + |mid| {
        assert c[q] in mid;
      } else {
        var p', q' := if p < |x| then p else p - |mid|, if q < |x| then q else q - |mid|;
        assert c[p] == b[p'] && c[q] == b[q'];
      }
    }
  }

  lemma SpliceNoBareAfter(b: Body, idx: nat, run: Body, name: Option<string>)
    requires idx <= |b| && name.Some? && NoBareAfter(b, name) && NoBare(run) && forall e :: e in run ==> e.key != name
    ensures NoBareAfter(Splice(b, idx, run), name)
  {
    if run != [] {
      var front := if idx > 0 && !b[idx - 1].item.Whitespace? then [NEWLINE] else [];
      var back := if idx < |b| && !b[idx].item.Whitespace? && !run[|run| - 1].item.Whitespace? then [NEWLINE] else [];
      assert b == b[..idx] + b[idx..];
      InsertNoBareAfter(b[..idx], front + run + back, b[idx..], name);
    }
  }

  /** No new section is anchored on a key with bare keys behind it. */
  ghost predicate AnchorsClear(src: Body, live: set<string>, b: Body) {
    forall i :: 0 <= i < |src| && New(src[i], live) && Section(src[i]) && Anchor(src, i).Some?
        && Anchor(src, i).value in Keys(b)
      ==> NoBareAfter(b, Anchor(src, i))
  }

  /** The new sections are new in `b` too. */
  ghost predicate Apart(src: Body, live: set<string>, b: Body) {
    forall s, e :: s in src && New(s, live) && Section(s) && e in b ==> s.key != e.key
  }

  /** The anchor of a new section is clear when its turn comes. */
  lemma SectionSkip(src: Body, live: set<string>, n: nat)
    requires 0 < n <= |src| && !(New(src[n - 1], live) && Section(src[n - 1]))
    ensures SectionRuns(src, live, n) == SectionRuns(src, live, n - 1)
  {
  }

  lemma AnchorKeepsClear(src: Body, live: set<string>, n: nat, b: Body, anchor: Option<string>)
    requires 0 < n <= |src| && anchor.Some? && anchor.value in Keys(b) && Apart(src, live, b)
    requires NoBareAfter(SpliceAll(b, SectionRuns(src, live, n - 1)), anchor)
    ensures NoBareAfter(SpliceAll(b, SectionRuns(src, live, n)), anchor)
  {
    hide *;
    if New(src[n - 1], live) && Section(src[n - 1]) {
      SectionStep(src, live, n, b);
      var c := SpliceAll(b, SectionRuns(src, live, n - 1));
      RunShape(src, n - 1);
      RunLacks(src, live, n - 1, b, anchor.value);
      SpliceNoBareAfter(c, AfterAnchor(c, Anchor(src, n - 1)), RunOf(src, n - 1), anchor);
    } else {
      SectionSkip(src, live, n);
    }
  }

  lemma {:induction false} AnchorStaysClear(src: Body, live: set<string>, n: nat, b: Body, anchor: Option<string>)
    requires n <= |src| && anchor.Some? && NoBareAfter(b, anchor) && anchor.value in Keys(b) && Apart(src, live, b)
    ensures NoBareAfter(SpliceAll(b, SectionRuns(src, live, n)), anchor)
  {
    hide *;
    if n == 0 {
      NoSections(src, live, b);
    } else {
      AnchorStaysClear(src, live, n - 1, b, anchor);
      AnchorKeepsClear(src, live, n, b, anchor);
    }
  }

  lemma RunLacks(src: Body, live: set<string>, i: nat, b: Body, name: string)
    requires i < |src| && New(src[i], live) && Section(src[i]) && Apart(src, live, b) && name in Keys(b)
    ensures forall e :: e in RunOf(src, i) ==> e.key != Some(name)
  {
  }

  /** A key that is not in `b` can only be a section spliced earlier. */
  lemma NewAnchorIsSection(src: Body, live: set<string>, n: nat, b: Body, anchor: Option<string>)
    requires n <= |src| && anchor.Some? && anchor.value !in Keys(b)
    requires BareFirst(SpliceAll(b, SectionRuns(src, live, n)))
    ensures NoBareAfter(SpliceAll(b, SectionRuns(src, live, n)), anchor)
  {
    var c := SpliceAll(b, SectionRuns(src, live, n));
    forall p, q | 0 <= p < q < |c| && c[p].key == anchor ensures !Bare(c[q]) {
      SpliceAllMembers(src, live, n, b, c[p]);
      assert c[p] !in b by {
        assert forall d :: d in b && d.key.Some? ==> d.key.value in Keys(b);
      }
    }
  }

  lemma SectionBareFirst(src: Body, live: set<string>, n: nat, b: Body)
    requires 0 < n <= |src| && AnchorsClear(src, live, b) && Apart(src, live, b)
    requires BareFirst(SpliceAll(b, SectionRuns(src, live, n - 1)))
    ensures BareFirst(SpliceAll(b, SectionRuns(src, live, n)))
  {
    hide *;
    if New(src[n - 1], live) && Section(src[n - 1]) {
      SectionStep(src, live, n, b);
      var c, anchor := SpliceAll(b, SectionRuns(src, live, n - 1)), Anchor(src, n - 1);
      NextAnchorIsClear(src, live, n, b);
      RunShape(src, n - 1);
      SpliceBareFirst(c, AfterAnchor(c, anchor), RunOf(src, n - 1));
    } else {
      SectionSkip(src, live, n);
    }
  }

  lemma {:induction false} SectionsBareFirst(src: Body, live: set<string>, n: nat, b: Body)
    requires n <= |src| && BareFirst(b) && AnchorsClear(src, live, b) && Apart(src, live, b)
    ensures BareFirst(SpliceAll(b, SectionRuns(src, live, n)))
  {
    hide *;
    if n == 0 {
      NoSections(src, live, b);
    } else {
      SectionsBareFirst(src, live, n - 1, b);
      SectionBareFirst(src, live, n, b);
    }
  }

  lemma AnchorInBody(src: Body, live: set<string>, i: nat, b: Body)
    requires i < |src| && New(src[i], live) && Section(src[i]) && AnchorsClear(src, live, b)
    requires Anchor(src, i).Some? && Anchor(src, i).value in Keys(b)
    ensures NoBareAfter(b, Anchor(src, i))
  {
  }

  lemma NextAnchorIsClear(src: Body, live: set<string>, n: nat, b: Body)
    requires 0 < n <= |src| && New(src[n - 1], live) && Section(src[n - 1])
    requires AnchorsClear(src, live, b) && Apart(src, live, b)
    requires BareFirst(SpliceAll(b, SectionRuns(src, live, n - 1)))
    ensures var c := SpliceAll(b, SectionRuns(src, live, n - 1)); NoBare(c[AfterAnchor(c, Anchor(src, n - 1))..])
  {
    hide *;
    var anchor := Anchor(src, n - 1);
    if anchor.Some? && anchor.value in Keys(b) {
      AnchorInBody(src, live, n - 1, b);
      AnchorStaysClear(src, live, n - 1, b, anchor);
    } else if anchor.Some? {
      NewAnchorIsSection(src, live, n - 1, b, anchor);
    }
    AnchorIsClear(SpliceAll(b, SectionRuns(src, live, n - 1)), anchor);
  }

  // The body the sections are spliced into: live tables merged, bare keys in.
  function WithBare(src: Body, dst: Body): Body {
    var tables := MergeTables(src, dst);
    Splice(tables, FirstSection(tables), BareBlock(src, Keys(dst), |src|))
  }

  lemma MergeInTwoSteps(src: Body, dst: Body)
    ensures SpliceAll(WithBare(src, dst), SectionRuns(src, Keys(dst), 0)) == WithBare(src, dst)
    ensures SpliceAll(WithBare(src, dst), SectionRuns(src, Keys(dst), |src|)) == Merge(src, dst)
  {
  }

  lemma WithBareShape(src: Body, dst: Body)
    requires UniqueTop(src) && BareFirst(dst)
    ensures BareFirst(WithBare(src, dst))
    ensures Apart(src, Keys(dst), WithBare(src, dst))
  {
    var live, tables := Keys(dst), MergeTables(src, dst);
    TablesShape(src, dst);
    TablesKeys(src, dst);
    BareBlockShape(src, live, |src|);
    SpliceBareFirst(tables, FirstSection(tables), BareBlock(src, live, |src|));
    forall e | e in WithBare(src, dst) && e.key.Some?
      ensures forall s :: s in src && New(s, live) && Section(s) ==> s.key != e.key
    {
      SpliceMembers(tables, FirstSection(tables), BareBlock(src, live, |src|), e);
      if e in tables {
        assert e.key.value in Keys(tables);
      } else {
        BareMembers(src, live, |src|, e);
        FoundAt(src, e);
      }
    }
  }

  // ---------------------------------------------------------------------
  // Exactly when the order survives
  // ---------------------------------------------------------------------

  /** A new section would be spliced right behind a live bare key that has bare
      keys behind it, live or new. */
  ghost predicate Displaces(src: Body, dst: Body, i: int, x: Entry) {
    && 0 <= i < |src| && New(src[i], Keys(dst)) && Section(src[i])
    && x in dst && Bare(x) && Anchor(src, i) == x.key
    && ((exists y :: Bare(y) && Before(dst, x, y)) || exists y :: y in src && New(y, Keys(dst)) && Bare(y))
  }

  lemma BeforeInsert(x: Body, mid: Body, y: Body, e: Entry, f: Entry)
    requires Before(x + y, e, f)
    ensures Before(x + mid + y, e, f)
  {
    var b, c := x + y, x + mid + y;
    var p, q :| 0 <= p < q < |b| && b[p] == e && b[q] == f;
    var p', q' := if p < |x| then p else p + |mid|, if q < |x| then q else q + |mid|;
    assert c[p'] == e && c[q'] == f;
  }

  lemma SpliceKeepsBefore(b: Body, idx: nat, run: Body, e: Entry, f: Entry)
    requires idx <= |b| && Before(b, e, f)
    ensures Before(Splice(b, idx, run), e, f)
  {
    if run != [] {
      var front := if idx > 0 && !b[idx - 1].item.Whitespace? then [NEWLINE] else [];
      var back := if idx < |b| && !b[idx].item.Whitespace? && !run[|run| - 1].item.Whitespace? then [NEWLINE] else [];
      assert b == b[..idx] + b[idx..];
      BeforeInsert(b[..idx], front + run + back, b[idx..], e, f);
    }
  }

  /** What stands before the run, the run, and what stands behind it. */
  lemma SpliceParts(b: Body, idx: nat, run: Body) returns (pre: Body, post: Body)
    requires idx <= |b|
    ensures Splice(b, idx, run) == pre + run + post
    ensures b[..idx] <= pre && |post| >= |b| - idx && post[|post| - (|b| - idx)..] == b[idx..]
  {
    var front := if run != [] && idx > 0 && !b[idx - 1].item.Whitespace? then [NEWLINE] else [];
    var back := if run != [] && idx < |b| && !b[idx].item.Whitespace? && !run[|run| - 1].item.Whitespace?
        then [NEWLINE] else [];
    pre, post := b[..idx] + front, back + b[idx..];
    hide NEWLINE;
    Regrouped(b[..idx], front, run, back, b[idx..]);
    if run == [] {
      assert b == b[..idx] + b[idx..];
    }
  }

  lemma Regrouped(x: Body, front: Body, run: Body, back: Body, y: Body)
    ensures x + (front + run + back) + y == (x + front) + run + (back + y)
    ensures x + [] + y == x + y && (back + y)[|back|..] == y && x <= x + front
  {
  }

  lemma RunBeforeRest(b: Body, idx: nat, run: Body, e: Entry, f: Entry)
    requires idx <= |b| && e in run && f in b[idx..]
    ensures Before(Splice(b, idx, run), e, f)
  {
    var pre, post := SpliceParts(b, idx, run);
    hide Splice;
    var p, q :| 0 <= p < |run| && run[p] == e && idx <= q < |b| && b[q] == f;
    var c, k := pre + run + post, |post| - (|b| - idx);
    assert post[k..][q - idx] == f;
    assert c[|pre| + p] == e && c[|pre + run| + k + (q - idx)] == f;
  }

  lemma HeadBeforeRun(b: Body, idx: nat, run: Body, e: Entry, f: Entry)
    requires idx <= |b| && e in b[..idx] && f in run
    ensures Before(Splice(b, idx, run), e, f)
  {
    var pre, post := SpliceParts(b, idx, run);
    hide Splice;
    var p, q :| 0 <= p < idx && b[p] == e && 0 <= q < |run| && run[q] == f;
    var c := pre + run + post;
    assert b[..idx][p] == e && pre[p] == e;
    assert c[p] == e && c[|pre| + q] == f;
  }

  lemma {:induction false} SectionsBefore(src: Body, live: set<string>, m: nat, n: nat, b: Body, e: Entry, f: Entry)
    requires m <= n <= |src| && Before(SpliceAll(b, SectionRuns(src, live, m)), e, f)
    ensures Before(SpliceAll(b, SectionRuns(src, live, n)), e, f)
    decreases n - m
  {
    if m < n {
      SectionsBefore(src, live, m, n - 1, b, e, f);
      if New(src[n - 1], live) && Section(src[n - 1]) {
        var c := SpliceAll(b, SectionRuns(src, live, n - 1));
        SectionStep(src, live, n, b);
        hide SpliceAll, SectionRuns, Splice, RunOf;
        SpliceKeepsBefore(c, AfterAnchor(c, Anchor(src, n - 1)), RunOf(src, n - 1), e, f);
      }
    }
  }

  /** A displaced bare key ends up behind the new section. */
  lemma DisplacedEndsBehind(src: Body, dst: Body, i: int, x: Entry, y: Entry)
    requires UniqueTop(src) && UniqueTop(dst)
    requires 0 <= i < |src| && New(src[i], Keys(dst)) && Section(src[i]) && x.key.Some? && Anchor(src, i) == x.key
    requires Before(WithBare(src, dst), x, y)
    ensures Before(Merge(src, dst), src[i], y)
  {
    var live, b := Keys(dst), WithBare(src, dst);
    var c := SpliceAll(b, SectionRuns(src, live, i));
    MergeInTwoSteps(src, dst);
    SectionStep(src, live, i + 1, b);
    hide *;
    WithBareUnique(src, dst);
    SectionsBefore(src, live, 0, i, b, x, y);
    SpliceAllUnique(src, live, i, b);
    StandsBehind(c, x, y);
    RunHas(src, i);
    RunBeforeRest(c, AfterAnchor(c, x.key), RunOf(src, i), src[i], y);
    SectionsBefore(src, live, i + 1, |src|, b, src[i], y);
  }

  lemma RunHas(src: Body, i: nat)
    requires i < |src|
    ensures src[i] in RunOf(src, i)
  {
  }

  lemma StandsBehind(b: Body, x: Entry, y: Entry)
    requires UniqueTop(b) && x.key.Some? && Before(b, x, y)
    ensures y in b[AfterAnchor(b, x.key)..]
  {
  }

  lemma WithBareUnique(src: Body, dst: Body)
    requires UniqueTop(src) && UniqueTop(dst)
    ensures UniqueTop(WithBare(src, dst))
    ensures LiveOrBare(src, Keys(dst), WithBare(src, dst))
  {
    var live, tables := Keys(dst), MergeTables(src, dst);
    var bare := BareBlock(src, live, |src|);
    TablesKeys(src, dst);
    BareUnique(src, live, |src|);
    assert src[..|src|] == src;
    forall k | k in Keys(bare) ensures k !in live && exists e :: e in src && Bare(e) && e.key == Some(k) {
      BareKeys(src, live, |src|, k);
    }
    SpliceUnique(tables, FirstSection(tables), bare);
  }

  /** Live bare keys keep their order, and new ones come behind them. */
  lemma BareOrder(src: Body, dst: Body, x: Entry, y: Entry)
    requires BareFirst(dst) && x in dst && Bare(x) && Bare(y)
    ensures Before(dst, x, y) ==> Before(WithBare(src, dst), x, y)
    ensures y in src && New(y, Keys(dst)) ==> Before(WithBare(src, dst), x, y)
  {
    var tables := MergeTables(src, dst);
    var idx, bare := FirstSection(tables), BareBlock(src, Keys(dst), |src|);
    if Before(dst, x, y) {
      var p, q :| 0 <= p < q < |dst| && dst[p] == x && dst[q] == y;
      assert tables[p] == x && tables[q] == y;
      SpliceKeepsBefore(tables, idx, bare, x, y);
    }
    if y in src && New(y, Keys(dst)) {
      BareMembers(src, Keys(dst), |src|, y);
      assert src[..|src|] == src;
      var p :| 0 <= p < |dst| && dst[p] == x;
      TablesShape(src, dst);
      assert tables[p] == x && p < idx && tables[..idx][p] == x;
      HeadBeforeRun(tables, idx, bare, x, y);
    }
  }

  /** Bare keys still precede sections exactly when no new section displaces a
      live bare key. */
  lemma MergeBareFirstIff(src: Body, dst: Body)
    requires UniqueTop(src) && UniqueTop(dst) && BareFirst(dst)
    ensures BareFirst(Merge(src, dst)) <==> !exists i, x :: Displaces(src, dst, i, x)
  {
    if i, x :| Displaces(src, dst, i, x) {
      var y: Entry;
      if z :| Bare(z) && Before(dst, x, z) {
        y := z;
      } else {
        y :| y in src && New(y, Keys(dst)) && Bare(y);
      }
      BareOrder(src, dst, x, y);
      DisplacedEndsBehind(src, dst, i, x, y);
    } else {
      var live, b := Keys(dst), WithBare(src, dst);
      WithBareShape(src, dst);
      forall i | 0 <= i < |src| && New(src[i], live) && Section(src[i]) && Anchor(src, i).Some?
          && Anchor(src, i).value in Keys(b)
        ensures NoBareAfter(b, Anchor(src, i))
      {
        UndisplacedIsClear(src, dst, i);
      }
      SectionsBareFirst(src, live, |src|, b);
    }
  }

  lemma UndisplacedIsClear(src: Body, dst: Body, i: nat)
    requires UniqueTop(src) && UniqueTop(dst) && BareFirst(dst)
    requires i < |src| && New(src[i], Keys(dst)) && Section(src[i]) && Anchor(src, i).Some?
    requires !exists x :: Displaces(src, dst, i, x)
    ensures NoBareAfter(WithBare(src, dst), Anchor(src, i))
  {
    var live, tables, b, anchor := Keys(dst), MergeTables(src, dst), WithBare(src, dst), Anchor(src, i);
    var bare := BareBlock(src, live, |src|);
    WithBareShape(src, dst);
    AnchorOf(src, i);
    var j :| 0 <= j < i && src[j].key == anchor && Section(src[j]);
    assert src[..|src|] == src;
    forall p, q | 0 <= p < q < |b| && b[p].key == anchor ensures !Bare(b[q]) {
      if Bare(b[p]) {
        SpliceMembers(tables, FirstSection(tables), bare, b[p]);
        BareMembers(src, live, |src|, b[p]);
        FoundAt(src, src[j]);
        var m :| 0 <= m < |tables| && tables[m] == b[p];
        assert dst[m] == b[p] && dst[m] in dst;
        assert !Displaces(src, dst, i, dst[m]);
        NoNewBare(src, live, |src|);
        assert b == tables;
        MergeEntryCases(src, dst[p]);
        MergeEntryCases(src, dst[q]);
        assert Before(dst, dst[m], dst[q]);
      }
    }
  }

  lemma {:induction false} NoNewBare(src: Body, live: set<string>, n: nat)
    requires n <= |src| && forall y :: y in src && New(y, live) ==> !Bare(y)
    ensures BareBlock(src, live, n) == []
  {
    if n > 0 {
      NoNewBare(src, live, n - 1);
      assert src[n - 1] in src;
    }
  }

  lemma NoneDisplaced(src: Body, dst: Body)
    requires SameKind(src, dst)
    ensures !exists i, x :: Displaces(src, dst, i, x)
  {
    forall i, x | 0 <= i < |src| && x in dst && x.key.Some? && Anchor(src, i) == x.key ensures !Bare(x) {
      AnchorOf(src, i);
      var j :| 0 <= j < i && src[j].key == x.key && Section(src[j]);
      assert src[j] in src;
    }
  }

  // ---------------------------------------------------------------------
  // At every depth
  // ---------------------------------------------------------------------

  ghost predicate BareFirstDeep(b: Body)
    decreases b
  {
    BareFirst(b) && forall i :: 0 <= i < |b| ==> BareFirstBelow(b[i])
  }

  ghost predicate BareFirstBelow(e: Entry)
    decreases e
  {
    e.key.Some? ==>
      match e.item
      case Table(body) => BareFirstDeep(body)
      case _ => true
  }

  /** No new section displaces a live bare key, in any table both files have. */
  ghost predicate NothingDisplaced(src: Body, dst: Body)
    decreases src
  {
    (!exists i, x :: Displaces(src, dst, i, x)) && forall i :: 0 <= i < |src| ==> NothingDisplacedBelow(src[i], dst)
  }

  ghost predicate NothingDisplacedBelow(e: Entry, dst: Body)
    decreases e
  {
    match e.item
    case Table(body) =>
      forall d :: d in dst && e.key.Some? && d.key == e.key && d.item.Table? ==> NothingDisplaced(body, d.item.body)
    case _ => true
  }

  /** If bare keys precede sections in every body of both files, they still do
      in the merged one exactly when nothing is displaced. */
  lemma {:induction false} MergeBareFirstDeepIff(src: Body, dst: Body)
    requires UniqueKeys(src) && UniqueKeys(dst) && BareFirstDeep(src) && BareFirstDeep(dst)
    ensures BareFirstDeep(Merge(src, dst)) <==> NothingDisplaced(src, dst)
    decreases src
  {
    hide Merge, Displaces, MergeEntry;
    MergeBareFirstIff(src, dst);
    var m := Merge(src, dst);
    if NothingDisplaced(src, dst) {
      forall i | 0 <= i < |m| ensures BareFirstBelow(m[i]) {
        EntryBareFirst(src, dst, m[i]);
      }
    }
    if BareFirstDeep(m) {
      forall i | 0 <= i < |src| ensures NothingDisplacedBelow(src[i], dst) {
        EntryUndisplaced(src, dst, i);
      }
    }
  }

  lemma {:induction false} EntryBareFirst(src: Body, dst: Body, t: Entry)
    requires UniqueKeys(src) && UniqueKeys(dst) && NothingDisplaced(src, dst) && BareFirstDeep(src)
    requires BareFirstDeep(dst)
    requires t in Merge(src, dst)
    ensures BareFirstBelow(t)
    decreases src, 0
  {
    MergeOrigin(src, dst, t);
    if t in src {
      var i :| 0 <= i < |src| && src[i] == t;
      assert BareFirstBelow(src[i]);
    } else if t != NEWLINE {
      var tables := MergeTables(src, dst);
      var i :| 0 <= i < |tables| && tables[i] == t;
      var d := dst[i];
      assert BareFirstBelow(d) && UniqueBelow(d) && d in dst;
      if d.key.Some? && d.item.Table? && TableIndex(src, d.key.value) < |src| {
        var e := src[TableIndex(src, d.key.value)];
        assert BareFirstBelow(e) && NothingDisplacedBelow(e, dst) && UniqueBelow(e);
        BodyBareFirstIff(e, d.item.body);
      }
    }
  }

  lemma {:induction false} BodyBareFirstIff(e: Entry, live: Body)
    requires e.item.Table? && e.key.Some? && UniqueBelow(e) && UniqueKeys(live) && BareFirstBelow(e)
    requires BareFirstDeep(live)
    ensures BareFirstDeep(MergeBodies(e, live)) <==> NothingDisplaced(e.item.body, live)
    decreases e
  {
    match e.item
    case Table(body) => MergeBareFirstDeepIff(body, live);
  }

  /** A shared table that stays in order displaces nothing. */
  lemma {:induction false} EntryUndisplaced(src: Body, dst: Body, i: nat)
    requires UniqueKeys(src) && UniqueKeys(dst) && BareFirstDeep(src) && BareFirstDeep(dst)
    requires i < |src| && BareFirstDeep(Merge(src, dst))
    ensures NothingDisplacedBelow(src[i], dst)
    decreases src, 0
  {
    var e := src[i];
    assert e in src && UniqueBelow(e) && BareFirstBelow(e);
    if e.item.Table? && e.key.Some? {
      forall d | d in dst && d.key == e.key && d.item.Table? ensures NothingDisplaced(e.item.body, d.item.body) {
        assert UniqueBelow(d) && BareFirstBelow(d);
        SharedStaysBareFirst(src, dst, e, d);
        BodyBareFirstIff(e, d.item.body);
      }
    }
  }

  ghost predicate SameKindDeep(src: Body, dst: Body)
    decreases src
  {
    SameKind(src, dst) && forall i :: 0 <= i < |src| ==> SameKindBelow(src[i], dst)
  }

  ghost predicate SameKindBelow(e: Entry, dst: Body)
    decreases e
  {
    match e.item
    case Table(body) =>
      forall d :: d in dst && e.key.Some? && d.key == e.key && d.item.Table? ==> SameKindDeep(body, d.item.body)
    case _ => true
  }

  /** In particular nothing is displaced when shared names are of the same kind,
      at every depth. */
  lemma {:induction false} SameKindDisplacesNothing(src: Body, dst: Body)
    requires SameKindDeep(src, dst)
    ensures NothingDisplaced(src, dst)
    decreases src
  {
    NoneDisplaced(src, dst);
    hide Displaces, SameKind;
    forall i | 0 <= i < |src| ensures NothingDisplacedBelow(src[i], dst) {
      assert SameKindBelow(src[i], dst);
      SameKindBelowDisplaces(src[i], dst);
    }
  }

  lemma {:induction false} SameKindBelowDisplaces(e: Entry, dst: Body)
    requires SameKindBelow(e, dst)
    ensures NothingDisplacedBelow(e, dst)
    decreases e
  {
    match e.item
    case Table(body) =>
      forall d | d in dst && e.key.Some? && d.key == e.key && d.item.Table?
          ensures NothingDisplaced(body, d.item.body) {
        SameKindDisplacesNothing(body, d.item.body);
      }
    case _ =>
  }

  lemma EntryBelow(b: Body, e: Entry)
    requires BareFirstDeep(b) && e in b
    ensures BareFirstBelow(e)
  {
  }

  lemma SharedStaysBareFirst(src: Body, dst: Body, e: Entry, d: Entry)
    requires UniqueTop(src) && UniqueTop(dst) && e in src && e.key.Some? && e.item.Table?
    requires d in dst && d.key == e.key && d.item.Table? && BareFirstDeep(Merge(src, dst))
    ensures BareFirstDeep(MergeBodies(e, d.item.body))
  {
    SharedMerges(src, d, e);
    hide *;
    LiveEntryAfter(src, dst, d);
    EntryBelow(Merge(src, dst), MergeEntry(src, d));
    TableIsBareFirst(MergeEntry(src, d), MergeBodies(e, d.item.body));
  }

  lemma SharedMerges(src: Body, d: Entry, e: Entry)
    requires UniqueTop(src) && e in src && e.key.Some? && e.item.Table? && d.key == e.key && d.item.Table?
    ensures MergeEntry(src, d) == Entry(d.key, Table(MergeBodies(e, d.item.body)))
  {
    FoundAt(src, e);
    hide MergeBodies, Merge;
  }

  lemma TableIsBareFirst(e: Entry, body: Body)
    requires e.key.Some? && e.item == Table(body) && BareFirstBelow(e)
    ensures BareFirstDeep(body)
  {
  }

  /** A name that is a section in shipped but a bare key in live breaks the
      order: the next new section is spliced behind that bare key, in front of
      the bare keys that follow it. */
  lemma MixedKindsBreakOrder()
    ensures var src := [Entry(Some("ui"), Table([])), Entry(Some("net"), Table([]))];
            var dst := [Entry(Some("ui"), Value("1")), Entry(Some("color"), Value("2"))];
            BareFirst(dst) && !BareFirst(Merge(src, dst))
  {
    var src := [Entry(Some("ui"), Table([])), Entry(Some("net"), Table([]))];
    var dst := [Entry(Some("ui"), Value("1")), Entry(Some("color"), Value("2"))];
    assert Displaces(src, dst, 1, dst[0]) by {
      assert Anchor(src, 1) == Some("ui");
      assert Before(dst, dst[0], dst[1]);
    }
    hide Displaces, Merge;
    MergeBareFirstIff(src, dst);
  }
}
