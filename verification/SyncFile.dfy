/** The merge as the program does it: one container body changed in place, and
    the decision of `sync_file` what to write. A file is the tree that was
    written; every sync reads it anew. */
module SyncFile {
  import opened Prelude
  import opened ConfigTree
  import opened ConfigMerge
  import opened ConfigShape
  import opened ConfigReparse
  import opened ConfigResync

  function Prefixed(prefix: Path, paths: seq<Path>): seq<Path> {
    seq(|paths|, i requires 0 <= i < |paths| => prefix + paths[i])
  }

  lemma PrefixedConcat(prefix: Path, a: seq<Path>, b: seq<Path>)
    ensures Prefixed(prefix, a + b) == Prefixed(prefix, a) + Prefixed(prefix, b)
  {
  }

  lemma PrefixedUnder(prefix: Path, name: string, paths: seq<Path>)
    ensures Prefixed(prefix, Under(name, paths)) == Prefixed(prefix + [name], paths)
  {
    forall i | 0 <= i < |paths| ensures prefix + ([name] + paths[i]) == prefix + [name] + paths[i] {
    }
  }

  /** What entry `n` of the shipped body does to the live tables. */
  lemma TablesStep(src: Body, dst: Body, n: nat)
    requires n < |src| && UniqueKeys(src) && UniqueKeys(dst)
    ensures var t, e := MergeTables(src[..n], dst), src[n];
            if e.key.Some? && e.key.value in Keys(dst) && e.item.Table?
            then
              var k := IndexOf(dst, e.key.value);
              && k < |dst| && IndexOf(t, e.key.value) == k && UniqueTop(t) && UniqueBelow(e)
              && t[k] == dst[k] && UniqueBelow(t[k])
              && MergeTables(src[..n + 1], dst) ==
                 if t[k].item.Table? then t[k := Entry(e.key, Table(Merge(e.item.body, t[k].item.body)))] else t
            else MergeTables(src[..n + 1], dst) == t
  {
    TablesDiffer(src, dst, n);
    hide Merge, MergeTables;
    var e := src[n];
    if e.key.Some? && e.key.value in Keys(dst) {
      StillLive(src, dst, n);
      assert UniqueBelow(src[n]);
    } else if e.key.Some? {
      var k := IndexOf(dst, e.key.value);
      assert k == |dst| by {
        assert forall d :: d in dst && d.key.Some? ==> d.key.value in Keys(dst);
      }
    }
  }

  lemma TablesDiffer(src: Body, dst: Body, n: nat)
    requires n < |src| && UniqueTop(src) && UniqueTop(dst)
    ensures var t := MergeTables(src[..n], dst);
            var e := src[n];
            MergeTables(src[..n + 1], dst) ==
              if e.key.Some? && e.item.Table? && IndexOf(dst, e.key.value) < |dst|
                  && dst[IndexOf(dst, e.key.value)].item.Table?
              then t[IndexOf(dst, e.key.value) := Entry(e.key,
                  Table(Merge(e.item.body, dst[IndexOf(dst, e.key.value)].item.body)))]
              else t
  {
    hide *;
    var e := src[n];
    var t, next := MergeTables(src[..n], dst), MergeTables(src[..n + 1], dst);
    forall i | 0 <= i < |dst|
      ensures next[i] ==
              if e.key.Some? && e.item.Table? && dst[i].key == e.key && dst[i].item.Table?
              then Entry(e.key, Table(Merge(e.item.body, dst[i].item.body)))
              else t[i]
    {
      EntryStep(src, dst[i], n);
    }
    if e.key.Some? {
      OnlyAt(dst, e.key.value);
    }
    assert |t| == |next| == |dst|;
  }

  lemma OnlyAt(b: Body, name: string)
    requires UniqueTop(b)
    ensures forall i :: 0 <= i < |b| && b[i].key == Some(name) ==> i == IndexOf(b, name)
  {
  }

  lemma EntryStep(src: Body, d: Entry, n: nat)
    requires n < |src| && UniqueTop(src)
    ensures var e := src[n];
            MergeEntry(src[..n + 1], d) ==
              if e.key.Some? && e.item.Table? && d.key == e.key && d.item.Table?
              then Entry(e.key, Table(Merge(e.item.body, d.item.body)))
              else MergeEntry(src[..n], d)
  {
    var e := src[n];
    MergeEntryCases(src[..n + 1], d);
    MergeEntryCases(src[..n], d);
    if d.key.Some? {
      TableIndexStep(src, d.key.value, n);
    }
    hide Merge, MergeEntry;
  }

  lemma TableIndexStep(src: Body, name: string, n: nat)
    requires n < |src| && UniqueTop(src)
    ensures var before, now := TableIndex(src[..n], name), TableIndex(src[..n + 1], name);
            if src[n].key == Some(name) then before == n && now == (if src[n].item.Table? then n else n + 1)
            else now == if before == n then n + 1 else before
  {
    var a, b := src[..n], src[..n + 1];
    var i, j := IndexOf(a, name), IndexOf(b, name);
    assert b == a + [src[n]];
    if i < n {
      assert b[i] == a[i] && src[i].key == Some(name);
    }
    if j < n {
      assert a[j] == b[j];
    }
  }

  /** A container body, changed in place. */
  class Container {
    var body: Body

    constructor (entries: Body)
      ensures body == entries
    {
      body := entries;
    }

    method FirstSectionIndex() returns (i: nat)
      ensures i == FirstSection(body)
    {
      i := 0;
      while i < |body| && !Section(body[i])
        invariant i <= |body| && forall j :: 0 <= j < i ==> !Section(body[j])
      {
        i := i + 1;
      }
    }

    /** `_splice_after`: where to insert. */
    method PlaceAfter(anchor: Option<string>) returns (idx: nat)
      ensures idx == AfterAnchor(body, anchor)
    {
      idx := |body|;
      if anchor.Some? {
        var i := 0;
        while i < |body| && body[i].key != anchor
          invariant i <= |body| && forall j :: 0 <= j < i ==> body[j].key != anchor
        {
          i := i + 1;
        }
        if i < |body| {
          idx := i + 1;
        }
      }
    }

    method Insert(idx: nat, run: Body)
      requires idx <= |body| && run != []
      modifies this
      ensures body == Splice(old(body), idx, run)
    {
      var front, back: Body := [], [];
      if idx > 0 && !body[idx - 1].item.Whitespace? {
        front := [NEWLINE];
      }
      if idx < |body| && !body[idx].item.Whitespace? && !run[|run| - 1].item.Whitespace? {
        back := [NEWLINE];
      }
      body := body[..idx] + (front + run + back) + body[idx..];
    }

    method SpliceAfter(anchor: Option<string>, run: Body)
      requires run != []
      modifies this
      ensures body == Splice(old(body), AfterAnchor(old(body), anchor), run)
    {
      var idx := PlaceAfter(anchor);
      Insert(idx, run);
    }

    /** Merge the shipped table into the live table under the same key. */
    method MergeInto(e: Entry, prefix: Path) returns (added: seq<Path>)
      requires e.key.Some? && e.item.Table? && UniqueBelow(e) && UniqueTop(body)
      requires var k := IndexOf(body, e.key.value); k < |body| && UniqueBelow(body[k])
      modifies this
      ensures var k := IndexOf(old(body), e.key.value);
              body == if old(body)[k].item.Table?
                then old(body)[k := Entry(e.key, Table(Merge(e.item.body, old(body)[k].item.body)))]
                else old(body)
      ensures added == Prefixed(prefix, AddedBy(e, old(body)))
      decreases e, 0
    {
      added := [];
      var k := IndexOf(body, e.key.value);
      match e.item
      case Table(shipped) =>
        if body[k].item.Table? {
          var inner := new Container(body[k].item.body);
          added := inner.MergeContainer(shipped, prefix + [e.key.value]);
          PrefixedUnder(prefix, e.key.value, Added(shipped, body[k].item.body));
          body := body[k := Entry(e.key, Table(inner.body))];
        }
    }

    /** Splice the bare keys in front of the first section and each new section
        behind its anchor. */
    method SpliceRuns(bareBlock: Body, sectRuns: seq<(Option<string>, Body)>)
      requires forall r :: r in sectRuns ==> r.1 != []
      modifies this
      ensures body == SpliceAll(Splice(old(body), FirstSection(old(body)), bareBlock), sectRuns)
    {
      if bareBlock != [] {
        var idx := FirstSectionIndex();
        Insert(idx, bareBlock);
      }
      ghost var start := body;
      for k := 0 to |sectRuns|
        invariant body == SpliceAll(start, sectRuns[..k])
      {
        assert sectRuns[..k + 1][..k] == sectRuns[..k];
        SpliceAfter(sectRuns[k].0, sectRuns[k].1);
      }
      assert sectRuns[..|sectRuns|] == sectRuns;
    }

    /** What entry `n` of the shipped body adds, and the live table it merges. */
    method MergeEntryAt(src: Body, n: nat, isNew: bool, prefix: Path, ghost dst: Body) returns (added: seq<Path>)
      requires n < |src| && UniqueKeys(src) && UniqueKeys(dst) && isNew == New(src[n], Keys(dst))
      requires body == MergeTables(src[..n], dst)
      modifies this
      ensures body == MergeTables(src[..n + 1], dst)
      ensures Prefixed(prefix, Added(src[..n + 1], dst)) == Prefixed(prefix, Added(src[..n], dst)) + added
      decreases src, 1
    {
      hide MergeTables, Added, AddedBy, Prefixed, Merge, UniqueTop, UniqueBelow, Keys;
      var e := src[n];
      TablesStep(src, dst, n);
      AddedStep(src, dst, n, prefix);
      added := [];
      if isNew {
        added := [prefix + [e.key.value]];
      } else if e.key.Some? && e.item.Table? {
        added := MergeInto(e, prefix);
      }
    }

    /** `merge_container` */
    method MergeContainer(src: Body, prefix: Path) returns (added: seq<Path>)
      requires UniqueKeys(src) && UniqueKeys(body)
      modifies this
      ensures body == Merge(src, old(body))
      ensures added == Prefixed(prefix, Added(src, old(body)))
      decreases src, 2
    {
      hide *;
      added := [];
      ghost var dst := body;
      var walk := Walk([], None, [], [], Keys(body));
      WalkStart(src, dst, prefix);
      for n := 0 to |src|
        invariant walk == Walked(src, Keys(dst), n)
        invariant body == MergeTables(src[..n], dst)
        invariant added == Prefixed(prefix, Added(src[..n], dst))
      {
        var isNew;
        walk, isNew := Note(walk, src, Keys(dst), n);
        var more := MergeEntryAt(src, n, isNew, prefix, dst);
        added := added + more;
      }
      WalkEnd(src, dst);
      SpliceRuns(walk.bareBlock, walk.sectRuns);
    }
  }

  /** The variables of the walk over the shipped body. */
  datatype Walk = Walk(pending: Body, anchor: Option<string>, bareBlock: Body, sectRuns: seq<(Option<string>, Body)>,
      dstKeys: set<string>)

  function Walked(src: Body, live: set<string>, n: nat): Walk
    requires n <= |src|
  {
    Walk(src[RunStart(src, n)..n], Anchor(src, n), BareBlock(src, live, n), SectionRuns(src, live, n),
        live + NewSections(src[..n], live))
  }

  /** Note entry `n` of the shipped body. */
  method Note(walk: Walk, src: Body, ghost live: set<string>, n: nat) returns (next: Walk, isNew: bool)
    requires n < |src| && UniqueTop(src) && walk == Walked(src, live, n)
    ensures next == Walked(src, live, n + 1) && isNew == New(src[n], live)
  {
    WalkStep(src, live, n);
    hide RunStart, Anchor, BareBlock, SectionRuns, NewSections;
    var e := src[n];
    isNew := false;
    if e.key.None? {
      next := walk.(pending := walk.pending + [e]);
    } else {
      var name := e.key.value;
      next := walk;
      if name !in walk.dstKeys {
        isNew := true;
        var run := walk.pending + [e];
        if IsSection(e.item) {
          next := next.(sectRuns := walk.sectRuns + [(walk.anchor, run)], dstKeys := walk.dstKeys + {name},
              anchor := Some(name));
        } else {
          next := next.(bareBlock := walk.bareBlock + run);
        }
      } else if IsSection(e.item) {
        next := next.(anchor := Some(name));
      }
      next := next.(pending := []);
    }
  }

  /** Where the walk over the shipped body starts. */
  lemma WalkStart(src: Body, dst: Body, prefix: Path)
    requires UniqueKeys(src) && UniqueKeys(dst)
    ensures UniqueTop(src) && UniqueTop(dst)
    ensures Walked(src, Keys(dst), 0) == Walk([], None, [], [], Keys(dst))
    ensures MergeTables(src[..0], dst) == dst && Prefixed(prefix, Added(src[..0], dst)) == []
  {
  }

  lemma WalkEnd(src: Body, dst: Body)
    ensures src[..|src|] == src
    ensures var t, walk := MergeTables(src, dst), Walked(src, Keys(dst), |src|);
            && Merge(src, dst) == SpliceAll(Splice(t, FirstSection(t), walk.bareBlock), walk.sectRuns)
            && forall r :: r in walk.sectRuns ==> r.1 != []
  {
    RunsNonEmpty(src, Keys(dst), |src|);
  }

  function NewSections(src: Body, live: set<string>): set<string> {
    set e | e in src && New(e, live) && Section(e) :: e.key.value
  }

  /** One entry further. */
  lemma WalkStep(src: Body, live: set<string>, n: nat)
    requires n < |src| && UniqueTop(src)
    ensures var e, run := src[n], src[RunStart(src, n)..n] + [src[n]];
            && RunStart(src, n + 1) == (if e.key.None? then RunStart(src, n) else n + 1)
            && Anchor(src, n + 1) == (if e.key.Some? && IsSection(e.item) then e.key else Anchor(src, n))
            && src[RunStart(src, n)..n + 1] == run && RunOf(src, n) == run
            && (e.key.Some? ==> (e.key.value in live + NewSections(src[..n], live) <==> e.key.value in live))
            && BareBlock(src, live, n + 1) == BareBlock(src, live, n) + (if New(e, live) && Bare(e) then run else [])
            && SectionRuns(src, live, n + 1)
                == SectionRuns(src, live, n) + (if New(e, live) && Section(e) then [(Anchor(src, n), run)] else [])
            && NewSections(src[..n + 1], live)
                == NewSections(src[..n], live) + (if New(e, live) && Section(e) then {e.key.value} else {})
  {
    hide RunOf, NewSections, New, Bare, Section, IsSection, BareBlock, SectionRuns, RunStart, Anchor, UniqueTop;
    AnchorMoves(src, n);
    SectionsSoFar(src, live, n);
    RunGrows(src, n);
    ListsGrow(src, live, n);
  }

  lemma AnchorMoves(src: Body, n: nat)
    requires n < |src|
    ensures RunStart(src, n + 1) == (if src[n].key.None? then RunStart(src, n) else n + 1)
    ensures Anchor(src, n + 1) == (if src[n].key.Some? && IsSection(src[n].item) then src[n].key else Anchor(src, n))
  {
  }

  lemma ListsGrow(src: Body, live: set<string>, n: nat)
    requires n < |src|
    ensures BareBlock(src, live, n + 1)
        == BareBlock(src, live, n) + (if New(src[n], live) && Bare(src[n]) then RunOf(src, n) else [])
    ensures SectionRuns(src, live, n + 1)
        == SectionRuns(src, live, n) + (if New(src[n], live) && Section(src[n]) then [(Anchor(src, n), RunOf(src, n))]
            else [])
  {
    hide RunOf, New, Bare, Section, Anchor;
  }

  lemma SectionsSoFar(src: Body, live: set<string>, n: nat)
    requires n < |src| && UniqueTop(src)
    ensures NewSections(src[..n + 1], live)
        == NewSections(src[..n], live) + (if New(src[n], live) && Section(src[n]) then {src[n].key.value} else {})
    ensures src[n].key.Some? ==> src[n].key.value !in NewSections(src[..n], live)
  {
  }

  lemma RunGrows(src: Body, n: nat)
    requires n < |src|
    ensures RunOf(src, n) == src[RunStart(src, n)..n + 1] == src[RunStart(src, n)..n] + [src[n]]
  {
    hide RunStart;
    SliceGrows(src, RunStart(src, n), n);
  }

  lemma SliceGrows<T>(s: seq<T>, i: nat, j: nat)
    requires i <= j < |s|
    ensures s[i..j + 1] == s[i..j] + [s[j]]
  {
  }

  lemma {:induction false} RunsNonEmpty(src: Body, live: set<string>, n: nat)
    requires n <= |src|
    ensures forall r :: r in SectionRuns(src, live, n) ==> r.1 != []
  {
    if n > 0 {
      RunsNonEmpty(src, live, n - 1);
    }
  }

  lemma AddedStep(src: Body, dst: Body, n: nat, prefix: Path)
    requires n < |src| && UniqueTop(dst)
    ensures Prefixed(prefix, Added(src[..n + 1], dst))
        == Prefixed(prefix, Added(src[..n], dst)) + Prefixed(prefix, AddedBy(src[n], dst))
    ensures src[n].key.Some? && src[n].key.value !in Keys(dst) ==>
        Prefixed(prefix, AddedBy(src[n], dst)) == [prefix + [src[n].key.value]]
    ensures src[n].key.None? || (src[n].key.value in Keys(dst) && !src[n].item.Table?) ==>
        Prefixed(prefix, AddedBy(src[n], dst)) == []
    ensures src[n].key.Some? && src[n].key.value in Keys(dst) && UniqueKeys(src) && UniqueKeys(dst)
      ==> AddedBy(src[n], MergeTables(src[..n], dst)) == AddedBy(src[n], dst)
  {
    if src[n].key.Some? && src[n].key.value in Keys(dst) && UniqueKeys(src) && UniqueKeys(dst) {
      StillLive(src, dst, n);
    }
    var s := src[..n + 1];
    assert s[..n] == src[..n];
    PrefixedConcat(prefix, Added(src[..n], dst), AddedBy(src[n], dst));
    if src[n].key.Some? {
      var k := IndexOf(dst, src[n].key.value);
      if k < |dst| {
        assert dst[k] in dst;
      }
    }
  }

  /** The live entry under the key of entry `n` has not changed yet. */
  lemma StillLive(src: Body, dst: Body, n: nat)
    requires n < |src| && UniqueKeys(src) && UniqueKeys(dst) && src[n].key.Some? && src[n].key.value in Keys(dst)
    ensures var t, k := MergeTables(src[..n], dst), IndexOf(dst, src[n].key.value);
            k < |dst| && IndexOf(t, src[n].key.value) == k && t[k] == dst[k] && UniqueBelow(dst[k]) && UniqueTop(t)
    ensures AddedBy(src[n], MergeTables(src[..n], dst)) == AddedBy(src[n], dst)
  {
    var t, name := MergeTables(src[..n], dst), src[n].key.value;
    TablesKeys(src[..n], dst);
    var d :| d in dst && d.key == Some(name);
    FoundAt(dst, d);
    var k := IndexOf(dst, name);
    assert t[k].key == Some(name);
    TableIndexStep(src, name, n);
    MergeEntryCases(src[..n], dst[k]);
  }

  // ---------------------------------------------------------------------
  // sync_file: what is written
  // ---------------------------------------------------------------------

  /** Unreadable: a key stands twice in one table, in shipped or in live. */
  datatype Status = Created | Updated | UpToDate | NeedsMerge | Unreadable

  /** The text scans: headers that are active or commented out, comment lines
      and active lines, each as a function of what is written. */
  datatype Scans = Scans(live: Body -> set<string>, commented: Body -> set<string>,
                         comments: Body -> set<string>, active: Body -> set<string>)

  /** `_headers_commented_out_in_live` */
  function StaleHeaders(scans: Scans, shipped: Body, live: Body): set<string> {
    scans.live(shipped) * scans.commented(live) - scans.live(live)
  }

  function MissingComments(scans: Scans, shipped: Body, merged: Body): set<string> {
    scans.comments(shipped) - scans.comments(merged) - scans.active(merged)
  }

  /** Some header is active in the shipped file and only commented out in the live one. */
  ghost predicate Stale(scans: Scans, shipped: Body, text: Body) {
    exists h :: h in scans.live(shipped) && h in scans.commented(text) && h !in scans.live(text)
  }

  /** Some shipped comment stands neither as a comment nor as an active line. */
  ghost predicate LacksComment(scans: Scans, shipped: Body, text: Body) {
    exists c :: c in scans.comments(shipped) && c !in scans.comments(text) && c !in scans.active(text)
  }

  lemma ScansMean(scans: Scans, shipped: Body, text: Body)
    ensures StaleHeaders(scans, shipped, text) != {} <==> Stale(scans, shipped, text)
    ensures MissingComments(scans, shipped, text) != {} <==> LacksComment(scans, shipped, text)
  {
    if Stale(scans, shipped, text) {
      var h :| h in scans.live(shipped) && h in scans.commented(text) && h !in scans.live(text);
      assert h in StaleHeaders(scans, shipped, text);
    }
    if LacksComment(scans, shipped, text) {
      var c :| c in scans.comments(shipped) && c !in scans.comments(text) && c !in scans.active(text);
      assert c in MissingComments(scans, shipped, text);
    }
    if h :| h in StaleHeaders(scans, shipped, text) {
      assert h in scans.live(shipped) && h in scans.commented(text) && h !in scans.live(text);
    }
    if c :| c in MissingComments(scans, shipped, text) {
      assert c in scans.comments(shipped) && c !in scans.comments(text) && c !in scans.active(text);
    }
  }

  predicate Readable(shipped: Body, live: Body) {
    Parse(shipped).Some? && Parse(live).Some?
  }

  /** One live config file and its `.sfnew` companion. */
  class Target {
    var live: Option<Body>
    var companion: Option<Body>

    /** `sync_file` */
    method Sync(scans: Scans, shipped: Body, dryRun: bool) returns (status: Status, added: seq<Path>, spilled: bool)
      modifies this
      ensures dryRun ==> live == old(live) && companion == old(companion)
      ensures status.Created? <==> old(live).None?
      ensures old(live).None? ==>
          added == [] && !spilled && companion == old(companion) && (!dryRun ==> live == Some(shipped))
      ensures status.Unreadable? <==> old(live).Some? && !Readable(shipped, old(live.value))
      ensures status.Unreadable? ==> added == [] && !spilled && live == old(live) && companion == old(companion)
      ensures old(live).Some? && Readable(shipped, old(live.value)) ==>
                var text, src, dst := old(live.value), Parse(shipped).value, Parse(old(live.value)).value;
                var stale := Stale(scans, shipped, text);
                var merged := if stale || Added(src, dst) == [] then text else Merge(src, dst);
                && (status.NeedsMerge? <==> stale)
                && added == (if stale then [] else Added(src, dst))
                && (status.Updated? <==> added != [])
                && (spilled <==> stale || LacksComment(scans, shipped, merged))
                && (!dryRun ==> live == Some(merged) && companion == if spilled then Some(shipped) else None)
      ensures old(live).Some? && Readable(shipped, old(live.value)) && scans.commented(old(live.value)) == {} ==>
                var src, dst := Parse(shipped).value, Parse(old(live.value)).value;
                && !status.NeedsMerge? && added == Added(src, dst)
                && (!dryRun && added != [] ==> live == Some(Merge(src, dst)))
    {
      if live.None? {
        if !dryRun {
          live := Some(shipped);
        }
        return Created, [], false;
      }
      var stale := StaleHeaders(scans, shipped, live.value);
      ScansMean(scans, shipped, live.value);
      var src, tree := Parse(shipped), Parse(live.value);
      if src.None? || tree.None? {
        return Unreadable, [], false;
      }
      ParseIsSound(shipped);
      ParseIsSound(live.value);
      var dst := new Container(tree.value);
      added := dst.MergeContainer(src.value, []);
      assert added == Added(src.value, tree.value) by {
        assert forall p: Path :: [] + p == p;
      }
      var mergedText := live.value;
      if stale != {} {
        added := [];
      } else if added != [] {
        mergedText := dst.body;
        if !dryRun {
          live := Some(mergedText);
        }
      }
      ScansMean(scans, shipped, mergedText);
      hide Stale, LacksComment, StaleHeaders, MissingComments;
      spilled := stale != {} || MissingComments(scans, shipped, mergedText) != {};
      if !dryRun {
        companion := if spilled then Some(shipped) else None;
      }
      status := if stale != {} then NeedsMerge else if added != [] then Updated else UpToDate;
    }

    /** Two syncs in a row. Unless headers are commented out, the first leaves a
        file that reads as the merge of both trees, with every key path where the
        merge put it, exactly when the merge displaces nothing. The second cannot
        read it exactly when a stranded key collides, and else injects something
        exactly when a stranded key is one of the shipped file. `between` is the
        file the first sync leaves. */
    method SyncTwice(scans: Scans, shipped: Body)
      returns (first: Status, second: Status, added: seq<Path>, between: Body)
      modifies this
      ensures first.Created? ==>
                && between == shipped && added == [] && live == Some(shipped)
                && (if Parse(shipped).Some? then second.UpToDate? && companion == None else second.Unreadable?)
      ensures first.Unreadable? || first.NeedsMerge? ==> second == first && added == [] && live == old(live)
      ensures first.Updated? || first.UpToDate? ==>
                old(live).Some? && Readable(shipped, old(live.value)) &&
                var src, dst := Parse(shipped).value, Parse(old(live.value)).value;
                && (NothingDisplaced(src, dst) <==> Parse(between) == Some(Merge(src, dst)))
                && (SamePaths(Merge(src, dst), Reparsed(between)) && added == [] && !second.Unreadable?
                    && live == Some(between)
                    <==> NothingDisplaced(src, dst))
                && (second.Unreadable? <==> !NoCollision(Merge(src, dst)))
                && (second.UpToDate? || second.Updated? || second.NeedsMerge? || second.Unreadable?)
                && (second.Updated? ==> !NoneMissed(src, Merge(src, dst)))
                && (second.UpToDate? ==> NoneMissed(src, Merge(src, dst)))
                && (!second.Updated? ==> added == [] && live == Some(between))
    {
      var spilled;
      ghost var before := live;
      first, added, spilled := Sync(scans, shipped, false);
      between := live.value;
      second, added, spilled := Sync(scans, shipped, false);
      if Parse(shipped).Some? {
        CreatedIsCurrent(shipped);
      }
      if before.Some? && Readable(shipped, before.value) {
        if !Stale(scans, shipped, before.value) {
          SecondSync(shipped, before.value, between);
        }
      }
    }
  }

  /** What the second sync finds in the file the first one left. */
  lemma SecondSync(shipped: Body, text: Body, between: Body)
    requires Readable(shipped, text)
    requires var src, dst := Parse(shipped).value, Parse(text).value;
             between == if Added(src, dst) == [] then text else Merge(src, dst)
    ensures var src, dst := Parse(shipped).value, Parse(text).value;
            && (NothingDisplaced(src, dst) <==> Parse(between) == Some(Merge(src, dst)))
            && (NothingDisplaced(src, dst) <==> SamePaths(Merge(src, dst), Reparsed(between)))
            && (NothingDisplaced(src, dst) ==> Parse(between).Some? && Added(src, Parse(between).value) == [])
            && (Parse(between).Some? <==> NoCollision(Merge(src, dst)))
            && (Parse(between).Some? ==>
                  (Added(src, Parse(between).value) == [] <==> NoneMissed(src, Merge(src, dst))))
  {
    var src, dst := Parse(shipped).value, Parse(text).value;
    ParseIsSound(shipped);
    ParseIsSound(text);
    ParseIs(text);
    hide *;
    MergeIsIdempotent(src, dst);
    MergeIsIdempotentIff(src, dst);
    PathsSurviveIff(Merge(src, dst));
    MergeBareFirstDeepIff(src, dst);
    SecondMergeIff(src, dst);
    ParseIs(Merge(src, dst));
    if Added(src, dst) == [] {
      AddedNothingIff(src, dst);
      SaturatedIsFixed(src, dst);
      SamePathsAsSelf(dst);
    }
  }

  lemma SamePathsAsSelf(b: Body)
    ensures SamePaths(b, b)
  {
  }

  /** A fresh copy lacks nothing. */
  lemma CreatedIsCurrent(shipped: Body)
    requires Parse(shipped).Some?
    ensures Added(Parse(shipped).value, Parse(shipped).value) == []
  {
    ParseIsSound(shipped);
    SelfSaturated(Parse(shipped).value);
    AddedNothingIff(Parse(shipped).value, Parse(shipped).value);
  }
}
