/** What a written config tree is when it is read again: a bare key behind a
    table header belongs to that table ("Table" in TOML v1.0.0). */
module ConfigReparse {
  import opened Prelude
  import opened ConfigTree
  import opened ConfigMerge
  import opened ConfigPaths
  import opened ConfigShape

  // ---------------------------------------------------------------------
  // Reading written text
  // ---------------------------------------------------------------------

  /** The position of the last section, or the end. */
  function LastSection(b: Body): (i: nat)
    ensures i <= |b| && (i < |b| ==> Section(b[i]))
    ensures forall j :: 0 <= j < |b| && Section(b[j]) ==> i < |b| && j <= i
  {
    if b == [] then 0
    else
      var k := |b| - 1;
      if Section(b[k]) then k
      else
        var i := LastSection(b[..k]);
        if i < k then i else |b|
  }

  /** `out` with the text of `run` behind it: it belongs to the table whose header
      comes last. */
  function Behind(out: Body, run: Body): Body
    decreases out
  {
    var j := LastSection(out);
    if j == |out| then out + run
    else out[..j] + [Absorb(out[j], out[j + 1..] + run)]
  }

  function Absorb(e: Entry, run: Body): (r: Entry)
    ensures r.key == e.key && (Section(r) <==> Section(e)) && (Bare(r) <==> Bare(e))
    decreases e
  {
    match e.item
    case Table(body) => Entry(e.key, Table(Behind(body, run)))
    case TableArray(text, last) => Entry(e.key, TableArray(text, last + run))
    case _ => e
  }

  /** The body that is read where `b` was written. */
  function Reparsed(b: Body): Body
    decreases b
  {
    if b == [] then []
    else
      var k := |b| - 1;
      var out, e := Reparsed(b[..k]), ReparsedEntry(b[k]);
      if Bare(e) then Behind(out, [e]) else out + [e]
  }

  function ReparsedEntry(e: Entry): (r: Entry)
    ensures r.key == e.key && (Bare(r) <==> Bare(e)) && (Section(r) <==> Section(e))
    decreases e
  {
    if e.key.None? then e
    else
      match e.item
      case Table(body) => Entry(e.key, Table(Reparsed(body)))
      case _ => e
  }

  /** What a load finds: nothing when a key stands twice in one table. */
  function Parse(text: Body): Option<Body> {
    if UniqueKeys(Reparsed(text)) then Some(Reparsed(text)) else None
  }

  // ---------------------------------------------------------------------
  // What is read is in order
  // ---------------------------------------------------------------------

  /** Comments and blank lines, then at most one bare key. */
  ghost predicate IsRun(run: Body) {
    forall e :: e in run ==> !Section(e) && BareFirstBelow(e)
  }

  lemma BareFirstDeepSlice(b: Body, i: nat, j: nat)
    requires BareFirstDeep(b) && i <= j <= |b|
    ensures BareFirstDeep(b[i..j])
  {
  }

  lemma BareFirstDeepOf(b: Body)
    requires BareFirst(b) && forall e :: e in b ==> BareFirstBelow(e)
    ensures BareFirstDeep(b)
  {
  }

  lemma {:induction false} BehindInOrder(out: Body, run: Body)
    requires BareFirstDeep(out) && IsRun(run)
    ensures BareFirstDeep(Behind(out, run))
    decreases out
  {
    var j, c := LastSection(out), Behind(out, run);
    forall e | e in out ensures BareFirstBelow(e) {
      EntryBelow(out, e);
    }
    if j == |out| {
      assert c == out + run;
      forall e | e in c ensures BareFirstBelow(e) && !Section(e) {
      }
    } else {
      var e := out[j];
      var tail := out[j + 1..] + run;
      assert e in out;
      AbsorbInOrder(e, tail);
      assert c == out[..j] + [Absorb(e, tail)];
    }
    BareFirstDeepOf(c);
  }

  lemma {:induction false} AbsorbInOrder(e: Entry, run: Body)
    requires BareFirstBelow(e) && Section(e) && IsRun(run)
    ensures BareFirstBelow(Absorb(e, run))
    decreases e
  {
    match e.item
    case Table(body) => BehindInOrder(body, run);
    case _ =>
  }

  lemma {:induction false} ReparsedInOrder(b: Body)
    ensures BareFirstDeep(Reparsed(b))
    decreases b
  {
    if b != [] {
      var k := |b| - 1;
      var out, e := Reparsed(b[..k]), ReparsedEntry(b[k]);
      ReparsedInOrder(b[..k]);
      EntryInOrder(b[k]);
      if Bare(e) {
        BehindInOrder(out, [e]);
      } else {
        BareFirstDeepSnoc(out, e);
      }
    }
  }

  lemma {:induction false} EntryInOrder(e: Entry)
    ensures BareFirstBelow(ReparsedEntry(e))
    decreases e
  {
    match e.item
    case Table(body) => ReparsedInOrder(body);
    case _ =>
  }

  lemma BareFirstDeepSnoc(b: Body, e: Entry)
    requires BareFirstDeep(b) && BareFirstBelow(e) && (Bare(e) ==> NoSection(b))
    ensures BareFirstDeep(b + [e])
  {
  }

  /** In a body in order, no bare key has a section before it. */
  lemma LastIsInPlace(b: Body)
    requires b != [] && BareFirstDeep(b)
    ensures BareFirstBelow(b[|b| - 1]) && (Bare(b[|b| - 1]) ==> LastSection(b[..|b| - 1]) == |b| - 1)
  {
    hide BareFirstBelow;
  }

  /** A body in order is read as it was written. */
  lemma {:induction false} InOrderIsKept(b: Body)
    requires BareFirstDeep(b)
    ensures Reparsed(b) == b
    decreases b
  {
    if b != [] {
      var k := |b| - 1;
      BareFirstDeepSlice(b, 0, k);
      LastIsInPlace(b);
      hide BareFirst, BareFirstBelow, BareFirstDeep;
      InOrderIsKept(b[..k]);
      EntryIsKept(b[k]);
    }
  }

  lemma {:induction false} EntryIsKept(e: Entry)
    requires BareFirstBelow(e)
    ensures ReparsedEntry(e) == e
    decreases e
  {
    match e.item
    case Table(body) =>
      if e.key.Some? {
        InOrderIsKept(body);
      }
    case _ =>
  }

  /** A body is read as it was written exactly if bare keys come first, at every
      depth. */
  lemma ReparsedIsSameIff(b: Body)
    ensures Reparsed(b) == b <==> BareFirstDeep(b)
  {
    ReparsedInOrder(b);
    if BareFirstDeep(b) {
      InOrderIsKept(b);
    }
  }

  // ---------------------------------------------------------------------
  // Which paths survive
  // ---------------------------------------------------------------------

  ghost predicate SamePaths(a: Body, b: Body) {
    forall p: Path :: HasPath(a, p) <==> HasPath(b, p)
  }

  lemma BehindKeys(out: Body, run: Body)
    ensures LastSection(out) < |out| ==> Keys(Behind(out, run)) <= Keys(out)
    ensures LastSection(out) == |out| ==> Keys(Behind(out, run)) == Keys(out) + Keys(run)
  {
    var j := LastSection(out);
    if j < |out| {
      var e := Absorb(out[j], out[j + 1..] + run);
      assert Keys([e]) == {e.key.value};
      KeysConcat(out[..j], [e]);
      assert out[j] in out;
    } else {
      KeysConcat(out, run);
    }
  }

  /** Reading makes up no key. */
  lemma {:induction false} ReparsedKeys(b: Body)
    ensures Keys(Reparsed(b)) <= Keys(b)
  {
    if b != [] {
      var k := |b| - 1;
      var out, e := Reparsed(b[..k]), ReparsedEntry(b[k]);
      ReparsedKeys(b[..k]);
      assert b == b[..k] + [b[k]];
      KeysConcat(b[..k], [b[k]]);
      assert Keys([e]) == Keys([b[k]]);
      KeysConcat(out, [e]);
      BehindKeys(out, [e]);
      hide Behind, Reparsed;
    }
  }

  /** Sections are never lost. */
  lemma SectionStays(out: Body, run: Body)
    requires LastSection(out) < |out|
    ensures var c := Behind(out, run); LastSection(c) < |c|
  {
    var j, c := LastSection(out), Behind(out, run);
    assert Section(c[j]);
  }

  lemma {:induction false} ReparsedSections(b: Body)
    requires !NoSection(b)
    ensures LastSection(Reparsed(b)) < |Reparsed(b)|
  {
    var k := |b| - 1;
    var out, e := Reparsed(b[..k]), ReparsedEntry(b[k]);
    if !NoSection(b[..k]) {
      ReparsedSections(b[..k]);
      SectionStays(out, [e]);
      assert !Bare(e) ==> Section((out + [e])[LastSection(out)]);
    } else {
      assert b == b[..k] + [b[k]];
      assert Section(b[k]) && Section((out + [e])[|out|]);
    }
  }

  /** With unique keys, the last key is not among the earlier ones. */
  lemma LastKeyIsNew(b: Body)
    requires b != [] && UniqueTop(b)
    ensures var k := |b| - 1; UniqueTop(b[..k]) && (b[k].key.Some? ==> b[k].key.value !in Keys(b[..k]))
  {
    var k := |b| - 1;
    forall x | x in b[..k] && b[k].key.Some? ensures x.key != b[k].key {
      var m :| 0 <= m < k && b[m] == x;
      assert x.key.Some? ==> b[m].key != b[k].key;
    }
  }

  lemma ReparsedNext(b: Body)
    requires b != []
    ensures var k := |b| - 1;
            var out, e := Reparsed(b[..k]), ReparsedEntry(b[k]);
            && Reparsed(b) == (if Bare(b[k]) then Behind(out, [e]) else out + [e])
            && Keys([e]) == if b[k].key.Some? then {b[k].key.value} else {}
  {
    hide Behind;
  }

  /** What one more entry does to the keys. */
  lemma ReparsedStep(b: Body, name: string)
    requires b != [] && name !in Keys(Reparsed(b[..|b| - 1]))
    ensures b[|b| - 1].key != Some(name) ==> name !in Keys(Reparsed(b))
    ensures Bare(b[|b| - 1]) && !NoSection(b[..|b| - 1]) ==> name !in Keys(Reparsed(b))
  {
    hide *;
    var k := |b| - 1;
    var out, e := Reparsed(b[..k]), ReparsedEntry(b[k]);
    ReparsedNext(b);
    BehindKeys(out, [e]);
    KeysConcat(out, [e]);
    if !NoSection(b[..k]) {
      ReparsedSections(b[..k]);
    }
  }

  /** A bare key behind a section leaves its body. */
  lemma {:induction false} DisplacedLeaves(b: Body, i: nat, j: nat)
    requires UniqueTop(b) && i < j < |b| && Section(b[i]) && Bare(b[j])
    ensures b[j].key.value !in Keys(Reparsed(b))
  {
    hide Reparsed, Keys;
    var k := |b| - 1;
    var init := b[..k];
    LastKeyIsNew(b);
    if j < k {
      DisplacedLeaves(init, i, j);
      assert b[j].key != b[k].key;
    } else {
      ReparsedKeys(init);
      assert init[i] == b[i] && init[i] in init;
    }
    ReparsedStep(b, b[j].key.value);
  }

  /** With bare keys first, only the tables are read anew. */
  lemma {:induction false} TopIsKept(b: Body)
    requires BareFirst(b)
    ensures |Reparsed(b)| == |b| && forall i :: 0 <= i < |b| ==> Reparsed(b)[i] == ReparsedEntry(b[i])
  {
    if b != [] {
      var k := |b| - 1;
      var out := Reparsed(b[..k]);
      TopIsKept(b[..k]);
      if Bare(b[k]) {
        NoSectionBefore(b, out);
      }
    }
  }

  lemma NoSectionBefore(b: Body, out: Body)
    requires b != [] && BareFirst(b) && Bare(b[|b| - 1]) && |out| == |b| - 1
    requires forall i :: 0 <= i < |out| ==> out[i] == ReparsedEntry(b[i])
    ensures LastSection(out) == |out|
  {
    forall i | 0 <= i < |out| ensures !Section(out[i]) {
      assert Section(out[i]) <==> Section(b[i]);
    }
  }

  lemma ReparsedUniqueTop(b: Body)
    requires BareFirst(b) && UniqueTop(b)
    ensures UniqueTop(Reparsed(b))
  {
    TopIsKept(b);
  }

  /** A path of one body that the other does not have. */
  lemma {:induction false} SomePathDiffers(b: Body) returns (p: Path)
    requires UniqueKeys(b) && !BareFirstDeep(b)
    ensures HasPath(b, p) != HasPath(Reparsed(b), p)
    decreases b
  {
    if i, j :| 0 <= i < j < |b| && Section(b[i]) && Bare(b[j]) {
      p := [b[j].key.value];
      DisplacedLeaves(b, i, j);
      assert b[j] in b && b[j].key.value in Keys(b);
      TopPath(b, b[j].key.value);
      TopPath(Reparsed(b), b[j].key.value);
    } else {
      assert BareFirst(b);
      var i :| 0 <= i < |b| && !BareFirstBelow(b[i]);
      assert b[i] in b && UniqueBelow(b[i]);
      p := PathDiffersBelow(b[i]);
      TopIsKept(b);
      ReparsedUniqueTop(b);
      var r := Reparsed(b);
      assert r[i] == ReparsedEntry(b[i]) && r[i] in r;
      PathStep(b, b[i], p);
      PathStep(r, r[i], p);
    }
  }

  lemma {:induction false} PathDiffersBelow(e: Entry) returns (p: Path)
    requires UniqueBelow(e) && !BareFirstBelow(e)
    ensures |p| > 1 && e.key == Some(p[0]) && e.item.Table?
    ensures ReparsedEntry(e).item.Table? && HasPath(e.item.body, p[1..]) != HasPath(ReparsedEntry(e).item.body, p[1..])
    decreases e
  {
    match e.item
    case Table(body) =>
      var q := SomePathDiffers(body);
      assert q != [];
      p := [e.key.value] + q;
      assert p[1..] == q;
  }

  /** Reading keeps every key path exactly if bare keys come first, at every
      depth. */
  lemma PathsSurviveIff(b: Body)
    requires UniqueKeys(b)
    ensures SamePaths(b, Reparsed(b)) <==> BareFirstDeep(b)
  {
    if BareFirstDeep(b) {
      InOrderIsKept(b);
    } else {
      var p := SomePathDiffers(b);
    }
  }

  // ---------------------------------------------------------------------
  // Merging twice, with a load in between
  // ---------------------------------------------------------------------

  /** The second merge reads what the first one wrote. It finds every path where
      the first one put it, injects nothing and changes nothing, exactly when the
      first one displaced nothing. */
  lemma MergeIsIdempotentIff(src: Body, dst: Body)
    requires UniqueKeys(src) && UniqueKeys(dst) && BareFirstDeep(src) && BareFirstDeep(dst)
    ensures var m := Merge(src, dst);
            var again := Reparsed(m);
            && (SamePaths(m, again) && Added(src, again) == [] && Merge(src, again) == again <==>
                NothingDisplaced(src, dst))
            && (NothingDisplaced(src, dst) <==> Parse(m) == Some(m))
  {
    hide *;
    MergeIsIdempotent(src, dst);
    MergeBareFirstDeepIff(src, dst);
    PathsSurviveIff(Merge(src, dst));
    ReparsedIsSameIff(Merge(src, dst));
    ParseIs(Merge(src, dst));
  }

  lemma ParseIs(text: Body)
    ensures Parse(text) == if UniqueKeys(Reparsed(text)) then Some(Reparsed(text)) else None
  {
  }

  /** Whatever is read has unique keys and its bare keys first. */
  lemma ParseIsSound(text: Body)
    requires Parse(text).Some?
    ensures UniqueKeys(Parse(text).value) && BareFirstDeep(Parse(text).value)
  {
    ReparsedInOrder(text);
  }

  /** Live sets `ui`; shipped has a key `y` and the tables `ui` and `net`. The
      table `net` is spliced between `ui` and `y`, so the next load finds `y` in
      `net`, and the next merge injects it again. */
  lemma InjectedAgain()
    ensures var src := [Entry(Some("y"), Value("1")), Entry(Some("ui"), Table([])), Entry(Some("net"), Table([]))];
            var dst := [Entry(Some("ui"), Value("1"))];
            var again := Reparsed(Merge(src, dst));
            && Merge(src, dst) == [dst[0], NEWLINE, src[2], NEWLINE, src[0]]
            && again == [dst[0], NEWLINE, Entry(Some("net"), Table([NEWLINE, src[0]]))]
            && Added(src, again) == [["y"]]
  {
    var y, ui, net := Entry(Some("y"), Value("1")), Entry(Some("ui"), Table([])), Entry(Some("net"), Table([]));
    var src, live := [y, ui, net], Entry(Some("ui"), Value("1"));
    MergedExample(src, live);
    ReparsedExample(live, net, y);
    var absorbed := Entry(Some("net"), Table([NEWLINE, y]));
    hide Merge, Reparsed;
    AddedExample(src, [live, NEWLINE, absorbed]);
  }

  lemma SplicedExample(live: Entry, net: Entry, y: Entry)
    requires live == Entry(Some("ui"), Value("1")) && net.item.Table? && y.item.Value?
    ensures SpliceAll(Splice([live], 1, [y]), [(Some("ui"), [net])]) == [live, NEWLINE, net, NEWLINE, y]
  {
    var b := [live, NEWLINE, y];
    assert Splice([live], 1, [y]) == b;
    assert SpliceAll(b, [(Some("ui"), [net])][..0]) == b;
    assert AfterAnchor(b, Some("ui")) == 1;
    assert Splice(b, 1, [net]) == [live, NEWLINE, net, NEWLINE, y];
  }

  lemma MergedExample(src: Body, ui: Entry)
    requires |src| == 3 && src[0] == Entry(Some("y"), Value("1")) && src[1] == Entry(Some("ui"), Table([]))
    requires src[2].key == Some("net") && src[2].item.Table? && ui == Entry(Some("ui"), Value("1"))
    ensures Merge(src, [ui]) == [ui, NEWLINE, src[2], NEWLINE, src[0]]
  {
    assert Keys([ui]) == {"ui"} && MergeTables(src, [ui]) == [ui] && FirstSection([ui]) == 1;
    NewInExample(src);
    hide BareBlock, SectionRuns, Splice, SpliceAll, MergeTables, FirstSection;
    SplicedExample(ui, src[2], src[0]);
  }

  lemma NewInExample(src: Body)
    requires |src| == 3 && src[0] == Entry(Some("y"), Value("1")) && src[1] == Entry(Some("ui"), Table([]))
    requires src[2].key == Some("net") && src[2].item.Table?
    ensures BareBlock(src, {"ui"}, 3) == [src[0]] && SectionRuns(src, {"ui"}, 3) == [(Some("ui"), [src[2]])]
  {
    assert RunOf(src, 0) == [src[0]] && RunOf(src, 2) == [src[2]];
    assert BareBlock(src, {"ui"}, 0) == [] && SectionRuns(src, {"ui"}, 0) == [];
    assert BareBlock(src, {"ui"}, 1) == [src[0]] && SectionRuns(src, {"ui"}, 1) == [];
    assert BareBlock(src, {"ui"}, 2) == [src[0]] && SectionRuns(src, {"ui"}, 2) == [];
    assert Anchor(src, 2) == Some("ui");
  }

  lemma ReparsedExample(live: Entry, net: Entry, y: Entry)
    requires live.key.Some? && live.item.Value? && net == Entry(Some("net"), Table([])) && y.key.Some? && y.item.Value?
    ensures Reparsed([live, NEWLINE, net, NEWLINE, y]) == [live, NEWLINE, Entry(Some("net"), Table([NEWLINE, y]))]
  {
    var b, four := [live, NEWLINE, net, NEWLINE, y], [live, NEWLINE, net, NEWLINE];
    assert b[..4] == four;
    FourAreKept(live, net);
    assert Reparsed(b) == Behind(four, [y]);
    hide Reparsed;
    AbsorbExample(live, net, y);
  }

  lemma FourAreKept(live: Entry, net: Entry)
    requires live.key.Some? && live.item.Value? && net == Entry(Some("net"), Table([]))
    ensures Reparsed([live, NEWLINE, net, NEWLINE]) == [live, NEWLINE, net, NEWLINE]
  {
    assert BareFirstBelow(net);
    hide Reparsed;
    InOrderIsKept([live, NEWLINE, net, NEWLINE]);
  }

  lemma AbsorbExample(live: Entry, net: Entry, y: Entry)
    requires live.key.Some? && live.item.Value? && net == Entry(Some("net"), Table([])) && y.key.Some? && y.item.Value?
    ensures Behind([live, NEWLINE, net, NEWLINE], [y]) == [live, NEWLINE, Entry(Some("net"), Table([NEWLINE, y]))]
  {
    var four := [live, NEWLINE, net, NEWLINE];
    assert LastSection(four) == 2;
    assert four[3..] + [y] == [NEWLINE, y] && four[..2] == [live, NEWLINE];
    assert Behind([], [NEWLINE, y]) == [NEWLINE, y];
    assert Absorb(net, [NEWLINE, y]) == Entry(Some("net"), Table([NEWLINE, y]));
  }

  lemma AddedExample(src: Body, again: Body)
    requires src == [Entry(Some("y"), Value("1")), Entry(Some("ui"), Table([])), Entry(Some("net"), Table([]))]
    requires |again| == 3 && again[0] == Entry(Some("ui"), Value("1")) && again[1] == NEWLINE
    requires again[2].key == Some("net") && again[2].item.Table?
    ensures Added(src, again) == [["y"]]
  {
    assert src[..3] == src && src[..3][..2] == src[..2] && src[..2][..1] == src[..1] && src[..1][..0] == [];
    assert IndexOf(again, "y") == 3 && IndexOf(again, "ui") == 0 && IndexOf(again, "net") == 2;
    assert Added([], again[2].item.body) == [];
    assert Added(src[..0], again) == [];
    assert AddedBy(src[0], again) == [["y"]] && AddedBy(src[1], again) == [];
    assert AddedBy(src[2], again) == [];
    assert Added(src[..1], again) == [["y"]] && Added(src[..2], again) == [["y"]];
  }
}
