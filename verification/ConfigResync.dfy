/** The second merge, which reads what the first one wrote: exactly when it finds
    nothing to inject, and exactly when it cannot read the file at all. */
module ConfigResync {
  import opened Prelude
  import opened ConfigTree
  import opened ConfigMerge
  import opened ConfigShape
  import opened ConfigReparse

  // ---------------------------------------------------------------------
  // What becomes of each entry
  // ---------------------------------------------------------------------

  /** Entry `i` is a bare key behind a section of its body. */
  ghost predicate Stranded(b: Body, i: nat)
    requires i < |b|
  {
    Bare(b[i]) && !NoSection(b[..i])
  }

  /** Entry `i` is read as an entry of the body it was written in. */
  ghost predicate Stays(b: Body, i: nat)
    requires i < |b|
  {
    b[i].key.Some? && !Stranded(b, i)
  }

  /** `t` is what is read where `e` was written. */
  ghost predicate From(e: Entry, t: Entry)
    decreases e, 0
  {
    && t.key == e.key && (Bare(t) <==> Bare(e)) && (Section(t) <==> Section(e))
    && match e.item
       case Table(body) => t.item.Table? && Reads(body, t.item.body, true)
       case _ => !t.item.Table?
  }

  ghost predicate Found(e: Entry, r: Body)
    decreases e, 1
  {
    exists t :: t in r && From(e, t)
  }

  /** Some entry that stays is read as `t`. */
  ghost predicate Explained(b: Body, t: Entry)
    decreases b, 0
  {
    exists i :: 0 <= i < |b| && Stays(b, i) && From(b[i], t)
  }

  /** `r` is what is read where `b` was written: the entries that stay and, if
      `extra`, bare keys from farther down the file, which only a body without
      sections can take in. */
  ghost predicate Reads(b: Body, r: Body, extra: bool)
    decreases b, 1
  {
    && (forall i :: 0 <= i < |b| && Stays(b, i) ==> Found(b[i], r))
    && (forall t :: t in r && t.key.Some? ==> Explained(b, t) || (extra && NoSection(b) && Bare(t)))
    && (NoSection(b) <==> NoSection(r))
  }

  lemma LastSectionIs(b: Body)
    ensures LastSection(b) == |b| <==> NoSection(b)
  {
    if LastSection(b) < |b| {
      assert b[LastSection(b)] in b;
    }
  }

  lemma FromKeeps(e: Entry, t: Entry)
    requires From(e, t)
    ensures t.key == e.key && (Section(t) <==> Section(e)) && (Bare(t) <==> Bare(e))
    ensures (t.item.Table? <==> e.item.Table?)
    ensures e.item.Table? ==> Reads(e.item.body, t.item.body, true)
  {
    hide Reads;
  }

  lemma Finds(e: Entry, r: Body, t: Entry)
    requires t in r && From(e, t)
    ensures Found(e, r)
  {
    hide From;
  }

  lemma Explains(b: Body, i: nat, t: Entry)
    requires i < |b| && Stays(b, i) && From(b[i], t)
    ensures Explained(b, t)
  {
    hide From, Stays;
  }

  lemma TheFound(e: Entry, r: Body) returns (t: Entry)
    requires Found(e, r)
    ensures t in r && From(e, t)
  {
    hide From;
    t :| t in r && From(e, t);
  }

  lemma TheExplained(b: Body, t: Entry) returns (i: nat)
    requires Explained(b, t)
    ensures i < |b| && Stays(b, i) && From(b[i], t)
  {
    hide From, Stays;
    i :| i < |b| && Stays(b, i) && From(b[i], t);
  }

  /** Bare keys behind a body without sections are taken in. */
  lemma TakenIn(b: Body, r: Body, run: Body)
    requires Reads(b, r, true) && NoSection(r) && NoSection(run)
    ensures Reads(b, r + run, true)
  {
    hide Stays, Found, Explained;
    var c := r + run;
    forall i | 0 <= i < |b| && Stays(b, i) ensures Found(b[i], c) {
      hide Reads;
      var t := TheFound(b[i], r);
      Finds(b[i], c, t);
    }
  }

  /** In a body in order, nothing but comments and blank lines stands behind the
      last section. */
  lemma BehindLast(r: Body, j: nat)
    requires BareFirst(r) && j == LastSection(r) < |r|
    ensures forall t :: t in r[j + 1..] ==> t.key.None?
  {
  }

  /** The last section takes them in, and every entry still stands for the same. */
  lemma PassedDown(b: Body, r: Body, j: nat, t': Entry, extra: bool)
    requires Reads(b, r, extra) && BareFirst(r) && j == LastSection(r) < |r|
    requires forall e :: From(e, r[j]) ==> From(e, t')
    requires t'.key == r[j].key && Section(t') && Section(r[j])
    ensures Reads(b, r[..j] + [t'], extra)
  {
    BehindLast(r, j);
    hide From, Stays, Found, Explained, BareFirst, NoSection;
    var c := r[..j] + [t'];
    forall i | 0 <= i < |b| && Stays(b, i) ensures Found(b[i], c) {
      KeyedStays(b, i);
      StillThere(b[i], r, j, t');
    }
    forall t | t in c && t.key.Some? ensures Explained(b, t) || (extra && NoSection(b) && Bare(t)) {
      StillExplained(b, r, j, t', t, extra);
    }
    HasSections(r, j, t');
  }

  lemma HasSections(r: Body, j: nat, t': Entry)
    requires j < |r| && Section(r[j]) && Section(t')
    ensures !NoSection(r) && !NoSection(r[..j] + [t'])
  {
    assert r[j] in r && t' in r[..j] + [t'];
  }

  lemma KeyedStays(b: Body, i: nat)
    requires i < |b| && Stays(b, i)
    ensures b[i].key.Some?
  {
  }

  lemma StillThere(e: Entry, r: Body, j: nat, t': Entry)
    requires j < |r| && Found(e, r) && e.key.Some? && forall u :: u in r[j + 1..] ==> u.key.None?
    requires From(e, r[j]) ==> From(e, t')
    ensures Found(e, r[..j] + [t'])
  {
    hide *;
    var t := TheFound(e, r);
    FromKeeps(e, t);
    var k :| 0 <= k < |r| && r[k] == t;
    var c := r[..j] + [t'];
    InTail(r, j, k);
    if k < j {
      assert c[k] == t;
      Finds(e, c, t);
    } else {
      assert c[j] == t';
      Finds(e, c, t');
    }
  }

  lemma InTail(r: Body, j: nat, k: nat)
    requires j < |r| && k < |r|
    ensures k > j ==> r[k] in r[j + 1..]
  {
    assert k > j ==> r[j + 1..][k - j - 1] == r[k];
  }

  lemma StillExplained(b: Body, r: Body, j: nat, t': Entry, t: Entry, extra: bool)
    requires Reads(b, r, extra) && j < |r| && t in r[..j] + [t'] && t.key.Some? && Section(t')
    requires t'.key == r[j].key && Section(r[j]) && forall e :: From(e, r[j]) ==> From(e, t')
    ensures Explained(b, t) || (extra && NoSection(b) && Bare(t))
  {
    hide From, Stays, Found, Explained, NoSection;
    if t in r[..j] {
      assert t in r;
    } else {
      assert r[j] in r && !Bare(r[j]);
      var i := TheExplained(b, r[j]);
      Explains(b, i, t');
    }
  }

  lemma BehindIs(r: Body, run: Body)
    ensures var j := LastSection(r);
            Behind(r, run) == if j == |r| then r + run else r[..j] + [Absorb(r[j], r[j + 1..] + run)]
  {
  }

  lemma {:induction false} BehindReads(b: Body, r: Body, run: Body, extra: bool)
    requires Reads(b, r, extra) && BareFirstDeep(r) && NoSection(run) && (extra || !NoSection(r))
    ensures Reads(b, Behind(r, run), extra)
    decreases r
  {
    hide *;
    LastSectionIs(r);
    BehindIs(r, run);
    var j := LastSection(r);
    if j == |r| {
      TakenIn(b, r, run);
    } else {
      var tail := r[j + 1..] + run;
      TailHasNone(r, j, run);
      forall e | From(e, r[j]) ensures From(e, Absorb(r[j], tail)) {
        AbsorbReads(e, r[j], tail);
      }
      AbsorbKeeps(r[j], tail);
      PassedDown(b, r, j, Absorb(r[j], tail), extra);
    }
  }

  lemma AbsorbKeeps(e: Entry, run: Body)
    ensures Absorb(e, run).key == e.key && (Section(Absorb(e, run)) <==> Section(e))
  {
  }

  lemma TailHasNone(r: Body, j: nat, run: Body)
    requires BareFirstDeep(r) && j == LastSection(r) < |r| && NoSection(run)
    ensures BareFirst(r) && BareFirstBelow(r[j]) && NoSection(r[j + 1..] + run)
  {
    BehindLast(r, j);
    hide BareFirstBelow, BareFirst;
  }

  lemma {:induction false} AbsorbReads(e: Entry, t: Entry, run: Body)
    requires From(e, t) && Section(t) && BareFirstBelow(t) && NoSection(run)
    ensures From(e, Absorb(t, run))
    decreases t
  {
    FromKeeps(e, t);
    hide Reads, NoSection, BareFirstDeep;
    match t.item
    case Table(body) => BehindReads(e.item.body, body, run, true);
    case _ =>
  }

  // ---------------------------------------------------------------------
  // What is read is what stays
  // ---------------------------------------------------------------------

  lemma StaysInPrefix(b: Body, e: Entry)
    ensures forall i :: 0 <= i < |b| ==> (b + [e])[i] == b[i] && (Stays(b + [e], i) <==> Stays(b, i))
    ensures (b + [e])[|b|] == e && (Stays(b + [e], |b|) <==> e.key.Some? && (Bare(e) ==> NoSection(b)))
  {
    assert forall i :: 0 <= i <= |b| ==> (b + [e])[..i] == b[..i];
    hide NoSection;
  }

  lemma NoSectionSnoc(b: Body, e: Entry)
    ensures NoSection(b + [e]) <==> NoSection(b) && !Section(e)
  {
    assert e in b + [e];
    assert forall x :: x in b ==> x in b + [e];
  }

  /** One more entry that stays. */
  lemma ReadsSnoc(b: Body, r: Body, e: Entry, t: Entry)
    requires Reads(b, r, false)
    requires if e.key.Some? then From(e, t) && (Bare(e) ==> NoSection(b)) else t == e
    ensures Reads(b + [e], r + [t], false)
  {
    var c, d := b + [e], r + [t];
    StaysInPrefix(b, e);
    NoSectionSnoc(b, e);
    NoSectionSnoc(r, t);
    hide From, Stays, Found, Explained, NoSection;
    assert t in d && forall u :: u in r ==> u in d;
    if e.key.Some? {
      FromKeeps(e, t);
      Finds(e, d, t);
    }
    forall i | 0 <= i < |c| && Stays(c, i) ensures Found(c[i], d) {
      if i < |b| {
        var u := TheFound(b[i], r);
        Finds(b[i], d, u);
      }
    }
    forall u | u in d && u.key.Some? ensures Explained(c, u) {
      if u in r {
        var i := TheExplained(b, u);
        Explains(c, i, u);
      } else {
        Explains(c, |b|, t);
      }
    }
  }

  /** One more entry that is read somewhere else. */
  lemma ReadsStranded(b: Body, r: Body, e: Entry)
    requires Reads(b, r, false) && Bare(e) && !NoSection(b)
    ensures Reads(b + [e], r, false)
  {
    var c := b + [e];
    StaysInPrefix(b, e);
    NoSectionSnoc(b, e);
    hide From, Stays, Found, Explained, NoSection;
    forall u | u in r && u.key.Some? ensures Explained(c, u) {
      var i := TheExplained(b, u);
      Explains(c, i, u);
    }
  }

  lemma {:induction false} ReparsedReads(b: Body)
    ensures Reads(b, Reparsed(b), false)
    decreases b
  {
    if b == [] {
      NothingReads();
    } else {
      ReparsedReads(b[..|b| - 1]);
      EntryReads(b[|b| - 1]);
      ReadsNext(b);
    }
  }

  lemma NothingReads()
    ensures Reads([], [], false) && Reparsed([]) == []
  {
  }

  lemma ReadsNext(b: Body)
    requires b != []
    requires var k := |b| - 1;
             && Reads(b[..k], Reparsed(b[..k]), false)
             && if b[k].key.Some? then From(b[k], ReparsedEntry(b[k])) else ReparsedEntry(b[k]) == b[k]
    ensures Reads(b, Reparsed(b), false)
  {
    hide *;
    var k := |b| - 1;
    var init, out, e := b[..k], Reparsed(b[..k]), ReparsedEntry(b[k]);
    assert b == init + [b[k]];
    ReparsedNext(b);
    ReparsedInOrder(init);
    SameSections(init, out);
    LastSectionIs(out);
    if !Bare(b[k]) || NoSection(init) {
      ReadsSnoc(init, out, b[k], e);
      BareAppends(out, e);
    } else {
      ReadsStranded(init, out, b[k]);
      BareIsRun(e);
      EndsSections(init, b[k]);
      SameSections(b, out);
      BehindReads(b, out, [e], false);
    }
  }

  lemma EndsSections(b: Body, e: Entry)
    ensures !NoSection(b) ==> !NoSection(b + [e])
  {
    NoSectionSnoc(b, e);
  }

  lemma SameSections(b: Body, r: Body)
    ensures Reads(b, r, false) ==> (NoSection(b) <==> NoSection(r))
  {
    hide From, Stays, Found, Explained, NoSection;
  }

  lemma BareAppends(out: Body, e: Entry)
    ensures LastSection(out) == |out| ==> Behind(out, [e]) == out + [e]
  {
  }

  lemma BareIsRun(e: Entry)
    ensures Bare(e) ==> NoSection([e])
  {
  }

  lemma {:induction false} EntryReads(e: Entry)
    ensures if e.key.Some? then From(e, ReparsedEntry(e)) else ReparsedEntry(e) == e
    decreases e
  {
    hide Reads, Reparsed;
    match e.item
    case Table(body) =>
      ReparsedReads(body);
      ExtraIsLess(body, Reparsed(body));
    case _ =>
  }

  lemma ExtraIsLess(b: Body, r: Body)
    requires Reads(b, r, false)
    ensures Reads(b, r, true)
  {
    hide From, Stays, Found, Explained, NoSection;
  }

  // ---------------------------------------------------------------------
  // What the next merge misses
  // ---------------------------------------------------------------------

  /** No stranded bare key, at any depth of a shared table, is one the shipped body
      has. */
  ghost predicate NoneMissed(src: Body, b: Body)
    decreases src
  {
    && (forall j :: 0 <= j < |b| && Stranded(b, j) ==> b[j].key.value !in Keys(src))
    && (forall i :: 0 <= i < |src| ==> NoneMissedBelow(src[i], b))
  }

  ghost predicate NoneMissedBelow(e: Entry, b: Body)
    decreases e
  {
    match e.item
    case Table(body) =>
      forall t :: t in b && e.key.Some? && t.key == e.key && t.item.Table? ==> NoneMissed(body, t.item.body)
    case _ => true
  }

  /** If nothing shipped was missing when the body was written, then nothing is when
      it is read, exactly if no stranded key is shipped. */
  lemma {:induction false} SaturatedReads(src: Body, b: Body, r: Body, extra: bool)
    requires UniqueKeys(b) && Saturated(src, b) && Reads(b, r, extra)
    ensures Saturated(src, r) <==> NoneMissed(src, b)
    decreases src
  {
    hide Stranded, Reads, NoneMissedBelow, Covered, UniqueKeys;
    if Saturated(src, r) {
      NoneStranded(src, b, r, extra);
      forall i | 0 <= i < |src| ensures NoneMissedBelow(src[i], b) {
        MissedBelow(src[i], b, r, extra);
      }
    }
    if NoneMissed(src, b) {
      forall i | 0 <= i < |src| ensures Covered(src[i], r) {
        KeyCovered(src, i, b, r, extra);
        CoveredBelow(src[i], b, r, extra);
      }
    }
  }

  lemma NoneStranded(src: Body, b: Body, r: Body, extra: bool)
    requires UniqueKeys(b) && Reads(b, r, extra) && Saturated(src, r)
    ensures forall j :: 0 <= j < |b| && Stranded(b, j) ==> b[j].key.value !in Keys(src)
  {
    forall j | 0 <= j < |b| && Stranded(b, j) && b[j].key.value in Keys(src) ensures false {
      var k := b[j].key.value;
      var e :| e in src && e.key == Some(k);
      var i :| 0 <= i < |src| && src[i] == e;
      assert Covered(src[i], r);
      var t :| t in r && t.key == Some(k);
      hide Reads, Stranded;
      NotStranded(b, r, extra, j, t);
    }
  }

  /** A stranded key is read nowhere in its own body. */
  lemma NotStranded(b: Body, r: Body, extra: bool, j: nat, t: Entry)
    requires UniqueTop(b) && Reads(b, r, extra) && j < |b| && Stranded(b, j) && t in r && t.key.Some?
    ensures t.key != b[j].key
  {
    StrandedMeans(b, j);
    hide From, Stays, Found, Explained, NoSection, Stranded, UniqueTop;
    if Explained(b, t) {
      var i := TheExplained(b, t);
      FromKeeps(b[i], t);
      StaysElsewhere(b, i, j);
    }
  }

  lemma StrandedMeans(b: Body, j: nat)
    requires j < |b| && Stranded(b, j)
    ensures b[j].key.Some? && !NoSection(b)
  {
    var e :| e in b[..j] && Section(e);
    assert e in b;
  }

  lemma StaysElsewhere(b: Body, i: nat, j: nat)
    requires UniqueTop(b) && i < |b| && j < |b| && Stays(b, i) && Stranded(b, j)
    ensures b[i].key != b[j].key
  {
    hide NoSection;
    assert i != j;
  }

  /** A table that stays, as it is read. */
  lemma TableReads(b: Body, r: Body, extra: bool, t: Entry) returns (u: Entry)
    requires Reads(b, r, extra) && t in b && t.key.Some? && t.item.Table?
    ensures u in r && u.key == t.key && u.item.Table? && Reads(t.item.body, u.item.body, true)
  {
    var i :| 0 <= i < |b| && b[i] == t;
    SectionStaysPut(b, i);
    hide From, Stays, Found, Explained, NoSection;
    u := TheFound(b[i], r);
    FromKeeps(t, u);
  }

  lemma SectionStaysPut(b: Body, i: nat)
    requires i < |b| && Section(b[i])
    ensures Stays(b, i)
  {
  }

  /** Where a table that is read was written. */
  lemma TableStays(b: Body, r: Body, extra: bool, u: Entry) returns (t: Entry)
    requires Reads(b, r, extra) && u in r && u.key.Some? && u.item.Table?
    ensures t in b && t.key == u.key && t.item.Table? && Reads(t.item.body, u.item.body, true)
  {
    hide From, Stays, Found, Explained, NoSection;
    assert !Bare(u);
    var i := TheExplained(b, u);
    t := b[i];
    FromKeeps(t, u);
  }

  lemma CoveredTables(e: Entry, b: Body)
    requires Covered(e, b) && e.key.Some?
    ensures e.key.value in Keys(b)
    ensures e.item.Table? ==> forall t :: t in b && t.key == e.key && t.item.Table? ==>
        Saturated(e.item.body, t.item.body)
  {
    hide Saturated;
  }

  lemma {:induction false} MissedBelow(e: Entry, b: Body, r: Body, extra: bool)
    requires UniqueKeys(b) && Reads(b, r, extra) && Covered(e, b) && Covered(e, r)
    ensures NoneMissedBelow(e, b)
    decreases e
  {
    if e.item.Table? && e.key.Some? {
      CoveredTables(e, b);
      CoveredTables(e, r);
      hide Reads, NoneMissed, Covered, Saturated, UniqueKeys;
      forall t | t in b && t.key == e.key && t.item.Table? ensures NoneMissed(e.item.body, t.item.body) {
        var u := TableReads(b, r, extra, t);
        TableBelow(b, t);
        SaturatedReads(e.item.body, t.item.body, u.item.body, true);
      }
    }
  }

  lemma {:induction false} CoveredBelow(e: Entry, b: Body, r: Body, extra: bool)
    requires UniqueKeys(b) && Reads(b, r, extra) && Covered(e, b) && NoneMissedBelow(e, b)
    requires e.key.Some? ==> e.key.value in Keys(r)
    ensures Covered(e, r)
    decreases e
  {
    if e.item.Table? && e.key.Some? {
      CoveredTables(e, b);
      hide Reads, NoneMissed, Saturated, UniqueKeys, Keys;
      forall u | u in r && u.key == e.key && u.item.Table? ensures Saturated(e.item.body, u.item.body) {
        hide Covered;
        var t := TableStays(b, r, extra, u);
        TableBelow(b, t);
        SaturatedReads(e.item.body, t.item.body, u.item.body, true);
      }
    }
  }

  lemma KeyCovered(src: Body, i: nat, b: Body, r: Body, extra: bool)
    requires i < |src| && Reads(b, r, extra) && Covered(src[i], b)
    requires forall j :: 0 <= j < |b| && Stranded(b, j) ==> b[j].key.value !in Keys(src)
    ensures src[i].key.Some? ==> src[i].key.value in Keys(r)
  {
    var e := src[i];
    if e.key.Some? {
      CoveredTables(e, b);
      assert e in src && e.key.value in Keys(src);
      var k :| 0 <= k < |b| && b[k].key == e.key;
      assert Stays(b, k);
      hide From, Stays, Found, Explained, NoSection, Stranded, Covered;
      var t := TheFound(b[k], r);
      FromKeeps(b[k], t);
    }
  }

  // ---------------------------------------------------------------------
  // What cannot be read
  // ---------------------------------------------------------------------

  /** The keys of the table that the text of `b` ends in. */
  function OpenKeys(b: Body): set<string>
    decreases b
  {
    var j := LastSection(b);
    if j == |b| then Keys(b) else OpenBelow(b[j])
  }

  function OpenBelow(e: Entry): set<string>
    decreases e
  {
    match e.item
    case Table(body) => OpenKeys(body)
    case TableArray(_, last) => Keys(last)
    case _ => {}
  }

  /** If entry `k` is stranded, the table it is read into does not have its key. */
  ghost predicate Lands(b: Body, k: nat)
    requires k < |b|
  {
    Stranded(b, k) ==> b[k].key.value !in OpenKeys(Reparsed(b[..k]))
  }

  /** No stranded bare key is one that the table it is read into has already, at
      any depth. */
  ghost predicate NoCollision(b: Body)
    decreases b
  {
    (forall k :: 0 <= k < |b| ==> Lands(b, k)) && forall k :: 0 <= k < |b| ==> NoCollisionBelow(b[k])
  }

  ghost predicate NoCollisionBelow(e: Entry)
    decreases e
  {
    e.key.Some? ==>
      match e.item
      case Table(body) => NoCollision(body)
      case _ => true
  }

  lemma UniqueConcatIff(a: Body, b: Body)
    ensures UniqueTop(a + b) <==> UniqueTop(a) && UniqueTop(b) && Keys(a) !! Keys(b)
  {
    var c := a + b;
    if UniqueTop(c) {
      assert a == c[..|a|] && b == c[|a|..];
      DisjointSlices(c, |a|);
    } else if UniqueTop(a) && UniqueTop(b) && Keys(a) !! Keys(b) {
      UniqueConcat(a, b);
    }
  }

  ghost predicate AllBelow(b: Body) {
    forall e :: e in b ==> UniqueBelow(e)
  }

  lemma UniqueKeysIs(b: Body)
    ensures UniqueKeys(b) <==> UniqueTop(b) && AllBelow(b)
  {
    hide UniqueBelow, UniqueTop;
    if UniqueKeys(b) {
      forall e | e in b ensures UniqueBelow(e) {
        var i :| 0 <= i < |b| && b[i] == e;
      }
    }
    if UniqueTop(b) && AllBelow(b) {
      forall i | 0 <= i < |b| ensures UniqueBelow(b[i]) {
        assert b[i] in b;
      }
    }
  }

  lemma UniqueKeysConcat(a: Body, b: Body)
    ensures UniqueKeys(a + b) <==> UniqueKeys(a) && UniqueKeys(b) && Keys(a) !! Keys(b)
  {
    UniqueKeysIs(a);
    UniqueKeysIs(b);
    UniqueKeysIs(a + b);
    UniqueConcatIff(a, b);
    hide UniqueKeys, UniqueTop, UniqueBelow, Keys;
    assert forall e :: e in a + b <==> e in a || e in b;
  }

  lemma Keyless(b: Body)
    requires forall e :: e in b ==> e.key.None?
    ensures UniqueTop(b) && Keys(b) == {}
  {
  }

  lemma UniqueOne(e: Entry)
    ensures UniqueKeys([e]) <==> UniqueBelow(e)
    ensures Keys([e]) == if e.key.Some? then {e.key.value} else {}
  {
    UniqueKeysIs([e]);
    hide UniqueKeys, UniqueBelow;
  }

  /** A body in parts around its last section. */
  lemma UniqueAround(r: Body, j: nat, t: Entry)
    requires BareFirst(r) && j == LastSection(r) < |r| && t.key == r[j].key
    ensures UniqueKeys(r) <==>
            UniqueKeys(r[..j]) && UniqueBelow(r[j]) && UniqueKeys(r[j + 1..]) && r[j].key.value !in Keys(r[..j])
    ensures UniqueKeys(r[..j] + [t]) <==> UniqueKeys(r[..j]) && UniqueBelow(t) && r[j].key.value !in Keys(r[..j])
    ensures Keys(r[j + 1..]) == {}
  {
    BehindLast(r, j);
    Keyless(r[j + 1..]);
    assert r == r[..j] + [r[j]] + r[j + 1..];
    hide UniqueKeys, UniqueBelow, BareFirst;
    UniqueKeysConcat(r[..j] + [r[j]], r[j + 1..]);
    UniqueKeysConcat(r[..j], [r[j]]);
    UniqueKeysConcat(r[..j], [t]);
    UniqueOne(r[j]);
    UniqueOne(t);
  }

  /** Keys stay unique where bare keys are taken in, exactly if they are new there. */
  lemma {:induction false} BehindUnique(r: Body, run: Body)
    requires BareFirstDeep(r)
    ensures UniqueKeys(Behind(r, run)) <==> UniqueKeys(r) && UniqueKeys(run) && Keys(run) !! OpenKeys(r)
    decreases r
  {
    var j := LastSection(r);
    if j == |r| {
      UniqueKeysConcat(r, run);
    } else {
      var tail := r[j + 1..] + run;
      UniqueAround(r, j, Absorb(r[j], tail));
      assert BareFirstBelow(r[j]);
      AbsorbUnique(r[j], tail);
      hide UniqueKeys, UniqueBelow, Absorb, Keys;
      UniqueKeysConcat(r[j + 1..], run);
      KeysConcat(r[j + 1..], run);
    }
  }

  lemma {:induction false} AbsorbUnique(e: Entry, run: Body)
    requires BareFirstBelow(e) && Section(e)
    ensures UniqueBelow(Absorb(e, run)) <==> UniqueBelow(e) && UniqueKeys(run) && Keys(run) !! OpenBelow(e)
    decreases e
  {
    match e.item
    case Table(body) => BehindUnique(body, run);
    case TableArray(_, last) => UniqueKeysConcat(last, run);
    case _ =>
  }

  lemma LandsInPrefix(b: Body, n: nat)
    requires n <= |b|
    ensures forall i :: 0 <= i < n ==> b[..n][i] == b[i] && (Lands(b[..n], i) <==> Lands(b, i))
  {
    assert forall i :: 0 <= i < n ==> b[..n][..i] == b[..i];
    hide NoSection, OpenKeys, Reparsed;
  }

  lemma NoCollisionSnoc(b: Body)
    requires b != []
    ensures var k := |b| - 1; NoCollision(b) <==> NoCollision(b[..k]) && NoCollisionBelow(b[k]) && Lands(b, k)
  {
    hide NoCollisionBelow, Lands;
    var k := |b| - 1;
    var init := b[..k];
    LandsInPrefix(b, k);
    if NoCollision(b) {
      forall i | 0 <= i < k ensures Lands(init, i) && NoCollisionBelow(init[i]) {
        assert Lands(b, i) && NoCollisionBelow(b[i]);
      }
    }
    if NoCollision(init) && NoCollisionBelow(b[k]) && Lands(b, k) {
      forall i | 0 <= i < |b| ensures Lands(b, i) && NoCollisionBelow(b[i]) {
        assert i < k ==> Lands(init, i) && NoCollisionBelow(init[i]);
      }
    }
  }

  /** A written body has unique keys when it is read, exactly if no stranded key
      collides. */
  lemma {:induction false} ReadsUniqueIff(b: Body)
    requires UniqueKeys(b)
    ensures UniqueKeys(Reparsed(b)) <==> NoCollision(b)
    decreases b
  {
    if b != [] {
      var k := |b| - 1;
      var init, out, e := b[..k], Reparsed(b[..k]), ReparsedEntry(b[k]);
      LastKeyIsNew(b);
      assert UniqueBelow(b[k]) && UniqueKeys(init);
      ReadsUniqueIff(init);
      NoCollisionSnoc(b);
      EntryUniqueIff(b[k]);
      ReparsedInOrder(init);
      ReparsedReads(init);
      LastSectionIs(out);
      ReparsedKeys(init);
      hide UniqueKeys, UniqueBelow, NoCollision, NoCollisionBelow, OpenKeys, Reads, Behind, BareFirstDeep, Keys;
      UniqueOne(e);
      UniqueKeysConcat(out, [e]);
      if Bare(b[k]) && !NoSection(init) {
        BehindUnique(out, [e]);
      } else if Bare(b[k]) {
        BareAppends(out, e);
      }
    }
  }

  lemma {:induction false} EntryUniqueIff(e: Entry)
    requires UniqueBelow(e)
    ensures UniqueBelow(ReparsedEntry(e)) <==> NoCollisionBelow(e)
    decreases e
  {
    match e.item
    case Table(body) => ReadsUniqueIff(body);
    case _ =>
  }

  // ---------------------------------------------------------------------
  // The second merge
  // ---------------------------------------------------------------------

  /** The file the first merge wrote does not parse exactly if a stranded key
      collides. Else the second merge injects nothing, and changes nothing, exactly
      if no stranded key is one of the shipped body. */
  lemma SecondMergeIff(src: Body, dst: Body)
    requires UniqueKeys(src) && UniqueKeys(dst)
    ensures var m := Merge(src, dst);
            var again := Reparsed(m);
            && (Parse(m).Some? <==> NoCollision(m))
            && (Parse(m).Some? ==> (Added(src, again) == [] <==> NoneMissed(src, m)))
            && (Parse(m).Some? ==> (Merge(src, again) == again <==> NoneMissed(src, m)))
  {
    hide *;
    var m := Merge(src, dst);
    MergeUnique(src, dst);
    MergeSaturates(src, dst);
    ReadsUniqueIff(m);
    ParseIs(m);
    ReparsedReads(m);
    SaturatedReads(src, m, Reparsed(m), false);
    if Parse(m).Some? {
      AddedNothingIff(src, Reparsed(m));
      MergeSaturates(src, Reparsed(m));
    }
    if NoneMissed(src, m) {
      SaturatedIsFixed(src, Reparsed(m));
    }
  }

  // ---------------------------------------------------------------------
  // Two merges with mixed kinds
  // ---------------------------------------------------------------------

  /** Live sets `ui` and `color`; shipped has the tables `ui` and `net`. The next
      load finds `color` in `net`, and the next merge has nothing to do. */
  lemma MovedForGood()
    ensures var src := [Entry(Some("ui"), Table([])), Entry(Some("net"), Table([]))];
            var dst := [Entry(Some("ui"), Value("1")), Entry(Some("color"), Value("2"))];
            var again := Reparsed(Merge(src, dst));
            && again == [dst[0], NEWLINE, Entry(Some("net"), Table([NEWLINE, dst[1]]))]
            && UniqueKeys(again) && Added(src, again) == [] && Merge(src, again) == again
  {
    var ui, color := Entry(Some("ui"), Value("1")), Entry(Some("color"), Value("2"));
    var net := Entry(Some("net"), Table([]));
    var src := [Entry(Some("ui"), Table([])), net];
    var again := [ui, NEWLINE, Entry(Some("net"), Table([NEWLINE, color]))];
    MovedExample(src, [ui, color]);
    ReparsedExample(ui, net, color);
    MovedIsSound(src, again);
    hide Merge, Reparsed, Added;
    AddedNothingIff(src, again);
    SaturatedIsFixed(src, again);
  }

  lemma MovedIsSound(src: Body, again: Body)
    requires src == [Entry(Some("ui"), Table([])), Entry(Some("net"), Table([]))]
    requires again == [Entry(Some("ui"), Value("1")), NEWLINE,
                       Entry(Some("net"), Table([NEWLINE, Entry(Some("color"), Value("2"))]))]
    ensures UniqueKeys(again) && Saturated(src, again)
  {
    var inner := [NEWLINE, Entry(Some("color"), Value("2"))];
    assert UniqueKeys(inner);
    assert again[2].item == Table(inner);
    assert UniqueBelow(again[2]) && UniqueBelow(again[1]) && UniqueBelow(again[0]);
    assert again[0] in again && again[2] in again;
    assert Saturated([], inner) && Saturated([], []);
    assert Covered(src[0], again) && Covered(src[1], again);
  }

  lemma MovedExample(src: Body, dst: Body)
    requires src == [Entry(Some("ui"), Table([])), Entry(Some("net"), Table([]))]
    requires dst == [Entry(Some("ui"), Value("1")), Entry(Some("color"), Value("2"))]
    ensures Merge(src, dst) == [dst[0], NEWLINE, src[1], NEWLINE, dst[1]]
  {
    var live := {"ui", "color"};
    assert Keys(dst) == live && MergeTables(src, dst) == dst && FirstSection(dst) == 2;
    MovedRuns(src, live);
    hide BareBlock, SectionRuns, MergeTables, FirstSection;
    assert SpliceAll(dst, [(Some("ui"), [src[1]])][..0]) == dst;
    assert AfterAnchor(dst, Some("ui")) == 1;
    assert Splice(dst, 1, [src[1]]) == [dst[0], NEWLINE, src[1], NEWLINE, dst[1]];
  }

  lemma MovedRuns(src: Body, live: set<string>)
    requires src == [Entry(Some("ui"), Table([])), Entry(Some("net"), Table([]))] && live == {"ui", "color"}
    ensures BareBlock(src, live, 2) == [] && SectionRuns(src, live, 2) == [(Some("ui"), [src[1]])]
  {
    assert RunOf(src, 1) == [src[1]] && Anchor(src, 1) == Some("ui");
    assert BareBlock(src, live, 0) == [] && SectionRuns(src, live, 0) == [];
    assert BareBlock(src, live, 1) == [] && SectionRuns(src, live, 1) == [];
  }

  /** Live sets `ui`; shipped has a key `y`, a table `ui` and a table `net` with a
      key `y` of its own. The written file has `y` twice in `net` and does not
      parse. */
  lemma UnreadableAfterwards()
    ensures var y := Entry(Some("y"), Value("2"));
            var src := [Entry(Some("y"), Value("1")), Entry(Some("ui"), Table([])), Entry(Some("net"), Table([y]))];
            var dst := [Entry(Some("ui"), Value("1"))];
            && UniqueKeys(src) && UniqueKeys(dst) && BareFirstDeep(src) && BareFirstDeep(dst)
            && Parse(Merge(src, dst)) == None
  {
    var own, y := Entry(Some("y"), Value("2")), Entry(Some("y"), Value("1"));
    var net := Entry(Some("net"), Table([own]));
    var src, ui := [y, Entry(Some("ui"), Table([])), net], Entry(Some("ui"), Value("1"));
    ExampleIsSound(y, own, src, ui);
    MergedExample(src, ui);
    CollidesExample(ui, net, own, y);
    hide Merge, UniqueKeys, BareFirstDeep, NoCollision;
    MergeUnique(src, [ui]);
    ReadsUniqueIff(Merge(src, [ui]));
    ParseIs(Merge(src, [ui]));
  }

  lemma ExampleIsSound(y: Entry, own: Entry, src: Body, ui: Entry)
    requires y == Entry(Some("y"), Value("1")) && own == Entry(Some("y"), Value("2"))
    requires src == [y, Entry(Some("ui"), Table([])), Entry(Some("net"), Table([own]))]
    requires ui == Entry(Some("ui"), Value("1"))
    ensures UniqueKeys(src) && UniqueKeys([ui]) && BareFirstDeep(src) && BareFirstDeep([ui])
  {
    assert UniqueKeys([own]) && UniqueKeys([]) && BareFirstDeep([own]) && BareFirstDeep([]);
    assert UniqueBelow(src[0]) && UniqueBelow(src[1]) && UniqueBelow(src[2]);
    assert BareFirstBelow(src[0]) && BareFirstBelow(src[1]) && BareFirstBelow(src[2]);
  }

  lemma CollidesExample(ui: Entry, net: Entry, own: Entry, y: Entry)
    requires ui.key.Some? && ui.item.Value? && net == Entry(Some("net"), Table([own]))
    requires own.key.Some? && own.item.Value? && y.item.Value? && y.key == own.key
    ensures !NoCollision([ui, NEWLINE, net, NEWLINE, y])
  {
    var b, four := [ui, NEWLINE, net, NEWLINE, y], [ui, NEWLINE, net, NEWLINE];
    assert b[..4] == four && four[2] in b[..4];
    assert BareFirstDeep([own]) && BareFirstBelow(net) && BareFirstDeep(four);
    InOrderIsKept(four);
    assert LastSection(four) == 2 && own in [own];
    assert OpenKeys(four) == OpenBelow(net) == OpenKeys([own]) == Keys([own]);
    assert Stranded(b, 4) && b[4].key.value in OpenKeys(Reparsed(b[..4]));
    assert !Lands(b, 4);
  }
}
