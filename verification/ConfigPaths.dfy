/** Key paths of the merged config: what the merge reports is exactly what it
    injected, and every value that was there stays. */
module ConfigPaths {
  import opened Prelude
  import opened ConfigTree
  import opened ConfigMerge

  /** `p` names an entry of `b`, through tables. */
  ghost predicate HasPath(b: Body, p: Path)
    decreases |p|
  {
    |p| > 0 && exists e ::
        e in b && e.key == Some(p[0]) && (|p| == 1 || (e.item.Table? && HasPath(e.item.body, p[1..])))
  }

  /** `p` names an entry holding `item`. */
  ghost predicate PathHolds(b: Body, p: Path, item: Item)
    decreases |p|
  {
    |p| > 0 && exists e ::
      e in b && e.key == Some(p[0])
          && (if |p| == 1 then e.item == item else e.item.Table? && PathHolds(e.item.body, p[1..], item))
  }

  /** New in `b`, while everything above it was there before. */
  ghost predicate Injected(old_: Body, b: Body, p: Path) {
    HasPath(b, p) && !HasPath(old_, p) && (|p| == 1 || HasPath(old_, p[..|p| - 1]))
  }

  lemma PathStep(b: Body, e: Entry, p: Path)
    requires UniqueTop(b) && e in b && |p| > 1 && e.key == Some(p[0])
    ensures HasPath(b, p) <==> e.item.Table? && HasPath(e.item.body, p[1..])
  {
  }

  lemma TopPath(b: Body, k: string)
    ensures HasPath(b, [k]) <==> k in Keys(b)
  {
  }

  lemma {:induction false} AddedMembers(src: Body, dst: Body, p: Path)
    ensures p in Added(src, dst) <==> exists e :: e in src && p in AddedBy(e, dst)
  {
    if src != [] {
      var k := |src| - 1;
      AddedMembers(src[..k], dst, p);
      if e :| e in src && p in AddedBy(e, dst) {
        assert e in src[..k] || e == src[k];
      }
      if e :| e in src[..k] && p in AddedBy(e, dst) {
        assert e in src;
      }
      assert src[k] in src;
    }
  }

  lemma UnderMembers(name: string, paths: seq<Path>, p: Path)
    ensures p in Under(name, paths) <==> p != [] && p[0] == name && p[1..] in paths
  {
    var u := Under(name, paths);
    if p in u {
      var i :| 0 <= i < |u| && u[i] == p;
      assert p[1..] == paths[i];
    }
    if p != [] && p[0] == name && p[1..] in paths {
      var i :| 0 <= i < |paths| && paths[i] == p[1..];
      assert u[i] == p;
    }
  }

  lemma {:induction false} AddedNonEmpty(src: Body, dst: Body, p: Path)
    requires p in Added(src, dst)
    ensures p != []
  {
    AddedMembers(src, dst, p);
    var e :| e in src && p in AddedBy(e, dst);
    if e.key.Some? && IndexOf(dst, e.key.value) < |dst| {
      var d := dst[IndexOf(dst, e.key.value)];
      if e.item.Table? && d.item.Table? {
        UnderMembers(e.key.value, Added(e.item.body, d.item.body), p);
      }
    }
  }

  /** One reported path, seen from its first key. */
  lemma AddedFromKey(src: Body, dst: Body, p: Path)
    requires UniqueTop(dst) && p != []
    ensures p in Added(src, dst) <==> exists e :: e in src && e.key == Some(p[0]) && ReportedFrom(e, dst, p)
  {
    AddedMembers(src, dst, p);
    forall e | e in src ensures p in AddedBy(e, dst) <==> e.key == Some(p[0]) && ReportedFrom(e, dst, p) {
      ReportedBy(e, dst, p);
    }
  }

  ghost predicate ReportedFrom(e: Entry, dst: Body, p: Path)
    requires p != []
  {
    if p[0] !in Keys(dst) then |p| == 1
    else e.item.Table? && exists d ::
        d in dst && d.key == Some(p[0]) && d.item.Table? && p[1..] in Added(e.item.body, d.item.body)
  }

  lemma ReportedBy(e: Entry, dst: Body, p: Path)
    requires UniqueTop(dst) && p != []
    ensures p in AddedBy(e, dst) <==> e.key == Some(p[0]) && ReportedFrom(e, dst, p)
  {
    if e.key.Some? {
      var i := IndexOf(dst, e.key.value);
      if i < |dst| {
        var d := dst[i];
        assert d in dst && e.key.value in Keys(dst);
        FoundAt(dst, d);
        if e.item.Table? && d.item.Table? {
          UnderMembers(e.key.value, Added(e.item.body, d.item.body), p);
        }
      } else {
        assert e.key.value !in Keys(dst);
        assert p in [[e.key.value]] <==> p == [e.key.value];
      }
    }
  }

  /** The returned list holds exactly the injected paths. */
  lemma {:induction false} AddedIsInjected(src: Body, dst: Body, p: Path)
    requires UniqueKeys(src) && UniqueKeys(dst) && p != []
    ensures p in Added(src, dst) <==> Injected(dst, Merge(src, dst), p)
    decreases |p|
  {
    var m, k := Merge(src, dst), p[0];
    MergeKeys(src, dst);
    AddedFromKey(src, dst, p);
    hide Merge, Added;
    if |p| == 1 {
      assert p == [k];
      TopPath(m, k);
      TopPath(dst, k);
      if k in Keys(dst) {
        OnlyDeepReports(src, dst, p);
      } else if k in Keys(src) {
        var e :| e in src && e.key == Some(k);
      }
    } else if k in Keys(dst) {
      var d :| d in dst && d.key == Some(k);
      DeepPath(src, dst, d, p);
    } else {
      assert !HasPath(dst, p[..|p| - 1]) by {
        assert p[..|p| - 1][0] == k;
      }
    }
  }

  /** A single key that is already live is not reported. */
  lemma OnlyDeepReports(src: Body, dst: Body, p: Path)
    requires |p| == 1 && p[0] in Keys(dst)
    ensures forall e :: e in src ==> !ReportedFrom(e, dst, p)
  {
    forall e | e in src ensures !ReportedFrom(e, dst, p) {
      forall d | d in dst && d.key == Some(p[0]) && d.item.Table? && e.item.Table?
        ensures p[1..] !in Added(e.item.body, d.item.body)
      {
        if p[1..] in Added(e.item.body, d.item.body) {
          AddedNonEmpty(e.item.body, d.item.body, p[1..]);
        }
      }
    }
  }

  lemma {:induction false} DeepPath(src: Body, dst: Body, d: Entry, p: Path)
    requires UniqueKeys(src) && UniqueKeys(dst) && |p| > 1 && d in dst && d.key == Some(p[0])
    ensures (exists e :: e in src && e.key == Some(p[0]) && ReportedFrom(e, dst, p)) <==>
        Injected(dst, Merge(src, dst), p)
    decreases |p|, 0
  {
    hide Merge, Added, MergeEntry, HasPath;
    var m, t, q, up := Merge(src, dst), MergeEntry(src, d), p[1..], p[..|p| - 1];
    MergeUnique(src, dst);
    LiveEntryAfter(src, dst, d);
    MergeEntryCases(src, d);
    PathStep(m, t, p);
    PathStep(dst, d, p);
    FoundAt(dst, d);
    var i := TableIndex(src, p[0]);
    if i < |src| && d.item.Table? {
      var e := src[i];
      assert e in src;
      FoundAt(src, e);
      TableBelow(src, e);
      TableBelow(dst, d);
      AddedIsInjected(e.item.body, d.item.body, q);
      if |p| > 2 {
        PathStep(dst, d, up);
        assert up[1..] == q[..|q| - 1];
      } else {
        assert up == [p[0]];
        TopPath(dst, p[0]);
      }
    } else {
      assert t == d;
      forall e | e in src && e.key == Some(p[0]) ensures !ReportedFrom(e, dst, p) {
        FoundAt(src, e);
      }
    }
  }

  /** No path is listed twice, and paths stand in the order of their first keys in
      the shipped body. */
  ghost predicate ListedInOrder(src: Body, n: nat, paths: seq<Path>) {
    && NoDup(paths)
    && (forall p :: p in paths ==> p != [] && IndexOf(src, p[0]) < n)
    && (forall x, y :: 0 <= x < y < |paths| && paths[x] != [] && paths[y] != [] ==>
          IndexOf(src, paths[x][0]) <= IndexOf(src, paths[y][0]))
  }

  lemma UnderNoDup(name: string, paths: seq<Path>)
    requires NoDup(paths)
    ensures NoDup(Under(name, paths)) && forall p :: p in Under(name, paths) ==> p != [] && p[0] == name
  {
    var u := Under(name, paths);
    forall i, j | 0 <= i < j < |u| ensures u[i] != u[j] {
      assert u[i][1..] == paths[i] && u[j][1..] == paths[j];
    }
  }

  lemma ListedNext(src: Body, n: nat, paths: seq<Path>, more: seq<Path>)
    requires n < |src| && ListedInOrder(src, n, paths) && NoDup(more)
    requires forall p :: p in more ==> p != [] && IndexOf(src, p[0]) == n
    ensures ListedInOrder(src, n + 1, paths + more)
  {
    var all := paths + more;
    forall i, j | 0 <= i < j < |all|
      ensures all[i] != [] && all[j] != [] && all[i] != all[j] && IndexOf(src, all[i][0]) <= IndexOf(src, all[j][0])
    {
      assert if i < |paths| then all[i] == paths[i] && paths[i] in paths else all[i] == more[i - |paths|];
      assert if j < |paths| then all[j] == paths[j] && paths[j] in paths else all[j] == more[j - |paths|];
      assert i >= |paths| ==> more[i - |paths|] in more;
      assert j >= |paths| ==> more[j - |paths|] in more;
    }
  }

  lemma {:induction false} ListedOnce(src: Body, dst: Body, n: nat)
    requires n <= |src| && UniqueKeys(src) && UniqueKeys(dst)
    ensures ListedInOrder(src, n, Added(src[..n], dst))
    decreases src, n
  {
    if n > 0 {
      var e := src[n - 1];
      ListedOnce(src, dst, n - 1);
      assert src[..n][..n - 1] == src[..n - 1];
      EntryOnce(e, dst);
      if e.key.Some? {
        FoundAt(src, e);
        assert IndexOf(src, e.key.value) == n - 1;
      }
      hide UniqueKeys, IndexOf, AddedBy, ListedInOrder;
      ListedNext(src, n - 1, Added(src[..n - 1], dst), AddedBy(e, dst));
    }
  }

  lemma {:induction false} EntryOnce(e: Entry, dst: Body)
    requires UniqueBelow(e) && UniqueKeys(dst)
    ensures NoDup(AddedBy(e, dst))
    ensures forall p :: p in AddedBy(e, dst) ==> p != [] && e.key == Some(p[0])
    decreases e
  {
    if e.key.Some? && IndexOf(dst, e.key.value) < |dst| {
      var d := dst[IndexOf(dst, e.key.value)];
      match e.item
      case Table(body) =>
        if d.item.Table? {
          TableBelow(dst, d);
          AddedOnce(body, d.item.body);
          UnderNoDup(e.key.value, Added(body, d.item.body));
        }
      case _ =>
    }
  }

  /** The returned list names each path once, in shipped order. */
  lemma {:induction false} AddedOnce(src: Body, dst: Body)
    requires UniqueKeys(src) && UniqueKeys(dst)
    ensures ListedInOrder(src, |src|, Added(src, dst))
    decreases src, |src| + 1
  {
    ListedOnce(src, dst, |src|);
    assert src[..|src|] == src;
  }

  // ---------------------------------------------------------------------
  // Nothing that was set is changed
  // ---------------------------------------------------------------------

  /** A value (anything but a table) at a live path is still there, unchanged. */
  lemma {:induction false} ValuesSurvive(src: Body, dst: Body, p: Path, item: Item)
    requires UniqueKeys(src) && UniqueKeys(dst) && !item.Table? && PathHolds(dst, p, item)
    ensures PathHolds(Merge(src, dst), p, item)
    decreases |p|
  {
    var d :| d in dst && d.key == Some(p[0])
        && (if |p| == 1 then d.item == item else d.item.Table? && PathHolds(d.item.body, p[1..], item));
    LiveEntryAfter(src, dst, d);
    MergeEntryCases(src, d);
    hide Merge, MergeEntry;
    var i := TableIndex(src, p[0]);
    if i < |src| && |p| > 1 {
      assert src[i] in src;
      TableBelow(src, src[i]);
      TableBelow(dst, d);
      ValuesSurvive(src[i].item.body, d.item.body, p[1..], item);
    }
  }
}
