/** The add-only config merge of tools/sync_config.py, as a function on parsed
    TOML trees. A container body lists its entries in file order: keys, tables
    and the comments and blank lines between them. */
module ConfigTree {
  import opened Prelude

  /** An array of tables is its text up to its last header, of a table of it or
      below one of those, and the entries behind that header. */
  datatype Item =
    | Comment(text: string)
    | Whitespace(text: string)
    | Value(text: string)
    | TableArray(text: string, last: seq<Entry>)
    | Table(body: seq<Entry>)

  datatype Entry = Entry(key: Option<string>, item: Item)

  type Body = seq<Entry>

  const NEWLINE: Entry := Entry(None, Whitespace("\n"))

  predicate IsSection(item: Item) {
    item.Table? || item.TableArray?
  }

  predicate Section(e: Entry) {
    e.key.Some? && IsSection(e.item)
  }

  predicate Bare(e: Entry) {
    e.key.Some? && !IsSection(e.item)
  }

  function Keys(b: Body): set<string> {
    set e | e in b && e.key.Some? :: e.key.value
  }

  /** The position of the first entry with this key, or the end. */
  function IndexOf(b: Body, name: string): (i: nat)
    ensures i <= |b|
    ensures i < |b| ==> b[i].key == Some(name)
    ensures forall j :: 0 <= j < i ==> b[j].key != Some(name)
  {
    if b == [] || b[0].key == Some(name) then 0 else 1 + IndexOf(b[1..], name)
  }

  /** `_first_section_index` */
  function FirstSection(b: Body): (i: nat)
    ensures i <= |b|
    ensures i < |b| ==> Section(b[i])
    ensures forall j :: 0 <= j < i ==> !Section(b[j])
  {
    if b == [] || Section(b[0]) then 0 else 1 + FirstSection(b[1..])
  }

  // ---------------------------------------------------------------------
  // What the shipped body contributes
  // ---------------------------------------------------------------------

  /** Where the comment run leading entry `i` starts. */
  function RunStart(src: Body, i: nat): (r: nat)
    requires i <= |src|
    ensures r <= i && (forall j :: r <= j < i ==> src[j].key.None?) && (r > 0 ==> src[r - 1].key.Some?)
  {
    if i == 0 || src[i - 1].key.Some? then i else RunStart(src, i - 1)
  }

  /** Entry `i` with its leading comments. */
  function RunOf(src: Body, i: nat): Body
    requires i < |src|
  {
    src[RunStart(src, i)..i + 1]
  }

  /** The shipped section just before entry `i`. */
  function Anchor(src: Body, i: nat): Option<string>
    requires i <= |src|
  {
    if i == 0 then None
    else if Section(src[i - 1]) then src[i - 1].key
    else Anchor(src, i - 1)
  }

  predicate New(e: Entry, live: set<string>) {
    e.key.Some? && e.key.value !in live
  }

  /** The new bare keys among the first `n` shipped entries, with their comments. */
  function BareBlock(src: Body, live: set<string>, n: nat): Body
    requires n <= |src|
  {
    if n == 0 then []
    else
      var before := BareBlock(src, live, n - 1);
      if New(src[n - 1], live) && Bare(src[n - 1]) then before + RunOf(src, n - 1) else before
  }

  /** The new sections among the first `n` shipped entries, with their anchors. */
  function SectionRuns(src: Body, live: set<string>, n: nat): seq<(Option<string>, Body)>
    requires n <= |src|
  {
    if n == 0 then []
    else
      var before := SectionRuns(src, live, n - 1);
      if New(src[n - 1], live) && Section(src[n - 1]) then before + [(Anchor(src, n - 1), RunOf(src, n - 1))]
          else before
  }

  // ---------------------------------------------------------------------
  // Splicing
  // ---------------------------------------------------------------------

  /** Insert `run` at `idx`, padded with a blank line towards any neighbour that
      is not white space. */
  function Splice(b: Body, idx: nat, run: Body): Body
    requires idx <= |b|
  {
    if run == [] then b
    else
      var front := if idx > 0 && !b[idx - 1].item.Whitespace? then [NEWLINE] else [];
      var back := if idx < |b| && !b[idx].item.Whitespace? && !run[|run| - 1].item.Whitespace? then [NEWLINE] else [];
      b[..idx] + (front + run + back) + b[idx..]
  }

  /** Just after the anchor, or at the end. */
  function AfterAnchor(b: Body, anchor: Option<string>): (i: nat)
    ensures i <= |b|
  {
    if anchor.None? || IndexOf(b, anchor.value) == |b| then |b| else IndexOf(b, anchor.value) + 1
  }

  function SpliceAll(b: Body, runs: seq<(Option<string>, Body)>): Body {
    if runs == [] then b
    else
      var k := |runs| - 1;
      var c := SpliceAll(b, runs[..k]);
      Splice(c, AfterAnchor(c, runs[k].0), runs[k].1)
  }

  // ---------------------------------------------------------------------
  // The merge
  // ---------------------------------------------------------------------

  /** The shipped table under this key, as an index into `src`, or the end. */
  function TableIndex(src: Body, name: string): (i: nat)
    ensures i <= |src|
    ensures i < |src| ==> src[i].key == Some(name) && src[i].item.Table?
  {
    var i := IndexOf(src, name);
    if i < |src| && src[i].item.Table? then i else |src|
  }

  /** A live entry after the merge: a table that shipped has too is merged. */
  function MergeEntry(src: Body, e: Entry): (r: Entry)
    ensures r.key == e.key
    decreases src, 0
  {
    if e.key.Some? && e.item.Table? && TableIndex(src, e.key.value) < |src|
    then Entry(e.key, Table(MergeBodies(src[TableIndex(src, e.key.value)], e.item.body)))
    else e
  }

  function MergeBodies(shipped: Entry, dst: Body): Body
    requires shipped.item.Table?
    decreases shipped
  {
    match shipped.item
    case Table(body) => Merge(body, dst)
  }

  function MergeTables(src: Body, dst: Body): (r: Body)
    ensures |r| == |dst| && forall i :: 0 <= i < |r| ==> r[i] == MergeEntry(src, dst[i])
    decreases src, 1
  {
    seq(|dst|, i requires 0 <= i < |dst| => MergeEntry(src, dst[i]))
  }

  /** `merge_container`: the merged body. */
  function Merge(src: Body, dst: Body): Body
    decreases src, 2
  {
    var live := Keys(dst);
    var tables := MergeTables(src, dst);
    var withBare := Splice(tables, FirstSection(tables), BareBlock(src, live, |src|));
    SpliceAll(withBare, SectionRuns(src, live, |src|))
  }

  type Path = seq<string>

  function Under(name: string, paths: seq<Path>): (r: seq<Path>)
    ensures |r| == |paths| && forall i :: 0 <= i < |r| ==> r[i] == [name] + paths[i]
  {
    seq(|paths|, i requires 0 <= i < |paths| => [name] + paths[i])
  }

  /** What one shipped entry adds to the returned list. */
  function AddedBy(e: Entry, dst: Body): seq<Path>
    decreases e
  {
    if e.key.None? then []
    else
      var i := IndexOf(dst, e.key.value);
      if i == |dst| then [[e.key.value]]
      else if e.item.Table? && dst[i].item.Table? then Under(e.key.value, Added(e.item.body, dst[i].item.body))
      else []
  }

  /** `merge_container`: the returned paths. */
  function Added(src: Body, dst: Body): seq<Path>
    decreases src
  {
    if src == [] then []
    else Added(src[..|src| - 1], dst) + AddedBy(src[|src| - 1], dst)
  }

  // ---------------------------------------------------------------------
  // Well-formed trees
  // ---------------------------------------------------------------------

  /** Keys are unique in each container body, at every depth. */
  predicate UniqueKeys(b: Body)
    decreases b
  {
    && UniqueTop(b)
    && (forall i :: 0 <= i < |b| ==> UniqueBelow(b[i]))
  }

  predicate UniqueTop(b: Body) {
    forall i, j :: 0 <= i < j < |b| && b[i].key.Some? ==> b[i].key != b[j].key
  }

  predicate UniqueBelow(e: Entry)
    decreases e
  {
    match e.item
    case Table(body) => UniqueKeys(body)
    case TableArray(_, last) => UniqueKeys(last)
    case _ => true
  }
}
