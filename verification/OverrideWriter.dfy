/** The auto-managed [package_compiler_overrides] table of profiles.toml
    (sysforge/profile_writer.py): line edits that update or remove one row. */
module OverrideWriter {
  import opened Prelude
  import opened OverrideText

  const SECTION := "[package_compiler_overrides]"

  predicate IsComment(line: string) {
    OneLine(line) && Ended(line) && line[0] == '#'
  }

  /** The comment block in front of a fresh section, whatever its wording. */
  ghost predicate IsCommentBlock(header: seq<string>) {
    forall i :: 0 <= i < |header| ==> IsComment(header[i])
  }

  /** The first index from `i` on whose line satisfies `want`, or `stop`. */
  function First(lines: seq<string>, i: nat, stop: nat, want: string -> bool): (r: nat)
    requires i <= stop <= |lines|
    ensures i <= r <= stop
    ensures r < stop ==> want(lines[r])
    ensures forall j :: i <= j < r ==> !want(lines[j])
    decreases stop - i
  {
    if i == stop || want(lines[i]) then i else First(lines, i + 1, stop, want)
  }

  lemma FirstIs(lines: seq<string>, i: nat, stop: nat, want: string -> bool, r: nat)
    requires i <= r <= stop <= |lines| && (r < stop ==> want(lines[r])) && forall j :: i <= j < r ==> !want(lines[j])
    ensures First(lines, i, stop, want) == r
  {
  }

  function IsHeader(): string -> bool {
    line => Strip(line) == SECTION
  }

  function StartsTable(): string -> bool {
    line => var s := LStrip(line); s != [] && s[0] == '['
  }

  function IsRow(p: string): string -> bool {
    line => Matches(line, p)
  }

  /** The section header line, or the end. */
  function SectAt(lines: seq<string>): (s: nat)
    ensures s <= |lines|
  {
    First(lines, 0, |lines|, IsHeader())
  }

  /** The next table header after the section header, or the end. */
  function SectEnd(lines: seq<string>): (e: nat)
    requires SectAt(lines) < |lines|
    ensures SectAt(lines) < e <= |lines|
  {
    First(lines, SectAt(lines) + 1, |lines|, StartsTable())
  }

  /** This package's row in the section, or the section's end. */
  function RowAt(lines: seq<string>, p: string): (r: nat)
    requires SectAt(lines) < |lines|
    ensures SectAt(lines) < r <= SectEnd(lines)
  {
    First(lines, SectAt(lines) + 1, SectEnd(lines), IsRow(p))
  }

  /** The row of `p` that the writer finds. */
  function Bound(lines: seq<string>, p: string): Option<string> {
    if SectAt(lines) < |lines| && RowAt(lines, p) < SectEnd(lines) then Some(lines[RowAt(lines, p)]) else None
  }

  // ---------------------------------------------------------------------
  // Writing and deleting
  // ---------------------------------------------------------------------

  function LastEnded(lines: seq<string>): seq<string> {
    if lines != [] && !Ended(lines[|lines| - 1]) then lines[|lines| - 1 := lines[|lines| - 1] + "\n"] else lines
  }

  /** A fresh section behind everything. */
  function FreshSection(lines: seq<string>, header: seq<string>, row: string): seq<string> {
    var prior := LastEnded(lines);
    var gap := if prior != [] && Strip(prior[|prior| - 1]) != [] then ["\n"] else [];
    prior + gap + header + [SECTION + "\n", row]
  }

  function WriteLines(lines: seq<string>, header: seq<string>, p: string, row: string): seq<string> {
    if SectAt(lines) == |lines| then FreshSection(lines, header, row)
    else if RowAt(lines, p) < SectEnd(lines) then lines[RowAt(lines, p) := row]
    else lines[..SectAt(lines) + 1] + [row] + lines[SectAt(lines) + 1..]
  }

  function DeleteLines(lines: seq<string>, p: string): seq<string> {
    if SectAt(lines) < |lines| && RowAt(lines, p) < SectEnd(lines)
    then lines[..RowAt(lines, p)] + lines[RowAt(lines, p) + 1..]
    else lines
  }

  function WriteText(text: string, header: seq<string>, p: string, o: Override): string {
    Join(WriteLines(Lines(text), header, p, Row(p, o)))
  }

  function DeleteText(text: string, p: string): string {
    Join(DeleteLines(Lines(text), p))
  }

  /** The section header is the last line and has no newline. */
  predicate Unterminated(lines: seq<string>) {
    SectAt(lines) == |lines| - 1 && !Ended(lines[|lines| - 1])
  }

  // ---------------------------------------------------------------------
  // The edits as map updates, on lines
  // ---------------------------------------------------------------------

  /** Where the section stands and what its rows are, read off a body. */
  lemma SectionIs(lines: seq<string>, s: nat, e: nat)
    requires s < e <= |lines| && IsHeader()(lines[s]) && (forall j :: 0 <= j < s ==> !IsHeader()(lines[j]))
    requires (e < |lines| ==> StartsTable()(lines[e])) && forall j :: s < j < e ==> !StartsTable()(lines[j])
    ensures SectAt(lines) == s && SectEnd(lines) == e
  {
  }

  lemma RowIsNoTable(p: string, o: Override)
    ensures !StartsTable()(Row(p, o))
  {
  }

  lemma {:induction false} StripNewline(line: string)
    ensures Strip(line + "\n") == Strip(line)
  {
  }

  lemma {:induction false} RStripKeepsFirst(line: string)
    requires line != [] && !IsSpace(line[0])
    ensures RStrip(line) != [] && RStrip(line)[0] == line[0]
  {
    if IsSpace(line[|line| - 1]) {
      RStripKeepsFirst(line[..|line| - 1]);
    }
  }

  lemma CommentIsNoHeader(line: string)
    requires line != [] && line[0] == '#'
    ensures !IsHeader()(line)
  {
    RStripKeepsFirst(line);
    assert Strip(line)[0] == '#' && SECTION[0] == '[';
  }

  lemma SectionLine()
    ensures IsHeader()(SECTION + "\n") && OneLine(SECTION + "\n") && Ended(SECTION + "\n") && !IsHeader()("\n")
  {
    StripNewline(SECTION);
    assert RStrip(SECTION) == SECTION && LStrip(SECTION) == SECTION;
    assert Strip("\n") == [];
  }

  // ---------------------------------------------------------------------
  // Reading the section
  // ---------------------------------------------------------------------

  /** `next` is `lines` with `old'` lines at `from` replaced by `new'` others. */
  ghost predicate Edited(lines: seq<string>, next: seq<string>, from: nat, old': nat, new': nat) {
    && from + old' <= |lines| && |next| == |lines| - old' + new'
    && (forall j :: 0 <= j < from ==> next[j] == lines[j])
    && (forall j :: from + new' <= j < |next| ==> next[j] == lines[j - new' + old'])
  }

  lemma EditedSlices(lines: seq<string>, next: seq<string>, from: nat, old': nat, new': nat)
    requires from + old' <= |lines| && |next| == |lines| - old' + new'
    requires next[..from] == lines[..from] && next[from + new'..] == lines[from + old'..]
    ensures Edited(lines, next, from, old', new')
  {
  }

  /** An edit inside the section moves its end and nothing else. */
  lemma SectionAround(lines: seq<string>, next: seq<string>, from: nat, old': nat, new': nat)
    requires SectAt(lines) < from && SectAt(lines) < |lines| && from + old' <= SectEnd(lines)
    requires Edited(lines, next, from, old', new')
    requires forall j :: from <= j < from + new' ==> !StartsTable()(next[j])
    ensures SectAt(next) == SectAt(lines) && SectEnd(next) == SectEnd(lines) - old' + new'
  {
    var s, e := SectAt(lines), SectEnd(lines);
    hide IsHeader, StartsTable;
    FirstIs(next, 0, |next|, IsHeader(), s);
    FirstIs(next, s + 1, |next|, StartsTable(), e - old' + new');
  }

  // ---------------------------------------------------------------------
  // Writing
  // ---------------------------------------------------------------------

  /** Where a write puts the row. */
  function WrittenAt(lines: seq<string>, header: seq<string>, p: string, row: string): nat {
    if SectAt(lines) == |lines| then |FreshSection(lines, header, row)| - 1
    else if RowAt(lines, p) < SectEnd(lines) then RowAt(lines, p)
    else SectAt(lines) + 1
  }

  lemma FreshIs(lines: seq<string>, header: seq<string>, row: string)
    requires Proper(lines) && IsCommentBlock(header) && SectAt(lines) == |lines| && !StartsTable()(row)
    ensures var next := FreshSection(lines, header, row);
        SectAt(next) == |next| - 2 && SectEnd(next) == |next| && next[|next| - 1] == row
  {
    var prior := LastEnded(lines);
    var gap := if prior != [] && Strip(prior[|prior| - 1]) != [] then ["\n"] else [];
    var head := prior + gap + header;
    assert FreshSection(lines, header, row) == head + [SECTION + "\n", row];
    forall j | 0 <= j < |head| ensures !IsHeader()(head[j]) {
      NoHeaderInFront(lines, gap, header, j);
    }
    hide *;
    FreshEnds(head, row);
  }

  lemma NoHeaderInFront(lines: seq<string>, gap: seq<string>, header: seq<string>, j: nat)
    requires SectAt(lines) == |lines| && IsCommentBlock(header) && (gap == [] || gap == ["\n"])
    requires j < |LastEnded(lines) + gap + header|
    ensures !IsHeader()((LastEnded(lines) + gap + header)[j])
  {
    var prior := LastEnded(lines);
    if j < |prior| {
      PriorIsNoHeader(lines, j);
    } else if j >= |prior + gap| {
      CommentIsNoHeader(header[j - |prior + gap|]);
    }
  }

  lemma FreshEnds(head: seq<string>, row: string)
    requires (forall j :: 0 <= j < |head| ==> !IsHeader()(head[j])) && !StartsTable()(row)
    ensures var next := head + [SECTION + "\n", row];
            SectAt(next) == |next| - 2 && SectEnd(next) == |next| && next[|next| - 1] == row
  {
    var next := head + [SECTION + "\n", row];
    SectionLine();
    hide IsHeader, StartsTable, SECTION;
    SectionIs(next, |head|, |next|);
  }

  lemma PriorIsNoHeader(lines: seq<string>, j: nat)
    requires SectAt(lines) == |lines| && j < |LastEnded(lines)|
    ensures !IsHeader()(LastEnded(lines)[j])
  {
  }


  /** An edit that touches no row of `q` leaves what binds it. */
  lemma OthersStay(lines: seq<string>, next: seq<string>, from: nat, old': nat, new': nat, q: string)
    requires SectAt(lines) < from && SectAt(lines) < |lines| && from + old' <= SectEnd(lines)
    requires Edited(lines, next, from, old', new')
    requires forall j :: from <= j < from + new' ==> !StartsTable()(next[j]) && !IsRow(q)(next[j])
    requires forall j :: from <= j < from + old' ==> !IsRow(q)(lines[j])
    ensures Bound(next, q) == Bound(lines, q)
  {
    hide SectAt, SectEnd, StartsTable, IsRow, Edited;
    SectionAround(lines, next, from, old', new');
    FirstShifts(lines, next, from, old', new', SectAt(lines) + 1, SectEnd(lines), IsRow(q));
  }

  lemma FirstShifts(lines: seq<string>, next: seq<string>, from: nat, old': nat, new': nat, i: nat, stop: nat,
                    want: string -> bool)
    requires Edited(lines, next, from, old', new') && i <= from && from + old' <= stop <= |lines|
    requires forall j :: from <= j < from + new' ==> !want(next[j])
    requires forall j :: from <= j < from + old' ==> !want(lines[j])
    ensures var r, r' := First(lines, i, stop, want), First(next, i, stop - old' + new', want);
            (r == stop <==> r' == stop - old' + new') && (r < stop ==> next[r'] == lines[r])
  {
    var r := First(lines, i, stop, want);
    var r' := if r < from then r else r - old' + new';
    assert forall j :: i <= j < r' && from + new' <= j ==> next[j] == lines[j - new' + old'];
    hide First;
    FirstIs(next, i, stop - old' + new', want, r');
  }

  /** The first row of `p` in the section is at `at`. */
  lemma RowStands(lines: seq<string>, p: string, at: nat)
    requires SectAt(lines) < |lines| && SectAt(lines) < at < SectEnd(lines) && IsRow(p)(lines[at])
    requires forall j :: SectAt(lines) < j < at ==> !IsRow(p)(lines[j])
    ensures RowAt(lines, p) == at && Bound(lines, p) == Some(lines[at])
  {
  }

  predicate HasSection(lines: seq<string>) {
    SectAt(lines) < |lines|
  }

  predicate HasRow(lines: seq<string>, p: string) {
    HasSection(lines) && RowAt(lines, p) < SectEnd(lines)
  }

  /** A write touches one line: it replaces the package's row or inserts one
      behind the header. */
  lemma WriteIsAnEdit(lines: seq<string>, header: seq<string>, p: string, row: string)
    requires HasSection(lines)
    ensures var next, at := WriteLines(lines, header, p, row), WrittenAt(lines, header, p, row);
            var old' := if HasRow(lines, p) then 1 else 0;
            && SectAt(lines) < at && at + old' <= SectEnd(lines)
            && Edited(lines, next, at, old', 1) && next[at] == row
  {
    hide First, IsHeader, StartsTable, IsRow;
    var next, at := WriteLines(lines, header, p, row), WrittenAt(lines, header, p, row);
    EditedSlices(lines, next, at, if HasRow(lines, p) then 1 else 0, 1);
  }

  lemma WriteBindsInSection(lines: seq<string>, header: seq<string>, p: string, o: Override, q: string)
    requires IsName(p) && IsName(q) && HasSection(lines)
    ensures var next := WriteLines(lines, header, p, Row(p, o));
            && Bound(next, q) == (if q == p then Some(Row(p, o)) else Bound(lines, q))
            && SectAt(next) == SectAt(lines) && HasRow(next, p)
                && RowAt(next, p) == WrittenAt(lines, header, p, Row(p, o))
  {
    hide Row, WriteLines, WrittenAt, HasRow, IsName, SectAt, SectEnd, RowAt, Bound;
    RowMatches(p, o);
    RowIsNoTable(p, o);
    WriteStands(lines, header, p, Row(p, o));
    if q != p {
      WriteIsAnEdit(lines, header, p, Row(p, o));
      RowsBefore(lines, header, p, Row(p, o));
      hide Matches, StartsTable, Edited;
      var next, at := WriteLines(lines, header, p, Row(p, o)), WrittenAt(lines, header, p, Row(p, o));
      EditSparesOthers(lines, next, at, if HasRow(lines, p) then 1 else 0, 1, p, q);
    }
  }

  lemma WriteStands(lines: seq<string>, header: seq<string>, p: string, row: string)
    requires HasSection(lines) && Matches(row, p) && !StartsTable()(row)
    ensures var next := WriteLines(lines, header, p, row);
            && Bound(next, p) == Some(row) && SectAt(next) == SectAt(lines)
            && HasRow(next, p) && RowAt(next, p) == WrittenAt(lines, header, p, row)
  {
    hide Matches, StartsTable, WriteLines, WrittenAt, HasRow, SectAt, SectEnd, RowAt, Bound;
    var next, at := WriteLines(lines, header, p, row), WrittenAt(lines, header, p, row);
    WriteIsAnEdit(lines, header, p, row);
    RowsBefore(lines, header, p, row);
    SectionAround(lines, next, at, if HasRow(lines, p) then 1 else 0, 1);
    RowStands(next, p, at);
    StandingRow(next, p, at);
  }

  lemma StandingRow(lines: seq<string>, p: string, at: nat)
    requires HasSection(lines) && RowAt(lines, p) == at && at < SectEnd(lines)
    ensures HasRow(lines, p)
  {
  }

  lemma RowsBefore(lines: seq<string>, header: seq<string>, p: string, row: string)
    requires HasSection(lines)
    ensures var at := WrittenAt(lines, header, p, row);
            && (forall j :: SectAt(lines) < j < at ==> !Matches(lines[j], p))
            && (HasRow(lines, p) ==> Matches(lines[at], p))
  {
  }

  /** An edit of rows of `p` is no edit of rows of `q`. */
  lemma EditSparesOthers(lines: seq<string>, next: seq<string>, at: nat, old': nat, new': nat, p: string, q: string)
    requires IsName(p) && IsName(q) && p != q && HasSection(lines)
    requires SectAt(lines) < at && at + old' <= SectEnd(lines) && old' <= 1 && new' <= 1
    requires Edited(lines, next, at, old', new')
    requires (old' == 1 ==> Matches(lines[at], p)) && (new' == 1 ==> Matches(next[at], p) && !StartsTable()(next[at]))
    ensures Bound(next, q) == Bound(lines, q)
  {
    hide SectAt, SectEnd, RowAt, Bound, Matches, StartsTable, IsName;
    if new' == 1 && Matches(next[at], q) {
      OneNamePerLine(next[at], p, q);
    }
    if old' == 1 && Matches(lines[at], q) {
      OneNamePerLine(lines[at], p, q);
    }
    OthersStay(lines, next, at, old', new', q);
  }

  lemma FreshBinds(lines: seq<string>, header: seq<string>, p: string, o: Override, q: string)
    requires IsName(p) && IsName(q) && Proper(lines) && IsCommentBlock(header) && !HasSection(lines)
    ensures var next := FreshSection(lines, header, Row(p, o));
            && Bound(next, q) == (if q == p then Some(Row(p, o)) else None)
            && HasRow(next, p) && RowAt(next, p) == |next| - 1
  {
    var row := Row(p, o);
    var next := FreshSection(lines, header, row);
    RowMatches(p, o);
    RowIsNoTable(p, o);
    FreshIs(lines, header, row);
    hide FreshSection, Row, Matches, First, StartsTable, IsName, SectAt, SectEnd;
    RowStands(next, p, |next| - 1);
    if q != p {
      LoneRow(next, p, q);
    }
  }

  /** A section whose only line is a row of `p` binds nobody else. */
  lemma LoneRow(lines: seq<string>, p: string, q: string)
    requires IsName(p) && IsName(q) && p != q && HasSection(lines)
    requires SectEnd(lines) == |lines| == SectAt(lines) + 2 && Matches(lines[|lines| - 1], p)
    ensures Bound(lines, q).None?
  {
    hide Matches, IsName, SectAt, SectEnd, Bound;
    if Matches(lines[|lines| - 1], q) {
      OneNamePerLine(lines[|lines| - 1], p, q);
    }
    Unbound(lines, q);
  }

  /** Writing updates the binding of one package and no other. */
  lemma WriteBinds(lines: seq<string>, header: seq<string>, p: string, o: Override, q: string)
    requires IsName(p) && IsName(q) && Proper(lines) && IsCommentBlock(header)
    ensures var next := WriteLines(lines, header, p, Row(p, o));
            Bound(next, q) == (if q == p then Some(Row(p, o)) else Bound(lines, q))
  {
    hide Row, First, SectAt, SectEnd, RowAt, FreshSection, Proper, IsCommentBlock;
    if HasSection(lines) {
      WriteBindsInSection(lines, header, p, o, q);
    } else {
      FreshBinds(lines, header, p, o, q);
    }
  }

  /** The last write wins. */
  lemma LastWriteWins(lines: seq<string>, header: seq<string>, p: string, o: Override, o': Override)
    requires IsName(p) && Proper(lines) && IsCommentBlock(header)
    ensures WriteLines(WriteLines(lines, header, p, Row(p, o)), header, p, Row(p, o'))
        == WriteLines(lines, header, p, Row(p, o'))
  {
    var row, row' := Row(p, o), Row(p, o');
    hide Row, First, SectAt, SectEnd, RowAt, Proper, IsCommentBlock;
    if HasSection(lines) {
      WriteBindsInSection(lines, header, p, o, p);
      ReplaceAgain(lines, header, p, row, row');
    } else {
      FreshBinds(lines, header, p, o, p);
      var next := FreshSection(lines, header, row);
      assert WriteLines(next, header, p, row') == next[|next| - 1 := row'] == FreshSection(lines, header, row');
    }
  }

  lemma ReplaceAgain(lines: seq<string>, header: seq<string>, p: string, row: string, row': string)
    requires HasSection(lines)
    requires var next := WriteLines(lines, header, p, row);
             HasRow(next, p) && RowAt(next, p) == WrittenAt(lines, header, p, row)
    ensures WriteLines(WriteLines(lines, header, p, row), header, p, row') == WriteLines(lines, header, p, row')
  {
    var next, at := WriteLines(lines, header, p, row), WrittenAt(lines, header, p, row);
    hide First, IsHeader, StartsTable, IsRow;
    assert WriteLines(next, header, p, row') == next[at := row'];
    hide SectAt, SectEnd, RowAt;
    if HasRow(lines, p) {
      assert next == lines[at := row];
    } else {
      assert next == lines[..at] + [row] + lines[at..];
      assert next[at := row'] == lines[..at] + [row'] + lines[at..];
    }
  }

  // ---------------------------------------------------------------------
  // Deleting
  // ---------------------------------------------------------------------

  /** Removing a row that a write inserted restores the lines. */
  lemma DeleteUndoesInsert(lines: seq<string>, header: seq<string>, p: string, o: Override)
    requires IsName(p) && HasSection(lines) && !HasRow(lines, p)
    ensures DeleteLines(WriteLines(lines, header, p, Row(p, o)), p) == lines
  {
    hide Row, First, SectAt, SectEnd, RowAt, IsName;
    WriteBindsInSection(lines, header, p, o, p);
  }

  predicate SecondRow(lines: seq<string>, p: string, j: nat)
    requires HasRow(lines, p)
  {
    RowAt(lines, p) < j < SectEnd(lines) && Matches(lines[j], p)
  }

  /** Deleting unbinds the package exactly when no second row of it stands in the
      section, and never changes what binds another. */
  lemma DeleteUnbinds(lines: seq<string>, p: string, q: string)
    requires IsName(p) && IsName(q) && HasRow(lines, p)
    ensures q != p ==> Bound(DeleteLines(lines, p), q) == Bound(lines, q)
    ensures Bound(DeleteLines(lines, p), p).None? <==> !exists j: nat :: SecondRow(lines, p, j)
  {
    hide *;
    if q != p {
      DeleteSparesOthers(lines, p, q);
    }
    DeleteShifts(lines, p);
    if j: nat :| SecondRow(lines, p, j) {
      SecondRowMoves(lines, p, j);
      BoundAt(DeleteLines(lines, p), p, j - 1);
    } else {
      NoSecondRow(lines, p);
      Unbound(DeleteLines(lines, p), p);
    }
  }

  lemma DeleteSparesOthers(lines: seq<string>, p: string, q: string)
    requires IsName(p) && IsName(q) && HasRow(lines, p) && q != p
    ensures Bound(DeleteLines(lines, p), q) == Bound(lines, q)
  {
    hide Matches, StartsTable, IsName, SectAt, SectEnd, DeleteLines, RowAt, Bound, Edited;
    DeleteIsAnEdit(lines, p);
    EditSparesOthers(lines, DeleteLines(lines, p), RowAt(lines, p), 1, 0, p, q);
  }

  lemma DeleteShifts(lines: seq<string>, p: string)
    requires HasRow(lines, p)
    ensures var next := DeleteLines(lines, p);
        HasSection(next) && SectAt(next) == SectAt(lines) && SectEnd(next) == SectEnd(lines) - 1
  {
    DeleteIsAnEdit(lines, p);
    hide Matches, StartsTable, SectAt, SectEnd, DeleteLines, RowAt;
    SectionAround(lines, DeleteLines(lines, p), RowAt(lines, p), 1, 0);
  }

  lemma SecondRowMoves(lines: seq<string>, p: string, j: nat)
    requires HasRow(lines, p) && SecondRow(lines, p, j)
    ensures var next := DeleteLines(lines, p); SectAt(next) < j - 1 < SectEnd(next) && Matches(next[j - 1], p)
  {
    hide Matches, SectAt, SectEnd, DeleteLines, RowAt;
    DeleteShifts(lines, p);
    DeleteIsAnEdit(lines, p);
  }

  lemma NoSecondRow(lines: seq<string>, p: string)
    requires HasRow(lines, p) && !exists j: nat :: SecondRow(lines, p, j)
    ensures var next := DeleteLines(lines, p); HasSection(next) && forall j :: SectAt(next) < j < SectEnd(next) ==>
        !Matches(next[j], p)
  {
    hide Matches, SectAt, SectEnd, DeleteLines, RowAt;
    DeleteShifts(lines, p);
    DeleteIsAnEdit(lines, p);
    var next, at := DeleteLines(lines, p), RowAt(lines, p);
    forall j | SectAt(next) < j < SectEnd(next) ensures !Matches(next[j], p) {
      assert j >= at ==> !SecondRow(lines, p, j + 1);
    }
  }

  lemma DeleteIsAnEdit(lines: seq<string>, p: string)
    requires HasRow(lines, p)
    ensures var next, at := DeleteLines(lines, p), RowAt(lines, p);
            && Edited(lines, next, at, 1, 0) && Matches(lines[at], p)
                && (forall j :: SectAt(lines) < j < at ==> !Matches(lines[j], p))
  {
    hide Matches;
    EditedSlices(lines, DeleteLines(lines, p), RowAt(lines, p), 1, 0);
  }

  lemma BoundAt(lines: seq<string>, p: string, j: nat)
    requires HasSection(lines) && SectAt(lines) < j < SectEnd(lines) && Matches(lines[j], p)
    ensures Bound(lines, p).Some?
  {
  }

  lemma Unbound(lines: seq<string>, p: string)
    requires HasSection(lines) && forall j :: SectAt(lines) < j < SectEnd(lines) ==> !Matches(lines[j], p)
    ensures Bound(lines, p).None?
  {
  }

  // ---------------------------------------------------------------------
  // On the text of the file
  // ---------------------------------------------------------------------

  lemma ProperConcat(a: seq<string>, b: seq<string>)
    requires Proper(a) && Proper(b) && (a != [] && b != [] ==> Ended(a[|a| - 1]))
    ensures Proper(a + b)
  {
  }

  /** The lines of the file after an edit are the edited lines, unless the header
      has no newline. */
  lemma WriteIsProper(lines: seq<string>, header: seq<string>, p: string, o: Override)
    requires Proper(lines) && IsCommentBlock(header) && !Unterminated(lines)
    ensures Proper(WriteLines(lines, header, p, Row(p, o)))
  {
    var row := Row(p, o);
    RowIsOneLine(p, o);
    hide Row, OneLine, Ended, IsHeader, IsRow, StartsTable;
    if !HasSection(lines) {
      FreshIsProper(lines, header, row);
    } else if !HasRow(lines, p) {
      var at := SectAt(lines) + 1;
      hide SectAt, SectEnd, RowAt;
      InsertIsProper(lines, at, row);
    }
  }

  lemma InsertIsProper(lines: seq<string>, at: nat, row: string)
    requires Proper(lines) && 0 < at <= |lines| && OneLine(row) && Ended(row) && Ended(lines[at - 1])
    ensures Proper(lines[..at] + [row] + lines[at..])
  {
  }

  lemma LastEndedIsProper(lines: seq<string>)
    requires Proper(lines)
    ensures var prior := LastEnded(lines); Proper(prior) && (prior != [] ==> Ended(prior[|prior| - 1]))
  {
  }

  lemma FreshIsProper(lines: seq<string>, header: seq<string>, row: string)
    requires Proper(lines) && IsCommentBlock(header) && OneLine(row) && Ended(row)
    ensures Proper(FreshSection(lines, header, row))
  {
    LastEndedIsProper(lines);
    SectionLine();
    hide OneLine, Ended, LastEnded;
    var prior := LastEnded(lines);
    var gap := if prior != [] && Strip(prior[|prior| - 1]) != [] then ["\n"] else [];
    assert OneLine("\n") && Ended("\n") by {
      NewlineIsLine();
    }
    ProperConcat(prior, gap);
    ProperConcat(prior + gap, header);
    ProperConcat(prior + gap + header, [SECTION + "\n", row]);
  }

  lemma NewlineIsLine()
    ensures OneLine("\n") && Ended("\n")
  {
  }

  lemma WriteReadsBack(text: string, header: seq<string>, p: string, o: Override)
    requires IsCommentBlock(header) && !Unterminated(Lines(text))
    ensures Lines(WriteText(text, header, p, o)) == WriteLines(Lines(text), header, p, Row(p, o))
  {
    hide Lines, Row, WriteLines, Unterminated, Proper, IsCommentBlock;
    LinesAreProper(text);
    WriteIsProper(Lines(text), header, p, o);
    SplitJoin(WriteLines(Lines(text), header, p, Row(p, o)));
  }

  /** An unterminated header and the row behind it become one line, which is no
      section header any more. */
  lemma UnterminatedGlues(lines: seq<string>, header: seq<string>, p: string, o: Override)
    requires Proper(lines) && Unterminated(lines)
    ensures !HasSection(Lines(Join(WriteLines(lines, header, p, Row(p, o)))))
  {
    hide *;
    UnterminatedLast(lines, header, p, Row(p, o));
    RowIsOneLine(p, o);
    GlueJoins(lines, Row(p, o));
    GlueIsProper(lines, Row(p, o));
    var glued := lines[..|lines| - 1] + [lines[|lines| - 1] + Row(p, o)];
    SplitJoin(glued);
    GlueIsNoHeader(lines[|lines| - 1], p, o);
    NoHeaderNoSection(glued);
  }

  lemma UnterminatedLast(lines: seq<string>, header: seq<string>, p: string, row: string)
    requires Unterminated(lines)
    ensures lines != [] && !Ended(lines[|lines| - 1]) && WriteLines(lines, header, p, row) == lines + [row]
    ensures forall j :: 0 <= j < |lines| - 1 ==> !IsHeader()(lines[j])
  {
    assert SectEnd(lines) == |lines|;
    hide IsHeader, IsRow, StartsTable;
  }

  lemma NoHeaderNoSection(lines: seq<string>)
    requires forall j :: 0 <= j < |lines| ==> !IsHeader()(lines[j])
    ensures !HasSection(lines)
  {
  }

  lemma GlueJoins(lines: seq<string>, row: string)
    requires lines != []
    ensures var k := |lines| - 1; Join(lines[..k] + [lines[k] + row]) == Join(lines + [row])
  {
    hide Join;
    var init, last := lines[..|lines| - 1], lines[|lines| - 1];
    JoinSnoc(init, last + row);
    JoinSnoc(lines, row);
    LastIs(lines, Join(init), row);
    JoinSnoc(init, last);
  }

  lemma LastIs(lines: seq<string>, front: string, row: string)
    requires lines != []
    ensures var k := |lines| - 1; lines[..k] + [lines[k]] == lines && front + (lines[k] + row) == front + lines[k] + row
  {
  }

  lemma GlueIsProper(lines: seq<string>, row: string)
    requires Proper(lines) && lines != [] && !Ended(lines[|lines| - 1]) && OneLine(row)
    ensures var k := |lines| - 1; Proper(lines[..k] + [lines[k] + row])
  {
  }

  lemma GlueIsNoHeader(h: string, p: string, o: Override)
    ensures !IsHeader()(h + Row(p, o))
  {
    var line := h + Row(p, o);
    var body := h + Quote(p) + " = { " + Body(o) + " ";
    hide Quote, Body;
    assert line == body + "}" + "\n";
    StripNewline(body + "}");
    StripKeepsLast(body);
    assert SECTION[|SECTION| - 1] == ']';
  }

  lemma {:induction false} LStripKeepsLast(s: string)
    requires s != [] && !IsSpace(s[|s| - 1])
    ensures LStrip(s) != [] && LStrip(s)[|LStrip(s)| - 1] == s[|s| - 1]
  {
    if IsSpace(s[0]) {
      LStripKeepsLast(s[1..]);
    }
  }

  lemma StripKeepsLast(body: string)
    ensures var s := Strip(body + "}"); s != [] && s[|s| - 1] == '}'
  {
    assert RStrip(body + "}") == body + "}";
    LStripKeepsLast(body + "}");
  }

  /** As far as the writer's own search goes, writing to the file updates the row
      of this package and of no other. It is not found exactly when the section
      header is an unterminated last line. What TOML makes of the file is
      `OverrideToml.WriteIsRead`. */
  lemma WriteUpdates(text: string, header: seq<string>, p: string, o: Override, q: string)
    requires IsName(p) && IsName(q) && IsCommentBlock(header)
    ensures var after := Lines(WriteText(text, header, p, o));
            && (q != p ==> Bound(after, q) == Bound(Lines(text), q))
            && (Bound(after, p) == Some(Row(p, o)) <==> !Unterminated(Lines(text)))
  {
    var lines := Lines(text);
    LinesAreProper(text);
    hide Lines, Row, WriteLines, SectAt, SectEnd, RowAt, Proper, IsName, IsCommentBlock;
    if Unterminated(lines) {
      UnterminatedGlues(lines, header, p, o);
      UnterminatedIsEmpty(lines, q);
    } else {
      WriteReadsBack(text, header, p, o);
      WriteBinds(lines, header, p, o, q);
      WriteBinds(lines, header, p, o, p);
    }
  }

  lemma UnterminatedIsEmpty(lines: seq<string>, q: string)
    requires Unterminated(lines)
    ensures Bound(lines, q).None?
  {
  }

  lemma GluedText(text: string, header: seq<string>, p: string, o: Override)
    requires Unterminated(Lines(text))
    ensures WriteText(text, header, p, o) == text + Row(p, o)
    ensures !HasSection(Lines(WriteText(text, header, p, o)))
  {
    hide *;
    var lines, row := Lines(text), Row(p, o);
    LinesAreProper(text);
    GluedLines(lines, header, p, row);
    WriteIs(text, header, p, o);
    JoinLines(text);
    JoinSnoc(lines, row);
    UnterminatedGlues(lines, header, p, o);
  }

  lemma GluedLines(lines: seq<string>, header: seq<string>, p: string, row: string)
    requires Unterminated(lines)
    ensures WriteLines(lines, header, p, row) == lines + [row]
  {
    hide IsRow, IsHeader, StartsTable;
    assert SectEnd(lines) == |lines|;
  }

  lemma JoinOne(a: string)
    ensures Join([a]) == a
  {
    assert [a][1..] == [] && a + [] == a;
  }

  /** A fresh section makes the text longer by more than its row. */
  lemma FreshIsLonger(lines: seq<string>, header: seq<string>, row: string)
    ensures |Join(FreshSection(lines, header, row))| > |Join(lines)| + |row|
  {
    var prior := LastEnded(lines);
    var gap := if prior != [] && Strip(prior[|prior| - 1]) != [] then ["\n"] else [];
    assert FreshSection(lines, header, row) == prior + (gap + header + [SECTION + "\n"]) + [row];
    EndedIsLonger(lines);
    assert |SECTION + "\n"| > 0;
    hide FreshSection, LastEnded, Join, Strip, SECTION;
    JoinConcat(prior + (gap + header + [SECTION + "\n"]), [row]);
    JoinConcat(prior, gap + header + [SECTION + "\n"]);
    JoinConcat(gap + header, [SECTION + "\n"]);
    JoinOne(row);
    JoinOne(SECTION + "\n");
  }

  lemma EndedIsLonger(lines: seq<string>)
    ensures |Join(LastEnded(lines))| >= |Join(lines)|
  {
    if lines != [] && !Ended(lines[|lines| - 1]) {
      var k := |lines| - 1;
      assert lines == lines[..k] + [lines[k]] && LastEnded(lines) == lines[..k] + [lines[k] + "\n"];
      hide Join, LastEnded;
      JoinConcat(lines[..k], [lines[k]]);
      JoinConcat(lines[..k], [lines[k] + "\n"]);
      JoinOne(lines[k]);
      JoinOne(lines[k] + "\n");
    }
  }

  /** Writing twice is writing the second, unless the first is glued to an unended
      header: then the second comes on top of it. */
  lemma WriteTwice(text: string, header: seq<string>, p: string, o: Override, o': Override)
    requires IsName(p) && IsCommentBlock(header)
    ensures WriteText(WriteText(text, header, p, o), header, p, o') == WriteText(text, header, p, o') <==>
        !Unterminated(Lines(text))
  {
    hide Lines, Row, WriteLines, Unterminated, HasSection, Proper, IsCommentBlock, FreshSection, Join;
    if Unterminated(Lines(text)) {
      var once := WriteText(text, header, p, o);
      GluedText(text, header, p, o);
      GluedText(text, header, p, o');
      JoinLines(once);
      FreshIsLonger(Lines(once), header, Row(p, o'));
      NoSectionIsFresh(Lines(once), header, p, Row(p, o'));
    } else {
      LinesAreProper(text);
      WriteReadsBack(text, header, p, o);
      LastWriteWins(Lines(text), header, p, o, o');
    }
  }

  lemma NoSectionIsFresh(lines: seq<string>, header: seq<string>, p: string, row: string)
    requires !HasSection(lines)
    ensures WriteLines(lines, header, p, row) == FreshSection(lines, header, row)
    ensures DeleteLines(lines, p) == lines
  {
  }

  /** What separates a fresh section from the text before it: that text is ended if
      it was not, and a blank line follows unless its last line is one. */
  ghost predicate SetsOff(text: string, gap: string) {
    if text == "" then gap == ""
    else
      gap == (if text[|text| - 1] == '\n' then "" else "\n") + if Strip(LastLine(text)) == "" then "" else "\n"
  }

  ghost function LastLine(text: string): string
    requires text != ""
  {
    Lines(text)[|Lines(text)| - 1]
  }

  lemma LastEndedOf(init: seq<string>, last: string)
    ensures LastEnded(init + [last]) == init + [if Ended(last) then last else last + "\n"]
  {
    hide Ended;
    assert (init + [last])[|init|] == last;
  }

  lemma JoinEnded(init: seq<string>, last: string)
    ensures Join(init + [if Ended(last) then last else last + "\n"])
         == Join(init + [last]) + if Ended(last) then "" else "\n"
  {
    hide *;
    JoinSnoc(init, last);
    JoinSnoc(init, last + "\n");
  }

  lemma LastEndedText(text: string)
    requires text != ""
    ensures var prior := LastEnded(Lines(text));
            && prior != [] && Strip(prior[|prior| - 1]) == Strip(LastLine(text))
            && Join(prior) == text + if text[|text| - 1] == '\n' then "" else "\n"
  {
    hide *;
    LinesEnd(text);
    var lines := Lines(text);
    var last := lines[|lines| - 1];
    assert lines == lines[..|lines| - 1] + [last];
    LastEndedOf(lines[..|lines| - 1], last);
    JoinEnded(lines[..|lines| - 1], last);
    JoinLines(text);
    StripNewline(last);
  }

  lemma LinesEnd(text: string)
    requires text != ""
    ensures var lines := Lines(text);
            && lines != [] && LastLine(text) == lines[|lines| - 1]
            && (Ended(lines[|lines| - 1]) <==> text[|text| - 1] == '\n')
  {
    hide *;
    LinesAreProper(text);
    JoinLines(text);
    LinesThere(text);
    var lines := Lines(text);
    var k := |lines| - 1;
    assert lines == lines[..k] + [lines[k]];
    JoinSnoc(lines[..k], lines[k]);
    ProperLast(lines);
    EndsAlike(Join(lines[..k]), lines[k]);
  }

  lemma LinesThere(text: string)
    requires text != ""
    ensures Lines(text) != [] && LastLine(text) == Lines(text)[|Lines(text)| - 1]
  {
  }

  lemma ProperLast(lines: seq<string>)
    requires Proper(lines) && lines != []
    ensures lines[|lines| - 1] != ""
  {
  }

  lemma EndsAlike(front: string, last: string)
    requires last != ""
    ensures Ended(last) <==> (front + last)[|front + last| - 1] == '\n'
  {
  }

  lemma FreshText(lines: seq<string>, header: seq<string>, row: string)
    ensures var prior := LastEnded(lines);
            var blank := if prior != [] && Strip(prior[|prior| - 1]) != "" then "\n" else "";
            Join(FreshSection(lines, header, row)) == Join(prior) + blank + Join(header) + (SECTION + "\n") + row
  {
    var prior := LastEnded(lines);
    var gap := if prior != [] && Strip(prior[|prior| - 1]) != [] then ["\n"] else [];
    assert FreshSection(lines, header, row) == prior + gap + header + [SECTION + "\n"] + [row];
    hide *;
    JoinSnoc(prior + gap + header + [SECTION + "\n"], row);
    JoinSnoc(prior + gap + header, SECTION + "\n");
    JoinConcat(prior + gap, header);
    JoinConcat(prior, gap);
    JoinOne("\n");
    JoinHead("", []);
  }

  /** Without a section of its own, the file keeps its text, and the section with
      the row is appended to it. */
  lemma FreshIsAppended(text: string, header: seq<string>, p: string, o: Override) returns (gap: string)
    requires !HasSection(Lines(text))
    ensures SetsOff(text, gap)
    ensures WriteText(text, header, p, o) == text + gap + Join(header) + (SECTION + "\n") + Row(p, o)
  {
    hide *;
    NoSectionIsFresh(Lines(text), header, p, Row(p, o));
    FreshText(Lines(text), header, Row(p, o));
    gap := GapOf(text);
    WriteIs(text, header, p, o);
  }

  lemma WriteIs(text: string, header: seq<string>, p: string, o: Override)
    ensures WriteText(text, header, p, o) == Join(WriteLines(Lines(text), header, p, Row(p, o)))
  {
  }

  lemma GapOf(text: string) returns (gap: string)
    ensures SetsOff(text, gap)
    ensures var prior := LastEnded(Lines(text));
            Join(prior) + (if prior != [] && Strip(prior[|prior| - 1]) != "" then "\n" else "") == text + gap
  {
    NothingEnded();
    hide Lines, Join, Strip, LastEnded, LastLine;
    if text == "" {
      gap := "";
    } else {
      LastEndedText(text);
      var first := if text[|text| - 1] == '\n' then "" else "\n";
      var second := if Strip(LastLine(text)) == "" then "" else "\n";
      gap := first + second;
      assert text + gap == text + first + second;
    }
  }

  lemma NothingEnded()
    ensures Lines("") == [] && LastEnded([]) == [] && Join([]) == ""
  {
  }

  /** Deleting after writing a new row into an existing section restores the file,
      unless the row is glued to an unended header: then it cannot be found. */
  lemma DeleteUndoesWrite(text: string, header: seq<string>, p: string, o: Override)
    requires IsName(p) && IsCommentBlock(header) && HasSection(Lines(text)) && !HasRow(Lines(text), p)
    ensures DeleteText(WriteText(text, header, p, o), p) == text <==> !Unterminated(Lines(text))
  {
    hide Lines, Row, WriteLines, DeleteLines, Unterminated, HasSection, HasRow, IsCommentBlock, Join, FreshSection;
    if Unterminated(Lines(text)) {
      var once := WriteText(text, header, p, o);
      GluedText(text, header, p, o);
      NoSectionIsFresh(Lines(once), header, p, "");
      JoinLines(once);
      RowIsOneLine(p, o);
      assert |once| == |text| + |Row(p, o)|;
    } else {
      WriteReadsBack(text, header, p, o);
      DeleteUndoesInsert(Lines(text), header, p, o);
      JoinLines(text);
    }
  }

  lemma DeleteIsProper(lines: seq<string>, p: string)
    requires Proper(lines)
    ensures Proper(DeleteLines(lines, p))
  {
  }

  /** Deleting from the file unbinds the package exactly when it had at most one
      row, and never changes what binds another. */
  lemma DeleteUpdates(text: string, p: string, q: string)
    requires IsName(p) && IsName(q)
    ensures var lines, after := Lines(text), Lines(DeleteText(text, p));
            && (q != p ==> Bound(after, q) == Bound(lines, q))
            && (Bound(after, p).None? <==> !HasRow(lines, p) || !exists j: nat :: SecondRow(lines, p, j))
  {
    var lines := Lines(text);
    hide Lines, SectAt, SectEnd, RowAt, IsName, Proper, SecondRow;
    LinesAreProper(text);
    DeleteIsProper(lines, p);
    SplitJoin(DeleteLines(lines, p));
    if HasRow(lines, p) {
      DeleteUnbinds(lines, p, q);
      DeleteUnbinds(lines, p, p);
    } else {
      JoinLines(text);
    }
  }
}
