/** The [package_compiler_overrides] table as a TOML reader sees it, line by line
    and apart from how the writer looks for it: tables and keys follow "Keys" and
    "Table" in TOML v1.0.0. */
module OverrideToml {
  import opened Prelude
  import opened OverrideText
  import opened OverrideRead
  import opened OverrideWriter

  const NAME := "package_compiler_overrides"

  // ---------------------------------------------------------------------
  // Reading one line
  // ---------------------------------------------------------------------

  function Content(line: string): string {
    if Ended(line) then line[..|line| - 1] else line
  }

  predicate BareChar(c: char) {
    'a' <= c <= 'z' || 'A' <= c <= 'Z' || '0' <= c <= '9' || c == '_' || c == '-'
  }

  function BareLength(s: string): (n: nat)
    ensures n <= |s|
  {
    if s != [] && BareChar(s[0]) then 1 + BareLength(s[1..]) else 0
  }

  /** A literal string behind its opening quote: the value and what follows. */
  function ReadLiteral(s: string): (r: Option<(string, string)>)
    ensures r.Some? ==> |r.value.1| < |s|
  {
    if s == [] then None
    else if s[0] == '\'' then Some(([], s[1..]))
    else
      match ReadLiteral(s[1..])
      case None => None
      case Some((v, rest)) => Some(([s[0]] + v, rest))
  }

  /** A key, quoted or bare, and what follows. */
  function ReadKey(s: string): Option<(string, string)> {
    if s == [] then None
    else if s[0] == '"' then ReadString(s[1..])
    else if s[0] == '\'' then ReadLiteral(s[1..])
    else if BareLength(s) == 0 then None
    else Some((s[..BareLength(s)], s[BareLength(s)..]))
  }

  /** Nothing but white space and a comment. */
  predicate LineEnds(s: string) {
    var r := LStrip(s);
    r == [] || r[0] == '#'
  }

  datatype Heading = NoHeading | Opening | Broken

  /** Does the line head the table? `Broken` if something else follows the header
      on the line, which is no TOML, or if it heads an array of tables of that name,
      which is no such table and leaves no room for one. */
  function HeadingOf(line: string): Heading {
    var s := LStrip(Content(line));
    if s == [] || s[0] != '[' then NoHeading
    else
      var twice := |s| > 1 && s[1] == '[';
      match ReadKey(LStrip(if twice then s[2..] else s[1..]))
      case None => NoHeading
      case Some((key, rest)) =>
        var r := LStrip(rest);
        if key != NAME || r == [] || r[0] != ']' then NoHeading
        else if !twice && LineEnds(r[1..]) then Opening
        else Broken
  }

  /** Every string in the text reads, up to a comment. */
  predicate StringsRead(s: string)
    decreases |s|
  {
    if s == [] || s[0] == '#' then true
    else if s[0] == '"' then ReadString(s[1..]).Some? && StringsRead(ReadString(s[1..]).value.1)
    else if s[0] == '\'' then ReadLiteral(s[1..]).Some? && StringsRead(ReadLiteral(s[1..]).value.1)
    else StringsRead(s[1..])
  }

  predicate LineReads(line: string) {
    StringsRead(Content(line))
  }

  predicate AllRead(rows: seq<string>) {
    forall row :: row in rows ==> LineReads(row)
  }

  /** The key a line binds, or the first part of a dotted one. */
  datatype Key = Key(name: string, dotted: bool)

  function KeyOf(line: string): Option<Key> {
    match ReadKey(LStrip(Content(line)))
    case None => None
    case Some((key, rest)) =>
      var r := LStrip(rest);
      if r == [] then None
      else if r[0] == '=' then Some(Key(key, false))
      else if r[0] == '.' then Some(Key(key, true))
      else None
  }

  // ---------------------------------------------------------------------
  // Reading the table
  // ---------------------------------------------------------------------

  function IsHeading(): string -> bool {
    line => !HeadingOf(line).NoHeading?
  }

  /** The lines that head the table, well-formed or not. */
  function Headings(lines: seq<string>): seq<string> {
    Filter(IsHeading(), lines)
  }

  /** The lines between the first heading and the next table. */
  function TableOf(lines: seq<string>): seq<string> {
    var t := First(lines, 0, |lines|, IsHeading());
    if t == |lines| then [] else lines[t + 1..First(lines, t + 1, |lines|, StartsTable())]
  }

  predicate Clash(a: string, b: string) {
    KeyOf(a).Some? && KeyOf(b).Some? && KeyOf(a).value.name == KeyOf(b).value.name
    && !(KeyOf(a).value.dotted && KeyOf(b).value.dotted)
  }

  /** Some key is bound twice. */
  ghost predicate Clashes(rows: seq<string>) {
    exists i, j :: 0 <= i < j < |rows| && Clash(rows[i], rows[j])
  }

  /** No key is bound twice, and every string reads. */
  ghost predicate Sound(rows: seq<string>) {
    !Clashes(rows) && AllRead(rows)
  }

  /** TOML accepts the file, as far as this table goes: it is defined at most once,
      it binds no key twice, and its strings read. */
  ghost predicate Loads(lines: seq<string>) {
    && |Headings(lines)| <= 1 && (forall h :: h in Headings(lines) ==> HeadingOf(h).Opening?)
    && Sound(TableOf(lines))
  }

  function Binds(p: string): string -> bool {
    line => KeyOf(line).Some? && KeyOf(line).value.name == p
  }

  /** The rows that bind `p`, none if it is unbound; None if the file does not load. */
  ghost function Reading(lines: seq<string>, p: string): Option<seq<string>> {
    if Loads(lines) then Some(Filter(Binds(p), TableOf(lines))) else None
  }

  // ---------------------------------------------------------------------
  // Reading what the writer knows
  // ---------------------------------------------------------------------

  lemma {:induction false} BareLengthIs(key: string, rest: string)
    requires (forall i :: 0 <= i < |key| ==> BareChar(key[i])) && (rest == [] || !BareChar(rest[0]))
    ensures BareLength(key + rest) == |key|
  {
    if key == [] {
      assert key + rest == rest;
    } else {
      assert (key + rest)[1..] == key[1..] + rest;
      BareLengthIs(key[1..], rest);
    }
  }

  lemma NameIsBare()
    ensures forall i :: 0 <= i < |NAME| ==> BareChar(NAME[i])
  {
  }

  lemma SectionIsNamed(rest: string)
    ensures SECTION + rest == "[" + (NAME + ("]" + rest))
  {
  }

  /** A line that starts with the header as the writer spells it. */
  lemma HeadingRead(line: string, rest: string)
    requires LStrip(Content(line)) == SECTION + rest
    ensures HeadingOf(line) == if LineEnds(rest) then Opening else Broken
  {
    var tail := "]" + rest;
    SectionIsNamed(rest);
    NameRead(tail);
    hide LStrip, ReadKey, LineEnds, NAME;
    var s := "[" + (NAME + tail);
    assert s[0] == '[' && s[1..] == NAME + tail && tail[0] == ']' && tail[1..] == rest;
    assert s[1] == (NAME + tail)[0] == 'p' by {
      NameStarts(tail);
    }
    NoSpaceToStrip(tail);
  }

  lemma NameStarts(tail: string)
    ensures (NAME + tail)[0] == 'p'
  {
  }

  lemma NameRead(tail: string)
    requires tail != [] && tail[0] == ']'
    ensures LStrip(NAME + tail) == NAME + tail && ReadKey(NAME + tail) == Some((NAME, tail))
  {
    NameIsBare();
    assert NAME[0] == 'p' && (NAME + tail)[..|NAME|] == NAME && (NAME + tail)[|NAME|..] == tail;
    hide BareLength, ReadString, ReadLiteral;
    BareLengthIs(NAME, tail);
  }

  lemma NoSpaceToStrip(s: string)
    requires s != [] && !IsSpace(s[0])
    ensures LStrip(s) == s
  {
  }

  /** White space all over. */
  predicate Blank(s: string) {
    forall i :: 0 <= i < |s| ==> IsSpace(s[i])
  }

  lemma {:induction false} BlankStrips(w: string, s: string)
    requires Blank(w)
    ensures LStrip(w + s) == LStrip(s)
  {
    if w == [] {
      assert w + s == s;
    } else {
      assert (w + s)[1..] == w[1..] + s;
      BlankStrips(w[1..], s);
    }
  }

  lemma BlankConcat(a: string, b: string)
    requires Blank(a) && Blank(b)
    ensures Blank(a + b)
  {
  }

  lemma BlankOne(c: char)
    requires IsSpace(c)
    ensures Blank([c]) && Blank("")
  {
  }

  lemma {:induction false} RStripParts(s: string) returns (w: string)
    ensures s == RStrip(s) + w && Blank(w)
  {
    hide Blank;
    BlankOne(' ');
    if s != [] && IsSpace(s[|s| - 1]) {
      var k := |s| - 1;
      var w' := RStripParts(s[..k]);
      BlankOne(s[k]);
      BlankConcat(w', [s[k]]);
      w := w' + [s[k]];
      assert s == s[..k] + [s[k]];
    } else {
      w := "";
    }
  }

  lemma {:induction false} LStripParts(s: string) returns (w: string)
    ensures s == w + LStrip(s) && Blank(w)
  {
    hide Blank;
    BlankOne(' ');
    if s != [] && IsSpace(s[0]) {
      var w' := LStripParts(s[1..]);
      BlankOne(s[0]);
      BlankConcat([s[0]], w');
      w := [s[0]] + w';
      assert s == [s[0]] + s[1..];
    } else {
      w := "";
    }
  }

  /** A header line of the writer, as white space around the header. */
  lemma HeaderParts(line: string) returns (before: string, after: string)
    requires IsHeader()(line)
    ensures line == before + (SECTION + after) && Blank(before) && Blank(after)
  {
    after := RStripParts(line);
    before := LStripParts(RStrip(line));
    assert line == before + SECTION + after == before + (SECTION + after);
  }

  /** Whatever the writer takes for the header heads the table. */
  lemma HeaderIsOpening(line: string)
    requires IsHeader()(line)
    ensures HeadingOf(line).Opening? && IsHeading()(line)
  {
    var before, after := HeaderParts(line);
    var rest := if Ended(line) then after[..|after| - 1] else after;
    assert Content(line) == before + (SECTION + rest) by {
      HeaderContent(line, before, after);
    }
    BlankStrips(before, SECTION + rest);
    NoSpaceToStrip(SECTION + rest);
    BlankStrips(rest, []);
    assert rest + [] == rest;
    hide HeadingOf, SECTION, Content, LStrip;
    HeadingRead(line, rest);
  }

  lemma HeaderContent(line: string, before: string, after: string)
    requires line == before + (SECTION + after)
    ensures Ended(line) ==> after != []
    ensures Content(line) == before + (SECTION + if Ended(line) then after[..|after| - 1] else after)
  {
    var head := before + SECTION;
    assert line == head + after && head[|head| - 1] == ']';
    if Ended(line) {
      assert line[..|line| - 1] == before + (SECTION + after[..|after| - 1]);
    }
  }

  /** The row that is written binds its package. */
  lemma RowBinds(p: string, o: Override)
    requires IsName(p)
    ensures KeyOf(Row(p, o)) == Some(Key(p, false)) && !IsHeading()(Row(p, o))
  {
    RowIsOneLine(p, o);
    var rest := " = { " + (Body(o) + " }");
    RowContent(p, o);
    NameIsPlain(p);
    var s := "\"" + (EscapedAll(p) + "\"" + rest);
    assert s[0] == '"' && s[1..] == EscapedAll(p) + "\"" + rest;
    StringReadsBack(p, rest);
    SpaceThenEquals(Body(o) + " }");
    hide EscapedAll, Body, Row, ReadString, LStrip, Plain;
    NoSpaceToStrip(s);
  }

  // ---------------------------------------------------------------------
  // The strings of the written row
  // ---------------------------------------------------------------------

  /** Text without a string or a comment in it. */
  predicate Bland(s: string) {
    forall i :: 0 <= i < |s| ==> s[i] != '"' && s[i] != '\'' && s[i] != '#'
  }

  lemma {:induction false} BlandReads(s: string, rest: string)
    requires Bland(s)
    ensures StringsRead(s + rest) == StringsRead(rest)
  {
    if s == [] {
      assert s + rest == rest;
    } else {
      assert (s + rest)[1..] == s[1..] + rest;
      BlandReads(s[1..], rest);
    }
  }

  /** A quoted value and more. */
  lemma QuoteReads(v: string, rest: string)
    ensures StringsRead(Quote(v) + rest) <==> Plain(v) && StringsRead(rest)
  {
    var s := Quote(v) + rest;
    assert s[0] == '"' && s[1..] == EscapedAll(v) + "\"" + rest;
    hide EscapedAll, ReadString, Plain, Quote;
    StringReadsBack(v, rest);
  }

  /** Text, a quoted value, and more. */
  lemma FieldReads(text: string, v: string, rest: string)
    requires Bland(text)
    ensures StringsRead(text + (Quote(v) + rest)) <==> Plain(v) && StringsRead(rest)
  {
    hide *;
    QuoteReads(v, rest);
    BlandReads(text, Quote(v) + rest);
  }

  lemma BodyReads(o: Override)
    ensures StringsRead(" = { " + (Body(o) + " }")) <==> AllPlain(o)
  {
    hide Quote, Plain, StringsRead;
    EndReads();
    match o
    case Bundle(toolchain, ld) =>
      if ld == "" {
        NothingIsPlain();
        assert " = { " + (Body(o) + " }") == " = { toolchain = " + (Quote(toolchain) + " }");
        FieldReads(" = { toolchain = ", toolchain, " }");
      } else {
        var last := ", ld = " + (Quote(ld) + " }");
        assert " = { " + (Body(o) + " }") == " = { toolchain = " + (Quote(toolchain) + last);
        FieldReads(" = { toolchain = ", toolchain, last);
        FieldReads(", ld = ", ld, " }");
      }
    case Raw(cc, cxx, ld) =>
      RawReads(cc, cxx, ld);
  }

  lemma RawReads(cc: string, cxx: string, ld: string)
    requires StringsRead(" }")
    ensures StringsRead(" = { " + (Body(Raw(cc, cxx, ld)) + " }")) <==> AllPlain(Raw(cc, cxx, ld))
  {
    hide Quote, Plain, StringsRead;
    var last := ", ld = " + (Quote(ld) + " }");
    var two := ", cxx = " + (Quote(cxx) + last);
    assert " = { " + (Body(Raw(cc, cxx, ld)) + " }") == " = { cc = " + (Quote(cc) + two);
    FieldReads(" = { cc = ", cc, two);
    FieldReads(", cxx = ", cxx, last);
    FieldReads(", ld = ", ld, " }");
  }

  lemma EndReads()
    ensures StringsRead(" }")
  {
    BlandReads(" }", "");
    assert " }" + "" == " }";
  }

  /** The strings of the row that is written read exactly if no value holds a
      character beyond the Basic Multilingual Plane. */
  lemma RowReads(p: string, o: Override)
    requires IsName(p)
    ensures LineReads(Row(p, o)) <==> AllPlain(o)
  {
    hide *;
    RowIsQuoted(p, o);
    NameIsPlain(p);
    QuoteReads(p, " = { " + (Body(o) + " }"));
    BodyReads(o);
  }

  lemma RowIsQuoted(p: string, o: Override)
    ensures LineReads(Row(p, o)) == StringsRead(Quote(p) + (" = { " + (Body(o) + " }")))
  {
    RowContent(p, o);
    hide Row, Body, EscapedAll, Content, StringsRead;
    assert Quote(p) + (" = { " + (Body(o) + " }")) == "\"" + (EscapedAll(p) + "\"" + (" = { " + (Body(o) + " }")));
  }

  lemma SpaceThenEquals(more: string)
    ensures var r := LStrip(" = { " + more); r != [] && r[0] == '='
  {
    assert (" = { " + more)[1..] == "= { " + more;
  }

  lemma RowContent(p: string, o: Override)
    ensures Content(Row(p, o)) == "\"" + (EscapedAll(p) + "\"" + (" = { " + (Body(o) + " }")))
  {
    RowIsOneLine(p, o);
    hide EscapedAll, Body;
    assert Row(p, o) == "\"" + (EscapedAll(p) + "\"" + (" = { " + (Body(o) + " }"))) + "\n";
  }

  lemma {:induction false} LStripEnded(s: string)
    ensures LStrip(s + "\n") == if LStrip(s) == [] then [] else LStrip(s) + "\n"
  {
    if s == [] {
      assert s + "\n" == "\n";
    } else {
      assert (s + "\n")[1..] == s[1..] + "\n";
      LStripEnded(s[1..]);
    }
  }

  lemma ContentStarts(line: string)
    ensures LStrip(Content(line)) != [] ==> LStrip(line) != [] && LStrip(line)[0] == LStrip(Content(line))[0]
  {
    if Ended(line) {
      assert line == Content(line) + "\n";
      LStripEnded(Content(line));
    }
  }

  lemma CommentIsNoHeading(line: string)
    requires line == "\n" || (line != [] && line[0] == '#')
    ensures !IsHeading()(line)
  {
    ContentStarts(line);
    NoSpaceToStrip("#");
  }

  // ---------------------------------------------------------------------
  // A file in parts
  // ---------------------------------------------------------------------

  /** What stands in front of the header, the header, its table, and the rest. */
  datatype Parts = Parts(pre: seq<string>, h: string, table: seq<string>, post: seq<string>)

  function Whole(f: Parts): seq<string> {
    f.pre + [f.h] + f.table + f.post
  }

  predicate Closed(table: seq<string>) {
    forall i :: 0 <= i < |table| ==> !StartsTable()(table[i])
  }

  ghost predicate Fits(f: Parts) {
    HeadingOf(f.h).Opening? && Closed(f.table) && (f.post != [] ==> StartsTable()(f.post[0]))
  }

  function PartsOf(lines: seq<string>): Parts
    requires HasSection(lines)
  {
    var s, e := SectAt(lines), SectEnd(lines);
    Parts(lines[..s], lines[s], lines[s + 1..e], lines[e..])
  }

  lemma PartsFit(lines: seq<string>)
    requires HasSection(lines)
    ensures Fits(PartsOf(lines)) && Whole(PartsOf(lines)) == lines
  {
    hide HeadingOf, IsHeader, StartsTable, IsHeading, First;
    HeaderIsOpening(lines[SectAt(lines)]);
    WholeAgain(lines, SectAt(lines), SectEnd(lines));
  }

  lemma WholeAgain(lines: seq<string>, s: nat, e: nat)
    requires s < e <= |lines|
    ensures lines[..s] + [lines[s]] + lines[s + 1..e] + lines[e..] == lines
  {
  }

  lemma HeadingStartsTable(line: string)
    requires IsHeading()(line)
    ensures StartsTable()(line)
  {
    ContentStarts(line);
  }

  lemma {:induction false} NoHeadings(lines: seq<string>)
    requires forall i :: 0 <= i < |lines| ==> !IsHeading()(lines[i])
    ensures Headings(lines) == []
  {
    hide IsHeading;
    if lines != [] {
      NoHeadings(lines[1..]);
    }
  }

  lemma ClosedHasNone(table: seq<string>)
    requires Closed(table)
    ensures Headings(table) == []
  {
    forall i | 0 <= i < |table| ensures !IsHeading()(table[i]) {
      if IsHeading()(table[i]) {
        HeadingStartsTable(table[i]);
      }
    }
    NoHeadings(table);
  }

  lemma HeadingsConcat(a: seq<string>, b: seq<string>)
    ensures Headings(a + b) == Headings(a) + Headings(b)
  {
    FilterConcat(IsHeading(), a, b);
  }

  lemma HeadingsOfOne(line: string)
    ensures Headings([line]) == if IsHeading()(line) then [line] else []
  {
    hide IsHeading;
    assert [line][1..] == [];
  }

  lemma HeadingsOfParts(f: Parts)
    requires Fits(f)
    ensures Headings(Whole(f)) == Headings(f.pre) + [f.h] + Headings(f.post)
  {
    hide Headings, HeadingOf;
    assert IsHeading()(f.h);
    HeadingsConcat(f.pre, [f.h]);
    HeadingsConcat(f.pre + [f.h], f.table);
    HeadingsConcat(f.pre + [f.h] + f.table, f.post);
    HeadingsOfOne(f.h);
    ClosedHasNone(f.table);
  }

  lemma HeadingsEmpty(lines: seq<string>)
    requires Headings(lines) == []
    ensures forall i :: 0 <= i < |lines| ==> !IsHeading()(lines[i])
  {
    hide IsHeading;
    forall i | 0 <= i < |lines| ensures !IsHeading()(lines[i]) {
      assert lines[i] in lines;
    }
  }

  lemma TableOfParts(f: Parts)
    requires Fits(f) && Headings(f.pre) == []
    ensures TableOf(Whole(f)) == f.table
  {
    HeadingsEmpty(f.pre);
    HeadsIt(f.h);
    hide Closed, StartsTable, IsHeading, TableOf, Headings, HeadingOf;
    InParts(f);
    TableBetween(Whole(f), f.pre, f.h, f.table, f.post);
  }

  lemma HeadsIt(h: string)
    requires HeadingOf(h).Opening?
    ensures IsHeading()(h)
  {
  }

  lemma InParts(f: Parts)
    ensures var all, t := Whole(f), |f.pre|;
        t < |all| && all[t] == f.h && all[..t] == f.pre && all[t + 1..] == f.table + f.post
  {
  }

  lemma TableBetween(all: seq<string>, pre: seq<string>, h: string, table: seq<string>, post: seq<string>)
    requires |pre| < |all| && all[|pre|] == h && all[..|pre|] == pre && all[|pre| + 1..] == table + post
    requires IsHeading()(h) && forall i :: 0 <= i < |pre| ==> !IsHeading()(pre[i])
    requires Closed(table) && (post != [] ==> StartsTable()(post[0]))
    ensures TableOf(all) == table
  {
    var t := |pre|;
    hide IsHeading, StartsTable, First;
    FirstIs(all, 0, |all|, IsHeading(), t);
    assert forall j :: t + 1 <= j < t + 1 + |table| ==> all[j] == all[t + 1..][j - t - 1];
    assert post != [] ==> all[t + 1..][|table|] == post[0];
    FirstIs(all, t + 1, |all|, StartsTable(), t + 1 + |table|);
    assert all[t + 1..t + 1 + |table|] == all[t + 1..][..|table|];
  }

  /** The table is defined once. */
  predicate Once(f: Parts) {
    Headings(f.pre) == [] && Headings(f.post) == []
  }

  lemma LoadsParts(f: Parts)
    requires Fits(f)
    ensures Loads(Whole(f)) <==> Once(f) && Sound(f.table)
    ensures Once(f) ==> TableOf(Whole(f)) == f.table
  {
    hide Sound, TableOf, Whole, Headings, Closed, StartsTable;
    HeadingsOfParts(f);
    if Headings(f.pre) == [] {
      TableOfParts(f);
    }
    if Once(f) {
      assert Headings(Whole(f)) == [f.h];
    }
  }

  // ---------------------------------------------------------------------
  // One row more
  // ---------------------------------------------------------------------

  ghost predicate AnyBinds(rows: seq<string>, p: string) {
    exists x :: x in rows && Binds(p)(x)
  }

  lemma {:induction false} NoneBinds(rows: seq<string>, p: string)
    ensures Filter(Binds(p), rows) == [] <==> !AnyBinds(rows, p)
  {
    hide Binds;
    if x :| x in rows && Binds(p)(x) {
      assert x in Filter(Binds(p), rows);
    }
    if Filter(Binds(p), rows) != [] {
      assert Filter(Binds(p), rows)[0] in Filter(Binds(p), rows);
    }
  }

  lemma ClashesInsert(a: seq<string>, row: string, b: seq<string>, p: string)
    requires KeyOf(row) == Some(Key(p, false))
    ensures Clashes(a + [row] + b) <==> Clashes(a + b) || AnyBinds(a + b, p)
  {
    if Clashes(a + [row] + b) {
      ClashOfInserted(a, row, b, p);
    } else {
      ClashesFewer(a, row, b);
      NoClashWith(a, row, b, p);
    }
  }

  lemma ClashOfInserted(a: seq<string>, row: string, b: seq<string>, p: string)
    requires KeyOf(row) == Some(Key(p, false)) && Clashes(a + [row] + b)
    ensures Clashes(a + b) || AnyBinds(a + b, p)
  {
    hide KeyOf;
    var c, d := a + [row] + b, a + b;
    var i, j :| 0 <= i < j < |c| && Clash(c[i], c[j]);
    var i', j' := if i < |a| then i else i - 1, if j < |a| then j else j - 1;
    if i == |a| {
      assert c[j] == d[j'] && c[j] in d;
    } else if j == |a| {
      assert c[i] == d[i'] && c[i] in d;
    } else {
      assert c[i] == d[i'] && c[j] == d[j'];
    }
  }

  lemma NoClashWith(a: seq<string>, row: string, b: seq<string>, p: string)
    requires KeyOf(row) == Some(Key(p, false)) && !Clashes(a + [row] + b)
    ensures !AnyBinds(a + b, p)
  {
    hide KeyOf;
    var c := a + [row] + b;
    assert c[|a|] == row;
    forall x | x in a + b ensures !Binds(p)(x) {
      var k :| 0 <= k < |a + b| && (a + b)[k] == x;
      var i := if k < |a| then k else k + 1;
      assert c[i] == x;
      assert !Clash(c[if i < |a| then i else |a|], c[if i < |a| then |a| else i]);
    }
  }

  lemma ClashesFewer(a: seq<string>, row: string, b: seq<string>)
    requires !Clashes(a + [row] + b)
    ensures !Clashes(a + b)
  {
    var c, d := a + [row] + b, a + b;
    hide Clash;
    forall i, j | 0 <= i < j < |d| ensures !Clash(d[i], d[j]) {
      var i', j' := if i < |a| then i else i + 1, if j < |a| then j else j + 1;
      assert c[i'] == d[i] && c[j'] == d[j];
    }
  }

  /** One more row: nobody else may bind its key, and it must read. */
  lemma SoundInsert(a: seq<string>, row: string, b: seq<string>, p: string)
    requires KeyOf(row) == Some(Key(p, false))
    ensures Sound(a + [row] + b) <==> Sound(a + b) && !AnyBinds(a + b, p) && LineReads(row)
  {
    ClashesInsert(a, row, b, p);
    ReadInsert(a, row, b);
    hide Clashes, AnyBinds, AllRead, LineReads;
  }

  lemma ReadInsert(a: seq<string>, row: string, b: seq<string>)
    ensures AllRead(a + [row] + b) <==> AllRead(a + b) && LineReads(row)
  {
    hide LineReads;
    assert forall x :: x in a + [row] + b <==> x in a + b || x == row;
  }

  lemma SoundFewer(a: seq<string>, row: string, b: seq<string>)
    requires Sound(a + [row] + b)
    ensures Sound(a + b)
  {
    ClashesFewer(a, row, b);
    ReadInsert(a, row, b);
    hide Clashes, AllRead;
  }

  lemma FilterOne(keep: string -> bool, x: string)
    ensures Filter(keep, [x]) == if keep(x) then [x] else []
  {
    assert [x][1..] == [];
  }

  lemma BoundRows(a: seq<string>, row: string, b: seq<string>, q: string)
    ensures Filter(Binds(q), a + [row] + b)
         == Filter(Binds(q), a) + (if Binds(q)(row) then [row] else []) + Filter(Binds(q), b)
    ensures Filter(Binds(q), a + b) == Filter(Binds(q), a) + Filter(Binds(q), b)
  {
    hide *;
    FilterConcat(Binds(q), a + [row], b);
    FilterConcat(Binds(q), a, [row]);
    FilterConcat(Binds(q), a, b);
    FilterOne(Binds(q), row);
  }

  // ---------------------------------------------------------------------
  // Where the edits take place
  // ---------------------------------------------------------------------

  /** The table around the place of the edit: what stands before it, the row that
      is replaced or removed, if there is one, and what stands behind it. */
  datatype Place = Place(a: seq<string>, was: seq<string>, b: seq<string>)

  function PlaceOf(lines: seq<string>, p: string): Place
    requires HasSection(lines)
  {
    var s, e, r := SectAt(lines), SectEnd(lines), RowAt(lines, p);
    if r < e then Place(lines[s + 1..r], [lines[r]], lines[r + 1..e]) else Place([], [], lines[s + 1..e])
  }

  lemma Replaced(lines: seq<string>, s: nat, r: nat, e: nat, row: string)
    requires s < r < e <= |lines|
    ensures lines[s + 1..e] == lines[s + 1..r] + [lines[r]] + lines[r + 1..e]
    ensures lines[..s] + [lines[s]] + (lines[s + 1..r] + [row] + lines[r + 1..e]) + lines[e..] == lines[r := row]
    ensures lines[..s] + [lines[s]] + (lines[s + 1..r] + lines[r + 1..e]) + lines[e..] == lines[..r] + lines[r + 1..]
  {
  }

  lemma Inserted(lines: seq<string>, s: nat, e: nat, row: string)
    requires s < e <= |lines|
    ensures lines[..s] + [lines[s]] + ([row] + lines[s + 1..e]) + lines[e..] == lines[..s + 1] + [row] + lines[s + 1..]
    ensures lines[..s] + [lines[s]] + lines[s + 1..e] + lines[e..] == lines
  {
  }

  lemma PlaceFits(lines: seq<string>, header: seq<string>, p: string, row: string)
    requires HasSection(lines)
    ensures var f, at := PartsOf(lines), PlaceOf(lines, p);
            && f.table == at.a + at.was + at.b
            && WriteLines(lines, header, p, row) == Whole(f.(table := at.a + [row] + at.b))
            && DeleteLines(lines, p) == Whole(f.(table := at.a + at.b))
            && (at.was == [] <==> !HasRow(lines, p)) && (HasRow(lines, p) ==> at.was == [lines[RowAt(lines, p)]])
  {
    hide SectAt, SectEnd, RowAt, WriteLines, DeleteLines;
    EditsAre(lines, header, p, row);
    var s, e, r := SectAt(lines), SectEnd(lines), RowAt(lines, p);
    if r < e {
      Replaced(lines, s, r, e, row);
    } else {
      Inserted(lines, s, e, row);
      NothingBefore(row, lines[s + 1..e]);
    }
  }

  lemma NothingBefore(row: string, table: seq<string>)
    ensures [] + [row] + table == [row] + table && [] + table == table && [] + [] + table == table
  {
  }

  lemma EditsAre(lines: seq<string>, header: seq<string>, p: string, row: string)
    requires HasSection(lines)
    ensures var s, r := SectAt(lines), RowAt(lines, p);
            if r < SectEnd(lines) then
              && WriteLines(lines, header, p, row) == lines[r := row]
              && DeleteLines(lines, p) == lines[..r] + lines[r + 1..]
            else
              && WriteLines(lines, header, p, row) == lines[..s + 1] + [row] + lines[s + 1..]
              && DeleteLines(lines, p) == lines
  {
    hide First;
  }

  lemma PlacedFits(lines: seq<string>, p: string, row: string)
    requires HasSection(lines) && !StartsTable()(row)
    ensures var f, at := PartsOf(lines), PlaceOf(lines, p);
            Fits(f) && Fits(f.(table := at.a + [row] + at.b)) && Fits(f.(table := at.a + at.b))
  {
    PartsFit(lines);
    PlaceFits(lines, [], p, row);
    hide HeadingOf, StartsTable, PartsOf, PlaceOf, WriteLines, DeleteLines, Whole;
    var f, at := PartsOf(lines), PlaceOf(lines, p);
    SomeClosed(at.a, at.was, at.b, row);
  }

  lemma SomeClosed(a: seq<string>, was: seq<string>, b: seq<string>, row: string)
    requires Closed(a + was + b) && !StartsTable()(row)
    ensures Closed(a + [row] + b) && Closed(a + b)
  {
    hide StartsTable;
    var c := a + was + b;
    assert forall i :: 0 <= i < |a| ==> c[i] == a[i];
    assert forall i :: 0 <= i < |b| ==> c[|a| + |was| + i] == b[i];
  }

  // ---------------------------------------------------------------------
  // Writing, as TOML reads it
  // ---------------------------------------------------------------------

  /** When a write binds its package: the table is not there yet; or the writer
      recognises its header, the header line is ended, and the file loads and does
      not bind the package once the row that the writer recognises is gone. */
  ghost predicate Accepts(lines: seq<string>, p: string) {
    || Headings(lines) == []
    || (HasSection(lines) && !Unterminated(lines) && Reading(DeleteLines(lines, p), p) == Some([]))
  }

  lemma WriteInTable(lines: seq<string>, header: seq<string>, p: string, o: Override)
    requires IsName(p) && HasSection(lines)
    ensures var after := WriteLines(lines, header, p, Row(p, o));
            && Reading(after, p) == (if Reading(DeleteLines(lines, p), p) == Some([]) && AllPlain(o)
                 then Some([Row(p, o)]) else None)
            && forall q :: q != p && Loads(after) ==> Reading(after, q) == Reading(DeleteLines(lines, p), q)
  {
    var row, f, at := Row(p, o), PartsOf(lines), PlaceOf(lines, p);
    RowBinds(p, o);
    RowReads(p, o);
    RowIsNoTable(p, o);
    PlaceFits(lines, header, p, row);
    PlacedFits(lines, p, row);
    assert Binds(p)(row) && forall q :: q != p ==> !Binds(q)(row);
    hide Row, WriteLines, DeleteLines, PartsOf, PlaceOf, Fits, LineReads, AllPlain, Sound, Loads, TableOf, Whole,
        Binds, Filter, KeyOf, Once;
    TableRead(f, at.a, at.b, row, p);
    forall q | q != p ensures Loads(Whole(f.(table := at.a + [row] + at.b))) ==>
      Reading(Whole(f.(table := at.a + [row] + at.b)), q) == Reading(Whole(f.(table := at.a + at.b)), q)
    {
      OtherRead(f, at.a, at.b, row, p, q);
    }
  }

  lemma ReadParts(f: Parts, q: string)
    requires Fits(f)
    ensures Reading(Whole(f), q) == if Once(f) && Sound(f.table) then Some(Filter(Binds(q), f.table)) else None
  {
    LoadsParts(f);
    hide Fits, Whole, Loads, Sound, Filter, Once, TableOf;
  }

  lemma BindsIts(row: string, p: string)
    requires KeyOf(row) == Some(Key(p, false))
    ensures Binds(p)(row)
  {
  }

  lemma OnceAlike(f: Parts, table: seq<string>, other: seq<string>)
    ensures Once(f.(table := table)) == Once(f.(table := other))
  {
  }

  lemma TableRead(f: Parts, a: seq<string>, b: seq<string>, row: string, p: string)
    requires Fits(f.(table := a + [row] + b)) && Fits(f.(table := a + b)) && KeyOf(row) == Some(Key(p, false))
    ensures Reading(Whole(f.(table := a + [row] + b)), p)
         == if Reading(Whole(f.(table := a + b)), p) == Some([]) && LineReads(row) then Some([row]) else None
  {
    hide *;
    BindsIts(row, p);
    OnceAlike(f, a + [row] + b, a + b);
    ReadParts(f.(table := a + [row] + b), p);
    ReadParts(f.(table := a + b), p);
    SoundInsert(a, row, b, p);
    NoneBinds(a + b, p);
    BoundRows(a, row, b, p);
    var fa, fb := Filter(Binds(p), a), Filter(Binds(p), b);
    if fa + fb == [] {
      assert |fa| == 0 && |fb| == 0 && fa + [row] + fb == [row];
    }
  }

  lemma OtherRead(f: Parts, a: seq<string>, b: seq<string>, row: string, p: string, q: string)
    requires Fits(f.(table := a + [row] + b)) && Fits(f.(table := a + b)) && KeyOf(row) == Some(Key(p, false))
    requires !Binds(q)(row)
    ensures Loads(Whole(f.(table := a + [row] + b))) ==>
              Reading(Whole(f.(table := a + [row] + b)), q) == Reading(Whole(f.(table := a + b)), q)
  {
    hide *;
    var with, sans := f.(table := a + [row] + b), f.(table := a + b);
    OnceAlike(f, a + [row] + b, a + b);
    LoadsParts(with);
    ReadParts(with, q);
    ReadParts(sans, q);
    SoundInsert(a, row, b, p);
    BoundRows(a, row, b, q);
    assert Filter(Binds(q), a) + [] + Filter(Binds(q), b) == Filter(Binds(q), a) + Filter(Binds(q), b);
  }

  /** A header the writer does not recognise, or a file without one. */
  lemma WriteFresh(lines: seq<string>, header: seq<string>, p: string, o: Override)
    requires IsName(p) && Proper(lines) && IsCommentBlock(header) && !HasSection(lines)
    ensures Reading(FreshSection(lines, header, Row(p, o)), p)
         == if Headings(lines) == [] && AllPlain(o) then Some([Row(p, o)]) else None
    ensures Headings(lines) == [] && AllPlain(o) ==> forall q :: q != p ==>
        Reading(FreshSection(lines, header, Row(p, o)), q) == Some([])
  {
    var row := Row(p, o);
    var f := FreshParts(lines, header, row);
    RowIsNoTable(p, o);
    RowBinds(p, o);
    FreshFits(lines, header, row);
    assert Binds(p)(row) && forall q :: q != p ==> !Binds(q)(row);
    RowReads(p, o);
    hide Fits, Whole, FreshParts, Row, FreshSection, Headings, HasSection, Binds, IsCommentBlock, Proper, KeyOf,
        Reading, LineReads, AllPlain, Sound;
    FreshHeadings(lines, header, row);
    OneRow(row);
    forall q
      ensures Reading(Whole(f), q)
           == if Once(f) && LineReads(row) then Some(if Binds(q)(row) then [row] else []) else None
    {
      ReadParts(f, q);
      FilterOne(Binds(q), row);
    }
  }

  lemma OneRow(row: string)
    ensures Sound([row]) <==> LineReads(row)
  {
    hide LineReads, Clash;
    assert row in [row];
  }

  function FreshParts(lines: seq<string>, header: seq<string>, row: string): Parts {
    var prior := LastEnded(lines);
    var gap := if prior != [] && Strip(prior[|prior| - 1]) != [] then ["\n"] else [];
    Parts(prior + gap + header, SECTION + "\n", [row], [])
  }

  lemma FreshFits(lines: seq<string>, header: seq<string>, row: string)
    requires !StartsTable()(row)
    ensures var f := FreshParts(lines, header, row);
            Fits(f) && Whole(f) == FreshSection(lines, header, row) && f.table == [row] && f.post == []
  {
    hide HeadingOf, StartsTable, SECTION, LastEnded, Strip;
    FreshHeader();
    TwoMore(FreshParts(lines, header, row).pre, SECTION + "\n", row);
  }

  lemma FreshHeader()
    ensures HeadingOf(SECTION + "\n").Opening?
  {
    hide IsHeader, HeadingOf, OneLine, Ended, SECTION;
    SectionLine();
    HeaderIsOpening(SECTION + "\n");
  }

  lemma TwoMore(pre: seq<string>, h: string, row: string)
    ensures pre + [h] + [row] + [] == pre + [h, row]
  {
  }

  /** What is put in front of a fresh header heads nothing. */
  lemma FreshHeadings(lines: seq<string>, header: seq<string>, row: string)
    requires Proper(lines) && IsCommentBlock(header)
    ensures var f := FreshParts(lines, header, row); Once(f) <==> Headings(lines) == []
  {
    var prior := LastEnded(lines);
    var gap := if prior != [] && Strip(prior[|prior| - 1]) != [] then ["\n"] else [];
    forall i | 0 <= i < |header| ensures !IsHeading()(header[i]) {
      CommentIsNoHeading(header[i]);
    }
    CommentIsNoHeading("\n");
    EndingIsNothing(lines);
    assert Headings([]) == [];
    hide IsHeading, Headings, Strip, LastEnded, IsComment;
    NoHeadings(header);
    NoHeadings(gap);
    HeadingsConcat(prior, gap);
    HeadingsConcat(prior + gap, header);
  }

  /** A newline at the end changes no heading. */
  lemma EndingIsNothing(lines: seq<string>)
    ensures Headings(LastEnded(lines)) == [] <==> Headings(lines) == []
  {
    if lines != [] && !Ended(lines[|lines| - 1]) {
      var k := |lines| - 1;
      var line := lines[k];
      assert Content(line + "\n") == line == Content(line);
      assert lines == lines[..k] + [line] && LastEnded(lines) == lines[..k] + [line + "\n"];
      assert IsHeading()(line + "\n") == IsHeading()(line);
      hide IsHeading, Headings, LastEnded, Content;
      HeadingsConcat(lines[..k], [line]);
      HeadingsConcat(lines[..k], [line + "\n"]);
      HeadingsOfOne(line);
      HeadingsOfOne(line + "\n");
    }
  }

  lemma GluedContent(before: string, after: string, row: string)
    requires Ended(row)
    ensures Content(before + (SECTION + after) + row) == before + (SECTION + (after + row[..|row| - 1]))
  {
    var line, init := before + (SECTION + after) + row, row[..|row| - 1];
    assert line[|line| - 1] == row[|row| - 1];
    assert line[..|line| - 1] == before + (SECTION + after) + init == before + (SECTION + (after + init));
  }

  /** A header without a newline and the row behind it are one broken line. */
  lemma GluedIsBroken(h: string, p: string, o: Override)
    requires IsHeader()(h) && IsName(p)
    ensures HeadingOf(h + Row(p, o)) == Broken
  {
    hide *;
    var before, after := HeaderParts(h);
    RowIsOneLine(p, o);
    RowHead(p, o);
    var init := Row(p, o)[..|Row(p, o)| - 1];
    GluedContent(before, after, Row(p, o));
    BlankStrips(before, SECTION + (after + init));
    SectionStrips(after + init);
    HeadingRead(h + Row(p, o), after + init);
    BlankStrips(after, init);
    NoSpaceToStrip(init);
    NoLineEnd(after + init);
  }

  lemma NoLineEnd(s: string)
    requires LStrip(s) != [] && LStrip(s)[0] == '"'
    ensures !LineEnds(s)
  {
  }

  lemma SectionStrips(rest: string)
    ensures LStrip(SECTION + rest) == SECTION + rest
  {
  }

  lemma RowHead(p: string, o: Override)
    ensures Row(p, o) != []
    ensures var s := Row(p, o)[..|Row(p, o)| - 1]; s != [] && s[0] == '"' && !IsSpace(s[0])
  {
    RowContent(p, o);
    RowIsOneLine(p, o);
    hide Body, EscapedAll, Row;
  }

  /** A write behind an unended header: the file does not load any more. */
  lemma WriteGlues(lines: seq<string>, header: seq<string>, p: string, o: Override, q: string)
    requires IsName(p) && Proper(lines) && Unterminated(lines)
    ensures Reading(Lines(Join(WriteLines(lines, header, p, Row(p, o)))), q) == None
  {
    hide *;
    UnterminatedLast(lines, header, p, Row(p, o));
    LastIsHeader(lines);
    RowIsOneLine(p, o);
    var init, last := lines[..|lines| - 1], lines[|lines| - 1] + Row(p, o);
    GlueJoins(lines, Row(p, o));
    GlueIsProper(lines, Row(p, o));
    SplitJoin(init + [last]);
    GluedIsBroken(lines[|lines| - 1], p, o);
    BrokenRefuses(init, last, q);
  }

  lemma LastIsHeader(lines: seq<string>)
    requires Unterminated(lines)
    ensures lines != [] && IsHeader()(lines[|lines| - 1])
  {
  }

  lemma BrokenRefuses(init: seq<string>, last: string, q: string)
    requires HeadingOf(last) == Broken
    ensures Reading(init + [last], q) == None
  {
    hide HeadingOf, TableOf, Sound;
    var all := init + [last];
    assert IsHeading()(last) && last in all;
    assert last in Headings(all);
  }

  /** `p` is bound by one row, to these settings. */
  ghost predicate BoundTo(lines: seq<string>, p: string, settings: map<string, string>) {
    exists row :: Reading(lines, p) == Some([row]) && ReadRow(row) == Some((p, settings))
  }

  /** Writing to the file, as TOML reads it afterwards: the package is bound to the
      settings chosen and to nothing else, or the file does not load. */
  lemma WriteIsRead(text: string, header: seq<string>, p: string, o: Override)
    requires IsName(p) && IsCommentBlock(header)
    ensures var after := Lines(WriteText(text, header, p, o));
            && Reading(after, p) == (if Accepts(Lines(text), p) && AllPlain(o) then Some([Row(p, o)]) else None)
            && if Accepts(Lines(text), p) && AllPlain(o) then BoundTo(after, p, Settings(o)) else !Loads(after)
  {
    hide *;
    WrittenReading(text, header, p, o);
    RowReadsBack(p, o);
    BoundByRow(Lines(WriteText(text, header, p, o)), p, Row(p, o), Settings(o));
    ReadingLoads(Lines(WriteText(text, header, p, o)), p);
  }

  lemma BoundByRow(lines: seq<string>, p: string, row: string, settings: map<string, string>)
    ensures Reading(lines, p) == Some([row]) && ReadRow(row) == Some((p, settings)) ==> BoundTo(lines, p, settings)
  {
  }

  lemma WrittenReading(text: string, header: seq<string>, p: string, o: Override)
    requires IsName(p) && IsCommentBlock(header)
    ensures Reading(Lines(WriteText(text, header, p, o)), p)
         == if Accepts(Lines(text), p) && AllPlain(o) then Some([Row(p, o)]) else None
  {
    var lines := Lines(text);
    LinesAreProper(text);
    SectionHasHeading(lines);
    UnterminatedHasSection(lines);
    hide Lines, Row, WriteLines, SectAt, Proper, IsName, IsCommentBlock, Reading, Headings, HasSection, Unterminated,
        DeleteLines, FreshSection, AllPlain;
    if Unterminated(lines) {
      WriteGlues(lines, header, p, o, p);
    } else {
      WriteReadsBack(text, header, p, o);
      if HasSection(lines) {
        WriteInTable(lines, header, p, o);
      } else {
        NoSectionIsFresh(lines, header, p, Row(p, o));
        WriteFresh(lines, header, p, o);
      }
    }
  }

  lemma UnterminatedHasSection(lines: seq<string>)
    ensures Unterminated(lines) ==> HasSection(lines)
  {
  }

  lemma SectionHasHeading(lines: seq<string>)
    ensures HasSection(lines) ==> Headings(lines) != []
  {
    if HasSection(lines) {
      HeaderIsOpening(lines[SectAt(lines)]);
      hide IsHeading, HeadingOf, IsHeader;
      assert lines[SectAt(lines)] in Headings(lines);
    }
  }

  /** The row the writer recognises, if there is one, is a row of this package for
      TOML too, or none at all. */
  predicate OwnRow(lines: seq<string>, p: string) {
    HasRow(lines, p) ==> var k := KeyOf(lines[RowAt(lines, p)]); k.None? || k.value.name == p
  }

  /** A removed or replaced row is missed by the package it bound, and by no other. */
  lemma OnlyItsReaderMisses(f: Parts, a: seq<string>, was: string, b: seq<string>, q: string)
    requires Fits(f.(table := a + [was] + b)) && Fits(f.(table := a + b)) && Loads(Whole(f.(table := a + [was] + b)))
    ensures Loads(Whole(f.(table := a + b)))
    ensures Reading(Whole(f.(table := a + b)), q) == Reading(Whole(f.(table := a + [was] + b)), q) <==> !Binds(q)(was)
    ensures Reading(Whole(f.(table := a + b)), q) == Some([]) <==>
              Reading(Whole(f.(table := a + [was] + b)), q) in {Some([]), Some([was])}
  {
    hide *;
    var with, sans := f.(table := a + [was] + b), f.(table := a + b);
    OnceAlike(f, a + [was] + b, a + b);
    LoadsParts(with);
    LoadsParts(sans);
    SoundFewer(a, was, b);
    ReadParts(with, q);
    ReadParts(sans, q);
    BoundRows(a, was, b, q);
    var fa, fb := Filter(Binds(q), a), Filter(Binds(q), b);
    if Binds(q)(was) {
      assert |fa + [was] + fb| == |fa + fb| + 1;
      if fa + fb == [] {
        assert |fa| == 0 && |fb| == 0 && fa + [was] + fb == [was];
      }
    } else {
      assert fa + [] + fb == fa + fb;
      OnlyOwnRows(a, was, b, q);
    }
  }

  /** A row that does not bind `q` is not among those that do. */
  lemma OnlyOwnRows(a: seq<string>, was: string, b: seq<string>, q: string)
    requires !Binds(q)(was)
    ensures Filter(Binds(q), a + [was] + b) != [was]
  {
    hide Binds;
    assert was !in Filter(Binds(q), a + [was] + b);
    assert was in [was];
  }

  lemma OwnRowIff(lines: seq<string>, p: string)
    ensures OwnRow(lines, p) <==> (HasRow(lines, p) ==> forall q :: q != p ==> !Binds(q)(lines[RowAt(lines, p)]))
  {
    if HasRow(lines, p) {
      var k := KeyOf(lines[RowAt(lines, p)]);
      hide KeyOf, HasRow;
      if k.Some? && k.value.name != p {
        assert Binds(k.value.name)(lines[RowAt(lines, p)]);
      }
    }
  }

  /** Without the row the writer recognises, the file still loads. Other packages
      notice exactly if that row bound one of them. */
  lemma DeleteOnLines(lines: seq<string>, p: string)
    requires IsName(p) && HasRow(lines, p) && Loads(lines)
    ensures var sans := DeleteLines(lines, p);
            && Loads(sans)
            && ((forall q :: q != p ==> Reading(sans, q) == Reading(lines, q)) <==> OwnRow(lines, p))
            && (Reading(sans, p) == Some([]) <==>
                  Reading(lines, p) in {Some([]), Some([lines[RowAt(lines, p)]])})
  {
    hide *;
    RowHasSection(lines, p);
    var f, at, was := PartsOf(lines), PlaceOf(lines, p), lines[RowAt(lines, p)];
    PlaceFits(lines, [], p, "");
    PartsFit(lines);
    NothingStarts();
    PlacedFits(lines, p, "");
    PartsAgain(f, at.a, was, at.b);
    OwnRowIff(lines, p);
    forall q ensures Reading(DeleteLines(lines, p), q) == Reading(lines, q) <==> !Binds(q)(was) {
      OnlyItsReaderMisses(f, at.a, was, at.b, q);
    }
    OnlyItsReaderMisses(f, at.a, was, at.b, p);
  }

  lemma NothingStarts()
    ensures !StartsTable()("")
  {
  }

  lemma RowHasSection(lines: seq<string>, p: string)
    requires HasRow(lines, p)
    ensures HasSection(lines) && RowAt(lines, p) < |lines|
  {
  }

  lemma PartsAgain(f: Parts, a: seq<string>, was: string, b: seq<string>)
    requires f.table == a + [was] + b
    ensures f.(table := a + [was] + b) == f
  {
  }

  lemma NoTable(lines: seq<string>, q: string)
    requires Headings(lines) == []
    ensures Reading(lines, q) == Some([])
  {
    HeadingsEmpty(lines);
    hide IsHeading, Headings, HeadingOf;
    FirstIs(lines, 0, |lines|, IsHeading(), |lines|);
  }

  lemma AcceptedLoads(lines: seq<string>, p: string)
    requires Accepts(lines, p)
    ensures HasSection(lines) ==> !Unterminated(lines) && Reading(DeleteLines(lines, p), p) == Some([])
    ensures !HasSection(lines) ==> Headings(lines) == []
  {
    SectionHasHeading(lines);
    hide Headings, HasSection, Unterminated, DeleteLines, Reading;
  }

  /** Writing to a file that loads leaves all other packages as they were exactly
      when the write binds its own and the row it replaces, if any, bound none of
      them. */
  lemma WriteSpares(text: string, header: seq<string>, p: string, o: Override)
    requires IsName(p) && IsCommentBlock(header) && Loads(Lines(text))
    ensures var lines, after := Lines(text), Lines(WriteText(text, header, p, o));
            (forall q :: q != p ==> Reading(after, q) == Reading(lines, q))
              <==> Accepts(lines, p) && AllPlain(o) && OwnRow(lines, p)
  {
    hide *;
    var lines, after := Lines(text), Lines(WriteText(text, header, p, o));
    if Accepts(lines, p) && AllPlain(o) {
      AcceptedSpares(text, header, p, o);
    } else {
      WriteIsRead(text, header, p, o);
      var q := p + "x";
      assert q != p;
      ReadingLoads(after, q);
      ReadingLoads(lines, q);
    }
  }

  lemma AcceptedSpares(text: string, header: seq<string>, p: string, o: Override)
    requires IsName(p) && IsCommentBlock(header) && Accepts(Lines(text), p) && AllPlain(o) && Loads(Lines(text))
    ensures var lines, after := Lines(text), Lines(WriteText(text, header, p, o));
            (forall q :: q != p ==> Reading(after, q) == Reading(lines, q)) <==> OwnRow(lines, p)
  {
    hide *;
    var lines := Lines(text);
    LinesAreProper(text);
    AcceptedLoads(lines, p);
    UnterminatedHasSection(lines);
    WriteReadsBack(text, header, p, o);
    WrittenReading(text, header, p, o);
    if !HasSection(lines) {
      NoSectionIsFresh(lines, header, p, Row(p, o));
      WriteFresh(lines, header, p, o);
      forall q ensures Reading(lines, q) == Some([]) {
        NoTable(lines, q);
      }
      NoOwnRow(lines, p);
    } else {
      WriteInTable(lines, header, p, o);
      ReadingLoads(WriteLines(lines, header, p, Row(p, o)), p);
      if HasRow(lines, p) {
        DeleteOnLines(lines, p);
      } else {
        NoOwnRow(lines, p);
      }
    }
  }

  lemma ReadingLoads(lines: seq<string>, p: string)
    ensures Reading(lines, p).Some? <==> Loads(lines)
  {
  }

  lemma NoOwnRow(lines: seq<string>, p: string)
    ensures !HasSection(lines) ==> !HasRow(lines, p)
    ensures !HasRow(lines, p) ==> OwnRow(lines, p) && DeleteLines(lines, p) == lines
  {
  }

  /** Deleting from a file that loads: it loads again, the package is unbound
      exactly when it was or when the row the writer recognises was its only one,
      and all others are as they were exactly when that row bound none of them. */
  lemma DeleteIsRead(text: string, p: string)
    requires IsName(p) && Loads(Lines(text))
    ensures var lines, after := Lines(text), Lines(DeleteText(text, p));
            && Loads(after)
            && (Reading(after, p) == Some([]) <==>
                  Reading(lines, p) == Some([])
                      || (HasRow(lines, p) && Reading(lines, p) == Some([lines[RowAt(lines, p)]])))
            && ((forall q :: q != p ==> Reading(after, q) == Reading(lines, q)) <==> OwnRow(lines, p))
  {
    hide *;
    var lines := Lines(text);
    DeleteReadsBack(text, p);
    NoOwnRow(lines, p);
    if HasRow(lines, p) {
      DeleteOnLines(lines, p);
    }
  }

  lemma DeleteReadsBack(text: string, p: string)
    ensures Lines(DeleteText(text, p)) == DeleteLines(Lines(text), p)
  {
    hide Lines, DeleteLines, Proper;
    LinesAreProper(text);
    DeleteIsProper(Lines(text), p);
    SplitJoin(DeleteLines(Lines(text), p));
  }

  // ---------------------------------------------------------------------
  // Three writes that break the file
  // ---------------------------------------------------------------------

  lemma OneLineText(text: string)
    requires OneLine(text)
    ensures Lines(text) == [text]
  {
    CutIs(text, |text|);
    assert text[..|text|] == text && text[|text|..] == [];
  }

  /** The header has a comment behind it: the writer does not recognise it and
      appends a second one. The file loaded before and does not after. */
  lemma CommentedHeader(header: seq<string>, p: string, o: Override)
    requires IsName(p) && IsCommentBlock(header)
    ensures var text := SECTION + " # mine\n";
            && Loads(Lines(text)) && !Unterminated(Lines(text))
            && Reading(Lines(WriteText(text, header, p, o)), p) == None
  {
    var text := SECTION + " # mine\n";
    assert OneLine(text) && Content(text) == SECTION + " # mine" by {
      CommentedContent();
    }
    OneLineText(text);
    CommentEnds();
    SectionStrips(" # mine");
    HeadingRead(text, " # mine");
    hide Lines, SECTION, HeadingOf, LineEnds, Content, OneLine, WriteText, LStrip;
    LoneHeading(text);
    CommentedIsNoHeader();
    hide Reading, Loads, IsHeader;
    WriteIsRead(text, header, p, o);
    NeverAccepted([text], p);
  }

  lemma CommentedContent()
    ensures OneLine(SECTION + " # mine\n") && Content(SECTION + " # mine\n") == SECTION + " # mine"
  {
    var text := SECTION + " # mine\n";
    assert text == SECTION + " # mine" + "\n";
    assert text[..|text| - 1] == SECTION + " # mine";
    assert '\n' !in SECTION && '\n' !in " # mine";
  }

  lemma CommentEnds()
    ensures LineEnds(" # mine")
  {
    assert " # mine"[1..] == "# mine";
  }

  lemma LoneHeading(line: string)
    requires HeadingOf(line).Opening?
    ensures Headings([line]) == [line] && Loads([line]) && TableOf([line]) == []
  {
    hide HeadingOf, StartsTable;
    assert IsHeading()(line);
    HeadingsOfOne(line);
    FirstIs([line], 0, 1, IsHeading(), 0);
    FirstIs([line], 1, 1, StartsTable(), 1);
  }

  lemma CommentedIsNoHeader()
    ensures !IsHeader()(SECTION + " # mine\n")
  {
    var body := SECTION + " # mine";
    assert SECTION + " # mine\n" == body + "\n" && |body| == |SECTION| + 7;
    StripNewline(body);
    assert body[|body| - 1] == 'e' && body[0] == '[';
    assert RStrip(body) == body && LStrip(body) == body;
  }

  lemma NeverAccepted(lines: seq<string>, p: string)
    requires |lines| == 1 && !IsHeader()(lines[0]) && Headings(lines) != []
    ensures !Accepts(lines, p) && !Unterminated(lines)
  {
    hide IsHeader, Headings;
    FirstIs(lines, 0, 1, IsHeader(), 1);
  }

  /** The header is all there is, and no newline behind it: the row is glued to it.
      The file loaded before and does not after. */
  lemma UnendedHeader(header: seq<string>, p: string, o: Override)
    requires IsName(p) && IsCommentBlock(header)
    ensures Loads(Lines(SECTION)) && Reading(Lines(WriteText(SECTION, header, p, o)), p) == None
  {
    SectionIsOneLine();
    OneLineText(SECTION);
    SectionIsHeader();
    HeaderIsOpening(SECTION);
    hide Lines, SECTION, HeadingOf, OneLine, WriteText, IsHeading;
    LoneHeading(SECTION);
    hide Reading, Loads, IsHeader, Ended;
    FirstIs([SECTION], 0, 1, IsHeader(), 0);
    hide First;
    WriteIsRead(SECTION, header, p, o);
    assert Unterminated([SECTION]);
  }

  lemma SectionIsOneLine()
    ensures OneLine(SECTION) && !Ended(SECTION)
  {
    assert SECTION[|SECTION| - 1] == ']' && '\n' !in SECTION;
  }

  lemma SectionIsHeader()
    ensures IsHeader()(SECTION)
  {
    SectionLine();
    StripNewline(SECTION);
  }

  /** A compiler name with a character beyond the Basic Multilingual Plane, written
      to an empty file: its escape is no TOML, and the file does not load. */
  lemma AstralCompiler(header: seq<string>, p: string, c: char)
    requires IsName(p) && IsCommentBlock(header) && c as int >= 0x10000
    ensures var o := Raw([c], "", "");
            && Loads(Lines("")) && Accepts(Lines(""), p)
            && ReadRow(Row(p, o)) == None && !Loads(Lines(WriteText("", header, p, o)))
  {
    var o := Raw([c], "", "");
    assert Lines("") == [] && Headings([]) == [];
    assert !Plain([c]) by {
      assert [c][0] == c;
    }
    hide Lines, WriteText, Row, ReadRow, IsCommentBlock, Loads, Reading, Headings, Plain;
    NoTable([], p);
    ReadingLoads([], p);
    RowReadsBack(p, o);
    WriteIsRead("", header, p, o);
  }
}
