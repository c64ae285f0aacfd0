/** Text as lines: splitting a file and joining it again, stripping, and the
    shape of one override row (sysforge/profile_writer.py). */
module OverrideText {
  predicate IsSpace(c: char) {
    c == ' ' || c == '\t' || c == '\n' || c == '\r'
  }

  function LStrip(s: string): (r: string)
    ensures r != [] ==> !IsSpace(r[0])
  {
    if s != [] && IsSpace(s[0]) then LStrip(s[1..]) else s
  }

  function RStrip(s: string): string {
    if s != [] && IsSpace(s[|s| - 1]) then RStrip(s[..|s| - 1]) else s
  }

  function Strip(s: string): string {
    LStrip(RStrip(s))
  }

  // ---------------------------------------------------------------------
  // splitlines(keepends=True) and "".join
  // ---------------------------------------------------------------------

  function Join(lines: seq<string>): string {
    if lines == [] then [] else lines[0] + Join(lines[1..])
  }

  /** The first line of a text, with its newline. */
  function Cut(text: string): (n: nat)
    requires text != []
    ensures 0 < n <= |text| && '\n' !in text[..n - 1] && (n < |text| ==> text[n - 1] == '\n')
  {
    if text[0] == '\n' || |text| == 1 then 1 else 1 + Cut(text[1..])
  }

  function Lines(text: string): seq<string> {
    if text == [] then [] else [text[..Cut(text)]] + Lines(text[Cut(text)..])
  }

  predicate Ended(line: string) {
    line != [] && line[|line| - 1] == '\n'
  }

  predicate OneLine(line: string) {
    line != [] && '\n' !in line[..|line| - 1]
  }

  /** What splitting yields: single lines, all ended but perhaps the last. */
  ghost predicate Proper(lines: seq<string>) {
    (forall i :: 0 <= i < |lines| ==> OneLine(lines[i])) && (forall i :: 0 <= i < |lines| - 1 ==> Ended(lines[i]))
  }

  lemma {:induction false} JoinLines(text: string)
    ensures Join(Lines(text)) == text
  {
    if text != [] {
      var n := Cut(text);
      JoinLines(text[n..]);
      assert Lines(text) == [text[..n]] + Lines(text[n..]);
      hide Lines;
      assert Lines(text)[1..] == Lines(text[n..]);
      assert text == text[..n] + text[n..];
    }
  }

  lemma ProperNext(first: string, rest: seq<string>)
    requires OneLine(first) && (rest != [] ==> Ended(first)) && Proper(rest)
    ensures Proper([first] + rest)
  {
  }

  lemma {:induction false} LinesAreProper(text: string)
    ensures Proper(Lines(text))
  {
    if text != [] {
      var n := Cut(text);
      LinesAreProper(text[n..]);
      assert text[..n][..n - 1] == text[..n - 1];
      ProperNext(text[..n], Lines(text[n..]));
    }
  }

  lemma {:induction false} SplitJoin(lines: seq<string>)
    requires Proper(lines)
    ensures Lines(Join(lines)) == lines
  {
    if lines != [] {
      SplitJoin(lines[1..]);
      var text, first := Join(lines), lines[0];
      assert OneLine(first) && text[..|first|] == first && text[|first|..] == Join(lines[1..]);
      assert |lines| > 1 ==> Ended(first);
      assert |lines| == 1 ==> text == first;
      CutIs(text, |first|);
    }
  }

  lemma {:induction false} CutIs(text: string, n: nat)
    requires 0 < n <= |text| && '\n' !in text[..n - 1] && (n < |text| ==> text[n - 1] == '\n')
    ensures Cut(text) == n
  {
  }

  lemma JoinHead(first: string, rest: seq<string>)
    ensures Join([first] + rest) == first + Join(rest) && Join([]) == []
  {
  }

  lemma {:induction false} JoinConcat(a: seq<string>, b: seq<string>)
    ensures Join(a + b) == Join(a) + Join(b)
  {
    hide Join;
    if a == [] {
      JoinHead("", []);
      assert a + b == b;
    } else {
      var rest := a[1..];
      JoinConcat(rest, b);
      JoinHead(a[0], rest);
      JoinHead(a[0], rest + b);
      assert a == [a[0]] + rest && a + b == [a[0]] + (rest + b);
    }
  }

  lemma JoinSnoc(init: seq<string>, last: string)
    ensures Join(init + [last]) == Join(init) + last
  {
    JoinConcat(init, [last]);
    JoinHead(last, []);
    hide Join;
    assert [last] + [] == [last] && last + [] == last;
  }

  // ---------------------------------------------------------------------
  // One row
  // ---------------------------------------------------------------------

  /** The characters of a package name. */
  predicate NameChar(c: char) {
    'a' <= c <= 'z' || 'A' <= c <= 'Z' || '0' <= c <= '9' || c == '@' || c == '.' || c == '_' || c == '+' || c == '-'
  }

  predicate IsName(p: string) {
    p != [] && forall i :: 0 <= i < |p| ==> NameChar(p[i])
  }

  function Digit(n: int): char
    requires 0 <= n < 16
  {
    if n < 10 then ('0' as int + n) as char else ('a' as int + n - 10) as char
  }

  function Hex4(n: int): string
    requires 0 <= n < 0x10000
  {
    ['\\', 'u', Digit(n / 0x1000), Digit(n / 0x100 % 16), Digit(n / 16 % 16), Digit(n % 16)]
  }

  /** `json.dumps`: one character of a quoted string. */
  function Escaped(c: char): string {
    if c == '"' || c == '\\' then ['\\', c]
    else if ' ' <= c <= '~' then [c]
    else if c == '\n' then "\\n"
    else if c == '\r' then "\\r"
    else if c == '\t' then "\\t"
    else if c as int == 8 then "\\b"
    else if c as int == 12 then "\\f"
    else if c as int < 0x10000 then Hex4(c as int)
    else
      var n := c as int - 0x10000;
      Hex4(0xD800 + n / 0x400) + Hex4(0xDC00 + n % 0x400)
  }

  function EscapedAll(s: string): string {
    if s == [] then [] else Escaped(s[0]) + EscapedAll(s[1..])
  }

  /** `toml_literal` on a string. */
  function Quote(s: string): string {
    "\"" + EscapedAll(s) + "\""
  }

  predicate Printable(s: string) {
    forall i :: 0 <= i < |s| ==> ' ' <= s[i] <= '~'
  }

  lemma HexIsPrintable(n: int)
    requires 0 <= n < 0x10000
    ensures Printable(Hex4(n))
  {
  }

  lemma EscapedIsPrintable(c: char)
    ensures Printable(Escaped(c))
  {
    hide Hex4;
    if c as int < 0x10000 {
      HexIsPrintable(c as int);
    } else {
      var n := c as int - 0x10000;
      HexIsPrintable(0xD800 + n / 0x400);
      HexIsPrintable(0xDC00 + n % 0x400);
    }
  }

  lemma {:induction false} QuoteIsPrintable(s: string)
    ensures Printable(EscapedAll(s)) && Printable(Quote(s))
  {
    if s != [] {
      QuoteIsPrintable(s[1..]);
      EscapedIsPrintable(s[0]);
      hide Escaped;
    }
  }

  lemma {:induction false} NameNeedsNoEscape(p: string)
    requires forall i :: 0 <= i < |p| ==> NameChar(p[i])
    ensures EscapedAll(p) == p
  {
    if p != [] {
      NameNeedsNoEscape(p[1..]);
      assert Escaped(p[0]) == [p[0]];
      assert p == [p[0]] + p[1..];
    }
  }

  /** What a row binds its pkgbase to. */
  datatype Override = Bundle(toolchain: string, ld: string) | Raw(cc: string, cxx: string, ld: string)

  function Body(o: Override): string {
    match o
    case Bundle(toolchain, ld) => "toolchain = " + Quote(toolchain) + (if ld != "" then ", ld = " + Quote(ld) else "")
    case Raw(cc, cxx, ld) => "cc = " + Quote(cc) + ", cxx = " + Quote(cxx) + ", ld = " + Quote(ld)
  }

  /** `_row` */
  function Row(p: string, o: Override): string {
    Quote(p) + " = { " + Body(o) + " }\n"
  }

  predicate KeyAt(s: string, key: string) {
    key <= s && var rest := LStrip(s[|key|..]); rest != [] && rest[0] == '='
  }

  /** `_row_re`: the row of this pkgbase, quoted or bare. */
  predicate Matches(line: string, p: string) {
    KeyAt(LStrip(line), Quote(p)) || KeyAt(LStrip(line), p)
  }

  lemma PrintableConcat(a: string, b: string)
    ensures Printable(a + b) <==> Printable(a) && Printable(b)
  {
    assert forall i :: 0 <= i < |a| ==> a[i] == (a + b)[i];
    assert forall i :: 0 <= i < |b| ==> b[i] == (a + b)[|a| + i];
  }

  lemma FieldIsPrintable(before: string, text: string, value: string)
    requires Printable(before) && Printable(text)
    ensures Printable(before + text + Quote(value))
  {
    QuoteIsPrintable(value);
    hide *;
    PrintableConcat(before, text);
    PrintableConcat(before + text, Quote(value));
  }

  lemma BodyIsPrintable(o: Override)
    ensures Printable(Body(o))
  {
    hide Quote;
    match o
    case Bundle(toolchain, ld) =>
      FieldIsPrintable("", "toolchain = ", toolchain);
      var t := "toolchain = " + Quote(toolchain);
      assert "" + "toolchain = " + Quote(toolchain) == t;
      if ld != "" {
        FieldIsPrintable(t, ", ld = ", ld);
        assert Body(o) == t + ", ld = " + Quote(ld);
      } else {
        assert Body(o) == t;
      }
    case Raw(cc, cxx, ld) =>
      FieldIsPrintable("", "cc = ", cc);
      var a := "" + "cc = " + Quote(cc);
      FieldIsPrintable(a, ", cxx = ", cxx);
      var b := a + ", cxx = " + Quote(cxx);
      FieldIsPrintable(b, ", ld = ", ld);
      assert Body(o) == b + ", ld = " + Quote(ld);
  }

  /** A row is one line, whatever the values hold. */
  lemma RowIsOneLine(p: string, o: Override)
    ensures OneLine(Row(p, o)) && Ended(Row(p, o))
  {
    QuoteIsPrintable(p);
    BodyIsPrintable(o);
    var text := Quote(p) + " = { " + Body(o) + " }";
    hide Quote, Body;
    assert Printable(text);
    assert Row(p, o) == text + "\n";
    assert Row(p, o)[..|Row(p, o)| - 1] == text;
  }

  /** A line is the row of at most one package. */
  lemma OneNamePerLine(line: string, p: string, q: string)
    requires IsName(p) && IsName(q) && Matches(line, p) && Matches(line, q)
    ensures p == q
  {
    var s := LStrip(line);
    NameNeedsNoEscape(p);
    NameNeedsNoEscape(q);
    hide EscapedAll;
    assert !NameChar('"') && !NameChar('=');
    if KeyAt(s, p) {
      assert s[0] == p[0] && NameChar(s[0]);
      assert KeyAt(s, q);
      SameKey(s, p, q);
    } else {
      assert s[0] == '"' && KeyAt(s, Quote(q));
      SameQuoted(s, p, q);
    }
  }

  lemma SameKey(s: string, p: string, q: string)
    requires IsName(p) && IsName(q) && KeyAt(s, p) && KeyAt(s, q)
    ensures p == q
  {
  }

  lemma QuotedBound(s: string, p: string, q: string)
    requires IsName(q) && "\"" + p + "\"" <= s && "\"" + q + "\"" <= s
    ensures |q| <= |p| && p == s[1..|p| + 1]
  {
    var a, b := "\"" + p + "\"", "\"" + q + "\"";
    assert s[|p| + 1] == a[|p| + 1] == '"' && !NameChar('"');
    forall i | 1 <= i <= |q| ensures s[i] != '"' {
      assert s[i] == b[i] == q[i - 1] && NameChar(q[i - 1]);
    }
    assert p == a[1..|p| + 1] == s[1..|p| + 1];
  }

  lemma SameQuoted(s: string, p: string, q: string)
    requires IsName(p) && IsName(q) && "\"" + p + "\"" <= s && "\"" + q + "\"" <= s
    ensures p == q
  {
    QuotedBound(s, p, q);
    QuotedBound(s, q, p);
  }

  /** The row written for a package is that package's row and no table header. */
  lemma RowMatches(p: string, o: Override)
    ensures Matches(Row(p, o), p) && LStrip(Row(p, o)) == Row(p, o) && Row(p, o)[0] == '"'
  {
    var q, rest := Quote(p), "= { " + Body(o) + " }\n";
    assert q[0] == '"';
    RowIs(p, o);
    hide Quote, Body, Row;
    assert rest[0] == '=';
    KeyFollowed(q, rest);
  }

  lemma RowIs(p: string, o: Override)
    ensures Row(p, o) == Quote(p) + (" " + ("= { " + Body(o) + " }\n"))
  {
    hide Quote, Body;
    assert " = { " == " " + "= { ";
  }

  lemma KeyFollowed(q: string, rest: string)
    requires q != [] && !IsSpace(q[0]) && rest != [] && rest[0] == '='
    ensures LStrip(q + (" " + rest)) == q + (" " + rest) && KeyAt(q + (" " + rest), q)
  {
  }

  // ---------------------------------------------------------------------
  // What the writer takes for a row
  // ---------------------------------------------------------------------

  ghost predicate Blank(s: string) {
    forall c :: c in s ==> c == ' ' || c == '\t' || c == '\n' || c == '\r'
  }

  lemma {:induction false} LStripCuts(s: string) returns (lead: string)
    ensures Blank(lead) && s == lead + LStrip(s)
  {
    lead := "";
    if s != [] && IsSpace(s[0]) {
      var rest := LStripCuts(s[1..]);
      lead := [s[0]] + rest;
    }
  }

  lemma {:induction false} LStripSkips(lead: string, s: string)
    requires Blank(lead) && (s == "" || !Blank([s[0]]))
    ensures LStrip(lead + s) == s
  {
    if lead == "" {
      assert lead + s == s;
      assert s != "" ==> s[0] in [s[0]];
    } else {
      assert lead[0] in lead && (lead + s)[1..] == lead[1..] + s;
      assert forall c :: c in lead[1..] ==> c in lead;
      LStripSkips(lead[1..], s);
    }
  }

  /** Blanks, the key bare or quoted, blanks, an equals sign, anything. */
  ghost predicate RowShape(line: string, p: string, key: string, lead: string, gap: string, rest: string) {
    && Blank(lead) && Blank(gap) && (key == p || key == "\"" + p + "\"")
    && line == lead + (key + (gap + ("=" + rest)))
  }

  /** A line counts as the row of a package exactly if it has that shape. */
  lemma MatchesIff(line: string, p: string)
    requires IsName(p)
    ensures Matches(line, p) <==> exists key, lead, gap, rest :: RowShape(line, p, key, lead, gap, rest)
  {
    NameNeedsNoEscape(p);
    assert Quote(p) == "\"" + p + "\"";
    hide Quote, LStrip;
    if Matches(line, p) {
      var key := if KeyAt(LStrip(line), Quote(p)) then Quote(p) else p;
      MatchedShape(line, p, key);
    }
    forall key, lead, gap, rest | RowShape(line, p, key, lead, gap, rest) ensures Matches(line, p) {
      ShapeMatches(line, p, key, lead, gap, rest);
    }
  }

  lemma MatchedShape(line: string, p: string, key: string)
    requires KeyAt(LStrip(line), key) && (key == p || key == "\"" + p + "\"")
    ensures exists k, lead, gap, rest :: RowShape(line, p, k, lead, gap, rest)
  {
    var s := LStrip(line);
    var lead := LStripCuts(line);
    var gap := LStripCuts(s[|key|..]);
    var tail := LStrip(s[|key|..]);
    hide LStrip, Blank;
    assert s == key + s[|key|..] && tail == "=" + tail[1..];
    assert RowShape(line, p, key, lead, gap, tail[1..]);
  }

  lemma ShapeMatches(line: string, p: string, key: string, lead: string, gap: string, rest: string)
    requires IsName(p) && RowShape(line, p, key, lead, gap, rest)
    ensures KeyAt(LStrip(line), key)
  {
    var tail := "=" + rest;
    var s := key + (gap + tail);
    assert s[0] == key[0] && (NameChar(key[0]) || key[0] == '"') && key[0] in [key[0]];
    LStripSkips(lead, s);
    assert tail[0] == '=' && '=' in [tail[0]];
    LStripSkips(gap, tail);
    hide LStrip;
    assert key <= s && s[|key|..] == gap + tail;
  }

  /** Stripping takes white space off both ends and nothing else. */
  lemma StripCuts(s: string) returns (lead: string, tail: string)
    ensures Blank(lead) && Blank(tail) && s == lead + Strip(s) + tail
    ensures Strip(s) != "" ==> !Blank([Strip(s)[0]]) && !Blank([Strip(s)[|Strip(s)| - 1]])
  {
    tail := RStripCuts(s);
    lead := LStripCuts(RStrip(s));
    var r := RStrip(s);
    if Strip(s) != "" {
      assert r[|r| - 1] == Strip(s)[|Strip(s)| - 1];
      assert Strip(s)[0] in [Strip(s)[0]] && r[|r| - 1] in [r[|r| - 1]];
    }
  }

  lemma {:induction false} RStripCuts(s: string) returns (tail: string)
    ensures Blank(tail) && s == RStrip(s) + tail
    ensures RStrip(s) != "" ==> !IsSpace(RStrip(s)[|RStrip(s)| - 1])
  {
    tail := "";
    if s != [] && IsSpace(s[|s| - 1]) {
      var rest := RStripCuts(s[..|s| - 1]);
      tail := rest + [s[|s| - 1]];
    }
  }
}
