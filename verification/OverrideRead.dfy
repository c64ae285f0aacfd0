/** Reading an override row back: the TOML view of the line that was written.
    Basic strings and inline tables follow TOML v1.0.0. */
module OverrideRead {
  import opened Prelude
  import opened OverrideText

  function HexValue(c: char): Option<int> {
    if '0' <= c <= '9' then Some(c as int - '0' as int)
    else if 'a' <= c <= 'f' then Some(c as int - 'a' as int + 10)
    else if 'A' <= c <= 'F' then Some(c as int - 'A' as int + 10)
    else None
  }

  /** Four hexadecimal digits. */
  function HexCode(s: string): Option<int> {
    if |s| < 4 then None
    else
      match (HexValue(s[0]), HexValue(s[1]), HexValue(s[2]), HexValue(s[3]))
      case (Some(a), Some(b), Some(c), Some(d)) => Some(a * 0x1000 + b * 0x100 + c * 16 + d)
      case _ => None
  }

  /** Escapes must name Unicode scalar values, so no surrogates. */
  predicate IsScalar(n: int) {
    0 <= n < 0xD800 || 0xE000 <= n < 0x10000
  }

  /** Eight hexadecimal digits that name a scalar value. */
  function LongCode(s: string): (c: Option<char>)
    ensures c.Some? ==> |s| >= 8
  {
    if |s| < 8 then None
    else
      match (HexCode(s), HexCode(s[4..]))
      case (Some(hi), Some(lo)) =>
        var n := hi * 0x10000 + lo;
        if 0 <= n < 0xD800 || 0xE000 <= n < 0x110000 then Some(n as char) else None
      case _ => None
  }

  /** One character of a basic string: its value and its length. */
  function ReadChar(s: string): (r: Option<(char, nat)>)
    requires s != []
    ensures r.Some? ==> 0 < r.value.1 <= |s|
  {
    if s[0] == '\\' then
      if |s| < 2 then None
      else if s[1] == '"' || s[1] == '\\' then Some((s[1], 2))
      else if s[1] == 'n' then Some(('\n', 2))
      else if s[1] == 'r' then Some(('\r', 2))
      else if s[1] == 't' then Some(('\t', 2))
      else if s[1] == 'b' then Some((8 as char, 2))
      else if s[1] == 'f' then Some((12 as char, 2))
      else if s[1] == 'u' && HexCode(s[2..]).Some? && IsScalar(HexCode(s[2..]).value)
          then Some((HexCode(s[2..]).value as char, 6))
      else if s[1] == 'U' && LongCode(s[2..]).Some? then Some((LongCode(s[2..]).value, 10))
      else None
    else if (s[0] < ' ' && s[0] != '\t') || s[0] as int == 0x7F then None
    else Some((s[0], 1))
  }

  /** A basic string behind its opening quote: the value and what follows. */
  function ReadString(s: string): (r: Option<(string, string)>)
    ensures r.Some? ==> |r.value.1| < |s|
  {
    if s == [] then None
    else if s[0] == '"' then Some(([], s[1..]))
    else
      match ReadChar(s)
      case None => None
      case Some((c, n)) =>
        match ReadString(s[n..])
        case None => None
        case Some((v, rest)) => Some(([c] + v, rest))
  }

  function KeyLength(s: string): (n: nat)
    ensures n <= |s|
  {
    if s != [] && 'a' <= s[0] <= 'z' then 1 + KeyLength(s[1..]) else 0
  }

  /** The pairs of an inline table, up to its closing brace and the newline. */
  function ReadPairs(s: string): Option<map<string, string>>
    decreases |s|
  {
    var k := KeyLength(s);
    if k == 0 || !(" = \"" <= s[k..]) then None
    else
      match ReadString(s[k + 4..])
      case None => None
      case Some((v, rest)) =>
        if rest == " }\n" then Some(map[s[..k] := v])
        else if ", " <= rest then
          match ReadPairs(rest[2..])
          case None => None
          case Some(m) => if s[..k] in m then None else Some(m[s[..k] := v])
        else None
  }

  /** A row `"key" = { … }`. */
  function ReadRow(line: string): Option<(string, map<string, string>)> {
    if line == [] || line[0] != '"' then None
    else
      match ReadString(line[1..])
      case None => None
      case Some((key, rest)) =>
        if !(" = { " <= rest) then None
        else
          match ReadPairs(rest[5..])
          case None => None
          case Some(m) => Some((key, m))
  }

  /** What an override means: the compiler settings it names. */
  function Settings(o: Override): map<string, string> {
    match o
    case Bundle(toolchain, ld) => if ld != "" then map["toolchain" := toolchain, "ld" := ld]
        else map["toolchain" := toolchain]
    case Raw(cc, cxx, ld) => map["cc" := cc, "cxx" := cxx, "ld" := ld]
  }

  // ---------------------------------------------------------------------
  // Strings
  // ---------------------------------------------------------------------

  /** No character beyond the Basic Multilingual Plane. */
  predicate Plain(s: string) {
    forall i :: 0 <= i < |s| ==> s[i] as int < 0x10000
  }

  lemma DigitReadsBack(d: int)
    requires 0 <= d < 16
    ensures HexValue(Digit(d)) == Some(d)
  {
  }

  lemma Nibbles(n: int)
    requires 0 <= n < 0x10000
    ensures n / 0x1000 < 16
    ensures n == n / 0x1000 * 0x1000 + n / 0x100 % 16 * 0x100 + n / 16 % 16 * 16 + n % 16
  {
    assert n / 0x100 == n / 16 / 16 && n / 0x1000 == n / 0x100 / 16;
  }

  lemma HexReadsBack(n: int, rest: string)
    requires 0 <= n < 0x10000
    ensures HexCode(Hex4(n)[2..] + rest) == Some(n)
  {
    Nibbles(n);
    var a, b, c, d := n / 0x1000, n / 0x100 % 16, n / 16 % 16, n % 16;
    DigitReadsBack(a);
    DigitReadsBack(b);
    DigitReadsBack(c);
    DigitReadsBack(d);
    assert Hex4(n) == ['\\', 'u', Digit(a), Digit(b), Digit(c), Digit(d)];
    hide HexValue, Digit, Hex4;
    FourDigits(Digit(a), Digit(b), Digit(c), Digit(d), rest);
  }

  lemma FourDigits(a: char, b: char, c: char, d: char, rest: string)
    requires HexValue(a).Some? && HexValue(b).Some? && HexValue(c).Some? && HexValue(d).Some?
    ensures HexCode(['\\', 'u', a, b, c, d][2..] + rest)
         == Some(HexValue(a).value * 0x1000 + HexValue(b).value * 0x100 + HexValue(c).value * 16 + HexValue(d).value)
  {
    hide HexValue;
    var s := ['\\', 'u', a, b, c, d][2..] + rest;
    assert s[0] == a && s[1] == b && s[2] == c && s[3] == d;
  }

  /** Characters with an escape of their own, or none at all. */
  predicate ShortEscape(c: char) {
    c == '"' || c == '\\' || ' ' <= c <= '~' || c == '\n' || c == '\r' || c == '\t' || c as int == 8 || c as int == 12
  }

  lemma ShortReadsBack(c: char, rest: string)
    requires ShortEscape(c)
    ensures ReadChar(Escaped(c) + rest) == Some((c, |Escaped(c)|)) && Escaped(c) != [] && Escaped(c)[0] != '"'
  {
    hide Hex4, HexCode;
  }

  lemma EscapeRead(s: string, n: int)
    requires |s| >= 6 && s[0] == '\\' && s[1] == 'u' && HexCode(s[2..]) == Some(n) && 0 <= n < 0x10000
    ensures ReadChar(s) == if IsScalar(n) then Some((n as char, 6)) else None
  {
    hide HexCode;
  }

  /** An escape of four digits in front of more text. */
  lemma HexRead(n: int, rest: string)
    requires 0 <= n < 0x10000
    ensures ReadChar(Hex4(n) + rest) == if IsScalar(n) then Some((n as char, 6)) else None
    ensures |Hex4(n)| == 6 && Hex4(n)[0] == '\\'
  {
    HexReadsBack(n, rest);
    hide HexCode, Digit;
    assert (Hex4(n) + rest)[2..] == Hex4(n)[2..] + rest;
    EscapeRead(Hex4(n) + rest, n);
  }

  lemma LongReadsBack(c: char, rest: string)
    requires !ShortEscape(c) && c as int < 0x10000
    ensures ReadChar(Escaped(c) + rest) == Some((c, |Escaped(c)|)) && Escaped(c) != [] && Escaped(c)[0] != '"'
  {
    HexRead(c as int, rest);
    hide Hex4, ReadChar;
  }

  lemma Surrogates(c: char)
    requires c as int >= 0x10000
    ensures var n := c as int - 0x10000;
            0xD800 <= 0xD800 + n / 0x400 < 0xDC00 && 0xDC00 <= 0xDC00 + n % 0x400 < 0xE000
  {
  }

  lemma PairIsRefused(c: char, rest: string)
    requires c as int >= 0x10000
    ensures ReadChar(Escaped(c) + rest) == None && Escaped(c) != [] && Escaped(c)[0] != '"'
  {
    hide Hex4, ReadChar;
    var n := c as int - 0x10000;
    Surrogates(c);
    var hi, lo := Hex4(0xD800 + n / 0x400), Hex4(0xDC00 + n % 0x400);
    HexRead(0xD800 + n / 0x400, lo + rest);
    assert hi + lo + rest == hi + (lo + rest);
  }

  /** An escaped character reads back as itself, unless it needs a surrogate
      pair: TOML has no such escape. */
  lemma CharReadsBack(c: char, rest: string)
    ensures ReadChar(Escaped(c) + rest) == if c as int < 0x10000 then Some((c, |Escaped(c)|)) else None
    ensures Escaped(c) != [] && Escaped(c)[0] != '"'
  {
    hide *;
    if c as int >= 0x10000 {
      PairIsRefused(c, rest);
    } else if ShortEscape(c) {
      ShortReadsBack(c, rest);
    } else {
      LongReadsBack(c, rest);
    }
  }

  /** Reading on behind the first character. */
  lemma StringNext(s: string, c: char, n: nat, more: string)
    requires s != [] && s[0] != '"' && n <= |s| && s[n..] == more
    ensures ReadChar(s) == None ==> ReadString(s) == None
    ensures ReadChar(s) == Some((c, n)) ==>
              ReadString(s) == match ReadString(more) case None => None case Some((v, rest)) => Some(([c] + v, rest))
  {
    hide ReadChar;
  }

  lemma QuotedParts(v: string, rest: string)
    requires v != []
    ensures var more := EscapedAll(v[1..]) + "\"" + rest;
            var s := EscapedAll(v) + "\"" + rest;
            s == Escaped(v[0]) + more && s[|Escaped(v[0])|..] == more
  {
    hide Escaped;
    Regroup(Escaped(v[0]), EscapedAll(v[1..]), rest);
  }

  lemma Regroup(first: string, others: string, rest: string)
    ensures var s := first + others + "\"" + rest;
            s == first + (others + "\"" + rest) && s[|first|..] == others + "\"" + rest
  {
  }

  /** A quoted string reads back exactly when it holds no character beyond the
      Basic Multilingual Plane. */
  lemma {:induction false} StringReadsBack(v: string, rest: string)
    ensures ReadString(EscapedAll(v) + "\"" + rest) == if Plain(v) then Some((v, rest)) else None
  {
    var s := EscapedAll(v) + "\"" + rest;
    if v == [] {
      assert s == "\"" + rest && s[1..] == rest;
    } else {
      var c, more := v[0], EscapedAll(v[1..]) + "\"" + rest;
      assert Plain(v) <==> c as int < 0x10000 && Plain(v[1..]);
      hide Escaped, EscapedAll, ReadString, ReadChar, Plain;
      QuotedParts(v, rest);
      CharReadsBack(c, more);
      StringReadsBack(v[1..], rest);
      StringNext(s, c, |Escaped(c)|, more);
      assert [c] + v[1..] == v;
    }
  }

  // ---------------------------------------------------------------------
  // Rows
  // ---------------------------------------------------------------------

  predicate IsKey(key: string) {
    key != [] && forall i :: 0 <= i < |key| ==> 'a' <= key[i] <= 'z'
  }

  lemma {:induction false} KeyLengthIs(key: string, rest: string)
    requires (forall i :: 0 <= i < |key| ==> 'a' <= key[i] <= 'z') && (rest == [] || !('a' <= rest[0] <= 'z'))
    ensures KeyLength(key + rest) == |key|
  {
    if key == [] {
      assert key + rest == rest;
    } else {
      assert (key + rest)[1..] == key[1..] + rest;
      KeyLengthIs(key[1..], rest);
    }
  }

  /** One pair of the inline table. */
  function Pair(key: string, v: string): string {
    key + " = " + Quote(v)
  }

  lemma PairReadsBack(key: string, v: string, rest: string)
    requires IsKey(key)
    ensures var s := Pair(key, v) + rest;
            && KeyLength(s) == |key| && s[..|key|] == key && " = \"" <= s[|key|..]
            && ReadString(s[|key| + 4..]) == if Plain(v) then Some((v, rest)) else None
  {
    var s, tail := Pair(key, v) + rest, EscapedAll(v) + "\"" + rest;
    assert s == key + (" = \"" + tail);
    hide EscapedAll, ReadString, Plain;
    KeyLengthIs(key, " = \"" + tail);
    assert s[|key|..] == " = \"" + tail && s[|key| + 4..] == tail;
    StringReadsBack(v, rest);
  }

  lemma LastPair(key: string, v: string)
    requires IsKey(key)
    ensures ReadPairs(Pair(key, v) + " }\n") == if Plain(v) then Some(map[key := v]) else None
  {
    hide KeyLength, ReadString, Pair, Plain;
    PairReadsBack(key, v, " }\n");
  }

  lemma NextPair(key: string, v: string, more: string)
    requires IsKey(key)
    ensures ReadPairs(Pair(key, v) + (", " + more)) ==
            if Plain(v) && ReadPairs(more).Some? && key !in ReadPairs(more).value
                then Some(ReadPairs(more).value[key := v]) else None
  {
    var rest := ", " + more;
    assert rest[2..] == more && rest != " }\n" by {
      assert rest[0] == ',';
    }
    var s := Pair(key, v) + rest;
    hide KeyLength, ReadString, Pair, Plain;
    PairReadsBack(key, v, rest);
  }

  /** Every value of the override survives the trip through TOML. */
  predicate AllPlain(o: Override) {
    match o
    case Bundle(toolchain, ld) => Plain(toolchain) && Plain(ld)
    case Raw(cc, cxx, ld) => Plain(cc) && Plain(cxx) && Plain(ld)
  }

  lemma BundleReadsBack(toolchain: string, ld: string)
    ensures var o := Bundle(toolchain, ld); ReadPairs(Body(o) + " }\n") == if AllPlain(o) then Some(Settings(o))
        else None
  {
    hide ReadPairs, Quote, Plain;
    var o := Bundle(toolchain, ld);
    if ld == "" {
      assert Body(o) + " }\n" == Pair("toolchain", toolchain) + " }\n";
      NothingIsPlain();
      LastPair("toolchain", toolchain);
    } else {
      assert Body(o) + " }\n" == Pair("toolchain", toolchain) + (", " + (Pair("ld", ld) + " }\n"));
      LastPair("ld", ld);
      NextPair("toolchain", toolchain, Pair("ld", ld) + " }\n");
      assert |"toolchain"| == 9 && |"ld"| == 2;
      assert map["ld" := ld]["toolchain" := toolchain] == map["toolchain" := toolchain, "ld" := ld];
    }
  }

  lemma RawBody(cc: string, cxx: string, ld: string)
    ensures Body(Raw(cc, cxx, ld)) + " }\n"
        == Pair("cc", cc) + (", " + (Pair("cxx", cxx) + (", " + (Pair("ld", ld) + " }\n"))))
  {
    hide Quote;
  }

  lemma RawReadsBack(cc: string, cxx: string, ld: string)
    ensures var o := Raw(cc, cxx, ld); ReadPairs(Body(o) + " }\n") == if AllPlain(o) then Some(Settings(o)) else None
  {
    RawBody(cc, cxx, ld);
    hide ReadPairs, Body, Pair, Plain;
    var last := Pair("ld", ld) + " }\n";
    var two := Pair("cxx", cxx) + (", " + last);
    LastPair("ld", ld);
    NextPair("cxx", cxx, last);
    NextPair("cc", cc, two);
    assert |"cc"| == 2 && |"cxx"| == 3 && "cc"[0] != "ld"[0];
    assert map["ld" := ld]["cxx" := cxx]["cc" := cc] == map["cc" := cc, "cxx" := cxx, "ld" := ld];
  }

  lemma BodyReadsBack(o: Override)
    ensures ReadPairs(Body(o) + " }\n") == if AllPlain(o) then Some(Settings(o)) else None
  {
    hide *;
    match o
    case Bundle(toolchain, ld) => BundleReadsBack(toolchain, ld);
    case Raw(cc, cxx, ld) => RawReadsBack(cc, cxx, ld);
  }

  lemma NothingIsPlain()
    ensures Plain("")
  {
  }

  /** The row written for a package, read as TOML, binds that package to exactly
      the settings chosen; it is no TOML exactly when some value holds a
      character beyond the Basic Multilingual Plane. */
  lemma RowReadsBack(p: string, o: Override)
    requires IsName(p)
    ensures ReadRow(Row(p, o)) == if AllPlain(o) then Some((p, Settings(o))) else None
  {
    var rest := " = { " + (Body(o) + " }\n");
    RowStarts(p, o);
    hide EscapedAll, Body, Row, ReadPairs, ReadString, Settings, Plain, AllPlain;
    NameIsPlain(p);
    StringReadsBack(p, rest);
    assert |" = { "| == 5 && rest[..5] == " = { " && rest[5..] == Body(o) + " }\n";
    BodyReadsBack(o);
  }

  lemma RowStarts(p: string, o: Override)
    ensures Row(p, o) != [] && Row(p, o)[0] == '"'
    ensures Row(p, o)[1..] == EscapedAll(p) + "\"" + (" = { " + (Body(o) + " }\n"))
  {
    hide EscapedAll, Body;
    assert Row(p, o) == "\"" + (EscapedAll(p) + "\"" + (" = { " + (Body(o) + " }\n")));
  }

  lemma NameIsPlain(p: string)
    requires IsName(p)
    ensures Plain(p)
  {
    assert forall c: char :: NameChar(c) ==> c as int < 0x10000;
  }
}
