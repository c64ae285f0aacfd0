/** The text of the state file (sysforge/primitives/build_state.py): which values
    and names come back when the quoted string that was written is read as TOML. */
module StateText {
  import opened Prelude
  import opened OverrideRead

  /** One character of a value (`_toml_escape`) or, if not `full`, of a table name,
      where line breaks are left as they are. */
  function EscapedIn(c: char, full: bool): string {
    if c == '\\' then "\\\\"
    else if c == '"' then "\\\""
    else if full && c == '\n' then "\\n"
    else if full && c == '\r' then "\\r"
    else [c]
  }

  function EscapedText(s: string, full: bool): string {
    if s == [] then [] else EscapedIn(s[0], full) + EscapedText(s[1..], full)
  }

  /** No control character but a tab and, in a value, line breaks. */
  predicate Legible(c: char, full: bool) {
    (c >= ' ' && c as int != 0x7F) || c == '\t' || (full && (c == '\n' || c == '\r'))
  }

  predicate AllLegible(s: string, full: bool) {
    forall i :: 0 <= i < |s| ==> Legible(s[i], full)
  }

  lemma CharComesBack(c: char, full: bool, rest: string)
    ensures var e := EscapedIn(c, full);
            && e != [] && e[0] != '"'
            && ReadChar(e + rest) == if Legible(c, full) then Some((c, |e|)) else None
  {
    hide HexCode, LongCode;
    var s := EscapedIn(c, full) + rest;
    assert s[0] == EscapedIn(c, full)[0];
    assert |EscapedIn(c, full)| == 2 ==> s[1] == EscapedIn(c, full)[1];
  }

  lemma TextParts(v: string, full: bool, rest: string)
    requires v != []
    ensures var more := EscapedText(v[1..], full) + "\"" + rest;
            var s := EscapedText(v, full) + "\"" + rest;
            s == EscapedIn(v[0], full) + more && s[|EscapedIn(v[0], full)|..] == more
  {
    hide EscapedIn;
    Regroup(EscapedIn(v[0], full), EscapedText(v[1..], full), rest);
  }

  /** What was written comes back exactly if it holds no control character that the
      escaping leaves as it is; else the file does not load. */
  lemma {:induction false} TextComesBack(v: string, full: bool, rest: string)
    ensures ReadString(EscapedText(v, full) + "\"" + rest) == if AllLegible(v, full) then Some((v, rest)) else None
  {
    var s := EscapedText(v, full) + "\"" + rest;
    if v == [] {
      assert s == "\"" + rest && s[1..] == rest;
    } else {
      var c, more := v[0], EscapedText(v[1..], full) + "\"" + rest;
      assert AllLegible(v, full) <==> Legible(c, full) && AllLegible(v[1..], full);
      hide EscapedIn, EscapedText, ReadString, ReadChar, AllLegible, Legible;
      TextParts(v, full, rest);
      CharComesBack(c, full, more);
      TextComesBack(v[1..], full, rest);
      StringNext(s, c, |EscapedIn(c, full)|, more);
      assert [c] + v[1..] == v;
    }
  }
}
