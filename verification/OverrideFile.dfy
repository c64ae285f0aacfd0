/** profiles.toml and the two functions that edit it, line by line. */
module OverrideFile {
  import opened OverrideText
  import opened OverrideRead
  import opened OverrideWriter
  import opened OverrideToml

  class ProfilesFile {
    var text: string

    /** The first line from `from` on, before `stop`, that satisfies `want`. */
    method Find(lines: seq<string>, from: nat, stop: nat, want: string -> bool) returns (i: nat)
      requires from <= stop <= |lines|
      ensures i == First(lines, from, stop, want)
    {
      i := from;
      while i < stop && !want(lines[i])
        invariant from <= i <= stop && forall j :: from <= j < i ==> !want(lines[j])
      {
        i := i + 1;
      }
      FirstIs(lines, from, stop, want, i);
    }

    /** Append a fresh section at the end, behind a blank line. */
    method AppendSection(given: seq<string>, header: seq<string>, ghost p: string, row: string)
      returns (lines: seq<string>)
      requires SectAt(given) == |given|
      ensures Join(lines) == Join(WriteLines(given, header, p, row))
    {
      hide Join, WriteLines, SectAt, Ended, Strip;
      lines := given;
      if lines != [] && !Ended(lines[|lines| - 1]) {
        lines := lines[|lines| - 1 := lines[|lines| - 1] + "\n"];
      }
      if lines != [] && Strip(lines[|lines| - 1]) != [] {
        lines := lines + ["\n"];
      }
      lines := lines + [Join(header)];
      lines := lines + [SECTION + "\n"];
      lines := lines + [row];
      AppendedIs(given, lines, header, p, row);
    }

    /** `write_package_compiler_override`. The flags say whether reading and
        replacing the file succeed. */
    method Write(p: string, cc: string, cxx: string, ld: string, toolchain: string, header: seq<string>,
                 canRead: bool, canWrite: bool)
      returns (ok: bool)
      modifies this
      ensures ok == (canRead && canWrite)
      ensures text == if ok then WriteText(old(text), header, p, Chosen(cc, cxx, ld, toolchain)) else old(text)
      ensures ok && IsName(p) && IsCommentBlock(header) ==>
                var given :=
                  if toolchain == "" then map["cc" := cc, "cxx" := cxx, "ld" := ld]
                  else if ld == "" then map["toolchain" := toolchain]
                  else map["toolchain" := toolchain, "ld" := ld];
                if Accepts(Lines(old(text)), p) && forall k :: k in given ==> Plain(given[k])
                then BoundTo(Lines(text), p, given) else !Loads(Lines(text))
    {
      if !canRead {
        return false;
      }
      hide *;
      var row := Row(p, Chosen(cc, cxx, ld, toolchain));
      var lines := Lines(text);
      var sect := Find(lines, 0, |lines|, IsHeader());
      ghost var given := lines;
      SectAtIs(lines);
      if sect == |lines| {
        lines := AppendSection(lines, header, p, row);
      } else {
        var end := Find(lines, sect + 1, |lines|, StartsTable());
        var at := Find(lines, sect + 1, end, IsRow(p));
        if at < end {
          lines := lines[at := row];
        } else {
          lines := lines[..sect + 1] + [row] + lines[sect + 1..];
        }
        EditedIs(given, header, p, row, sect, end, at);
      }
      if !canWrite {
        return false;
      }
      text := Join(lines);
      TextIs(old(text), header, p, Chosen(cc, cxx, ld, toolchain));
      if IsName(p) && IsCommentBlock(header) {
        ChosenIsRead(old(text), header, p, cc, cxx, ld, toolchain);
      }
      return true;
    }

    /** Walk the section until its end or a row of `p`. */
    method FindRow(lines: seq<string>, p: string, sect: nat) returns (i: nat)
      requires sect == SectAt(lines) && sect < |lines|
      ensures sect < i <= |lines| && (HasRow(lines, p) ==> i == RowAt(lines, p))
      ensures HasRow(lines, p) <==> i < |lines| && !StartsTable()(lines[i])
    {
      hide StartsTable, IsRow, IsHeader;
      ghost var end := SectEnd(lines);
      i := sect + 1;
      while i < |lines| && !StartsTable()(lines[i]) && !IsRow(p)(lines[i])
        invariant sect < i <= end && forall j :: sect < j < i ==> !IsRow(p)(lines[j])
      {
        i := i + 1;
      }
      FirstIs(lines, sect + 1, end, IsRow(p), i);
    }

    /** `delete_package_compiler_override`: whether a row was removed. */
    method Delete(p: string, canRead: bool, canWrite: bool) returns (ok: bool)
      modifies this
      ensures ok == (canRead && canWrite && HasRow(Lines(old(text)), p))
      ensures text == if ok then DeleteText(old(text), p) else old(text)
    {
      if !canRead {
        return false;
      }
      hide *;
      var lines := Lines(text);
      var sect := Find(lines, 0, |lines|, IsHeader());
      DeleteIs(text, p);
      if sect == |lines| {
        return false;
      }
      var i := FindRow(lines, p, sect);
      if i == |lines| || StartsTable()(lines[i]) {
        return false;
      }
      if !canWrite {
        return false;
      }
      text := Join(lines[..i] + lines[i + 1..]);
      return true;
    }
  }

  /** An empty toolchain means the raw form. */
  function Chosen(cc: string, cxx: string, ld: string, toolchain: string): Override {
    if toolchain != "" then Bundle(toolchain, ld) else Raw(cc, cxx, ld)
  }

  /** The written file, read as TOML, binds the package to the arguments. */
  lemma ChosenIsRead(text: string, header: seq<string>, p: string, cc: string, cxx: string, ld: string,
                     toolchain: string)
    requires IsName(p) && IsCommentBlock(header)
    ensures var given :=
              if toolchain == "" then map["cc" := cc, "cxx" := cxx, "ld" := ld]
              else if ld == "" then map["toolchain" := toolchain]
              else map["toolchain" := toolchain, "ld" := ld];
            var after := Lines(WriteText(text, header, p, Chosen(cc, cxx, ld, toolchain)));
            if Accepts(Lines(text), p) && forall k :: k in given ==> Plain(given[k])
            then BoundTo(after, p, given) else !Loads(after)
  {
    hide *;
    WriteIsRead(text, header, p, Chosen(cc, cxx, ld, toolchain));
    ChosenSettings(cc, cxx, ld, toolchain);
  }

  lemma ChosenSettings(cc: string, cxx: string, ld: string, toolchain: string)
    ensures var given, o :=
              if toolchain == "" then map["cc" := cc, "cxx" := cxx, "ld" := ld]
              else if ld == "" then map["toolchain" := toolchain]
              else map["toolchain" := toolchain, "ld" := ld],
              Chosen(cc, cxx, ld, toolchain);
            Settings(o) == given && (AllPlain(o) <==> forall k :: k in given ==> Plain(given[k]))
  {
    assert Plain("");
    hide Plain;
    if toolchain == "" {
      var given := map["cc" := cc, "cxx" := cxx, "ld" := ld];
      assert given["cc"] == cc && given["cxx"] == cxx && given["ld"] == ld;
    } else if ld == "" {
      assert map["toolchain" := toolchain]["toolchain"] == toolchain;
    } else {
      var given := map["toolchain" := toolchain, "ld" := ld];
      assert given["toolchain"] == toolchain && given["ld"] == ld;
    }
  }

  lemma DeleteIs(text: string, p: string)
    ensures var lines := Lines(text);
            && SectAt(lines) == First(lines, 0, |lines|, IsHeader())
            && (HasRow(lines, p) ==>
                  && SectAt(lines) < RowAt(lines, p) < |lines|
                  && DeleteText(text, p) == Join(lines[..RowAt(lines, p)] + lines[RowAt(lines, p) + 1..]))
            && (SectAt(lines) == |lines| ==> !HasRow(lines, p))
  {
    hide Lines, Join, First, StartsTable, IsRow;
  }

  lemma SectAtIs(lines: seq<string>)
    ensures SectAt(lines) == First(lines, 0, |lines|, IsHeader())
  {
  }

  lemma TextIs(text: string, header: seq<string>, p: string, o: Override)
    ensures WriteText(text, header, p, o) == Join(WriteLines(Lines(text), header, p, Row(p, o)))
  {
  }

  lemma EditedIs(lines: seq<string>, header: seq<string>, p: string, row: string, sect: nat, end: nat, at: nat)
    requires sect == SectAt(lines) && sect < |lines| && end == First(lines, sect + 1, |lines|, StartsTable())
    requires at == First(lines, sect + 1, end, IsRow(p))
    ensures WriteLines(lines, header, p, row) == if at < end then lines[at := row]
        else lines[..sect + 1] + [row] + lines[sect + 1..]
  {
  }

  /** The header block is appended as one string. */
  lemma AppendedIs(lines: seq<string>, after: seq<string>, header: seq<string>, p: string, row: string)
    requires SectAt(lines) == |lines|
    requires var prior := LastEnded(lines);
             var gap := if prior != [] && Strip(prior[|prior| - 1]) != [] then ["\n"] else [];
             after == prior + gap + [Join(header)] + [SECTION + "\n"] + [row]
    ensures Join(after) == Join(WriteLines(lines, header, p, row))
  {
    var prior := LastEnded(lines);
    var gap := if prior != [] && Strip(prior[|prior| - 1]) != [] then ["\n"] else [];
    var front, tail := prior + gap, [SECTION + "\n", row];
    assert after == front + ([Join(header)] + tail) && WriteLines(lines, header, p, row) == front + (header + tail);
    hide *;
    JoinConcat(front, [Join(header)] + tail);
    JoinConcat(front, header + tail);
    JoinConcat(header, tail);
    JoinHead(Join(header), tail);
  }
}
