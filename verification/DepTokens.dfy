/** Dependency tokens as PKGBUILDs write them: `_looks_unresolved` and
    `_strip_version` in sysforge/primitives/aur_resolve.py. */
module DepTokens {

  const VERSION_OPS: seq<string> := [">=", "<=", "!=", "=", ">", "<"]

  /** Does the token still carry shell syntax the parser could not evaluate? */
  predicate LooksUnresolved(token: string) {
    exists c :: c in token && c in "${}`("
  }

  /** `s.find(sub)`, or the length of `s` when `sub` does not occur. */
  function Find(s: string, sub: string): (i: nat)
    ensures i <= |s|
  {
    if s == [] || sub <= s then 0 else 1 + Find(s[1..], sub)
  }

  function StripAt(token: string, ops: seq<string>): string {
    if ops == [] then token
    else if Find(token, ops[0]) < |token| then token[..Find(token, ops[0])]
    else StripAt(token, ops[1..])
  }

  /** A dependency token without its version constraint. */
  function StripVersion(token: string): string {
    StripAt(token, VERSION_OPS)
  }

  // ---------------------------------------------------------------------
  // What a token names
  // ---------------------------------------------------------------------

  ghost predicate Resolved(token: string) {
    forall c :: c in token ==> c != '$' && c != '{' && c != '}' && c != '`' && c != '('
  }

  ghost predicate OccursAt(s: string, sub: string, i: int) {
    0 <= i <= |s| && sub <= s[i..]
  }

  ghost predicate Occurs(s: string, sub: string) {
    exists i :: OccursAt(s, sub, i)
  }

  /** The k-th operator first occurs right behind `name`, and none listed before
      it occurs anywhere. */
  ghost predicate CutBy(token: string, name: string, k: int) {
    && 0 <= k < |VERSION_OPS| && name <= token
    && OccursAt(token, VERSION_OPS[k], |name|)
    && (forall i :: 0 <= i < |name| ==> !OccursAt(token, VERSION_OPS[k], i))
    && (forall j :: 0 <= j < k ==> !Occurs(token, VERSION_OPS[j]))
  }

  ghost predicate HasOperator(token: string) {
    exists k :: 0 <= k < |VERSION_OPS| && Occurs(token, VERSION_OPS[k])
  }

  /** The name a token asks for. */
  ghost predicate Names(token: string, name: string) {
    if HasOperator(token) then exists k :: CutBy(token, name, k) else name == token
  }

  lemma ResolvedIs(token: string)
    ensures Resolved(token) <==> !LooksUnresolved(token)
  {
    assert forall c: char :: c in "${}`(" <==> c == '$' || c == '{' || c == '}' || c == '`' || c == '(';
  }

  lemma {:induction false} FindIs(s: string, sub: string)
    requires sub != []
    ensures Find(s, sub) < |s| <==> Occurs(s, sub)
    ensures Occurs(s, sub) ==> OccursAt(s, sub, Find(s, sub))
    ensures forall i :: 0 <= i < Find(s, sub) ==> !OccursAt(s, sub, i)
  {
    if s != [] && !(sub <= s) {
      var rest := s[1..];
      FindIs(rest, sub);
      forall i ensures OccursAt(s, sub, i) <==> i > 0 && OccursAt(rest, sub, i - 1) {
        if 0 < i <= |s| {
          assert rest[i - 1..] == s[i..];
        }
      }
      if Occurs(rest, sub) {
        var i :| OccursAt(rest, sub, i);
        assert OccursAt(s, sub, i + 1);
      }
    } else {
      assert s[0..] == s;
      assert s != [] ==> OccursAt(s, sub, 0);
    }
  }

  /** Operators from the k-th on, when none before it occurs. */
  lemma {:induction false} StripFrom(token: string, k: nat)
    requires k <= |VERSION_OPS| && forall j :: 0 <= j < k ==> !Occurs(token, VERSION_OPS[j])
    ensures Names(token, StripAt(token, VERSION_OPS[k..]))
    decreases |VERSION_OPS| - k
  {
    var ops := VERSION_OPS[k..];
    if k < |VERSION_OPS| {
      var op := VERSION_OPS[k];
      FindIs(token, op);
      if Occurs(token, op) {
        assert CutBy(token, token[..Find(token, op)], k);
      } else {
        assert ops[1..] == VERSION_OPS[k + 1..];
        StripFrom(token, k + 1);
      }
    }
  }

  lemma NamesOne(token: string, a: string, b: string)
    requires Names(token, a) && Names(token, b)
    ensures a == b
  {
    if HasOperator(token) {
      var k :| CutBy(token, a, k);
      var l :| CutBy(token, b, l);
      assert Occurs(token, VERSION_OPS[k]) && Occurs(token, VERSION_OPS[l]);
      assert k == l;
      assert |a| == |b|;
    }
  }

  /** Stripping gives the name the token asks for. */
  lemma StripMeans(token: string, name: string)
    ensures StripVersion(token) == name <==> Names(token, name)
  {
    assert VERSION_OPS[0..] == VERSION_OPS;
    StripFrom(token, 0);
    if Names(token, name) {
      NamesOne(token, name, StripVersion(token));
    }
  }

  /** No character of a version operator. */
  ghost predicate NoOperator(s: string) {
    forall c :: c in s ==> c != '<' && c != '>' && c != '=' && c != '!'
  }

  lemma {:induction false} FindBehind(name: string, rest: string, op: string)
    requires NoOperator(name) && op != [] && op[0] in "<>=!"
    ensures Find(name + rest, op) == |name| + Find(rest, op)
  {
    if name == [] {
      assert name + rest == rest;
    } else {
      assert (name + rest)[1..] == name[1..] + rest;
      assert name[0] in name && forall c :: c in name[1..] ==> c in name;
      FindBehind(name[1..], rest, op);
    }
  }

  lemma {:induction false} StripBehind(name: string, rest: string, ops: seq<string>)
    requires NoOperator(name) && forall k :: 0 <= k < |ops| ==> ops[k] != [] && ops[k][0] in "<>=!"
    ensures StripAt(name + rest, ops) == name + StripAt(rest, ops)
  {
    if ops != [] {
      FindBehind(name, rest, ops[0]);
      StripBehind(name, rest, ops[1..]);
    }
  }

  /** A name stays in front of whatever the rest strips to: the name alone is left
      exactly if the first listed operator in the rest stands at its front. */
  lemma NameStays(name: string, rest: string)
    requires NoOperator(name)
    ensures StripVersion(name + rest) == name + StripVersion(rest)
    ensures StripVersion(name + rest) == name <==> Names(rest, "")
    ensures StripVersion(name) == name
  {
    StripMeans(rest, "");
    StripBehind(name, "", VERSION_OPS);
    assert name + "" == name;
    StripBehind(name, rest, VERSION_OPS);
  }

  /** A name, any operator, any version: the token asks for that name. */
  lemma ConstraintNames(name: string, op: string, version: string)
    requires NoOperator(name) && NoOperator(version)
    requires op == ">=" || op == "<=" || op == "!=" || op == "=" || op == ">" || op == "<"
    ensures StripVersion(name + op + version) == name == StripVersion(name)
  {
    hide *;
    NameStays(name, op + version);
    assert name + op + version == name + (op + version);
    ConstraintStripsToNothing(op, version);
  }

  lemma ConstraintStripsToNothing(op: string, version: string)
    requires NoOperator(version)
    requires op == ">=" || op == "<=" || op == "!=" || op == "=" || op == ">" || op == "<"
    ensures StripVersion(op + version) == ""
  {
    var k := if op == ">=" then 0 else if op == "<=" then 1 else if op == "!=" then 2 else if op == "=" then 3
             else if op == ">" then 4 else 5;
    assert OccursAt(op + version, op, 0);
    forall j | 0 <= j < k ensures !Occurs(op + version, VERSION_OPS[j]) {
      OnlyAsListed(op, version, VERSION_OPS[j]);
    }
    assert CutBy(op + version, "", k);
    assert Occurs(op + version, VERSION_OPS[k]);
    StripMeans(op + version, "");
  }

  /** No operator listed before `op` occurs in a constraint with it. */
  lemma OnlyAsListed(op: string, version: string, other: string)
    requires NoOperator(version) && (op == "<=" || op == "!=" || op == "=" || op == ">" || op == "<")
    requires other != op && (other == ">=" || other == "<=" || other == "!=" || other == "=" || other == ">")
    requires op == "<=" ==> other == ">="
    requires op == "!=" ==> other == ">=" || other == "<="
    requires op == "=" ==> |other| == 2
    requires op == ">" ==> other != ">"
    ensures !Occurs(op + version, other)
  {
    if |other| == 2 {
      NoOtherPair(op, version, other);
    } else {
      NoOtherSign(op, version, other);
    }
  }

  lemma NoOtherPair(op: string, version: string, other: string)
    requires NoOperator(version) && 0 < |op| <= 2 && |other| == 2 && other[1] == '=' && other != op
    ensures !Occurs(op + version, other)
  {
    var token := op + version;
    forall i | 0 <= i <= |token| ensures !(other <= token[i..]) {
      if i + 1 < |token| {
        assert token[i..][0] == token[i] && token[i..][1] == token[i + 1];
        assert i + 1 >= |op| ==> token[i + 1] == version[i + 1 - |op|] && version[i + 1 - |op|] in version;
        assert i + 1 < |op| ==> op == [token[i], token[i + 1]];
        assert other == [other[0], other[1]];
      }
    }
  }

  lemma NoOtherSign(op: string, version: string, other: string)
    requires NoOperator(version) && (other == "=" || other == ">") && other[0] !in op
    ensures !Occurs(op + version, other)
  {
    var token := op + version;
    forall i | 0 <= i <= |token| ensures !(other <= token[i..]) {
      if i < |token| {
        assert token[i..][0] == token[i];
        assert i >= |op| ==> token[i] == version[i - |op|] && version[i - |op|] in version;
        assert i < |op| ==> token[i] == op[i] && op[i] in op;
      }
    }
  }

  /** The operators are tried in a fixed order, so that a version with an operator
      in it can become part of the name. */
  lemma OperatorInVersion()
    ensures StripVersion("a=1>=2") == "a=1" && StripVersion("a>=1=2") == "a"
  {
    FindBehind("a", "=1>=2", ">=");
    assert "a" + "=1>=2" == "a=1>=2";
    assert Find("=1>=2", ">=") == 2 by {
      assert "=1>=2"[1..] == "1>=2" && "1>=2"[1..] == ">=2";
    }
    FindBehind("a", ">=1=2", ">=");
    assert "a" + ">=1=2" == "a>=1=2";
  }
}
