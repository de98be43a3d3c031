/** `escapeXml` (scripts/runner.node.ts) and `unescapeXml` (scripts/buildkite.ts): chains of global
    replacements, where what one of them writes is read again by the next. */
module XmlText {

  /** `s.replace(/c/g, sub)` */
  function ReplaceChar(s: string, c: char, sub: string): string {
    if s == [] then [] else (if s[0] == c then sub else [s[0]]) + ReplaceChar(s[1..], c, sub)
  }

  /** `s.replace(/pattern/g, sub)` for a fixed text. */
  function ReplaceText(s: string, pattern: string, sub: string): string
    requires pattern != []
    decreases |s|
  {
    if s == [] then []
    else if pattern <= s then sub + ReplaceText(s[|pattern|..], pattern, sub)
    else [s[0]] + ReplaceText(s[1..], pattern, sub)
  }

  predicate IsDigit(c: char) { '0' <= c <= '9' }

  function DigitsLen(s: string): (n: nat)
    ensures n <= |s|
  {
    if s == [] || !IsDigit(s[0]) then 0 else 1 + DigitsLen(s[1..])
  }

  /** The length of `&#(\d+);` at the start of `s`, or 0. */
  function ReferenceLen(s: string): (n: nat)
    ensures n <= |s|
    ensures n > 0 ==> n >= 4
  {
    if |s| < 4 || s[0] != '&' || s[1] != '#' then 0
    else
      var d := DigitsLen(s[2..]);
      if d > 0 && 2 + d < |s| && s[2 + d] == ';' then d + 3 else 0
  }

  /** The first replacement of `unescapeXml`; `decode` is `String.fromCharCode(Number(…))`. */
  function ReplaceReferences(s: string, decode: string -> char): string
    decreases |s|
  {
    if s == [] then []
    else
      var n := ReferenceLen(s);
      if n > 0 then [decode(s[2..n - 1])] + ReplaceReferences(s[n..], decode)
      else [s[0]] + ReplaceReferences(s[1..], decode)
  }

  function EscapeXml(s: string): string {
    ReplaceChar(ReplaceChar(ReplaceChar(ReplaceChar(ReplaceChar(s,
      '&', "&amp;"), '<', "&lt;"), '>', "&gt;"), '"', "&quot;"), '\'', "&apos;")
  }

  function UnescapeXml(s: string, decode: string -> char): string {
    ReplaceText(ReplaceText(ReplaceText(ReplaceText(ReplaceText(ReplaceReferences(s, decode),
      "&quot;", "\""), "&apos;", "'"), "&lt;", "<"), "&gt;", ">"), "&amp;", "&")
  }

  // ----- One character at a time -----

  /** When `unescapeXml` restores a character; 0 for a character that needs no escape. */
  function Turn(c: char): nat {
    match c
    case '"' => 1
    case '\'' => 2
    case '<' => 3
    case '>' => 4
    case '&' => 5
    case _ => 0
  }

  function Entity(turn: nat): string {
    match turn
    case 1 => "&quot;"
    case 2 => "&apos;"
    case 3 => "&lt;"
    case 4 => "&gt;"
    case _ => "&amp;"
  }

  function Restored(turn: nat): char {
    match turn
    case 1 => '"'
    case 2 => '\''
    case 3 => '<'
    case 4 => '>'
    case _ => '&'
  }

  /** What a character of the original is, after the first `k` entities have been restored. */
  function Form(k: nat, c: char): string { if k < Turn(c) then Entity(Turn(c)) else [c] }

  function Text(k: nat, s: string): string {
    if s == [] then [] else Form(k, s[0]) + Text(k, s[1..])
  }

  lemma {:induction false} ReplaceCharConcat(a: string, b: string, c: char, sub: string)
    ensures ReplaceChar(a + b, c, sub) == ReplaceChar(a, c, sub) + ReplaceChar(b, c, sub)
    decreases |a|
  {
    if a == [] {
      assert a + b == b;
    } else {
      assert (a + b)[1..] == a[1..] + b;
      ReplaceCharConcat(a[1..], b, c, sub);
    }
  }

  lemma EscapeConcat(a: string, b: string)
    ensures EscapeXml(a + b) == EscapeXml(a) + EscapeXml(b)
  {
    ReplaceCharConcat(a, b, '&', "&amp;");
    var a1, b1 := ReplaceChar(a, '&', "&amp;"), ReplaceChar(b, '&', "&amp;");
    ReplaceCharConcat(a1, b1, '<', "&lt;");
    var a2, b2 := ReplaceChar(a1, '<', "&lt;"), ReplaceChar(b1, '<', "&lt;");
    ReplaceCharConcat(a2, b2, '>', "&gt;");
    var a3, b3 := ReplaceChar(a2, '>', "&gt;"), ReplaceChar(b2, '>', "&gt;");
    ReplaceCharConcat(a3, b3, '"', "&quot;");
    var a4, b4 := ReplaceChar(a3, '"', "&quot;"), ReplaceChar(b3, '"', "&quot;");
    ReplaceCharConcat(a4, b4, '\'', "&apos;");
  }

  lemma {:induction false} ReplaceCharMisses(s: string, c: char, sub: string)
    requires c !in s
    ensures ReplaceChar(s, c, sub) == s
    decreases |s|
  {
    if s != [] { ReplaceCharMisses(s[1..], c, sub); }
  }

  lemma ReplaceCharOne(x: char, c: char, sub: string)
    ensures ReplaceChar([x], c, sub) == if x == c then sub else [x]
  {
    assert [x][1..] == [];
    assert sub + [] == sub;
  }

  lemma EscapeOne(c: char)
    ensures EscapeXml([c]) == Form(0, c)
  {
    var s1 := ReplaceChar([c], '&', "&amp;");
    var s2 := ReplaceChar(s1, '<', "&lt;");
    var s3 := ReplaceChar(s2, '>', "&gt;");
    var s4 := ReplaceChar(s3, '"', "&quot;");
    assert s1 == if c == '&' then Entity(5) else [c] by { ReplaceCharOne(c, '&', "&amp;"); }
    assert s2 == if c == '<' then Entity(3) else s1 by { EscapeStep(c, s1, '<', "&lt;"); }
    assert s3 == if c == '>' then Entity(4) else s2 by { EscapeStep(c, s2, '>', "&gt;"); }
    assert s4 == if c == '"' then Entity(1) else s3 by { EscapeStep(c, s3, '"', "&quot;"); }
    EscapeStep(c, s4, '\'', "&apos;");
  }

  /** One replacement on a character, or on the entity that it has already become. */
  lemma EscapeStep(c: char, s: string, x: char, entity: string)
    requires s == [c] || (c != x && exists i :: 1 <= i <= 5 && s == Entity(i))
    requires x in "<>\"'"
    ensures ReplaceChar(s, x, entity) == if c == x then entity else s
  {
    if s == [c] {
      ReplaceCharOne(c, x, entity);
    } else {
      var i :| 1 <= i <= 5 && s == Entity(i);
      assert x !in Entity(i);
      ReplaceCharMisses(s, x, entity);
    }
  }

  /** The chain of replacements is one map over the characters. */
  lemma {:induction false} EscapeIsPerCharacter(s: string)
    ensures EscapeXml(s) == Text(0, s)
    decreases |s|
  {
    if s != [] {
      assert s == [s[0]] + s[1..];
      EscapeConcat([s[0]], s[1..]);
      EscapeOne(s[0]);
      EscapeIsPerCharacter(s[1..]);
    }
  }

  // ----- The way back -----

  predicate NoAmp(s: string) { forall i :: 0 <= i < |s| ==> s[i] != '&' }

  /** A pattern that starts with `&` is not found before the first `&`. */
  lemma {:induction false} ReplaceTextSkips(u: string, rest: string, pattern: string, sub: string)
    requires NoAmp(u) && pattern != [] && pattern[0] == '&'
    ensures ReplaceText(u + rest, pattern, sub) == u + ReplaceText(rest, pattern, sub)
    decreases |u|
  {
    if u == [] {
      assert u + rest == rest;
    } else {
      assert (u + rest)[1..] == u[1..] + rest && (u + rest)[0] == u[0];
      ReplaceTextSkips(u[1..], rest, pattern, sub);
    }
  }

  lemma EntityStarts(i: nat)
    ensures Entity(i) != [] && Entity(i)[0] == '&' && NoAmp(Entity(i)[1..]) && |Entity(i)| >= 4
  {
  }

  /** Different entities differ where both have a character. */
  lemma EntitiesDiffer(i: nat, j: nat, rest: string)
    requires 1 <= i <= 5 && 1 <= j <= 5 && i != j
    ensures !(Entity(j) <= Entity(i) + rest)
  {
    var a, b := Entity(i), Entity(j);
    assert (a + rest)[1] == a[1] && (a + rest)[2] == a[2];
    assert a[1] != b[1] || a[2] != b[2];
  }

  lemma RestoreOne(k: nat, c: char, rest: string)
    requires k < 5
    ensures ReplaceText(Form(k, c) + rest, Entity(k + 1), [Restored(k + 1)])
            == Form(k + 1, c) + ReplaceText(rest, Entity(k + 1), [Restored(k + 1)])
  {
    var pattern, sub := Entity(k + 1), [Restored(k + 1)];
    var form := Form(k, c);
    EntityStarts(k + 1);
    if k < Turn(c) {
      EntityStarts(Turn(c));
      if Turn(c) == k + 1 {
        assert (form + rest)[|form|..] == rest;
        assert Restored(k + 1) == c;
      } else {
        EntitiesDiffer(Turn(c), k + 1, rest);
        assert (form + rest)[1..] == form[1..] + rest;
        ReplaceTextSkips(form[1..], rest, pattern, sub);
        PutBack(form, ReplaceText(rest, pattern, sub));
      }
    } else {
      ReplaceTextSkips(form, rest, pattern, sub);
    }
  }

  lemma {:induction false} RestoreEntity(k: nat, s: string)
    requires k < 5
    ensures ReplaceText(Text(k, s), Entity(k + 1), [Restored(k + 1)]) == Text(k + 1, s)
    decreases |s|
  {
    if s != [] {
      RestoreOne(k, s[0], Text(k, s[1..]));
      RestoreEntity(k, s[1..]);
    }
  }

  lemma {:induction false} ReferencesSkip(u: string, rest: string, decode: string -> char)
    requires NoAmp(u)
    ensures ReplaceReferences(u + rest, decode) == u + ReplaceReferences(rest, decode)
    decreases |u|
  {
    if u == [] {
      assert u + rest == rest;
    } else {
      assert (u + rest)[1..] == u[1..] + rest && (u + rest)[0] == u[0];
      ReferencesSkip(u[1..], rest, decode);
    }
  }

  lemma NoReferenceAtEntity(i: nat, rest: string, decode: string -> char)
    ensures ReplaceReferences(Entity(i) + rest, decode) == Entity(i) + ReplaceReferences(rest, decode)
  {
    var e := Entity(i);
    EntityStarts(i);
    assert (e + rest)[1] == e[1] != '#';
    assert ReferenceLen(e + rest) == 0;
    assert (e + rest)[1..] == e[1..] + rest && (e + rest)[0] == e[0];
    ReferencesSkip(e[1..], rest, decode);
    PutBack(e, ReplaceReferences(rest, decode));
  }

  lemma PutBack(e: string, rest: string)
    requires e != []
    ensures [e[0]] + (e[1..] + rest) == e + rest
  {
  }

  /** Escaped text holds no numeric reference, not even where the original did. */
  lemma {:induction false} NoReferences(s: string, decode: string -> char)
    ensures ReplaceReferences(Text(0, s), decode) == Text(0, s)
    decreases |s|
  {
    if s != [] {
      var rest := Text(0, s[1..]);
      NoReferences(s[1..], decode);
      if Turn(s[0]) > 0 {
        NoReferenceAtEntity(Turn(s[0]), rest, decode);
      } else {
        ReferencesSkip([s[0]], rest, decode);
      }
    }
  }

  lemma {:induction false} AllRestored(s: string)
    ensures Text(5, s) == s
    decreases |s|
  {
    if s != [] {
      AllRestored(s[1..]);
      assert s == [s[0]] + s[1..];
    }
  }

  /** Every text comes back from escaping and unescaping, entity text in it included. */
  lemma EscapeRoundTrip(s: string, decode: string -> char)
    ensures UnescapeXml(EscapeXml(s), decode) == s
  {
    EscapeIsPerCharacter(s);
    NoReferences(s, decode);
    RestoreEntity(0, s);
    RestoreEntity(1, s);
    RestoreEntity(2, s);
    RestoreEntity(3, s);
    RestoreEntity(4, s);
    AllRestored(s);
  }

  // ----- Numeric references -----

  lemma {:induction false} DigitsLenOf(d: string, rest: string)
    requires (forall i :: 0 <= i < |d| ==> '0' <= d[i] <= '9') && (rest == [] || !('0' <= rest[0] <= '9'))
    ensures DigitsLen(d + rest) == |d|
    decreases |d|
  {
    if d == [] {
      assert d + rest == rest;
    } else {
      assert (d + rest)[1..] == d[1..] + rest && (d + rest)[0] == d[0];
      DigitsLenOf(d[1..], rest);
    }
  }

  /** A numeric reference is decoded before anything else. */
  lemma DecodesReference(d: string, rest: string, decode: string -> char)
    requires d != [] && forall i :: 0 <= i < |d| ==> '0' <= d[i] <= '9'
    ensures ReplaceReferences("&#" + d + ";" + rest, decode) == [decode(d)] + ReplaceReferences(rest, decode)
  {
    hide DigitsLen;
    var s := "&#" + d + ";" + rest;
    assert s[0] == '&' && s[1] == '#' && s[2..] == d + (";" + rest);
    DigitsLenOf(d, ";" + rest);
    assert s[2 + |d|] == ';' && s[2..2 + |d|] == d && s[3 + |d|..] == rest;
  }
}
