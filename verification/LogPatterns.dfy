/** The patterns of the live output filter (scripts/buildkite.ts), against literal text: what the recognisers
    recognise, and what becomes of a line that starts with it, however the stream is cut. */
module LogPatterns {
  import opened Wrappers
  import opened LogText
  import opened LineRewrite
  import opened LiveOutput
  import opened LiveFilter

  // ----- Fixed text -----

  lemma PrefixIs(w: Text, t: Text)
    ensures w <= t <==> |w| <= |t| && forall i :: 0 <= i < |w| ==> w[i] == t[i]
  {
  }

  lemma ColonsAre(t: Text)
    ensures StartsColons(t) <==> "::" <= t
  {
    PrefixIs("::", t);
  }

  lemma HeaderIs(t: Text)
    ensures IsFileHeader(t) <==> "::group::" <= t
  {
    var w := "::group::";
    assert w[0] == ':' && w[1] == ':' && w[2] == 'g' && w[3] == 'r' && w[4] == 'o' && w[5] == 'u' && w[6] == 'p';
    assert w[7] == ':' && w[8] == ':' && |w| == 9;
    PrefixIs(w, t);
  }

  lemma EndGroupIs(t: Text)
    ensures StartsColons(t) && StartsEnd(t[2..]) && StartsGroup(t[5..]) <==> "::endgroup::" <= t
  {
    var w := "::endgroup::";
    assert w[0] == ':' && w[1] == ':' && w[2] == 'e' && w[3] == 'n' && w[4] == 'd' && |w| == 12;
    assert w[5] == 'g' && w[6] == 'r' && w[7] == 'o' && w[8] == 'u' && w[9] == 'p' && w[10] == ':' && w[11] == ':';
    PrefixIs(w, t);
  }

  /** Outside GitHub Actions every workflow command is one to drop, there only those that open and close groups. */
  lemma CommandIs(t: Text)
    ensures IsCommand(false, t) <==> "::" <= t
    ensures IsCommand(true, t) <==> "::group::" <= t || "::endgroup::" <= t
  {
    ColonsAre(t);
    HeaderIs(t);
    EndGroupIs(t);
  }

  lemma MarkerIs(s: Text)
    ensures IsGroupMarker(s) <==> "--- " <= s || "+++ " <= s || "~~~ " <= s || "^^^ " <= s
  {
    OneMarker("--- ", '-', s);
    OneMarker("+++ ", '+', s);
    OneMarker("~~~ ", '~', s);
    OneMarker("^^^ ", '^', s);
  }

  lemma OneMarker(w: Text, c: char, s: Text)
    requires w == [c, c, c, ' ']
    ensures w <= s <==> |s| >= 4 && s[0] == c && s[1] == c && s[2] == c && s[3] == ' '
  {
    PrefixIs(w, s);
  }

  /** Where lines end, and after what else `^` matches. */
  lemma TerminatorsAre(c: char, s: Text)
    ensures IsEol(c) <==> c in "\r\n"
    ensures IsLineTerminator(c) <==> IsEol(c) || c == '\U{2028}' || c == '\U{2029}'
    ensures Plain(s) <==> '\U{2028}' !in s && '\U{2029}' !in s
    ensures NoEol(s) <==> '\r' !in s && '\n' !in s
  {
  }

  // ----- Escape sequences -----

  predicate Param(c: char) { '0' <= c <= '9' || c == ';' }

  predicate Letter(c: char) { 'a' <= c <= 'z' || 'A' <= c <= 'Z' }

  /** An escape sequence: escape, a bracket, digits and semicolons, a letter. */
  predicate IsCode(s: Text) {
    && |s| >= 3 && s[0] == '\U{1B}' && s[1] == '[' && Letter(s[|s| - 1])
    && forall i :: 2 <= i < |s| - 1 ==> Param(s[i])
  }

  /** Some of them, one after the other. */
  predicate IsCodes(s: Text)
    decreases |s|
  {
    s == [] || exists n :: 0 < n <= |s| && IsCode(s[..n]) && IsCodes(s[n..])
  }

  /** None of them at the start. */
  predicate NoCode(s: Text) { forall n :: 0 < n <= |s| ==> !IsCode(s[..n]) }

  lemma {:induction false} ParamsLenIs(s: Text)
    ensures forall i :: 0 <= i < ParamsLen(s) ==> Param(s[i])
    ensures ParamsLen(s) < |s| ==> !Param(s[ParamsLen(s)])
    decreases |s|
  {
    if s != [] && IsParam(s[0]) {
      ParamsLenIs(s[1..]);
      assert forall i :: 1 <= i < |s| ==> s[i] == s[1..][i - 1];
    }
  }

  /** What is recognised at the start of a text. */
  lemma AnsiLenIs(s: Text)
    ensures AnsiLen(s) > 0 ==> IsCode(s[..AnsiLen(s)])
    ensures AnsiLen(s) == 0 <==> NoCode(s)
    ensures forall n :: 0 < n <= |s| && IsCode(s[..n]) ==> n == AnsiLen(s)
  {
    hide ParamsLen;
    if |s| >= 2 {
      var t := s[2..];
      ParamsLenIs(t);
      assert forall i :: 2 <= i < |s| ==> s[i] == t[i - 2];
      forall n | 0 < n <= |s| && IsCode(s[..n]) ensures n == AnsiLen(s) {
        assert forall i :: 0 <= i < n ==> s[..n][i] == s[i];
        assert Letter(s[n - 1]) && !Param(s[n - 1]) && forall i :: 2 <= i < n - 1 ==> Param(s[i]);
      }
      if AnsiLen(s) > 0 {
        assert forall i :: 0 <= i < AnsiLen(s) ==> s[..AnsiLen(s)][i] == s[i];
      }
    }
  }

  /** What is skipped is a run of escape sequences, and what is left starts with none. */
  lemma {:induction false} SkipAnsiIs(s: Text) returns (n: nat)
    ensures n <= |s| && IsCodes(s[..n]) && SkipAnsi(s) == s[n..] && NoCode(s[n..])
    decreases |s|
  {
    hide AnsiLen, IsCode;
    AnsiLenIs(s);
    var m := AnsiLen(s);
    if m == 0 {
      n := 0;
      assert s[0..] == s && s[..0] == [];
    } else {
      var k := SkipAnsiIs(s[m..]);
      n := m + k;
      assert s[..n][..m] == s[..m] && s[..n][m..] == s[m..][..k] && s[n..] == s[m..][k..];
    }
  }

  /** And so it is for any such text. */
  lemma {:induction false} SkipsCodes(codes: Text, t: Text)
    requires IsCodes(codes) && NoCode(t)
    ensures SkipAnsi(codes + t) == t
    decreases |codes|
  {
    hide AnsiLen, IsCode;
    if codes == [] {
      AnsiLenIs(t);
      assert codes + t == t;
    } else {
      var n :| 0 < n <= |codes| && IsCode(codes[..n]) && IsCodes(codes[n..]);
      var s := codes + t;
      AnsiLenIs(s);
      assert s[..n] == codes[..n] && s[n..] == codes[n..] + t;
      SkipsCodes(codes[n..], t);
    }
  }

  /** What is visible: escape sequences are removed, and every other character stays. */
  lemma VisibleIs(code: Text, s: Text)
    ensures IsCode(code) ==> StripAnsi(code + s) == StripAnsi(s)
    ensures s != [] && NoCode(s) ==> StripAnsi(s) == [s[0]] + StripAnsi(s[1..])
    ensures StripAnsi([]) == []
  {
    hide IsCode, AnsiLen;
    AnsiLenIs(s);
    if IsCode(code) {
      var t := code + s;
      AnsiLenIs(t);
      CodeIsLong(code);
      assert t[..|code|] == code && t[|code|..] == s;
    }
  }

  lemma CodeIsLong(code: Text)
    requires IsCode(code)
    ensures |code| > 0
  {
  }

  // ----- What is held back -----

  /** A proper prefix of a fixed text. */
  predicate Begins(v: Text, w: Text) { |v| < |w| && v <= w }

  /** Which incomplete lines are held back: those that show the start of an escape sequence and nothing else, two
      colons, one colon, nothing, or the start of a marker. */
  lemma HeldIff(cfg: Config, line: Text)
    ensures var v := StripAnsi(line);
            HoldBack(cfg, line) <==>
              || v == ['\U{1B}'] || (|v| >= 2 && v[0] == '\U{1B}' && v[1] == '[' && forall i :: 2 <= i < |v| ==> Param(v[i]))
              || "::" <= v || Begins(v, "::")
              || (cfg.buildkite && (Begins(v, "--- ") || Begins(v, "+++ ") || Begins(v, "~~~ ") || Begins(v, "^^^ ")))
  {
    hide StripAnsi;
    var v := StripAnsi(line);
    ColonsAre(v);
    PartialEscapeIs(v);
    MarkersAre(cfg, v);
  }

  lemma PartialEscapeIs(v: Text)
    ensures IsPartialEscape(v) <==>
              v == ['\U{1B}'] || (|v| >= 2 && v[0] == '\U{1B}' && v[1] == '[' && forall i :: 2 <= i < |v| ==> Param(v[i]))
  {
    if |v| >= 2 {
      var t := v[2..];
      ParamsLenIs(t);
      assert forall i :: 2 <= i < |v| ==> v[i] == t[i - 2];
      assert ParamsLen(t) < |t| ==> !Param(v[2 + ParamsLen(t)]);
    } else if |v| == 1 {
      assert v == [v[0]];
    }
  }

  lemma MarkersAre(cfg: Config, v: Text)
    ensures (exists i :: 0 <= i < |Markers(cfg)| && |v| < |Markers(cfg)[i]| && v <= Markers(cfg)[i]) <==>
              || Begins(v, "::")
              || (cfg.buildkite && (Begins(v, "--- ") || Begins(v, "+++ ") || Begins(v, "~~~ ") || Begins(v, "^^^ ")))
  {
    var m := Markers(cfg);
    assert m[0] == "::";
    if cfg.buildkite {
      assert |m| == 5 && m[1] == "--- " && m[2] == "+++ " && m[3] == "~~~ " && m[4] == "^^^ ";
    }
  }

  /** Nothing is held back without a reason: what is visible of it could still go on to a command or a marker. */
  lemma HeldForAReason(cfg: Config, line: Text)
    requires HoldBack(cfg, line)
    ensures var v := StripAnsi(line);
            exists d :: "::" <= SkipAnsi(v + d) || (cfg.buildkite && |v| < 4 && IsGroupMarker(v + d))
  {
    hide StripAnsi, SkipAnsi, HoldBack;
    var v := StripAnsi(line);
    HeldIff(cfg, line);
    if "::" <= v || Begins(v, "::") {
      var d := if "::" <= v then [] else "::"[|v|..];
      assert "::" <= v + d by { if Begins(v, "::") { assert v + d == "::"; } }
      NoEscapeSkips(v + d);
    } else if cfg.buildkite && (Begins(v, "--- ") || Begins(v, "+++ ") || Begins(v, "~~~ ") || Begins(v, "^^^ ")) {
      var w := if Begins(v, "--- ") then "--- " else if Begins(v, "+++ ") then "+++ "
               else if Begins(v, "~~~ ") then "~~~ " else "^^^ ";
      var d := w[|v|..];
      assert v + d == w;
      MarkerIs(w);
    } else {
      var d := if |v| == 1 then "[m::" else "m::";
      EscapeGoesOn(v, d);
    }
  }

  lemma NoEscapeSkips(s: Text)
    requires "::" <= s
    ensures SkipAnsi(s) == s
  {
    assert s[0] == "::"[0];
  }

  lemma EscapeGoesOn(v: Text, d: Text)
    requires v == ['\U{1B}'] || (|v| >= 2 && v[0] == '\U{1B}' && v[1] == '[' && forall i :: 2 <= i < |v| ==> Param(v[i]))
    requires d == if |v| == 1 then "[m::" else "m::"
    ensures "::" <= SkipAnsi(v + d)
  {
    hide SkipAnsi;
    var code, t := (v + d)[..|v + d| - 2], "::";
    assert v + d == code + t;
    assert forall i :: 0 <= i < |code| ==> code[i] == if i < |v| then v[i] else d[i - |v|];
    assert IsCode(code);
    assert code[..|code|] == code && code[|code|..] == [] && IsCodes([]);
    assert NoCode(t);
    SkipsCodes(code, t);
  }

  // ----- What comes out -----

  lemma {:induction false} RewriteSplit(cfg: Config, full: Text, y: Text)
    requires Complete(full, y)
    ensures RewriteAll(cfg, full + y) == RewriteAll(cfg, full) + RewriteAll(cfg, y)
    decreases |full|
  {
    hide RewriteAll, RewriteLine, Complete, NoEol;
    NothingToRewrite(cfg);
    if full == [] {
      assert full + y == y;
    } else {
      var c, e, rest := FirstLine(full);
      SplitFirst(c, e, rest, y);
      RewriteSplit(cfg, rest, y);
      RewriteAllLine(cfg, c, e, rest);
      RewriteAllLine(cfg, c, e, rest + y);
      Assoc(RewriteLine(cfg, c, e), RewriteAll(cfg, rest), RewriteAll(cfg, y));
    }
  }

  /** What becomes of a line, by the text it starts with after some escape sequences: a file header becomes plain
      text. In GitHub Actions only commands that close a group vanish, and every other command stays as
      it is; elsewhere every command vanishes. In Buildkite a marker right at the start is defused.
      Everything else stays. */
  function Outcome(cfg: Config, codes: Text, t: Text, e: Text): Text {
    if "::group::" <= t then "test: " + t[9..] + e
    else if cfg.github && "::endgroup::" <= t then []
    else if !cfg.github && "::" <= t then []
    else if cfg.buildkite && codes == [] && ("--- " <= t || "+++ " <= t || "~~~ " <= t || "^^^ " <= t) then " " + t[4..] + e
    else codes + t + e
  }

  lemma LineOutcome(cfg: Config, codes: Text, t: Text, e: Text)
    requires IsCodes(codes) && NoCode(t)
    ensures RewriteLine(cfg, codes + t, e) == Outcome(cfg, codes, t, e)
  {
    hide SkipAnsi, IsFileHeader, IsCommand, IsGroupMarker, IsCodes, NoCode;
    SkipsCodes(codes, t);
    HeaderIs(t);
    CommandIs(t);
    MarkerIs(t);
    if codes == [] {
      assert codes + t == t;
    } else {
      CodesStart(codes);
      assert (codes + t)[0] == codes[0];
      NoMarkerAtEscape(codes + t);
    }
    HeaderIsCommand(t);
  }

  lemma HeaderIsCommand(t: Text)
    ensures "::group::" <= t ==> "::" <= t
    ensures "::endgroup::" <= t ==> "::" <= t && !("::group::" <= t)
  {
    if "::group::" <= t { assert t[0] == "::group::"[0] && t[1] == "::group::"[1]; }
    if "::endgroup::" <= t { assert t[0] == "::endgroup::"[0] && t[1] == "::endgroup::"[1] && t[2] == "::endgroup::"[2]; }
    assert "::group::" <= t ==> t[2] == "::group::"[2];
  }

  lemma CodesStart(codes: Text)
    requires IsCodes(codes) && codes != []
    ensures codes[0] == '\U{1B}'
  {
    var n :| 0 < n <= |codes| && IsCode(codes[..n]) && IsCodes(codes[n..]);
    assert codes[..n][0] == codes[0];
  }

  lemma NoMarkerAtEscape(s: Text)
    requires s != [] && s[0] == '\U{1B}'
    ensures !IsGroupMarker(s)
  {
  }

  /** However a stream without U+2028 and U+2029 is cut: what comes out of one of its lines, between what comes
      out of those before and after it. */
  lemma LineComesOut(cfg: Config, before: Text, codes: Text, t: Text, e: Text, after: Text, chunks: seq<Text>)
    requires IsCodes(codes) && NoCode(t) && codes + t + e != []
    requires Line(codes + t, e, after) && Complete(before, codes + t + (e + after))
    requires Concat(chunks) == before + (codes + t + (e + after)) && Plain(Concat(chunks))
    ensures Total(cfg, START, chunks)
            == RewriteAll(cfg, before) + (Outcome(cfg, codes, t, e) + RewriteAll(cfg, after))
  {
    hide Total, RewriteAll, RewriteLine, Outcome, NoEol, Plain, IsCodes, NoCode, Alike, Filtered, Complete;
    ChunkingDoesNotMatter(cfg, chunks);
    RewriteSplit(cfg, before, codes + t + (e + after));
    RewriteAllLine(cfg, codes + t, e, after);
    LineOutcome(cfg, codes, t, e);
  }

  lemma LoneLine(cfg: Config, t: Text, e: Text, chunks: seq<Text>)
    requires NoEol(t) && NoCode(t) && Plain(t + e) && e == "\n" && Concat(chunks) == t + e
    ensures Total(cfg, START, chunks) == Outcome(cfg, [], t, e)
  {
    hide Total, RewriteAll, Outcome, Plain, Concat, NoCode, NoEol;
    var none: Text := [];
    assert none + t == t && t + (e + none) == t + e && none + (t + e) == t + e && t + e != [];
    assert IsCodes(none) && Complete(none, t + e);
    LineComesOut(cfg, none, none, t, e, none, chunks);
    NothingToRewrite(cfg);
    assert none + (Outcome(cfg, none, t, e) + none) == Outcome(cfg, none, t, e);
  }

  /** In GitHub Actions an error is kept, which becomes an annotation, and elsewhere it vanishes. */
  lemma ErrorsAreForGitHub(cfg: Config, text: Text, chunks: seq<Text>)
    requires NoEol(text) && Plain(text) && Concat(chunks) == "::error " + text + "\n"
    ensures Total(cfg, START, chunks) == if cfg.github then "::error " + text + "\n" else []
  {
    hide Total, NoEol, Plain, Concat, NoCode;
    var t := "::error " + text;
    ErrorLine(cfg, t, text);
    OneLineEnd(t, "\n");
    LoneLine(cfg, t, "\n", chunks);
    assert [] + t == t;
  }

  lemma OneLineEnd(t: Text, e: Text)
    requires Plain(t) && e == "\n"
    ensures Plain(t + e) && Complete([], t + e)
  {
  }

  lemma ErrorLine(cfg: Config, t: Text, text: Text)
    requires t == "::error " + text && NoEol(text) && Plain(text)
    ensures NoEol(t) && Plain(t) && "::" <= t && !("::group::" <= t) && !("::endgroup::" <= t) && NoCode(t) && IsCodes([])
    ensures !("--- " <= t || "+++ " <= t || "~~~ " <= t || "^^^ " <= t)
  {
    assert t[0] == ':' && t[1] == ':' && t[2] == 'e' && t[3] == 'r';
    assert forall i :: 8 <= i < |t| ==> t[i] == text[i - 8];
    assert "::group::"[2] == 'g' && "::endgroup::"[3] == 'n';
    assert "--- "[0] == '-' && "+++ "[0] == '+' && "~~~ "[0] == '~' && "^^^ "[0] == '^';
  }
}
