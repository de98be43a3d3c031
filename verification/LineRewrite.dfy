/** What the live output filter is for, line by line, and why its three global replacements
    compute it on a text that is cut at line ends (scripts/buildkite.ts). */
module LineRewrite {
  import opened Wrappers
  import opened LogText

  /** Where the runner itself runs. */
  datatype Config = Config(github: bool, buildkite: bool)

  /** One whole line: file headers become plain text, workflow commands vanish with their line
      end, Buildkite group markers are defused, and everything else stays. */
  function RewriteLine(cfg: Config, content: Text, eol: Text): Text {
    var t := SkipAnsi(content);
    if IsFileHeader(t) then "test: " + t[9..] + eol
    else if IsCommand(cfg.github, t) then ""
    else if cfg.buildkite && IsGroupMarker(content) then " " + content[4..] + eol
    else content + eol
  }

  /** The length of the first line of `s`, its line end included. */
  function LineLen(s: Text): (n: nat)
    ensures n <= |s| && (s != [] ==> n > 0)
  {
    RunLen(s) + EolLen(s[RunLen(s)..])
  }

  /** The reference: every line of the whole stream rewritten, one after the other. */
  function RewriteAll(cfg: Config, s: Text): Text
    decreases |s|
  {
    if s == [] then []
    else
      var n := RunLen(s);
      RewriteLine(cfg, s[..n], s[n..LineLen(s)]) + RewriteAll(cfg, s[LineLen(s)..])
  }

  /** The three replacements, in the order the filter applies them. */
  function Transform(cfg: Config, s: Text): Text {
    var t := Replace(Commands(cfg.github), Replace(FileHeaders, s, true), true);
    if cfg.buildkite then Replace(GroupMarkers, t, true) else t
  }

  // ----- Lines -----

  predicate StopsLine(w: Text) { w == [] || IsEol(w[0]) }

  predicate IsLineEnd(e: Text) {
    (|e| == 1 && IsEol(e[0])) || (|e| == 2 && e[0] == '\r' && e[1] == '\n')
  }

  predicate StartsWithLF(s: Text) { s != [] && s[0] == '\n' }

  /** `c + e` is the first line of `c + e + rest`. */
  predicate Line(c: Text, e: Text, rest: Text) {
    && NoEol(c)
    && (if e == [] then rest == [] else IsLineEnd(e) && (|e| == 1 && e[0] == '\r' ==> !StartsWithLF(rest)))
  }

  lemma {:induction false} RunLenOf(c: Text, w: Text)
    requires NoEol(c) && StopsLine(w)
    ensures RunLen(c + w) == |c|
  {
    if c == [] {
      assert c + w == w;
    } else {
      assert (c + w)[1..] == c[1..] + w;
      RunLenOf(c[1..], w);
    }
  }

  lemma {:induction false} RunLenIs(s: Text)
    ensures NoEol(s[..RunLen(s)]) && StopsLine(s[RunLen(s)..])
    decreases |s|
  {
    if s != [] && !IsEol(s[0]) {
      RunLenIs(s[1..]);
      var n := RunLen(s[1..]);
      assert s[..n + 1] == [s[0]] + s[1..][..n];
      assert s[n + 1..] == s[1..][n..];
    }
  }

  lemma EolLenOf(c: Text, e: Text, rest: Text)
    requires Line(c, e, rest)
    ensures EolLen(e + rest) == |e| && StopsLine(e + rest)
  {
    if e != [] { assert (e + rest)[0] == e[0]; }
    if |e| == 1 && rest != [] { assert (e + rest)[1] == rest[0]; }
  }

  lemma LineLenOf(c: Text, e: Text, rest: Text)
    requires Line(c, e, rest)
    ensures RunLen(c + (e + rest)) == |c| && LineLen(c + (e + rest)) == |c| + |e|
  {
    EolLenOf(c, e, rest);
    RunLenOf(c, e + rest);
    assert (c + (e + rest))[|c|..] == e + rest;
  }

  lemma RewriteAllLine(cfg: Config, c: Text, e: Text, rest: Text)
    requires Line(c, e, rest) && c + e != []
    ensures RewriteAll(cfg, c + (e + rest)) == RewriteLine(cfg, c, e) + RewriteAll(cfg, rest)
  {
    hide RewriteLine, RunLen, EolLen, LineLen;
    LineLenOf(c, e, rest);
    var s := c + (e + rest);
    assert s[..|c|] == c && s[|c|..|c| + |e|] == e && s[|c| + |e|..] == rest;
  }

  /** Every text has a first line. */
  lemma FirstLine(s: Text) returns (c: Text, e: Text, rest: Text)
    ensures s == c + (e + rest) && Line(c, e, rest)
    ensures |c| == RunLen(s) && |c + e| == LineLen(s)
    ensures s != [] ==> c + e != []
  {
    RunLenIs(s);
    var n, m := RunLen(s), LineLen(s);
    c, e, rest := s[..n], s[n..m], s[m..];
    if e != [] {
      assert s[n..][0] == s[n];
    }
  }

  // ----- Patterns see one line only -----

  lemma AnsiLenStops(c: Text, w: Text)
    requires w == [] || IsLineTerminator(w[0])
    ensures AnsiLen(c + w) == AnsiLen(c)
  {
    var s := c + w;
    if w != [] && |c| >= 2 && c[0] == ESC && c[1] == '[' {
      assert s[2..] == c[2..] + w;
      ParamsLenStops(c[2..], w);
    } else if w != [] && |c| < 2 {
      assert s[|c|] == w[0];
    } else if w == [] {
      assert s == c;
    }
  }

  lemma {:induction false} ParamsLenStops(c: Text, w: Text)
    requires w == [] || IsLineTerminator(w[0])
    ensures ParamsLen(c + w) == ParamsLen(c)
  {
    if c == [] {
      assert c + w == w;
    } else {
      assert (c + w)[1..] == c[1..] + w;
      ParamsLenStops(c[1..], w);
    }
  }

  lemma {:induction false} SkipAnsiStops(c: Text, w: Text)
    requires w == [] || IsLineTerminator(w[0])
    ensures SkipAnsi(c + w) == SkipAnsi(c) + w
    decreases |c|
  {
    AnsiLenStops(c, w);
    var n := AnsiLen(c);
    if n > 0 {
      assert (c + w)[n..] == c[n..] + w;
      SkipAnsiStops(c[n..], w);
    }
  }

  /** No fixed text of a pattern runs over a line end or a separator. */
  lemma FixedTextStops(github: bool, c: Text, w: Text)
    requires w == [] || IsLineTerminator(w[0])
    ensures StartsColons(c + w) <==> StartsColons(c)
    ensures IsFileHeader(c + w) <==> IsFileHeader(c)
    ensures IsCommand(github, c + w) <==> IsCommand(github, c)
    ensures IsGroupMarker(c + w) <==> IsGroupMarker(c)
  {
    assert w != [] ==> (c + w)[|c|] == w[0];
    assert |c| >= 2 ==> (c + w)[2..] == c[2..] + w;
    assert |c| >= 5 ==> (c + w)[5..] == c[5..] + w;
  }

  lemma {:induction false} DotLenStops(c: Text, w: Text)
    requires NoEol(c) && StopsLine(w)
    ensures DotLen(c + w) == DotLen(c) && (DotLen(c) == |c| <==> Plain(c))
    ensures DotLen(c) < |c| ==> IsSeparator(c[DotLen(c)])
  {
    if c == [] {
      assert c + w == w;
    } else {
      assert (c + w)[1..] == c[1..] + w;
      DotLenStops(c[1..], w);
      assert forall i :: 1 <= i < |c| ==> c[i] == c[1..][i - 1];
    }
  }

  lemma {:induction false} SkipAnsiKeeps(s: Text)
    ensures var t := SkipAnsi(s); t == s[|s| - |t|..]
    ensures NoEol(s) ==> NoEol(SkipAnsi(s))
    ensures Plain(s) <==> Plain(SkipAnsi(s))
    decreases |s|
  {
    hide AnsiLen;
    var n := AnsiLen(s);
    if n > 0 {
      SkipAnsiKeeps(s[n..]);
      AnsiIsPlain(s);
      assert s == s[..n] + s[n..];
    }
  }

  lemma AnsiIsPlain(s: Text)
    ensures Plain(s[..AnsiLen(s)])
  {
    if AnsiLen(s) > 0 {
      ParamsArePlain(s[2..]);
      var n := ParamsLen(s[2..]);
      assert forall i :: 2 <= i < n + 2 ==> s[i] == s[2..][..n][i - 2];
    }
  }

  lemma {:induction false} ParamsArePlain(s: Text)
    ensures Plain(s[..ParamsLen(s)])
  {
    if s != [] && IsParam(s[0]) {
      ParamsArePlain(s[1..]);
      var n := ParamsLen(s[1..]);
      assert s[..n + 1] == [s[0]] + s[1..][..n];
    }
  }

  lemma HeaderHitOf(before: nat, name: Text, e: Text, rest: Text)
    requires Line(name, e, rest)
    ensures HeaderHit(before, name + (e + rest)) == Hit(before + |name| + |e|, "test: " + name + e)
  {
    LineLenOf(name, e, rest);
    var s := name + (e + rest);
    assert s[..|name|] == name && s[|name|..|name| + |e|] == e;
  }

  /** What a pattern matches at the start of `c`, which is a line or the rest of a line after a separator. */
  function LineHit(rule: Rule, c: Text, e: Text): Option<Hit> {
    var t := SkipAnsi(c);
    match rule
    case FileHeaders => if IsFileHeader(t) then Some(Hit(|c + e|, "test: " + t[9..] + e)) else None
    case Commands(github) => if e != [] && IsCommand(github, t) && Plain(c) then Some(Hit(|c + e|, "")) else None
    case GroupMarkers => if IsGroupMarker(c) then Some(Hit(4, " ")) else None
  }

  lemma MatchHeader(c: Text, e: Text, rest: Text)
    requires Line(c, e, rest)
    ensures Match(FileHeaders, c + (e + rest)) == LineHit(FileHeaders, c, e)
  {
    hide SkipAnsi, HeaderHit;
    var t, w := SkipAnsi(c), e + rest;
    EolLenOf(c, e, rest);
    SkipAnsiStops(c, w);
    SkipAnsiKeeps(c);
    FixedTextStops(false, t, w);
    if IsFileHeader(t) {
      assert (t + w)[9..] == t[9..] + w;
      HeaderHitOf(|c| - |t| + 9, t[9..], e, rest);
    }
  }

  lemma CommandHitOf(before: nat, t: Text, e: Text, rest: Text)
    requires Line(t, e, rest)
    ensures CommandHit(before, t + (e + rest))
            == if e != [] && Plain(t) then Some(Hit(before + |t| + |e|, "")) else None
  {
    EolLenOf(t, e, rest);
    DotLenStops(t, e + rest);
    var s, n := t + (e + rest), DotLen(t);
    if n == |t| {
      assert s[n..] == e + rest;
    } else {
      assert s[n..][0] == t[n];
    }
  }

  lemma MatchCommand(github: bool, c: Text, e: Text, rest: Text)
    requires Line(c, e, rest)
    ensures Match(Commands(github), c + (e + rest)) == LineHit(Commands(github), c, e)
  {
    hide SkipAnsi, CommandHit, IsCommand, Plain;
    var t, w := SkipAnsi(c), e + rest;
    EolLenOf(c, e, rest);
    SkipAnsiStops(c, w);
    SkipAnsiKeeps(c);
    FixedTextStops(github, t, w);
    CommandHitOf(|c| - |t|, t, e, rest);
  }

  lemma MatchMarker(c: Text, w: Text)
    requires StopsLine(w)
    ensures Match(GroupMarkers, c + w) == LineHit(GroupMarkers, c, w)
  {
    FixedTextStops(false, c, w);
  }

  /** A pattern sees no further than the line it is matched against. */
  lemma MatchLine(rule: Rule, c: Text, e: Text, rest: Text)
    requires Line(c, e, rest)
    ensures Match(rule, c + (e + rest)) == LineHit(rule, c, e)
  {
    hide Match, LineHit;
    EolLenOf(c, e, rest);
    match rule {
      case FileHeaders => MatchHeader(c, e, rest);
      case Commands(github) => MatchCommand(github, c, e, rest);
      case GroupMarkers =>
        MatchMarker(c, e + rest);
        MarkerHit(c, e, e + rest);
    }
  }

  lemma MarkerHit(c: Text, e: Text, w: Text)
    ensures LineHit(GroupMarkers, c, e) == LineHit(GroupMarkers, c, w)
  {
  }

  lemma NoMatchAtTerminator(rule: Rule, s: Text)
    requires s != [] && IsLineTerminator(s[0])
    ensures Match(rule, s) == None
  {
    assert SkipAnsi(s) == s;
  }

  // ----- One replacement, line after line -----

  lemma ReplaceStep(rule: Rule, s: Text, atStart: bool)
    requires s != []
    ensures var h := if atStart then Match(rule, s) else None;
            Replace(rule, s, atStart)
            == if h.Some? then
              h.value.replacement + Replace(rule, s[h.value.len..], IsLineTerminator(s[h.value.len - 1]))
            else
              [s[0]] + Replace(rule, s[1..], IsLineTerminator(s[0]))
  {
  }

  lemma NothingToReplace(rule: Rule, atStart: bool)
    ensures Replace(rule, [], atStart) == []
  {
  }

  /** A line end is copied, and a line starts after it. */
  lemma ReplaceCopiesEol(rule: Rule, e: Text, rest: Text, atStart: bool)
    requires IsLineEnd(e)
    ensures Replace(rule, e + rest, atStart) == e + Replace(rule, rest, true)
  {
    hide Match;
    NoMatchAtTerminator(rule, e + rest);
    assert (e + rest)[1..] == e[1..] + rest;
    if |e| == 2 {
      NoMatchAtTerminator(rule, e[1..] + rest);
      assert (e[1..] + rest)[1..] == rest;
      assert e == [e[0]] + [e[1]];
    } else {
      assert e[1..] + rest == rest;
      assert e == [e[0]];
    }
  }

  /** Cutting `c + (e + rest)` inside `c`. */
  lemma CutLine(c: Text, e: Text, rest: Text, n: nat)
    requires n <= |c|
    ensures (c + (e + rest))[n..] == c[n..] + (e + rest)
    ensures (c + e)[n..] == c[n..] + e
    ensures 0 < n ==> (c + (e + rest))[n - 1] == c[n - 1] == (c + e)[n - 1]
  {
  }

  lemma LineCut(c: Text, e: Text, rest: Text, n: nat)
    requires Line(c, e, rest) && n <= |c|
    ensures Line(c[n..], e, rest)
  {
  }

  /** How long a match is. */
  lemma HitLen(rule: Rule, c: Text, e: Text)
    ensures var h := LineHit(rule, c, e); h.Some? ==> (0 < h.value.len <= |c| || h.value.len == |c + e|)
  {
  }

  /** Lines are replaced one by one. */
  lemma {:induction false} ReplaceFirstLine(rule: Rule, c: Text, e: Text, rest: Text, atStart: bool)
    requires Line(c, e, rest)
    ensures Replace(rule, c + (e + rest), atStart) == Replace(rule, c + e, atStart) + Replace(rule, rest, true)
    decreases |c|
  {
    hide Match, Replace, LineHit, NoEol, IsLineTerminator;
    NothingToReplace(rule, true);
    var s, l := c + (e + rest), c + e;
    if c == [] {
      FirstLineIsEmpty(rule, e, rest, atStart);
      assert s == e + rest && l == e;
    } else {
      ReplaceStep(rule, s, atStart);
      ReplaceStep(rule, l, atStart);
      MatchLine(rule, c, e, rest);
      assert e + [] == e;
      LineAlone(c, e, rest);
      MatchLine(rule, c, e, []);
      HitLen(rule, c, e);
      var h := if atStart then LineHit(rule, c, e) else None;
      if h.Some? && h.value.len > |c| {
        ReplaceWholeLine(rule, c, e, rest, h.value.replacement);
      } else {
        var n := if h.Some? then h.value.len else 1;
        CutLine(c, e, rest, n);
        LineCut(c, e, rest, n);
        ReplaceFirstLine(rule, c[n..], e, rest, IsLineTerminator(c[n - 1]));
        var r := if h.Some? then h.value.replacement else [c[0]];
        Assoc(r, Replace(rule, c[n..] + e, IsLineTerminator(c[n - 1])), Replace(rule, rest, true));
      }
    }
  }

  lemma LineAlone(c: Text, e: Text, rest: Text)
    requires Line(c, e, rest)
    ensures Line(c, e, [])
  {
  }

  lemma FirstLineIsEmpty(rule: Rule, e: Text, rest: Text, atStart: bool)
    requires Line([], e, rest)
    ensures Replace(rule, e + rest, atStart) == Replace(rule, e, atStart) + Replace(rule, rest, true)
  {
    hide Replace;
    NothingToReplace(rule, true);
    NothingToReplace(rule, atStart);
    if e != [] {
      ReplaceCopiesEol(rule, e, rest, atStart);
      ReplaceCopiesEol(rule, e, [], atStart);
      assert e + [] == e;
    }
  }

  /** After the whole of a line, another line starts. */
  lemma ReplaceWholeLine(rule: Rule, c: Text, e: Text, rest: Text, r: Text)
    requires Line(c, e, rest) && c != []
    ensures var s, l := c + (e + rest), c + e;
            && s[|l|..] == rest && l[|l|..] == [] && s[|l| - 1] == l[|l| - 1]
            && r + Replace(rule, s[|l|..], IsLineTerminator(s[|l| - 1]))
               == r + Replace(rule, l[|l|..], IsLineTerminator(l[|l| - 1])) + Replace(rule, rest, true)
  {
    hide Replace, NoEol;
    var s, l := c + (e + rest), c + e;
    Assoc(c, e, rest);
    assert s[|l|..] == rest && l[|l|..] == [] && s[|l| - 1] == l[|l| - 1];
    assert e != [] ==> l[|l| - 1] == e[|e| - 1];
    NothingToReplace(rule, IsLineTerminator(l[|l| - 1]));
    NothingToReplace(rule, true);
    assert r + [] == r;
  }

  // ----- Where nothing matches -----

  /** Where `^` matches. */
  predicate StartsHere(s: Text, p: int, atStart: bool) {
    0 <= p < |s| && if p == 0 then atStart else IsLineTerminator(s[p - 1])
  }

  ghost predicate NoHits(rule: Rule, s: Text, atStart: bool) {
    forall p :: StartsHere(s, p, atStart) ==> Match(rule, s[p..]) == None
  }

  lemma HitShrinks(rule: Rule, s: Text)
    ensures var h := Match(rule, s); h.Some? ==> |h.value.replacement| < h.value.len
  {
  }

  lemma NoHitsStep(rule: Rule, s: Text, atStart: bool)
    requires s != []
    ensures NoHits(rule, s, atStart) <==>
              (atStart ==> Match(rule, s) == None) && NoHits(rule, s[1..], IsLineTerminator(s[0]))
  {
    hide Match;
    var t := s[1..];
    assert s[0..] == s;
    assert forall p :: 1 <= p < |s| ==> s[p..] == t[p - 1..];
    if NoHits(rule, s, atStart) {
      assert atStart ==> StartsHere(s, 0, atStart);
      forall p | StartsHere(t, p, IsLineTerminator(s[0])) ensures Match(rule, t[p..]) == None {
        assert StartsHere(s, p + 1, atStart) && s[p + 1..] == t[p..];
      }
    }
    if NoHits(rule, t, IsLineTerminator(s[0])) && (atStart ==> Match(rule, s) == None) {
      forall p | StartsHere(s, p, atStart) ensures Match(rule, s[p..]) == None {
        if p > 0 { assert StartsHere(t, p - 1, IsLineTerminator(s[0])); }
      }
    }
  }

  /** A replacement without a match changes nothing, and one with a match makes the text shorter. */
  lemma {:induction false} ReplaceShrinks(rule: Rule, s: Text, atStart: bool)
    ensures NoHits(rule, s, atStart) ==> Replace(rule, s, atStart) == s
    ensures !NoHits(rule, s, atStart) ==> |Replace(rule, s, atStart)| < |s|
    decreases |s|
  {
    hide Match, NoHits, IsLineTerminator;
    if s == [] {
      NoHitsInNothing(rule, atStart);
      NothingToReplace(rule, atStart);
    } else {
      ReplaceStep(rule, s, atStart);
      NoHitsStep(rule, s, atStart);
      HitShrinks(rule, s);
      var h := if atStart then Match(rule, s) else None;
      var n := if h.Some? then h.value.len else 1;
      ReplaceShrinks(rule, s[n..], IsLineTerminator(s[n - 1]));
      assert s == [s[0]] + s[1..];
    }
  }

  lemma NoHitsInNothing(rule: Rule, atStart: bool)
    ensures NoHits(rule, [], atStart)
  {
  }

  // ----- All replacements, line after line -----

  lemma HeadersKeepLF(s: Text)
    ensures StartsWithLF(Replace(FileHeaders, s, true)) <==> StartsWithLF(s)
  {
    if s != [] {
      ReplaceStep(FileHeaders, s, true);
      if IsEol(s[0]) { NoMatchAtTerminator(FileHeaders, s); }
      HeaderStartsWithT(s);
    }
  }

  lemma HeaderStartsWithT(s: Text)
    ensures var h := Match(FileHeaders, s); h.Some? ==> h.value.replacement != [] && h.value.replacement[0] == 't'
  {
  }

  /** A line stays one line when its headers are replaced. */
  lemma {:induction false} HeadersKeepEol(c: Text, e: Text, atStart: bool)
    requires Line(c, e, [])
    ensures Replace(FileHeaders, c + e, atStart) == Replace(FileHeaders, c, atStart) + e
    ensures NoEol(Replace(FileHeaders, c, atStart))
    decreases |c|
  {
    hide Replace, LineHit, NoEol;
    if c == [] {
      NothingToReplace(FileHeaders, atStart);
      NothingToReplace(FileHeaders, true);
      assert c + e == e && e + [] == e && [] + e == e && NoEol([]) by { NoEolInNothing(); }
      if e != [] { ReplaceCopiesEol(FileHeaders, e, [], atStart); }
    } else if atStart && LineHit(FileHeaders, c, e).Some? {
      HeaderKeepsEol(c, e);
    } else {
      LineCut(c, e, [], 1);
      HeadersKeepEol(c[1..], e, IsLineTerminator(c[0]));
      NoHeaderKeepsEol(c, e, atStart, Replace(FileHeaders, c[1..], IsLineTerminator(c[0])));
    }
  }

  lemma NoEolInNothing()
    ensures NoEol([])
  {
  }

  lemma HeaderKeepsEol(c: Text, e: Text)
    requires Line(c, e, []) && LineHit(FileHeaders, c, e).Some?
    ensures Replace(FileHeaders, c + e, true) == Replace(FileHeaders, c, true) + e
    ensures NoEol(Replace(FileHeaders, c, true))
  {
    hide Replace;
    var r := "test: " + SkipAnsi(c)[9..];
    hide SkipAnsi, NoEol;
    HeaderLine(c, e);
    ReplaceWhole(FileHeaders, c, e, r + e);
    assert c + [] == c;
    ReplaceWhole(FileHeaders, c, [], r);
  }

  lemma NoHeaderKeepsEol(c: Text, e: Text, atStart: bool, r: Text)
    requires Line(c, e, []) && c != [] && (atStart ==> LineHit(FileHeaders, c, e) == None)
    requires r == Replace(FileHeaders, c[1..], IsLineTerminator(c[0])) && NoEol(r)
    requires Replace(FileHeaders, c[1..] + e, IsLineTerminator(c[0])) == r + e
    ensures Replace(FileHeaders, c + e, atStart) == Replace(FileHeaders, c, atStart) + e
    ensures NoEol(Replace(FileHeaders, c, atStart))
  {
    hide Replace, LineHit, Match;
    ReplaceStep(FileHeaders, c + e, atStart);
    ReplaceStep(FileHeaders, c, atStart);
    assert e + [] == e && c + ([] + []) == c;
    MatchLine(FileHeaders, c, e, []);
    MatchLine(FileHeaders, c, [], []);
    HeaderOrNot(c, e);
    CutLine(c, e, [], 1);
    Assoc([c[0]], r, e);
    NoEolConcat([c[0]], r);
  }

  lemma HeaderOrNot(c: Text, e: Text)
    ensures LineHit(FileHeaders, c, e).Some? <==> LineHit(FileHeaders, c, []).Some?
  {
  }

  lemma HeaderLine(c: Text, e: Text)
    requires NoEol(c) && LineHit(FileHeaders, c, e).Some?
    ensures var r := "test: " + SkipAnsi(c)[9..];
            && LineHit(FileHeaders, c, []) == Some(Hit(|c|, r)) && NoEol(r)
            && LineHit(FileHeaders, c, e) == Some(Hit(|c + e|, r + e))
            && (c + e)[|c + e|..] == [] && c[|c|..] == [] && r + [] == r && r + e + [] == r + e
  {
    hide SkipAnsi, NoEol;
    SkipAnsiKeeps(c);
    var name := SkipAnsi(c)[9..];
    NoEolSuffix(SkipAnsi(c), 9);
    TitleIsOneLine(name);
    assert "test: " + name + [] == "test: " + name && c + [] == c;
  }

  lemma NoEolSuffix(s: Text, n: nat)
    requires NoEol(s) && n <= |s|
    ensures NoEol(s[n..])
  {
  }

  lemma TitleIsOneLine(name: Text)
    ensures var t := "test: " + name;
            t[0] == 't' && SkipAnsi(t) == t && (NoEol(name) ==> NoEol(t)) && (Plain(name) ==> Plain(t))
  {
    var t := "test: " + name;
    assert forall i :: 6 <= i < |t| ==> t[i] == name[i - 6];
  }

  lemma NoEolConcat(a: Text, b: Text)
    requires NoEol(a) && NoEol(b)
    ensures NoEol(a + b)
  {
  }

  /** What is left of a line when its commands are dropped is nothing, or ends where `^` matches. */
  lemma {:induction false} CommandsEnd(github: bool, c: Text, e: Text, atStart: bool)
    requires Line(c, e, []) && e != []
    ensures var o := Replace(Commands(github), c + e, atStart);
            (o == [] ==> atStart) && (o != [] ==> IsLineTerminator(o[|o| - 1]))
    decreases |c|
  {
    hide Match, Replace, LineHit;
    var rule := Commands(github);
    assert e + [] == e;
    NothingToReplace(rule, true);
    if c == [] {
      assert c + e == e;
      ReplaceCopiesEol(rule, e, [], atStart);
    } else {
      ReplaceStep(rule, c + e, atStart);
      MatchLine(rule, c, e, []);
      CutLine(c, e, [], 1);
      CommandLine(github, c, e);
      if !(atStart && LineHit(rule, c, e).Some?) { CommandsEnd(github, c[1..], e, IsLineTerminator(c[0])); }
    }
  }

  lemma CommandLine(github: bool, c: Text, e: Text)
    ensures var h := LineHit(Commands(github), c, e); h.Some? ==> h.value == Hit(|c + e|, [])
    ensures (c + e)[|c + e|..] == []
    ensures Replace(Commands(github), [], true) == Replace(Commands(github), [], false) == []
  {
  }

  /** Markers are defused line by line, also where a line was dropped in between. */
  lemma {:induction false} MarkersSplit(o: Text, x: Text, atStart: bool)
    requires if o == [] then atStart else IsLineTerminator(o[|o| - 1])
    ensures Replace(GroupMarkers, o + x, atStart) == Replace(GroupMarkers, o, atStart) + Replace(GroupMarkers, x, true)
    decreases |o|
  {
    hide Match, Replace;
    if o == [] {
      assert o + x == x;
      NothingToReplace(GroupMarkers, true);
    } else {
      ReplaceStep(GroupMarkers, o + x, atStart);
      ReplaceStep(GroupMarkers, o, atStart);
      MarkerBefore(o, x);
      var n := if atStart && IsGroupMarker(o) then 4 else 1;
      var r := if atStart && IsGroupMarker(o) then " " else [o[0]];
      assert (o + x)[n..] == o[n..] + x && (o + x)[n - 1] == o[n - 1];
      MarkersSplit(o[n..], x, IsLineTerminator(o[n - 1]));
      Assoc(r, Replace(GroupMarkers, o[n..], IsLineTerminator(o[n - 1])), Replace(GroupMarkers, x, true));
    }
  }

  lemma MarkerBefore(o: Text, x: Text)
    requires o != [] && IsLineTerminator(o[|o| - 1])
    ensures Match(GroupMarkers, o + x) == Match(GroupMarkers, o) == if IsGroupMarker(o) then Some(Hit(4, " ")) else None
    ensures IsGroupMarker(o) ==> |o| > 4
  {
    assert (o + x)[|o| - 1] == o[|o| - 1];
  }

  /** The lines of a text are rewritten one by one. */
  lemma TransformLine(cfg: Config, c: Text, e: Text, rest: Text)
    requires Line(c, e, rest)
    ensures Transform(cfg, c + (e + rest)) == Transform(cfg, c + e) + Transform(cfg, rest)
  {
    hide Replace, NoEol;
    var commands := Commands(cfg.github);
    var h, c' := Replace(FileHeaders, rest, true), Replace(FileHeaders, c, true);
    NothingToReplace(FileHeaders, true);
    NothingToReplace(commands, true);
    NothingToReplace(GroupMarkers, true);
    LineAlone(c, e, rest);
    ReplaceFirstLine(FileHeaders, c, e, rest, true);
    HeadersKeepEol(c, e, true);
    HeadersKeepLF(rest);
    Assoc(c', e, h);
    ReplaceFirstLine(commands, c', e, h, true);
    var o, x := Replace(commands, c' + e, true), Replace(commands, h, true);
    if e != [] {
      LineAlone(c', e, h);
      CommandsEnd(cfg.github, c', e, true);
      MarkersSplit(o, x, true);
    } else {
      assert o + [] == o;
    }
  }

  lemma NothingToRewrite(cfg: Config)
    ensures Transform(cfg, []) == [] && RewriteAll(cfg, []) == [] && Replace(FileHeaders, [], true) == []
  {
  }

  // ----- One line -----

  /** A place in a line where `^` matches although no line starts there. */
  predicate AfterSeparator(c: Text, p: int) { 0 < p <= |c| && IsSeparator(c[p - 1]) }

  /** A file header after a separator. */
  ghost predicate InnerHeader(c: Text) {
    exists p :: AfterSeparator(c, p) && IsFileHeader(SkipAnsi(c[p..]))
  }

  predicate IsInnerRewrite(cfg: Config, c: Text, e: Text) {
    || (e != [] && IsCommand(cfg.github, SkipAnsi(c)) && Plain(c))
    || (cfg.buildkite && IsGroupMarker(c))
  }

  /** A workflow command after the last separator of a line that has an end, or a group marker after any
      separator. */
  ghost predicate InnerRewrite(cfg: Config, c: Text, e: Text) {
    exists p :: AfterSeparator(c, p) && IsInnerRewrite(cfg, c[p..], e)
  }

  /** Where a pattern matches in one line. */
  lemma HitsOfLine(rule: Rule, c: Text, e: Text)
    requires Line(c, e, [])
    ensures NoHits(rule, c + e, true) <==>
              LineHit(rule, c, e) == None && forall p :: AfterSeparator(c, p) ==> LineHit(rule, c[p..], e) == None
  {
    hide Match, LineHit, NoEol;
    var s := c + e;
    assert s[0..] == s && c[0..] == c && e + [] == e;
    forall p | 0 <= p <= |c| ensures s[p..] == c[p..] + e && Match(rule, s[p..]) == LineHit(rule, c[p..], e) {
      LineCut(c, e, [], p);
      MatchLine(rule, c[p..], e, []);
      CutLine(c, e, [], p);
    }
    NoHitInNothing(rule);
    if NoHits(rule, s, true) {
      forall p | p == 0 || AfterSeparator(c, p) ensures LineHit(rule, c[p..], e) == None {
        if p < |s| { assert StartsHere(s, p, true); } else { assert c[p..] == [] && e == []; }
      }
    }
    if LineHit(rule, c, e) == None && forall p :: AfterSeparator(c, p) ==> LineHit(rule, c[p..], e) == None {
      forall p | StartsHere(s, p, true) ensures Match(rule, s[p..]) == None {
        if p <= |c| { StartsInLine(c, e, p); } else { NoMatchAtTerminator(rule, s[p..]); }
      }
    }
  }

  lemma NoHitInNothing(rule: Rule)
    ensures LineHit(rule, [], []) == None
  {
  }

  lemma StartsInLine(c: Text, e: Text, p: nat)
    requires NoEol(c) && p <= |c| && StartsHere(c + e, p, true)
    ensures p == 0 || AfterSeparator(c, p)
  {
    if p > 0 { assert (c + e)[p - 1] == c[p - 1]; }
  }

  /** A line that starts with no command, and in which nothing is matched after a separator. */
  lemma RewritesSafely(cfg: Config, c: Text, e: Text)
    requires Line(c, e, []) && !StartsColons(SkipAnsi(c)) && !InnerHeader(c) && !InnerRewrite(cfg, c, e)
    ensures Transform(cfg, c + e) == RewriteLine(cfg, c, e)
  {
    hide Replace, SkipAnsi, NoHits, Plain, IsGroupMarker;
    HitsOfLine(FileHeaders, c, e);
    HitsOfLine(Commands(cfg.github), c, e);
    ReplaceShrinks(FileHeaders, c + e, true);
    ReplaceShrinks(Commands(cfg.github), c + e, true);
    if cfg.buildkite { DefusesFirst(cfg, c, e); }
  }

  lemma DefusesFirst(cfg: Config, c: Text, e: Text)
    requires Line(c, e, []) && cfg.buildkite && !InnerRewrite(cfg, c, e)
    ensures Replace(GroupMarkers, c + e, true) == if IsGroupMarker(c) then " " + c[4..] + e else c + e
  {
    hide Replace, NoHits, Plain;
    HitsOfLine(GroupMarkers, c, e);
    ReplaceShrinks(GroupMarkers, c + e, true);
    if IsGroupMarker(c) {
      MarkerRest(c, e);
      ReplaceShrinks(GroupMarkers, c[4..] + e, false);
      MarkersAfterFirst(c, e);
      Assoc(" ", c[4..], e);
    }
  }

  /** After a marker at the start of a line comes the rest of the line. */
  lemma MarkerRest(c: Text, e: Text)
    requires Line(c, e, []) && IsGroupMarker(c)
    ensures Replace(GroupMarkers, c + e, true) == " " + Replace(GroupMarkers, c[4..] + e, false)
  {
    hide Replace;
    assert e + [] == e;
    MatchLine(GroupMarkers, c, e, []);
    ReplaceStep(GroupMarkers, c + e, true);
    CutLine(c, e, [], 4);
  }

  lemma MarkersAfterFirst(c: Text, e: Text)
    requires Line(c, e, []) && IsGroupMarker(c)
    ensures NoHits(GroupMarkers, c[4..] + e, false) <==> forall p :: AfterSeparator(c, p) ==> !IsGroupMarker(c[p..])
  {
    hide Match;
    var s, t := c + e, c[4..] + e;
    assert s[4..] == t && e + [] == e;
    forall p | 4 < p <= |c| ensures s[p..] == t[p - 4..] && Match(GroupMarkers, s[p..]) == LineHit(GroupMarkers, c[p..], e) {
      CutLine(c, e, [], p);
      LineCut(c, e, [], p);
      MatchLine(GroupMarkers, c[p..], e, []);
    }
    if NoHits(GroupMarkers, t, false) {
      forall p | AfterSeparator(c, p) ensures !IsGroupMarker(c[p..]) {
        assert p > 4;
        if p < |s| { assert StartsHere(t, p - 4, false); }
      }
    }
    if forall p :: AfterSeparator(c, p) ==> !IsGroupMarker(c[p..]) {
      forall p | StartsHere(t, p, false) ensures Match(GroupMarkers, t[p..]) == None {
        if p + 4 <= |c| { assert AfterSeparator(c, p + 4); } else { NoMatchAtTerminator(GroupMarkers, t[p..]); }
      }
    }
  }

  /** If something is matched after a separator, the line gets shorter than that. */
  lemma RewritesMore(cfg: Config, c: Text, e: Text)
    requires Line(c, e, []) && !StartsColons(SkipAnsi(c)) && (InnerHeader(c) || InnerRewrite(cfg, c, e))
    ensures |Transform(cfg, c + e)| < |RewriteLine(cfg, c, e)|
  {
    hide Replace, SkipAnsi, NoHits, Plain, IsGroupMarker, Line;
    var s, commands := c + e, Commands(cfg.github);
    var t := Replace(FileHeaders, s, true);
    HitsOfLine(FileHeaders, c, e);
    ReplaceShrinks(FileHeaders, s, true);
    HitsOfLine(commands, c, e);
    ReplaceShrinks(commands, t, true);
    var u := Replace(commands, t, true);
    assert |u| <= |s|;
    if cfg.buildkite {
      if IsGroupMarker(c) {
        MarkerStays(cfg, c, e);
        MarkersOf(u);
        if u == s { MarkerRest(c, e); MarkersAfterFirst(c, e); ReplaceShrinks(GroupMarkers, c[4..] + e, false); }
        assert |RewriteLine(cfg, c, e)| == |s| - 3;
      } else {
        ReplaceShrinks(GroupMarkers, u, true);
        HitsOfLine(GroupMarkers, c, e);
        assert |RewriteLine(cfg, c, e)| == |s|;
      }
    }
  }

  /** A marker at the start of a line is no matter of the other two replacements. */
  lemma MarkerStays(cfg: Config, c: Text, e: Text)
    requires IsGroupMarker(c) && Line(c, e, [])
    ensures IsGroupMarker(Replace(Commands(cfg.github), Replace(FileHeaders, c + e, true), true))
    ensures |c| >= 4
  {
    hide Replace;
    FixedTextStops(false, c, e);
    assert |c| >= 4 && IsGroupMarker(c + e);
    KeepsMarker(FileHeaders, c + e);
    KeepsMarker(Commands(cfg.github), Replace(FileHeaders, c + e, true));
  }

  lemma KeepsMarker(rule: Rule, s: Text)
    requires IsGroupMarker(s) && rule != GroupMarkers
    ensures IsGroupMarker(Replace(rule, s, true))
  {
    hide Replace, Match;
    NoMatchAtMarker(rule, s);
    ReplaceStep(rule, s, true);
    ReplaceStep(rule, s[1..], false);
    ReplaceStep(rule, s[1..][1..], false);
    ReplaceStep(rule, s[1..][1..][1..], false);
  }

  lemma NoMatchAtMarker(rule: Rule, s: Text)
    requires IsGroupMarker(s) && rule != GroupMarkers
    ensures Match(rule, s) == None
  {
    assert SkipAnsi(s) == s;
  }

  lemma MarkersOf(u: Text)
    requires IsGroupMarker(u)
    ensures |Replace(GroupMarkers, u, true)| <= |u| - 3
  {
    hide Replace;
    ReplaceStep(GroupMarkers, u, true);
    ReplaceShrinks(GroupMarkers, u[4..], IsLineTerminator(u[3]));
  }

  /** Without separators, a line is rewritten as one, also if it starts with a command. */
  lemma RewritesPlainLine(cfg: Config, c: Text, e: Text)
    requires Line(c, e, []) && Plain(c) && (e == [] ==> !StartsColons(SkipAnsi(c)))
    ensures Transform(cfg, c + e) == RewriteLine(cfg, c, e)
  {
    hide Replace, SkipAnsi, NoHits, IsGroupMarker;
    assert forall p :: !AfterSeparator(c, p);
    if IsFileHeader(SkipAnsi(c)) {
      RewritesHeader(cfg, c, e);
    } else if IsCommand(cfg.github, SkipAnsi(c)) {
      RewritesCommand(cfg, c, e);
    } else {
      HitsOfLine(FileHeaders, c, e);
      HitsOfLine(Commands(cfg.github), c, e);
      ReplaceShrinks(FileHeaders, c + e, true);
      ReplaceShrinks(Commands(cfg.github), c + e, true);
      if cfg.buildkite { DefusesFirst(cfg, c, e); }
    }
  }

  lemma ReplaceWhole(rule: Rule, c: Text, e: Text, r: Text)
    requires Line(c, e, []) && LineHit(rule, c, e) == Some(Hit(|c + e|, r))
    ensures Replace(rule, c + e, true) == r
  {
    hide Replace, LineHit;
    var s := c + e;
    assert e + [] == e;
    MatchLine(rule, c, e, []);
    ReplaceStep(rule, s, true);
    assert s[|s|..] == [] && r + [] == r;
    NothingToReplace(rule, IsLineTerminator(s[|s| - 1]));
  }

  lemma RewritesCommand(cfg: Config, c: Text, e: Text)
    requires Line(c, e, []) && e != [] && Plain(c)
    requires IsCommand(cfg.github, SkipAnsi(c)) && !IsFileHeader(SkipAnsi(c))
    ensures Transform(cfg, c + e) == []
  {
    hide Replace, SkipAnsi, NoHits;
    HitsOfLine(FileHeaders, c, e);
    ReplaceShrinks(FileHeaders, c + e, true);
    ReplaceWhole(Commands(cfg.github), c, e, []);
    NothingToReplace(GroupMarkers, true);
  }

  lemma RewritesHeader(cfg: Config, c: Text, e: Text)
    requires Line(c, e, []) && Plain(c) && IsFileHeader(SkipAnsi(c))
    ensures Transform(cfg, c + e) == "test: " + SkipAnsi(c)[9..] + e
  {
    hide Replace, NoHits, NoEol, Plain, SkipAnsi;
    var t := "test: " + SkipAnsi(c)[9..];
    TitleOf(c);
    ReplaceWhole(FileHeaders, c, e, t + e);
    HitsOfLine(FileHeaders, t, e);
    HitsOfLine(Commands(cfg.github), t, e);
    HitsOfLine(GroupMarkers, t, e);
    ReplaceShrinks(Commands(cfg.github), t + e, true);
    ReplaceShrinks(GroupMarkers, t + e, true);
  }

  lemma TitleOf(c: Text)
    requires NoEol(c) && Plain(c) && IsFileHeader(SkipAnsi(c))
    ensures var t := "test: " + SkipAnsi(c)[9..];
            NoEol(t) && (forall p :: !AfterSeparator(t, p)) && SkipAnsi(t) == t && t[0] == 't'
  {
    hide SkipAnsi;
    SkipAnsiKeeps(c);
    TitleIsOneLine(SkipAnsi(c)[9..]);
  }
}
