/** `createLiveOutputFilter` (scripts/buildkite.ts): the log of a child process arrives in pieces of
    any size, and the filter has to write what it would write if it saw the whole log at once. */
module LiveOutput {
  import opened Wrappers
  import opened LogText
  import opened LineRewrite

  // ----- The filter -----

  function Markers(cfg: Config): seq<Text> {
    if cfg.buildkite then ["::", "--- ", "+++ ", "~~~ ", "^^^ "] else ["::"]
  }

  /** `/^\u001b(?:\[[0-9;]*)?$/`: the start of an escape sequence. */
  predicate IsPartialEscape(v: Text) {
    && v != [] && v[0] == ESC
    && (|v| == 1 || (v[1] == '[' && ParamsLen(v[2..]) == |v| - 2))
  }

  predicate HoldsVisible(cfg: Config, visible: Text) {
    || IsPartialEscape(visible)
    || StartsColons(visible)
    || exists i :: 0 <= i < |Markers(cfg)| && |visible| < |Markers(cfg)[i]| && visible <= Markers(cfg)[i]
  }

  /** `line` is an incomplete line. */
  predicate HoldBack(cfg: Config, line: Text) { HoldsVisible(cfg, StripAnsi(line)) }

  predicate EndsWithCR(s: Text) { s != [] && s[|s| - 1] == '\r' }

  /** Where the last line starts. A trailing `\r` may be half of a `\r\n`, so it does not end its line. */
  function LastLineStart(text: Text): (k: nat)
    ensures k <= |text|
  {
    var searchEnd := if EndsWithCR(text) then |text| - 2 else |text| - 1;
    var lf, cr := LastIndexOf(text, '\n', searchEnd), LastIndexOf(text, '\r', searchEnd);
    (if lf > cr then lf else cr) + 1
  }

  /** What the closure of the filter remembers between two chunks. */
  datatype State = State(pending: Text, atLineStart: bool)

  const START := State("", true)

  /** One call of the filter: the new state, and the text to write. */
  function Feed(cfg: Config, st: State, chunk: Text): (State, Text) {
    var text := st.pending + chunk;
    var k := LastLineStart(text);
    var last := text[k..];
    if last != [] && (k > 0 || st.atLineStart) && HoldBack(cfg, last) then
      (State(last, true), Write(cfg, st.atLineStart, text[..k]))
    else
      var atLineStart := if text == [] then st.atLineStart else EndsWithCR(text) || k == |text|;
      (State("", atLineStart), Write(cfg, st.atLineStart, text))
  }

  /** A text that starts in the middle of a line continues a line that was already written. */
  function Write(cfg: Config, startsLine: bool, text: Text): Text {
    var split := if startsLine then 0 else LineLen(text);
    text[..split] + Transform(cfg, text[split..])
  }

  /** What is still held back when the stream ends. */
  function Finish(cfg: Config, st: State): Text {
    DropLastCommand(cfg.github, Replace(FileHeaders, st.pending, true))
  }

  /** Everything the filter writes for a stream that arrives in `chunks`. */
  function Total(cfg: Config, st: State, chunks: seq<Text>): Text
    decreases |chunks|
  {
    if chunks == [] then Finish(cfg, st)
    else
      var (st', out) := Feed(cfg, st, chunks[0]);
      out + Total(cfg, st', chunks[1..])
  }

  function Concat(chunks: seq<Text>): Text {
    if chunks == [] then [] else chunks[0] + Concat(chunks[1..])
  }

  // ----- Incomplete lines -----

  /** A line without its line end, or without the second half of it. */
  predicate PartialLine(l: Text) {
    && l != [] && NoEol(l[..|l| - 1]) && l[|l| - 1] != '\n'
  }

  /** What may be held back: an incomplete line that could still become a command or a marker. */
  predicate ValidState(cfg: Config, st: State) {
    st.pending != [] ==>
      st.atLineStart && PartialLine(st.pending) && HoldBack(cfg, st.pending)
  }

  lemma ShortMarkersAreHeld(cfg: Config, v: Text)
    requires |v| <= 3 && forall i :: 0 <= i < |v| ==> v[i] == v[0]
    requires v != [] ==> (v[0] == ':' || (cfg.buildkite && v[0] in "-+~^"))
    ensures HoldsVisible(cfg, v)
  {
    if v == [] || (v[0] == ':' && |v| == 1) {
      assert v <= Markers(cfg)[0] && |Markers(cfg)[0]| == 2;
    } else if v[0] != ':' {
      var i := if v[0] == '-' then 1 else if v[0] == '+' then 2 else if v[0] == '~' then 3 else 4;
      var m := Markers(cfg)[i];
      assert |m| == 4 && m[0] == v[0] && m[1] == v[0] && m[2] == v[0];
      assert v <= m;
    }
  }

  /** An escape sequence that is cut short holds its line back. */
  lemma CutEscapeIsHeld(cfg: Config, c: Text, d: Text)
    requires c != [] && |c| < AnsiLen(c + d)
    ensures HoldBack(cfg, c)
  {
    var s := c + d;
    assert c[0] == s[0];
    if |c| >= 2 {
      assert c[1] == s[1];
      assert s[2..] == c[2..] + d;
      ParamsPrefix(c[2..], d);
    }
    StripAnsiKeeps(c);
  }

  lemma {:induction false} ParamsPrefix(a: Text, b: Text)
    requires |a| <= ParamsLen(a + b)
    ensures ParamsLen(a) == |a|
    ensures forall i :: 0 <= i < |a| ==> IsParam(a[i])
    decreases |a|
  {
    if a != [] {
      assert (a + b)[1..] == a[1..] + b;
      ParamsPrefix(a[1..], b);
      assert forall i :: 0 <= i < |a| ==> a[i] == if i == 0 then a[0] else a[1..][i - 1];
    }
  }

  /** Only an escape character can start an escape sequence. */
  lemma {:induction false} StripAnsiKeeps(c: Text)
    requires AnsiLen(c) == 0
    requires forall i :: 1 <= i < |c| ==> c[i] != ESC
    ensures StripAnsi(c) == c
    decreases |c|
  {
    if c != [] {
      assert AnsiLen(c[1..]) == 0;
      StripAnsiKeeps(c[1..]);
    }
  }

  lemma AnsiLenPrefix(c: Text, d: Text)
    requires 0 < AnsiLen(c + d) <= |c|
    ensures AnsiLen(c) == AnsiLen(c + d)
  {
    assert (c + d)[2..] == c[2..] + d;
    ParamsLenPrefix(c[2..], d);
    var n := AnsiLen(c + d);
    assert (c + d)[n - 1] == c[n - 1];
  }

  lemma {:induction false} ParamsLenPrefix(a: Text, b: Text)
    requires ParamsLen(a + b) < |a|
    ensures ParamsLen(a) == ParamsLen(a + b)
    decreases |a|
  {
    assert (a + b)[1..] == a[1..] + b;
    if IsParam(a[0]) { ParamsLenPrefix(a[1..], b); }
  }

  /** The key to the filter: every prefix of a workflow command is held back. */
  lemma {:induction false} CommandPrefixIsHeld(cfg: Config, c: Text, d: Text)
    requires StartsColons(SkipAnsi(c + d))
    ensures HoldBack(cfg, c)
    decreases |c|
  {
    var n := AnsiLen(c + d);
    if c == [] {
      ShortMarkersAreHeld(cfg, c);
    } else if |c| < n {
      CutEscapeIsHeld(cfg, c, d);
    } else if n > 0 {
      AnsiLenPrefix(c, d);
      assert (c + d)[n..] == c[n..] + d;
      CommandPrefixIsHeld(cfg, c[n..], d);
    } else {
      assert c[0] == (c + d)[0] == ':';
      assert StripAnsi(c)[0] == ':';
      if |c| == 1 {
        assert StripAnsi(c) == c;
        ShortMarkersAreHeld(cfg, c);
      } else {
        assert c[1] == (c + d)[1] == ':';
        assert StripAnsi(c) == [c[0]] + StripAnsi(c[1..]);
        assert StripAnsi(c[1..]) == [c[1]] + StripAnsi(c[1..][1..]);
        assert StripAnsi(c)[1] == ':';
      }
    }
  }

  /** Every proper prefix of a group marker is held back. */
  lemma MarkerPrefixIsHeld(cfg: Config, c: Text, d: Text)
    requires cfg.buildkite && IsGroupMarker(c + d) && |c| < 4
    ensures HoldBack(cfg, c)
  {
    assert forall i :: 0 <= i < |c| ==> c[i] == (c + d)[i];
    StripAnsiKeeps(c);
    ShortMarkersAreHeld(cfg, c);
  }

  /** A line that was started and not held back is rewritten the same however it goes on. */
  lemma UnheldContent(cfg: Config, c: Text, d: Text, e: Text)
    requires c != [] && !HoldBack(cfg, c)
    ensures !StartsColons(SkipAnsi(c + d)) && !StartsColons(SkipAnsi(c))
    ensures RewriteLine(cfg, c + d, e) == RewriteLine(cfg, c, []) + d + e
  {
    hide HoldBack, SkipAnsi;
    if StartsColons(SkipAnsi(c + d)) { CommandPrefixIsHeld(cfg, c, d); }
    assert c + [] == c;
    if StartsColons(SkipAnsi(c)) { CommandPrefixIsHeld(cfg, c, []); }
    if cfg.buildkite && |c| < 4 && IsGroupMarker(c + d) { MarkerPrefixIsHeld(cfg, c, d); }
    assert |c| >= 4 ==> (c + d)[4..] == c[4..] + d && (c + d)[..4] == c[..4];
    UnheldMarker(c, d);
  }

  lemma UnheldMarker(c: Text, d: Text)
    ensures |c| >= 4 ==> (IsGroupMarker(c + d) <==> IsGroupMarker(c))
  {
  }

  /** What is visible up to a separator does not depend on what comes after it. */
  lemma {:induction false} StripAnsiSplit(u: Text, x: Text)
    requires x != [] && IsSeparator(x[0])
    ensures StripAnsi(u + x) == StripAnsi(u) + StripAnsi(x)
    ensures StripAnsi(x) != [] && StripAnsi(x)[0] == x[0]
    decreases |u|
  {
    hide AnsiLen, StripAnsi;
    StripStep(x);
    SeparatorIsNoEscape(x);
    if u == [] {
      assert u + x == x && StripAnsi([]) == [] by { StripNothing(); }
    } else {
      AnsiLenStops(u, x);
      StripStep(u);
      StripStep(u + x);
      var n := if AnsiLen(u) > 0 then AnsiLen(u) else 1;
      assert (u + x)[n..] == u[n..] + x && (u + x)[0] == u[0];
      StripAnsiSplit(u[n..], x);
      Assoc([u[0]], StripAnsi(u[n..]), StripAnsi(x));
    }
  }

  lemma StripNothing()
    ensures StripAnsi([]) == []
  {
  }

  lemma StripStep(s: Text)
    requires s != []
    ensures StripAnsi(s) == if AnsiLen(s) > 0 then StripAnsi(s[AnsiLen(s)..]) else [s[0]] + StripAnsi(s[1..])
  {
  }

  lemma SeparatorIsNoEscape(x: Text)
    requires x != [] && IsSeparator(x[0])
    ensures AnsiLen(x) == 0
  {
  }

  /** After a separator, only a line that starts with two visible colons is held back. */
  lemma HeldAfterSeparator(cfg: Config, u: Text, x: Text)
    requires x != [] && IsSeparator(x[0])
    ensures HoldBack(cfg, u + x) <==> StartsColons(StripAnsi(u))
  {
    hide StripAnsi;
    StripAnsiSplit(u, x);
    var v := StripAnsi(u + x);
    assert IsSeparator(v[|StripAnsi(u)|]);
    if IsPartialEscape(v) { EscapeIsPlain(v); }
    forall i | 0 <= i < |Markers(cfg)| ensures !(v <= Markers(cfg)[i]) {
      NotInMarker(cfg, v, i);
    }
  }

  lemma NotInMarker(cfg: Config, v: Text, i: nat)
    requires !Plain(v) && i < |Markers(cfg)|
    ensures !(v <= Markers(cfg)[i])
  {
    assert Plain(Markers(cfg)[i]);
  }

  lemma EscapeIsPlain(v: Text)
    requires IsPartialEscape(v)
    ensures Plain(v)
  {
    if |v| > 1 {
      assert v[2..] + [] == v[2..];
      ParamsPrefix(v[2..], []);
      assert forall i :: 2 <= i < |v| ==> v[i] == v[2..][i - 2];
    }
  }

  /** A line that is held back later although its start was written is `:`, escape sequences and `:`. So
      its start holds no separator. */
  lemma HeldLater(cfg: Config, c: Text, d: Text)
    requires HoldBack(cfg, c + d) && !HoldBack(cfg, c)
    ensures Plain(c)
  {
    hide HoldBack, StripAnsi;
    if !Plain(c) {
      var i :| 0 <= i < |c| && IsSeparator(c[i]);
      assert c == c[..i] + c[i..] && c + d == c[..i] + (c[i..] + d);
      HeldAfterSeparator(cfg, c[..i], c[i..]);
      HeldAfterSeparator(cfg, c[..i], c[i..] + d);
    }
  }

  // ----- One chunk -----

  /** A lone `\r` is the one text whose last line start is not what its comment says: a negative
      search position counts as 0, so the `\r` is found. */
  lemma LastLine(text: Text)
    ensures text == "\r" ==> LastLineStart(text) == 1
    ensures text != "\r" ==>
              var k := LastLineStart(text);
              && (k < |text| ==> PartialLine(text[k..]) && EndsWithCR(text[k..]) == EndsWithCR(text))
              && (0 < k == |text| ==> text[k - 1] == '\n')
              && Complete(text[..k], text[k..])
  {
    if |text| == 1 { assert text == [text[0]]; }
  }

  /** `full` ends where a line ends, and `y` starts the next one. */
  predicate Complete(full: Text, y: Text) {
    full != [] ==> IsEol(full[|full| - 1]) && (EndsWithCR(full) ==> !StartsWithLF(y))
  }

  /** Complete lines are transformed on their own. */
  lemma {:induction false} TransformSplit(cfg: Config, full: Text, y: Text)
    requires Complete(full, y)
    ensures Transform(cfg, full + y) == Transform(cfg, full) + Transform(cfg, y)
    decreases |full|
  {
    hide Transform, Complete, Line;
    if full == [] {
      NothingToRewrite(cfg);
      assert full + y == y;
    } else {
      var c, e, rest := FirstLine(full);
      SplitFirst(c, e, rest, y);
      TransformSplit(cfg, rest, y);
      TransformLine(cfg, c, e, rest);
      TransformLine(cfg, c, e, rest + y);
      Assoc(Transform(cfg, c + e), Transform(cfg, rest), Transform(cfg, y));
    }
  }

  lemma SplitFirst(c: Text, e: Text, rest: Text, y: Text)
    requires Line(c, e, rest) && c + e != [] && Complete(c + (e + rest), y)
    ensures e != [] && Line(c, e, rest + y) && Complete(rest, y)
    ensures c + (e + rest) + y == c + (e + (rest + y))
  {
    var full := c + (e + rest);
    if rest != [] {
      assert rest[|rest| - 1] == full[|full| - 1];
      assert (rest + y)[0] == rest[0];
    } else {
      assert rest + y == y && full == c + e;
      assert c != [] ==> (c + e)[|c| - 1] == c[|c| - 1];
      assert e != [] ==> full[|full| - 1] == e[|e| - 1];
    }
  }

  lemma FirstLineCut(d: Text, e: Text, rest: Text)
    requires Line(d, e, rest)
    ensures var z := d + (e + rest); z[..LineLen(z)] == d + e && z[LineLen(z)..] == rest
  {
    LineLenOf(d, e, rest);
  }

  /** The rest of the line is the first line of the chunk. */
  lemma RestCut(full: Text, y: Text)
    requires full != [] && Complete(full, y)
    ensures var n := LineLen(full);
            && n == LineLen(full + y)
            && (full + y)[..n] == full[..n] && (full + y)[n..] == full[n..] + y
            && Complete(full[n..], y)
  {
    var c, e, rest := FirstLine(full);
    SplitFirst(c, e, rest, y);
    FirstLineCut(c, e, rest);
    FirstLineCut(c, e, rest + y);
    LineLenOf(c, e, rest + y);
  }

  /** Complete lines are written on their own, also if the first of them was started before. */
  lemma WriteSplit(cfg: Config, startsLine: bool, full: Text, y: Text)
    requires full != [] && Complete(full, y)
    ensures Write(cfg, startsLine, full + y) == Write(cfg, startsLine, full) + Transform(cfg, y)
  {
    hide Transform, LineLen;
    if startsLine {
      TransformSplit(cfg, full, y);
      WriteAtStart(cfg, full);
      WriteAtStart(cfg, full + y);
    } else {
      RestCut(full, y);
      var n := LineLen(full);
      TransformSplit(cfg, full[n..], y);
      Assoc(full[..n], Transform(cfg, full[n..]), Transform(cfg, y));
    }
  }

  lemma WriteAtStart(cfg: Config, text: Text)
    ensures Write(cfg, true, text) == Transform(cfg, text)
  {
    assert text[..0] == [] && text[0..] == text;
  }

  /** The last line of some complete lines and a text is the last line of the text. */
  lemma LastLineStartSplit(full: Text, y: Text)
    requires full != [] && Complete(full, y) && y != []
    ensures y != "\r" ==> LastLineStart(full + y) == |full| + LastLineStart(y)
    ensures y == "\r" ==> LastLineStart(full + y) == |full|
  {
    var text := full + y;
    var end := if EndsWithCR(y) then |y| - 2 else |y| - 1;
    assert EndsWithCR(text) == EndsWithCR(y);
    assert forall j :: 0 <= j < |y| ==> text[|full| + j] == y[j];
    assert text[|full| - 1] == full[|full| - 1];
  }

  lemma FeedOf(cfg: Config, startsLine: bool, text: Text)
    requires text != []
    ensures var k := LastLineStart(text);
            Feed(cfg, State("", startsLine), text)
            == if text[k..] != [] && (k > 0 || startsLine) && HoldBack(cfg, text[k..])
               then (State(text[k..], true), Write(cfg, startsLine, text[..k]))
               else (State("", EndsWithCR(text) || k == |text|), Write(cfg, startsLine, text))
  {
    hide LastLineStart, HoldBack, Write;
    assert "" + text == text;
  }

  /** A chunk that holds complete lines, and something after them. */
  lemma FeedSplit(cfg: Config, startsLine: bool, full: Text, y: Text)
    requires full != [] && Complete(full, y) && y != []
    ensures var (st, out) := Feed(cfg, START, y);
            Feed(cfg, State("", startsLine), full + y) == (st, Write(cfg, startsLine, full) + out)
  {
    hide Feed, Transform, LastLineStart, HoldBack, Write, EndsWithCR, Complete;
    if y == "\r" {
      FeedSplitCR(cfg, startsLine, full);
    } else {
      var k := LastLineStart(y);
      LastLineStartSplit(full, y);
      FeedOf(cfg, startsLine, full + y);
      FeedOf(cfg, true, y);
      CutLater(full, y, k);
      CompleteBefore(full, y, k);
      WriteSplit(cfg, startsLine, full, y[..k]);
      WriteSplit(cfg, startsLine, full, y);
      WriteAtStart(cfg, y[..k]);
      WriteAtStart(cfg, y);
    }
  }

  lemma FeedSplitCR(cfg: Config, startsLine: bool, full: Text)
    requires full != [] && Complete(full, "\r")
    ensures Feed(cfg, START, "\r") == (START, "\r")
    ensures Feed(cfg, State("", startsLine), full + "\r") == (START, Write(cfg, startsLine, full) + "\r")
  {
    hide Transform, LastLineStart, HoldBack, Write;
    FeedCR(cfg, true);
    LastLineStartSplit(full, "\r");
    CRIsNotHeld(cfg);
    assert "" + (full + "\r") == full + "\r" && (full + "\r")[|full|..] == "\r";
    WriteSplit(cfg, startsLine, full, "\r");
    TransformCR(cfg);
  }

  lemma CutLater(full: Text, y: Text, k: nat)
    requires y != [] && k <= |y|
    ensures (full + y)[|full| + k..] == y[k..] && (full + y)[..|full| + k] == full + y[..k]
    ensures EndsWithCR(full + y) == EndsWithCR(y)
  {
  }

  lemma CompleteBefore(full: Text, y: Text, k: nat)
    requires Complete(full, y) && k <= |y|
    ensures Complete(full, y[..k])
  {
  }

  lemma CRIsNotHeld(cfg: Config)
    ensures !HoldBack(cfg, "\r")
  {
    assert StripAnsi("\r") == "\r";
    assert forall i :: 0 <= i < |Markers(cfg)| ==> Markers(cfg)[i][0] != '\r';
  }

  lemma TransformCR(cfg: Config)
    ensures Transform(cfg, "\r") == "\r"
  {
    hide Transform;
    assert [] + "\r" == "\r";
    RewritesPlainLine(cfg, [], "\r");
  }

  /** A chunk that is a lone `\r`. */
  lemma FeedCR(cfg: Config, startsLine: bool)
    ensures Feed(cfg, State("", startsLine), "\r") == (START, "\r")
  {
    hide Transform, HoldBack, LastLineStart;
    LastLine("\r");
    assert "" + "\r" == "\r" && "\r"[1..] == [];
    TransformCR(cfg);
    NothingToRewrite(cfg);
    assert [] + ("\r" + []) == "\r";
    LineLenOf([], "\r", []);
    assert "\r"[..0] == [] && "\r"[0..] == "\r" && "\r"[..1] == "\r";
  }

  /** A chunk of complete lines only. */
  lemma FeedComplete(cfg: Config, startsLine: bool, full: Text)
    requires full != [] && LastLineStart(full) == |full|
    ensures Feed(cfg, State("", startsLine), full) == (START, Write(cfg, startsLine, full))
  {
    assert "" + full == full && full[|full|..] == [];
  }

  /** A chunk that starts a line and does not end it. */
  lemma FeedPartial(cfg: Config, l: Text)
    requires PartialLine(l)
    ensures Feed(cfg, START, l)
            == if HoldBack(cfg, l) then (State(l, true), []) else (State("", EndsWithCR(l)), Transform(cfg, l))
  {
    hide Transform, LastLineStart, HoldBack;
    assert "" + l == l && l[0..] == l && l[..0] == [];
    WriteAtStart(cfg, l);
    WriteAtStart(cfg, []);
    NothingToRewrite(cfg);
    if l == "\r" {
      CRIsNotHeld(cfg);
      LastLine(l);
      assert l[1..] == [];
    } else {
      PartialStart(l);
    }
  }

  lemma PartialStart(l: Text)
    requires PartialLine(l) && l != "\r"
    ensures LastLineStart(l) == 0
  {
    assert forall i :: 0 <= i < |l| - 1 ==> l[i] == l[..|l| - 1][i];
    if |l| == 1 { assert l == [l[0]]; }
  }

  /** A chunk that neither starts nor ends a line. */
  lemma FeedMiddle(cfg: Config, l: Text)
    requires PartialLine(l)
    ensures Feed(cfg, State("", false), l) == (State("", EndsWithCR(l)), l)
  {
    hide Transform, LastLineStart, HoldBack, LineLen;
    if l == "\r" {
      FeedCR(cfg, false);
    } else {
      PartialStart(l);
      assert "" + l == l && l[0..] == l;
      PartialLen(l);
      NothingToRewrite(cfg);
      assert l[..|l|] == l && l[|l|..] == [] && l + [] == l;
    }
  }

  lemma PartialLen(l: Text)
    requires PartialLine(l)
    ensures LineLen(l) == |l|
  {
    var n := if EndsWithCR(l) then |l| - 1 else |l|;
    var c, e := l[..n], l[n..];
    assert l == c + (e + []);
    assert EndsWithCR(l) ==> e == "\r";
    LineLenOf(c, e, []);
  }

  // ----- Which streams may be cut anywhere -----

  /** The last line of a stream, without its line end or with half of it, and held back till the end. */
  predicate Unfinished(cfg: Config, c: Text, e: Text, last: bool) {
    last && (e == [] || e == "\r") && HoldBack(cfg, c + e)
  }

  /** A line that is filtered the same however it is cut: it starts with a workflow command, and so is
      held back until it is complete; or nothing in it is matched after a separator. The end of the
      stream replaces headers, but neither markers nor commands after a separator. */
  ghost predicate LineAlike(cfg: Config, c: Text, e: Text, last: bool) {
    || StartsColons(SkipAnsi(c))
    || (!InnerHeader(c) && (Unfinished(cfg, c, e, last) || !InnerRewrite(cfg, c, e)))
  }

  ghost predicate Alike(cfg: Config, s: Text)
    decreases |s|
  {
    s == [] ||
    var n, m := RunLen(s), LineLen(s);
    LineAlike(cfg, s[..n], s[n..m], m == |s|) && Alike(cfg, s[m..])
  }

  /** What becomes of a line. */
  function LineOut(cfg: Config, c: Text, e: Text, last: bool): Text {
    if !StartsColons(SkipAnsi(c)) then RewriteLine(cfg, c, e)
    else if last && (e == [] || e == "\r") then Finish(cfg, State(c + e, true))
    else Transform(cfg, c + e)
  }

  /** What becomes of a stream that may be cut anywhere. */
  function Filtered(cfg: Config, s: Text): Text
    decreases |s|
  {
    if s == [] then []
    else
      var n, m := RunLen(s), LineLen(s);
      LineOut(cfg, s[..n], s[n..m], m == |s|) + Filtered(cfg, s[m..])
  }

  lemma FilteredLine(cfg: Config, c: Text, e: Text, rest: Text)
    requires Line(c, e, rest) && c + e != []
    ensures Filtered(cfg, c + (e + rest)) == LineOut(cfg, c, e, rest == []) + Filtered(cfg, rest)
    ensures Alike(cfg, c + (e + rest)) <==> LineAlike(cfg, c, e, rest == []) && Alike(cfg, rest)
  {
    hide LineOut, RunLen, EolLen, LineLen, LineAlike;
    LineLenOf(c, e, rest);
    var s := c + (e + rest);
    assert s[..|c|] == c && s[|c|..|c| + |e|] == e && s[|c| + |e|..] == rest;
  }

  /** A line with its line end is transformed. */
  lemma LineOutIs(cfg: Config, c: Text, e: Text, last: bool)
    requires Line(c, e, []) && e != [] && LineAlike(cfg, c, e, last) && !(last && e == "\r")
    ensures LineOut(cfg, c, e, last) == Transform(cfg, c + e)
  {
    hide Transform, RewriteLine, HoldBack, SkipAnsi, InnerHeader, InnerRewrite;
    if !StartsColons(SkipAnsi(c)) { RewritesSafely(cfg, c, e); }
  }

  /** Complete lines, in front of the rest of the stream. */
  lemma {:induction false} FilteredSplit(cfg: Config, full: Text, y: Text)
    requires Complete(full, y) && (EndsWithCR(full) ==> y != []) && Alike(cfg, full + y)
    ensures Filtered(cfg, full + y) == Transform(cfg, full) + Filtered(cfg, y) && Alike(cfg, y)
    decreases |full|
  {
    hide Transform, Filtered, Alike, LineAlike, LineOut;
    if full == [] {
      NothingToRewrite(cfg);
      assert full + y == y;
    } else {
      var c, e, rest := FirstLine(full);
      SplitFirst(c, e, rest, y);
      LineAlone(c, e, rest);
      CompleteEnd(c, e, rest, y);
      FilteredLine(cfg, c, e, rest + y);
      LineOutIs(cfg, c, e, rest + y == []);
      FilteredSplit(cfg, rest, y);
      TransformLine(cfg, c, e, rest);
      Assoc(Transform(cfg, c + e), Transform(cfg, rest), Filtered(cfg, y));
    }
  }

  lemma CompleteEnd(c: Text, e: Text, rest: Text, y: Text)
    requires e != [] && (EndsWithCR(c + (e + rest)) ==> y != [])
    ensures EndsWithCR(rest) ==> y != []
    ensures !(rest + y == [] && e == "\r")
  {
    var full := c + (e + rest);
    if rest == [] { assert full[|full| - 1] == e[|e| - 1]; } else { assert full[|full| - 1] == rest[|rest| - 1]; }
  }

  // ----- What is owed -----

  /** What the filter still has to write for `t`, which starts a line or not. */
  function OwedFrom(cfg: Config, atLineStart: bool, t: Text): Text {
    if atLineStart then Filtered(cfg, t) else t[..LineLen(t)] + Filtered(cfg, t[LineLen(t)..])
  }

  ghost predicate AlikeFrom(cfg: Config, atLineStart: bool, t: Text) {
    Alike(cfg, if atLineStart then t else t[LineLen(t)..])
  }

  /** What the filter still owes for the rest `z` of the stream. */
  function Owed(cfg: Config, st: State, z: Text): Text { OwedFrom(cfg, st.atLineStart, st.pending + z) }

  ghost predicate AlikeAfter(cfg: Config, st: State, z: Text) { AlikeFrom(cfg, st.atLineStart, st.pending + z) }

  lemma OwedSplit(cfg: Config, atLineStart: bool, full: Text, y: Text)
    requires full != [] && Complete(full, y) && (EndsWithCR(full) ==> y != [])
    requires AlikeFrom(cfg, atLineStart, full + y)
    ensures OwedFrom(cfg, atLineStart, full + y) == Write(cfg, atLineStart, full) + Filtered(cfg, y) && Alike(cfg, y)
  {
    hide Transform, Filtered, Alike, LineLen;
    if atLineStart {
      WriteAtStart(cfg, full);
      FilteredSplit(cfg, full, y);
    } else {
      var n := LineLen(full);
      RestCut(full, y);
      FilteredSplit(cfg, full[n..], y);
      Assoc(full[..n], Transform(cfg, full[n..]), Filtered(cfg, y));
    }
  }

  lemma OwedLine(cfg: Config, d: Text, e: Text, rest: Text)
    requires Line(d, e, rest)
    ensures OwedFrom(cfg, false, d + (e + rest)) == d + e + Filtered(cfg, rest)
    ensures AlikeFrom(cfg, false, d + (e + rest)) <==> Alike(cfg, rest)
  {
    hide Filtered, Alike, LineLen;
    FirstLineCut(d, e, rest);
  }

  lemma Assoc4(a: Text, b: Text, c: Text, d: Text)
    ensures a + b + c + d == a + (b + c + d)
  {
  }

  lemma JoinCRLF(c: Text, z: Text)
    requires StartsWithLF(z)
    ensures c + "\r" + z == c + ("\r\n" + z[1..])
    ensures z == [] + ("\n" + z[1..])
  {
    assert "\r" + z == "\r\n" + z[1..];
  }

  lemma EmptyLine(cfg: Config, z: Text)
    requires StartsWithLF(z)
    ensures Filtered(cfg, z) == "\n" + Filtered(cfg, z[1..]) && (Alike(cfg, z) <==> Alike(cfg, z[1..]))
  {
    hide Filtered, Alike;
    JoinCRLF([], z);
    FilteredLine(cfg, [], "\n", z[1..]);
    assert SkipAnsi([]) == [] && RewriteLine(cfg, [], "\n") == "\n";
    assert forall p :: !AfterSeparator([], p);
  }

  /** What an incomplete line was written as does not depend on what comes after it. */
  lemma AlikePrefix(cfg: Config, c: Text, d: Text, e: Text, last: bool)
    requires c != [] && NoEol(c) && !HoldBack(cfg, c) && LineAlike(cfg, c + d, e, last)
    ensures Transform(cfg, c) == RewriteLine(cfg, c, [])
  {
    hide Transform, RewriteLine, HoldBack, SkipAnsi;
    UnheldContent(cfg, c, d, e);
    assert c + [] == c;
    if Unfinished(cfg, c + d, e, last) {
      Assoc(c, d, e);
      HeldLater(cfg, c, d + e);
      RewritesPlainLine(cfg, c, []);
    } else {
      InnerPrefix(cfg, c, d, e);
      RewritesSafely(cfg, c, []);
    }
  }

  /** What is matched after a separator in the start of a line is matched in the whole line. */
  lemma InnerPrefix(cfg: Config, c: Text, d: Text, e: Text)
    requires !InnerHeader(c + d) && !InnerRewrite(cfg, c + d, e)
    ensures !InnerHeader(c) && !InnerRewrite(cfg, c, [])
  {
    hide SkipAnsi;
    forall p | AfterSeparator(c, p) ensures !IsFileHeader(SkipAnsi(c[p..])) && !IsInnerRewrite(cfg, c[p..], []) {
      assert AfterSeparator(c + d, p) && (c + d)[p..] == c[p..] + d;
      if IsFileHeader(SkipAnsi(c[p..])) { HeaderGrows(c[p..], d); }
      assert IsGroupMarker(c[p..]) ==> IsGroupMarker(c[p..] + d);
    }
  }

  lemma HeaderGrows(c: Text, d: Text)
    requires IsFileHeader(SkipAnsi(c))
    ensures IsFileHeader(SkipAnsi(c + d))
  {
    hide SkipAnsi;
    ColonsGrow(c, d);
    var t := SkipAnsi(c);
    assert (t + d)[2..] == t[2..] + d;
  }

  lemma {:induction false} ColonsGrow(c: Text, d: Text)
    requires StartsColons(SkipAnsi(c))
    ensures SkipAnsi(c + d) == SkipAnsi(c) + d
    decreases |c|
  {
    var n := AnsiLen(c);
    if n > 0 {
      AnsiLenGrows(c, d);
      assert (c + d)[n..] == c[n..] + d;
      ColonsGrow(c[n..], d);
    } else {
      assert (c + d)[0] == c[0];
    }
  }

  lemma AnsiLenGrows(c: Text, d: Text)
    requires AnsiLen(c) > 0
    ensures AnsiLen(c + d) == AnsiLen(c)
  {
    assert (c + d)[2..] == c[2..] + d;
    ParamsLenGrows(c[2..], d);
  }

  lemma {:induction false} ParamsLenGrows(a: Text, b: Text)
    requires ParamsLen(a) < |a|
    ensures ParamsLen(a + b) == ParamsLen(a)
    decreases |a|
  {
    assert (a + b)[1..] == a[1..] + b;
    if IsParam(a[0]) { ParamsLenGrows(a[1..], b); }
  }

  /** The rest of a line whose start was written. */
  lemma UnheldOpen(cfg: Config, c: Text, z: Text)
    requires c != [] && NoEol(c) && !HoldBack(cfg, c) && Alike(cfg, c + z)
    ensures Filtered(cfg, c + z) == Transform(cfg, c) + OwedFrom(cfg, false, z) && AlikeFrom(cfg, false, z)
  {
    hide Filtered, Alike, OwedFrom, AlikeFrom, HoldBack, Transform, RewriteLine, SkipAnsi, LineAlike, NoEol;
    var d, e, rest := FirstLine(z);
    NoEolConcat(c, d);
    Assoc(c, d, e + rest);
    FilteredLine(cfg, c + d, e, rest);
    AlikePrefix(cfg, c, d, e, rest == []);
    UnheldContent(cfg, c, d, e);
    OwedLine(cfg, d, e, rest);
    Assoc4(RewriteLine(cfg, c, []), d, e, Filtered(cfg, rest));
  }

  /** A `\r` is written as soon as it arrives. If a `\n` follows, it is the line end of an empty line. */
  lemma UnheldCR(cfg: Config, c: Text, z: Text)
    requires NoEol(c) && !HoldBack(cfg, c + "\r") && Alike(cfg, c + "\r" + z)
    ensures Filtered(cfg, c + "\r" + z) == Transform(cfg, c + "\r") + Filtered(cfg, z) && Alike(cfg, z)
  {
    hide Filtered, Alike, HoldBack, Transform, RewriteLine, SkipAnsi, NoEol;
    NotColons(cfg, c);
    assert "\r" + [] == "\r";
    if StartsWithLF(z) {
      var z' := z[1..];
      JoinCRLF(c, z);
      FilteredLine(cfg, c, "\r\n", z');
      EmptyLine(cfg, z);
      SameInner(cfg, c);
      RewritesSafely(cfg, c, "\r");
      RewriteCRLF(cfg, c, Filtered(cfg, z'));
    } else {
      Assoc(c, "\r", z);
      FilteredLine(cfg, c, "\r", z);
      RewritesSafely(cfg, c, "\r");
    }
  }

  lemma SameInner(cfg: Config, c: Text)
    ensures InnerRewrite(cfg, c, "\r\n") <==> InnerRewrite(cfg, c, "\r")
  {
    hide SkipAnsi, Plain, IsGroupMarker, IsCommand;
    assert forall p :: AfterSeparator(c, p) ==> (IsInnerRewrite(cfg, c[p..], "\r\n") <==> IsInnerRewrite(cfg, c[p..], "\r"));
  }

  lemma NotColons(cfg: Config, c: Text)
    requires !HoldBack(cfg, c + "\r")
    ensures !StartsColons(SkipAnsi(c))
  {
    hide HoldBack, SkipAnsi;
    SkipAnsiStops(c, "\r");
    if StartsColons(SkipAnsi(c)) {
      assert c + "\r" + [] == c + "\r";
      CommandPrefixIsHeld(cfg, c + "\r", []);
    }
  }

  lemma RewriteCRLF(cfg: Config, c: Text, y: Text)
    requires !StartsColons(SkipAnsi(c))
    ensures RewriteLine(cfg, c, "\r\n") + y == RewriteLine(cfg, c, "\r") + ("\n" + y)
  {
    hide SkipAnsi;
    assert "\r" + "\n" == "\r\n";
    assert RewriteLine(cfg, c, "\r\n") == RewriteLine(cfg, c, "\r") + "\n";
  }

  /** An incomplete line: it is held back, or written and only its rest is still owed. */
  lemma PartialStep(cfg: Config, l: Text, z: Text)
    requires PartialLine(l) && Alike(cfg, l + z)
    ensures var (st, out) := Feed(cfg, START, l);
            Filtered(cfg, l + z) == out + Owed(cfg, st, z) && AlikeAfter(cfg, st, z) && ValidState(cfg, st)
  {
    hide Feed, Filtered, Alike, HoldBack, Transform, NoEol;
    FeedPartial(cfg, l);
    assert "" + z == z;
    if !HoldBack(cfg, l) {
      if EndsWithCR(l) {
        var c := l[..|l| - 1];
        assert l == c + "\r";
        UnheldCR(cfg, c, z);
      } else {
        OpenLine(l);
        UnheldOpen(cfg, l, z);
      }
    }
  }

  lemma OpenLine(l: Text)
    requires PartialLine(l) && !EndsWithCR(l)
    ensures NoEol(l)
  {
    assert l == l[..|l| - 1] + [l[|l| - 1]];
  }

  /** A chunk in the middle of a line. */
  lemma MiddleStep(cfg: Config, l: Text, z: Text)
    requires PartialLine(l) && AlikeFrom(cfg, false, l + z)
    ensures OwedFrom(cfg, false, l + z) == l + OwedFrom(cfg, EndsWithCR(l), z) && AlikeFrom(cfg, EndsWithCR(l), z)
  {
    hide Filtered, Alike, NoEol, LineLen;
    if EndsWithCR(l) {
      var c := l[..|l| - 1];
      assert l == c + "\r";
      if StartsWithLF(z) {
        JoinCRLF(c, z);
        OwedLine(cfg, c, "\r\n", z[1..]);
        EmptyLine(cfg, z);
        SplitCRLF(c, Filtered(cfg, z[1..]));
      } else {
        Assoc(c, "\r", z);
        OwedLine(cfg, c, "\r", z);
      }
    } else {
      OpenLine(l);
      var d, e, rest := FirstLine(z);
      NoEolConcat(l, d);
      Assoc(l, d, e + rest);
      OwedLine(cfg, l + d, e, rest);
      OwedLine(cfg, d, e, rest);
      Assoc4(l, d, e, Filtered(cfg, rest));
    }
  }

  lemma SplitCRLF(c: Text, y: Text)
    ensures c + "\r\n" + y == c + "\r" + ("\n" + y)
  {
    assert "\r\n" == "\r" + "\n";
  }

  /** A chunk after what was held back, with complete lines in front. */
  lemma FullStep(cfg: Config, startsLine: bool, full: Text, last: Text, z: Text)
    requires full != [] && Complete(full, last) && PartialLine(last) && AlikeFrom(cfg, startsLine, full + last + z)
    ensures var (st, out) := Feed(cfg, State("", startsLine), full + last);
            && OwedFrom(cfg, startsLine, full + last + z) == out + Owed(cfg, st, z)
            && AlikeAfter(cfg, st, z) && ValidState(cfg, st)
  {
    hide Feed, Filtered, Alike, HoldBack, NoEol, Write, OwedFrom, AlikeFrom;
    Assoc(full, last, z);
    assert (last + z)[0] == last[0];
    OwedSplit(cfg, startsLine, full, last + z);
    FeedSplit(cfg, startsLine, full, last);
    PartialStep(cfg, last, z);
    var (st, out) := Feed(cfg, START, last);
    Assoc(Write(cfg, startsLine, full), out, Owed(cfg, st, z));
  }

  lemma LinesStep(cfg: Config, startsLine: bool, full: Text, z: Text)
    requires full != [] && full != "\r" && LastLineStart(full) == |full| && AlikeFrom(cfg, startsLine, full + z)
    ensures var (st, out) := Feed(cfg, State("", startsLine), full);
            && OwedFrom(cfg, startsLine, full + z) == out + Owed(cfg, st, z)
            && AlikeAfter(cfg, st, z) && ValidState(cfg, st)
  {
    hide Feed, Filtered, Alike, Write, LastLineStart;
    LastLine(full);
    assert "" + z == z;
    FeedComplete(cfg, startsLine, full);
    OwedSplit(cfg, startsLine, full, z);
  }

  lemma NothingStep(cfg: Config, startsLine: bool)
    ensures Feed(cfg, State("", startsLine), []) == (State("", startsLine), [])
  {
    hide Transform, HoldBack;
    NothingToRewrite(cfg);
  }

  /** A chunk, after nothing was held back. */
  lemma TextStep(cfg: Config, startsLine: bool, text: Text, z: Text)
    requires AlikeFrom(cfg, startsLine, text + z)
    ensures var (st, out) := Feed(cfg, State("", startsLine), text);
            && OwedFrom(cfg, startsLine, text + z) == out + Owed(cfg, st, z)
            && AlikeAfter(cfg, st, z) && ValidState(cfg, st)
  {
    hide Feed, HoldBack, NoEol, OwedFrom, AlikeFrom, LastLineStart;
    LastLine(text);
    var k := LastLineStart(text);
    var full, last := text[..k], text[k..];
    assert full + last == text && "" + z == z;
    if text == [] {
      NothingStep(cfg, startsLine);
      assert text + z == z;
    } else if text != "\r" && full != [] && last != [] {
      FullStep(cfg, startsLine, full, last, z);
    } else if text != "\r" && last == [] {
      LinesStep(cfg, startsLine, text, z);
    } else {
      assert text != "\r" ==> last == text;
      WholeIsPartial(text, last);
      if startsLine {
        AtStartIs(cfg, text + z);
        PartialStep(cfg, text, z);
      } else {
        FeedMiddle(cfg, text);
        MiddleStep(cfg, text, z);
      }
    }
  }

  lemma WholeIsPartial(text: Text, last: Text)
    requires text == "\r" || (last == text && PartialLine(last))
    ensures PartialLine(text)
  {
  }

  lemma AtStartIs(cfg: Config, t: Text)
    ensures OwedFrom(cfg, true, t) == Filtered(cfg, t) && (AlikeFrom(cfg, true, t) <==> Alike(cfg, t))
  {
  }

  /** The simulation: whatever one call writes is what it no longer owes. */
  lemma FeedStep(cfg: Config, st: State, chunk: Text, z: Text)
    requires ValidState(cfg, st) && AlikeAfter(cfg, st, chunk + z)
    ensures var (st', out) := Feed(cfg, st, chunk);
            && ValidState(cfg, st') && AlikeAfter(cfg, st', z)
            && Owed(cfg, st, chunk + z) == out + Owed(cfg, st', z)
  {
    hide OwedFrom, AlikeFrom, ValidState;
    Assoc(st.pending, chunk, z);
    FeedIsText(cfg, st, chunk);
    TextStep(cfg, st.atLineStart, st.pending + chunk, z);
  }

  lemma FeedIsText(cfg: Config, st: State, chunk: Text)
    ensures Feed(cfg, st, chunk) == Feed(cfg, State("", st.atLineStart), st.pending + chunk)
  {
    hide LastLineStart, HoldBack, Write;
    assert "" + (st.pending + chunk) == st.pending + chunk;
  }

  lemma FeedKeepsValid(cfg: Config, st: State, chunk: Text)
    requires ValidState(cfg, st)
    ensures ValidState(cfg, Feed(cfg, st, chunk).0)
  {
    hide HoldBack, LastLineStart, NoEol, Write;
    LastLine(st.pending + chunk);
  }
}
