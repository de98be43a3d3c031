/** Nothing that had to be rewritten is left at the start of a line of the log: exactly for which streams this
    is so however they are cut. */
module CleanLogs {
  import opened Wrappers
  import opened LogText
  import opened LineRewrite
  import opened LiveOutput
  import opened LiveFilter
  import opened CutStreams

  // ----- What is at the start of a line of the log -----

  /** A line that starts with a command and stays: the command does not reach the line end, because a
      separator comes before. */
  predicate Survives(cfg: Config, c: Text) {
    var t := SkipAnsi(c);
    IsCommand(cfg.github, t) && !IsFileHeader(t) && !Plain(c)
  }

  /** A line up to its first separator. */
  lemma {:induction false} FirstPart(c: Text) returns (a: Text, b: Text)
    ensures c == a + b && Plain(a) && (b == [] || IsSeparator(b[0]))
    decreases |c|
  {
    if c == [] || IsSeparator(c[0]) {
      a, b := [], c;
    } else {
      var a', b' := FirstPart(c[1..]);
      a, b := [c[0]] + a', b';
    }
  }

  /** Away from the start of a line nothing matches. */
  lemma {:induction false} ReplaceCopies(rule: Rule, u: Text, w: Text)
    requires NoEol(u) && Plain(u)
    ensures Replace(rule, u + w, false) == u + Replace(rule, w, false)
    decreases |u|
  {
    if u == [] {
      assert u + w == w;
    } else {
      assert (u + w)[1..] == u[1..] + w;
      ReplaceCopies(rule, u[1..], w);
    }
  }

  /** A line that does not match at its start keeps it, up to the first separator or its end. */
  lemma KeepsStart(rule: Rule, a: Text, w: Text) returns (w': Text)
    requires NoEol(a) && Plain(a) && (w == [] || IsLineTerminator(w[0])) && Match(rule, a + w) == None
    ensures Replace(rule, a + w, true) == a + w'
    ensures if w == [] then w' == [] else w' != [] && w'[0] == w[0]
  {
    hide Match;
    if a == [] {
      assert a + w == w;
      w' := Replace(rule, w, true);
      if w != [] { NoMatchAtTerminator(rule, w); }
    } else {
      w' := Replace(rule, w, false);
      ReplaceStep(rule, a + w, true);
      assert (a + w)[1..] == a[1..] + w && a == [a[0]] + a[1..];
      ReplaceCopies(rule, a[1..], w);
      Assoc([a[0]], a[1..], w');
    }
  }

  /** A line starts as it does whatever comes after a separator. */
  lemma StartIs(cfg: Config, a: Text, b: Text)
    requires b == [] || IsLineTerminator(b[0])
    ensures SkipAnsi(a + b) == SkipAnsi(a) + b
    ensures StartsColons(SkipAnsi(a + b)) <==> StartsColons(SkipAnsi(a))
    ensures IsFileHeader(SkipAnsi(a + b)) <==> IsFileHeader(SkipAnsi(a))
    ensures IsCommand(cfg.github, SkipAnsi(a + b)) <==> IsCommand(cfg.github, SkipAnsi(a))
    ensures IsGroupMarker(a + b) <==> IsGroupMarker(a)
  {
    hide SkipAnsi;
    SkipAnsiStops(a, b);
    FixedTextStops(cfg.github, SkipAnsi(a), b);
    FixedTextStops(cfg.github, a, b);
  }

  lemma NoHeaderMatch(cfg: Config, a: Text, w: Text)
    requires !IsFileHeader(SkipAnsi(a)) && (w == [] || IsLineTerminator(w[0]))
    ensures Match(FileHeaders, a + w) == None
  {
    hide SkipAnsi;
    StartIs(cfg, a, w);
  }

  /** A command that a separator cuts off does not match. */
  lemma NoCommandMatch(cfg: Config, a: Text, w: Text)
    requires NoEol(a) && Plain(a) && (w == [] || IsLineTerminator(w[0]))
    requires !IsCommand(cfg.github, SkipAnsi(a)) || w == [] || IsSeparator(w[0])
    ensures Match(Commands(cfg.github), a + w) == None
  {
    hide SkipAnsi, IsCommand, DotLen;
    StartIs(cfg, a, w);
    if IsCommand(cfg.github, SkipAnsi(a)) {
      var t := SkipAnsi(a);
      SkipAnsiKeeps(a);
      DotLenUpTo(t, w);
      assert (t + w)[|t|..] == w;
    }
  }

  lemma {:induction false} DotLenUpTo(t: Text, w: Text)
    requires NoEol(t) && Plain(t) && (w == [] || IsLineTerminator(w[0]))
    ensures DotLen(t + w) == |t|
    decreases |t|
  {
    if t == [] {
      assert t + w == w;
    } else {
      assert (t + w)[1..] == t[1..] + w;
      DotLenUpTo(t[1..], w);
    }
  }

  /** What the three replacements leave at the start of a line, if nothing matches there but a marker. */
  lemma TransformStart(cfg: Config, a: Text, w: Text) returns (w': Text)
    requires NoEol(a) && Plain(a) && (w == [] || IsLineTerminator(w[0])) && !IsFileHeader(SkipAnsi(a))
    requires !IsCommand(cfg.github, SkipAnsi(a)) || w == [] || IsSeparator(w[0])
    ensures var o := Transform(cfg, a + w);
            if cfg.buildkite && IsGroupMarker(a) then o != [] && o[0] == ' '
            else o == a + w' && if w == [] then w' == [] else w' != [] && w'[0] == w[0]
  {
    hide Replace, SkipAnsi, Match;
    NoHeaderMatch(cfg, a, w);
    var w1 := KeepsStart(FileHeaders, a, w);
    NoCommandMatch(cfg, a, w1);
    var w2 := KeepsStart(Commands(cfg.github), a, w1);
    w' := w2;
    if cfg.buildkite {
      MarkerMatch(a, w2);
      if IsGroupMarker(a) {
        ReplaceStep(GroupMarkers, a + w2, true);
      } else {
        w' := KeepsStart(GroupMarkers, a, w2);
      }
    }
  }

  lemma MarkerMatch(a: Text, w: Text)
    requires w == [] || IsLineTerminator(w[0])
    ensures Match(GroupMarkers, a + w) == if IsGroupMarker(a) then Some(Hit(4, " ")) else None
    ensures IsGroupMarker(a) ==> a + w != []
  {
    FixedTextStops(false, a, w);
  }

  /** A header becomes text that starts with a letter. */
  lemma HeaderStart(cfg: Config, c: Text, e: Text)
    requires Line(c, e, []) && IsFileHeader(SkipAnsi(c))
    ensures var o := Transform(cfg, c + e); o != [] && o[0] == 't'
    ensures var o := Replace(FileHeaders, c + e, true); o != [] && o[0] == 't'
  {
    hide Replace, SkipAnsi, Match, NoEol;
    var t := "test: " + SkipAnsi(c)[9..];
    HeaderLine(c, e);
    ReplaceWhole(FileHeaders, c, e, t + e);
    var h := t + e;
    assert h[0] == 't';
    LetterStays(Commands(cfg.github), h);
    LetterStays(GroupMarkers, Replace(Commands(cfg.github), h, true));
  }

  lemma LetterStays(rule: Rule, s: Text)
    requires s != [] && s[0] == 't'
    ensures var o := Replace(rule, s, true); o != [] && o[0] == 't'
  {
    hide Replace;
    assert SkipAnsi(s) == s;
    ReplaceStep(rule, s, true);
  }

  lemma OrdinaryText(cfg: Config, o: Text, x: Text)
    requires o != [] && (o[0] == 't' || o[0] == ' ')
    ensures !Rewritable(cfg, o + x)
  {
    assert (o + x)[0] == o[0];
    OrdinaryStart(cfg, o + x);
  }

  /** What a complete line leaves is nothing, or starts what is rewritten exactly if it survives. */
  lemma LineStarts(cfg: Config, c: Text, e: Text, x: Text)
    requires Line(c, e, []) && e != []
    ensures var o := Transform(cfg, c + e); o == [] || (Rewritable(cfg, o + x) <==> Survives(cfg, c))
  {
    hide Transform, SkipAnsi, NoEol, Rewritable;
    if IsFileHeader(SkipAnsi(c)) {
      HeaderStart(cfg, c, e);
      OrdinaryText(cfg, Transform(cfg, c + e), x);
    } else if IsCommand(cfg.github, SkipAnsi(c)) && Plain(c) {
      RewritesCommand(cfg, c, e);
    } else {
      var a, b := FirstPart(c);
      OtherStarts(cfg, a, b, e, x);
    }
  }

  lemma OtherStarts(cfg: Config, a: Text, b: Text, e: Text, x: Text)
    requires Line(a + b, e, []) && e != [] && Plain(a) && (b == [] || IsSeparator(b[0]))
    requires !IsFileHeader(SkipAnsi(a + b)) && !(IsCommand(cfg.github, SkipAnsi(a + b)) && Plain(a + b))
    ensures Rewritable(cfg, Transform(cfg, a + b + e) + x) <==> Survives(cfg, a + b)
  {
    hide Transform, SkipAnsi;
    assert forall i :: 0 <= i < |a| ==> a[i] == (a + b)[i];
    assert b != [] ==> (a + b)[|a|] == b[0];
    assert b == [] ==> a + b == a;
    var w := b + e;
    Assoc(a, b, e);
    assert b != [] ==> w[0] == b[0];
    assert b == [] ==> w == e;
    StartIs(cfg, a, b);
    var w' := TransformStart(cfg, a, w);
    var o := Transform(cfg, a + w);
    if cfg.buildkite && IsGroupMarker(a) {
      OrdinaryText(cfg, o, x);
      MarkerIsNoCommand(cfg, a);
    } else {
      Assoc(a, w', x);
      assert (w' + x)[0] == w[0];
      RewritableStops(cfg, a, w' + x);
    }
  }

  lemma MarkerIsNoCommand(cfg: Config, a: Text)
    requires IsGroupMarker(a)
    ensures !StartsColons(SkipAnsi(a))
  {
    assert SkipAnsi(a) == a;
  }

  /** An incomplete line that is written starts nothing that is rewritten, however it goes on. */
  lemma UnheldStarts(cfg: Config, c: Text, x: Text)
    requires c != [] && NoEol(c) && !HoldBack(cfg, c)
    ensures var o := Transform(cfg, c); o != [] && !Rewritable(cfg, o + x)
  {
    hide Transform, SkipAnsi, HoldBack;
    var a, b := FirstPart(c);
    NoColons(cfg, c, []);
    assert c + [] == c;
    StartIs(cfg, a, b);
    PrefixIsOneLine(a, b);
    var w' := TransformStart(cfg, a, b);
    var o := Transform(cfg, c);
    if cfg.buildkite && IsGroupMarker(a) {
      OrdinaryText(cfg, o, x);
    } else {
      Assoc(a, w', x);
      if b != [] {
        assert (w' + x)[0] == b[0];
        RewritableStops(cfg, a, w' + x);
      } else {
        NoColons(cfg, c, x);
        if cfg.buildkite && |c| < 4 && IsGroupMarker(c + x) { MarkerPrefixIsHeld(cfg, c, x); }
        UnheldMarker(c, x);
        assert c == a && o == a && o + x == c + x;
      }
    }
  }

  lemma PrefixIsOneLine(a: Text, b: Text)
    requires NoEol(a + b)
    ensures NoEol(a)
  {
    assert forall i :: 0 <= i < |a| ==> a[i] == (a + b)[i];
  }

  lemma NoColons(cfg: Config, c: Text, x: Text)
    requires !HoldBack(cfg, c)
    ensures !StartsColons(SkipAnsi(c + x))
  {
    hide HoldBack, SkipAnsi;
    if StartsColons(SkipAnsi(c + x)) { CommandPrefixIsHeld(cfg, c, x); }
  }

  /** What the end of the stream leaves of a line that was held back. */
  lemma FinishStarts(cfg: Config, c: Text, e: Text)
    requires Line(c, e, []) && (e == [] || e == "\r") && c + e != [] && HoldBack(cfg, c + e)
    ensures var o := Finish(cfg, State(c + e, true)); o == [] || (Rewritable(cfg, o) <==> Survives(cfg, c))
  {
    hide SkipAnsi, HoldBack, Replace, Transform, DropLastCommand;
    if IsFileHeader(SkipAnsi(c)) {
      HeaderStart(cfg, c, e);
      LetterIsKept(cfg, Replace(FileHeaders, c + e, true));
    } else {
      var a, b := FirstPart(c);
      PrefixIsOneLine(a, b);
      StartIs(cfg, a, b);
      var w := b + e;
      Assoc(a, b, e);
      assert w == [] || IsLineTerminator(w[0]) by { assert b != [] ==> w[0] == b[0]; assert b == [] ==> w == e; }
      NoHeaderMatch(cfg, a, w);
      var w' := KeepsStart(FileHeaders, a, w);
      NotMarker(cfg, a, w);
      if b != [] {
        assert w'[0] == b[0] && !Plain(c) by { assert c[|a|] == b[0]; }
        NotDropped(cfg, a, w');
        RewritableStops(cfg, a, w');
      } else {
        assert c == a && w == e;
        PlainFinish(cfg, c, e);
      }
    }
  }

  lemma LetterIsKept(cfg: Config, o: Text)
    requires o != [] && o[0] == 't'
    ensures DropLastCommand(cfg.github, o) == o && !Rewritable(cfg, o)
  {
    assert SkipAnsi(o) == o;
  }

  lemma NotMarker(cfg: Config, a: Text, w: Text)
    requires HoldBack(cfg, a + w) && (w == [] || IsLineTerminator(w[0]))
    ensures !IsGroupMarker(a)
  {
    hide HoldBack;
    FixedTextStops(false, a, w);
    if IsGroupMarker(a) { MarkerIsNotHeld(cfg, a + w); }
  }

  lemma NotDropped(cfg: Config, a: Text, w: Text)
    requires NoEol(a) && Plain(a) && w != [] && IsSeparator(w[0])
    ensures DropLastCommand(cfg.github, a + w) == a + w
  {
    hide SkipAnsi, DotLen, IsCommand;
    StartIs(cfg, a, w);
    SkipAnsiKeeps(a);
    DotLenUpTo(SkipAnsi(a), w);
    assert (SkipAnsi(a) + w)[|SkipAnsi(a)|..] == w;
  }

  lemma PlainFinish(cfg: Config, c: Text, e: Text)
    requires Line(c, e, []) && (e == [] || e == "\r") && Plain(c) && !IsFileHeader(SkipAnsi(c)) && !IsGroupMarker(c)
    ensures var o := Finish(cfg, State(c + e, true)); o == [] || (!Rewritable(cfg, o) && !Survives(cfg, c))
  {
    hide SkipAnsi, Replace, NoHits, DropLastCommand;
    assert forall p :: !AfterSeparator(c, p);
    HitsOfLine(FileHeaders, c, e);
    ReplaceShrinks(FileHeaders, c + e, true);
    DropLastCommandOf(cfg.github, c, e);
    RewritableStops(cfg, c, e);
  }

  // ----- Lines of the log -----

  /** A line of the log starts at `p`. Whether one starts at 0 depends on what was written before. */
  predicate LogLine(o: Text, p: int, open: bool) {
    0 <= p <= |o| && if p == 0 then !open else IsEol(o[p - 1])
  }

  /** What is written next starts no line of the log with what is rewritten; `open` says that it continues
      one. */
  ghost predicate Quiet(cfg: Config, open: bool, o: Text) {
    forall p :: LogLine(o, p, open) ==> !Rewritable(cfg, o[p..])
  }

  lemma CleanIsQuiet(cfg: Config, o: Text)
    ensures Clean(cfg, o) <==> Quiet(cfg, false, o)
  {
    hide Rewritable;
    assert forall p :: LineStart(o, p) <==> LogLine(o, p, false);
  }

  lemma NotAtEol(cfg: Config, s: Text)
    requires s == [] || IsEol(s[0])
    ensures !Rewritable(cfg, s)
  {
    assert SkipAnsi(s) == s;
  }

  /** One line of the log, or what is left of it, in front of the rest. */
  lemma QuietLine(cfg: Config, open: bool, u: Text, e: Text, x: Text)
    requires NoEol(u) && (e == [] || IsLineEnd(e)) && u + e != []
    ensures Quiet(cfg, open, u + e + x) <==> (open || !Rewritable(cfg, u + e + x)) && Quiet(cfg, e == [], x)
  {
    hide Rewritable, NoEol;
    var o := u + e;
    var s, n := o + x, |o|;
    assert s[0..] == s;
    forall p | n <= p <= |s| ensures s[p..] == x[p - n..] && (p > n ==> s[p - 1] == x[p - n - 1]) {
    }
    LineEnds(u, e, x);
    if Quiet(cfg, open, s) {
      assert !open ==> LogLine(s, 0, open);
      forall q | LogLine(x, q, e == []) ensures !Rewritable(cfg, x[q..]) {
        assert s[q + n..] == x[q..];
        assert LogLine(s, q + n, open);
      }
    }
    if (open || !Rewritable(cfg, s)) && Quiet(cfg, e == [], x) {
      forall p | LogLine(s, p, open) ensures !Rewritable(cfg, s[p..]) {
        if p >= n {
          assert s[p..] == x[p - n..];
          assert LogLine(x, p - n, e == []);
        } else if p > 0 {
          assert s[p..][0] == s[p];
          NotAtEol(cfg, s[p..]);
        }
      }
    }
  }

  /** Where a line of the log ends. */
  lemma LineEnds(u: Text, e: Text, x: Text)
    requires NoEol(u) && (e == [] || IsLineEnd(e)) && u + e != []
    ensures var s, n := u + e + x, |u + e|;
            && (IsEol(s[n - 1]) <==> e != [])
            && forall p :: 0 < p < n && IsEol(s[p - 1]) ==> IsEol(s[p])
  {
    var s, n := u + e + x, |u + e|;
    assert forall i :: 0 <= i < |u| ==> s[i] == u[i];
    assert forall i :: |u| <= i < n ==> s[i] == e[i - |u|];
  }

  /** A line that was written to its end leaves the rest to show. */
  lemma EolExposes(cfg: Config, open: bool, o: Text, x: Text)
    requires o != [] && IsEol(o[|o| - 1]) && !Quiet(cfg, false, x)
    ensures !Quiet(cfg, open, o + x)
  {
    hide Rewritable;
    var q :| LogLine(x, q, false) && Rewritable(cfg, x[q..]);
    var s := o + x;
    assert s[|o| + q..] == x[q..];
    assert q > 0 ==> s[|o| + q - 1] == x[q - 1];
    assert s[|o| - 1] == o[|o| - 1];
    assert LogLine(s, |o| + q, open);
  }

  // ----- What a line leaves is a line -----

  lemma {:induction false} ReplaceShape(rule: Rule, c: Text, e: Text, atStart: bool) returns (u: Text, f: Text)
    requires Line(c, e, [])
    ensures Replace(rule, c + e, atStart) == u + f && NoEol(u) && (f == e || f == [])
    decreases |c|
  {
    hide Match, Replace, LineHit, NoEol;
    assert e + [] == e;
    if c == [] {
      NoEolInNothing();
      u, f := [], e;
      assert c + e == e && [] + e == e;
      NothingToReplace(rule, true);
      NothingToReplace(rule, atStart);
      if e != [] { ReplaceCopiesEol(rule, e, [], atStart); }
    } else {
      ReplaceStep(rule, c + e, atStart);
      MatchLine(rule, c, e, []);
      HitLen(rule, c, e);
      var h := if atStart then LineHit(rule, c, e) else None;
      if h.Some? && h.value.len > |c| {
        u, f := WholeShape(rule, c, e);
      } else {
        var n := if h.Some? then h.value.len else 1;
        var r := if h.Some? then h.value.replacement else [c[0]];
        CutLine(c, e, [], n);
        LineCut(c, e, [], n);
        ReplacementShape(rule, c, e);
        var v, g := ReplaceShape(rule, c[n..], e, IsLineTerminator(c[n - 1]));
        u, f := r + v, g;
        NoEolConcat(r, v);
        Assoc(r, v, g);
      }
    }
  }

  /** What replaces a part of a line, or a character of it. */
  lemma ReplacementShape(rule: Rule, c: Text, e: Text)
    requires NoEol(c) && c != []
    ensures NoEol([c[0]])
    ensures var h := LineHit(rule, c, e); h.Some? && h.value.len <= |c| ==> NoEol(h.value.replacement)
  {
    hide SkipAnsi;
    if rule.FileHeaders? && LineHit(rule, c, e).Some? {
      HeaderLine(c, e);
      assert |c + e| <= |c| ==> e == [] && "test: " + SkipAnsi(c)[9..] + e == "test: " + SkipAnsi(c)[9..];
    }
  }

  lemma WholeShape(rule: Rule, c: Text, e: Text) returns (u: Text, f: Text)
    requires Line(c, e, []) && LineHit(rule, c, e).Some? && LineHit(rule, c, e).value.len > |c|
    ensures Replace(rule, c + e, true) == u + f && NoEol(u) && (f == e || f == [])
  {
    hide Replace, SkipAnsi;
    match rule {
      case FileHeaders =>
        HeaderLine(c, e);
        u, f := "test: " + SkipAnsi(c)[9..], e;
        ReplaceWhole(rule, c, e, u + f);
      case Commands(_) =>
        u, f := [], [];
        ReplaceWhole(rule, c, e, []);
      case GroupMarkers =>
        u, f := [], [];
        assert false;
    }
  }

  lemma TransformShape(cfg: Config, c: Text, e: Text) returns (u: Text, f: Text)
    requires Line(c, e, [])
    ensures Transform(cfg, c + e) == u + f && NoEol(u) && (f == e || f == [])
  {
    hide Replace, NoEol;
    u, f := ReplaceShape(FileHeaders, c, e, true);
    u, f := ReplaceShape(Commands(cfg.github), u, f, true);
    if cfg.buildkite { u, f := ReplaceShape(GroupMarkers, u, f, true); }
  }

  // ----- The condition -----

  /** Whether the log is in the middle of a line after some more was written. */
  predicate Leaves(open: bool, o: Text) { if o == [] then open else !IsEol(o[|o| - 1]) }

  /** No command shows at the start of a line of the log: no line survives that starts with one, unless what was
      written before it has lost its line end and it is hidden there. That happens to lines that start
      with a command; others may be cut so that they keep it. */
  ghost predicate NothingShows(cfg: Config, open: bool, s: Text)
    decreases |s|
  {
    s == [] ||
    var n, m := RunLen(s), LineLen(s);
    ShowsNothing(cfg, open, s[..n]) && NothingShows(cfg, After(cfg, open, s[..n], s[n..m], m == |s|), s[m..])
  }

  predicate ShowsNothing(cfg: Config, open: bool, c: Text) { open || !Survives(cfg, c) }

  /** Whether the log is in the middle of a line after a line of the stream, at worst. */
  predicate After(cfg: Config, open: bool, c: Text, e: Text, last: bool) {
    StartsColons(SkipAnsi(c)) && Leaves(open, LineOut(cfg, c, e, last))
  }

  lemma ShowsLine(cfg: Config, open: bool, c: Text, e: Text, rest: Text)
    requires Line(c, e, rest) && c + e != []
    ensures NothingShows(cfg, open, c + (e + rest)) <==>
              ShowsNothing(cfg, open, c) && NothingShows(cfg, After(cfg, open, c, e, rest == []), rest)
  {
    hide RunLen, EolLen, LineLen, ShowsNothing, After;
    LineLenOf(c, e, rest);
    var s := c + (e + rest);
    assert s[..|c|] == c && s[|c|..|c| + |e|] == e && s[|c| + |e|..] == rest;
  }

  /** What is hidden shows less. */
  lemma {:induction false} HiddenShowsLess(cfg: Config, s: Text)
    requires NothingShows(cfg, false, s)
    ensures NothingShows(cfg, true, s)
    decreases |s|
  {
    hide NothingShows, LineOut, SkipAnsi, Survives;
    if s == [] {
      NothingInNothing(cfg, true);
    } else {
      var c, e, rest := FirstLine(s);
      ShowsLine(cfg, false, c, e, rest);
      ShowsLine(cfg, true, c, e, rest);
      if !After(cfg, false, c, e, rest == []) && After(cfg, true, c, e, rest == []) { HiddenShowsLess(cfg, rest); }
    }
  }

  lemma NothingInNothing(cfg: Config, open: bool)
    ensures NothingShows(cfg, open, []) && Quiet(cfg, open, [])
  {
    assert SkipAnsi([]) == [];
  }

  // ----- However a stream is cut -----

  /** Whatever was written before `y`: if nothing shows then, `x` is quiet then. */
  ghost predicate Answers(cfg: Config, y: Text, x: Text) {
    forall open :: NothingShows(cfg, open, y) ==> Quiet(cfg, open, x)
  }

  lemma ShowsHidden(cfg: Config, open: bool, s: Text)
    requires NothingShows(cfg, false, s)
    ensures NothingShows(cfg, open, s)
  {
    hide NothingShows;
    if open { HiddenShowsLess(cfg, s); }
  }

  lemma LineQuiet(cfg: Config, open: bool, c: Text, e: Text, rest: Text, x: Text)
    requires Line(c, e, rest) && e != [] && !(rest == [] && e == "\r")
    requires NothingShows(cfg, open, c + (e + rest)) && Answers(cfg, rest, x)
    ensures Quiet(cfg, open, Transform(cfg, c + e) + x)
  {
    hide NothingShows, Transform, Rewritable, Survives, SkipAnsi, Quiet, Finish, NoEol, RewriteLine;
    ShowsLine(cfg, open, c, e, rest);
    LineAlone(c, e, rest);
    var u, f := TransformShape(cfg, c, e);
    var o := u + f;
    if o == [] {
      assert o + x == x;
      if !StartsColons(SkipAnsi(c)) { ShowsHidden(cfg, open, rest); }
    } else {
      LineStarts(cfg, c, e, x);
      LastOf(u, f);
      if !StartsColons(SkipAnsi(c)) { ShowsHidden(cfg, f == [], rest); }
      QuietLine(cfg, open, u, f, x);
    }
  }

  lemma LastOf(u: Text, f: Text)
    requires NoEol(u) && (f == [] || IsLineEnd(f)) && u + f != []
    ensures Leaves(true, u + f) == Leaves(false, u + f) == (f == [])
  {
    var o := u + f;
    assert f != [] ==> o[|o| - 1] == f[|f| - 1];
    assert f == [] ==> o == u;
  }

  lemma {:induction false} FullQuiet(cfg: Config, open: bool, full: Text, y: Text, x: Text)
    requires Complete(full, y) && (EndsWithCR(full) ==> y != [])
    requires NothingShows(cfg, open, full + y) && Answers(cfg, y, x)
    ensures Quiet(cfg, open, Transform(cfg, full) + x)
    decreases |full|
  {
    hide NothingShows, Transform, Quiet, Complete, NoEol;
    if full == [] {
      NothingToRewrite(cfg);
      assert full + y == y && [] + x == x;
    } else {
      var c, e, rest := FirstLine(full);
      SplitFirst(c, e, rest, y);
      CompleteEnd(c, e, rest, y);
      TransformLine(cfg, c, e, rest);
      var x' := Transform(cfg, rest) + x;
      forall o | NothingShows(cfg, o, rest + y) ensures Quiet(cfg, o, x') { FullQuiet(cfg, o, rest, y, x); }
      LineQuiet(cfg, open, c, e, rest + y, x');
      Assoc(Transform(cfg, c + e), Transform(cfg, rest), x);
    }
  }

  /** In the middle of a line of the stream, the log is in the middle of a line, and that line is written to
      its end. */
  ghost predicate ShowsFrom(cfg: Config, atLineStart: bool, open: bool, t: Text) {
    if atLineStart then NothingShows(cfg, open, t) else open && NothingShows(cfg, false, t[LineLen(t)..])
  }

  ghost predicate AnswersFrom(cfg: Config, st: State, z: Text, x: Text) {
    forall open :: ShowsFrom(cfg, st.atLineStart, open, st.pending + z) ==> Quiet(cfg, open, x)
  }

  lemma WriteQuiet(cfg: Config, startsLine: bool, open: bool, full: Text, y: Text, x: Text)
    requires full != [] && Complete(full, y) && (EndsWithCR(full) ==> y != [])
    requires ShowsFrom(cfg, startsLine, open, full + y) && Answers(cfg, y, x)
    ensures Quiet(cfg, open, Write(cfg, startsLine, full) + x)
  {
    hide NothingShows, Transform, Quiet, NoEol, LineLen, Rewritable;
    if startsLine {
      WriteAtStart(cfg, full);
      FullQuiet(cfg, open, full, y, x);
    } else {
      var c, e, rest := FirstLine(full);
      SplitFirst(c, e, rest, y);
      CompleteEnd(c, e, rest, y);
      FirstLineCut(c, e, rest);
      FirstLineCut(c, e, rest + y);
      FullQuiet(cfg, false, rest, y, x);
      QuietLine(cfg, true, c, e, Transform(cfg, rest) + x);
      Assoc(c + e, Transform(cfg, rest), x);
    }
  }

  lemma LineShows(cfg: Config, open: bool, c: Text, e: Text, rest: Text)
    requires Line(c, e, rest) && c + e != [] && !StartsColons(SkipAnsi(c)) && NothingShows(cfg, open, c + (e + rest))
    ensures NothingShows(cfg, false, rest)
  {
    hide NothingShows, SkipAnsi, LineOut;
    ShowsLine(cfg, open, c, e, rest);
  }

  lemma EmptyLineShows(cfg: Config, open: bool, z: Text)
    requires StartsWithLF(z) && NothingShows(cfg, false, z[1..])
    ensures NothingShows(cfg, open, z)
  {
    hide NothingShows, LineOut;
    JoinCRLF([], z);
    ShowsLine(cfg, open, [], "\n", z[1..]);
    assert SkipAnsi([]) == [];
  }

  lemma PartialQuiet(cfg: Config, open: bool, l: Text, z: Text, x: Text)
    requires PartialLine(l) && NothingShows(cfg, open, l + z) && AnswersFrom(cfg, Feed(cfg, START, l).0, z, x)
    ensures Quiet(cfg, open, Feed(cfg, START, l).1 + x)
  {
    hide Feed, NothingShows, Transform, Quiet, HoldBack, NoEol, ShowsFrom;
    FeedPartial(cfg, l);
    assert "" + z == z;
    if HoldBack(cfg, l) {
      assert [] + x == x && ShowsFrom(cfg, true, open, l + z) by { AtStart(cfg, open, l + z); }
    } else if EndsWithCR(l) {
      var c := l[..|l| - 1];
      assert l == c + "\r";
      CRQuiet(cfg, open, c, z, x);
    } else {
      OpenLine(l);
      OpenQuiet(cfg, open, l, z, x);
    }
  }

  lemma AtStart(cfg: Config, open: bool, t: Text)
    ensures ShowsFrom(cfg, true, open, t) <==> NothingShows(cfg, open, t)
  {
  }

  lemma OpenQuiet(cfg: Config, open: bool, c: Text, z: Text, x: Text)
    requires c != [] && NoEol(c) && !HoldBack(cfg, c) && NothingShows(cfg, open, c + z)
    requires AnswersFrom(cfg, State("", false), z, x)
    ensures Quiet(cfg, open, Transform(cfg, c) + x)
  {
    hide NothingShows, Transform, Quiet, HoldBack, NoEol, LineLen, SkipAnsi, Rewritable;
    var d, e, rest := FirstLine(z);
    NoEolConcat(c, d);
    Assoc(c, d, e + rest);
    NoColons(cfg, c, d);
    LineShows(cfg, open, c + d, e, rest);
    FirstLineCut(d, e, rest);
    assert "" + z == z;
    assert ShowsFrom(cfg, false, true, z);
    UnheldStarts(cfg, c, x);
    OpenIsLine(c);
    var u, f := TransformShape(cfg, c, []);
    assert c + [] == c && u + f == u;
    QuietLine(cfg, open, u, [], x);
  }

  lemma OpenIsLine(c: Text)
    requires NoEol(c)
    ensures Line(c, [], [])
  {
  }

  lemma CRQuiet(cfg: Config, open: bool, c: Text, z: Text, x: Text)
    requires NoEol(c) && !HoldBack(cfg, c + "\r") && NothingShows(cfg, open, c + "\r" + z)
    requires AnswersFrom(cfg, START, z, x)
    ensures Quiet(cfg, open, Transform(cfg, c + "\r") + x)
  {
    hide NothingShows, Transform, Quiet, HoldBack, NoEol, SkipAnsi, Rewritable;
    NotColons(cfg, c);
    assert "" + z == z;
    var e := "\r";
    if StartsWithLF(z) {
      JoinCRLF(c, z);
      LineShows(cfg, open, c, "\r\n", z[1..]);
      EmptyLineShows(cfg, false, z);
    } else {
      Assoc(c, e, z);
      LineShows(cfg, open, c, e, z);
    }
    forall o ensures Quiet(cfg, o, x) {
      ShowsHidden(cfg, o, z);
      AtStart(cfg, o, z);
    }
    var u, f := TransformShape(cfg, c, e);
    NoSurvivor(cfg, c);
    LineStarts(cfg, c, e, x);
    if u + f == [] { assert u + f + x == x; } else { QuietLine(cfg, open, u, f, x); }
  }

  lemma NoSurvivor(cfg: Config, c: Text)
    requires !StartsColons(SkipAnsi(c))
    ensures !Survives(cfg, c)
  {
    hide SkipAnsi;
  }

  lemma MiddleQuiet(cfg: Config, l: Text, z: Text, x: Text)
    requires PartialLine(l) && ShowsFrom(cfg, false, true, l + z) && AnswersFrom(cfg, State("", EndsWithCR(l)), z, x)
    ensures Quiet(cfg, true, l + x)
  {
    hide NothingShows, Quiet, NoEol, LineLen, Rewritable;
    assert "" + z == z;
    if EndsWithCR(l) {
      var c := l[..|l| - 1];
      assert l == c + "\r";
      if StartsWithLF(z) {
        JoinCRLF(c, z);
        FirstLineCut(c, "\r\n", z[1..]);
        EmptyLineShows(cfg, false, z);
      } else {
        Assoc(c, "\r", z);
        FirstLineCut(c, "\r", z);
      }
      AtStart(cfg, false, z);
      QuietLine(cfg, true, c, "\r", x);
    } else {
      OpenLine(l);
      var d, e, rest := FirstLine(z);
      NoEolConcat(l, d);
      Assoc(l, d, e + rest);
      FirstLineCut(l + d, e, rest);
      FirstLineCut(d, e, rest);
      assert ShowsFrom(cfg, false, true, z);
      assert l + [] == l;
      QuietLine(cfg, true, l, [], x);
    }
  }

  lemma TextQuiet(cfg: Config, startsLine: bool, open: bool, text: Text, z: Text, x: Text)
    requires ShowsFrom(cfg, startsLine, open, text + z)
    requires AnswersFrom(cfg, Feed(cfg, State("", startsLine), text).0, z, x)
    ensures Quiet(cfg, open, Feed(cfg, State("", startsLine), text).1 + x)
  {
    hide Feed, NothingShows, Quiet, HoldBack, NoEol, LastLineStart, ShowsFrom, Write;
    LastLine(text);
    var k := LastLineStart(text);
    var full, last := text[..k], text[k..];
    assert full + last == text && "" + z == z;
    if text == [] {
      NothingStep(cfg, startsLine);
      assert text + z == z && [] + x == x;
    } else if text != "\r" && full != [] && last != [] {
      SplitQuiet(cfg, startsLine, open, full, last, z, x);
    } else if text != "\r" && last == [] {
      FeedComplete(cfg, startsLine, text);
      forall o | NothingShows(cfg, o, z) ensures Quiet(cfg, o, x) { AtStart(cfg, o, z); }
      WriteQuiet(cfg, startsLine, open, text, z, x);
    } else {
      assert text != "\r" ==> last == text;
      WholeIsPartial(text, last);
      if startsLine {
        AtStart(cfg, open, text + z);
        PartialQuiet(cfg, open, text, z, x);
      } else {
        FeedMiddle(cfg, text);
        InMiddle(cfg, open, text + z);
        MiddleQuiet(cfg, text, z, x);
      }
    }
  }

  lemma InMiddle(cfg: Config, open: bool, t: Text)
    requires ShowsFrom(cfg, false, open, t)
    ensures open
  {
  }

  lemma SplitQuiet(cfg: Config, startsLine: bool, open: bool, full: Text, last: Text, z: Text, x: Text)
    requires full != [] && Complete(full, last) && PartialLine(last)
    requires ShowsFrom(cfg, startsLine, open, full + last + z)
    requires AnswersFrom(cfg, Feed(cfg, State("", startsLine), full + last).0, z, x)
    ensures Quiet(cfg, open, Feed(cfg, State("", startsLine), full + last).1 + x)
  {
    hide Feed, NothingShows, Quiet, NoEol, ShowsFrom, Write, AnswersFrom;
    FeedSplit(cfg, startsLine, full, last);
    var out := Feed(cfg, START, last).1;
    forall o | NothingShows(cfg, o, last + z) ensures Quiet(cfg, o, out + x) { PartialQuiet(cfg, o, last, z, x); }
    Assoc(full, last, z);
    assert (last + z)[0] == last[0];
    WriteQuiet(cfg, startsLine, open, full, last + z, out + x);
    Assoc(Write(cfg, startsLine, full), out, x);
  }

  lemma FinishQuiet(cfg: Config, st: State, open: bool)
    requires ValidState(cfg, st) && ShowsFrom(cfg, st.atLineStart, open, st.pending + [])
    ensures Quiet(cfg, open, Finish(cfg, st))
  {
    hide NothingShows, Finish, Quiet, HoldBack, Rewritable, Survives, LineLen;
    NothingInNothing(cfg, open);
    NothingFinishes(cfg, st.atLineStart);
    var l := st.pending;
    assert l + [] == l;
    if l != [] {
      var n := if EndsWithCR(l) then |l| - 1 else |l|;
      var c, e := l[..n], l[n..];
      assert l == c + e == c + (e + []);
      assert EndsWithCR(l) ==> e == "\r";
      assert Line(c, e, []);
      ShowsLine(cfg, open, c, e, []);
      FinishStarts(cfg, c, e);
      var u, f := FinishShape(cfg, c, e);
      assert u + f + [] == u + f;
      if u + f != [] {
        NothingInNothing(cfg, f == []);
        QuietLine(cfg, open, u, f, []);
      }
    }
  }

  lemma FinishShape(cfg: Config, c: Text, e: Text) returns (u: Text, f: Text)
    requires Line(c, e, [])
    ensures Finish(cfg, State(c + e, true)) == u + f && NoEol(u) && (f == e || f == [])
  {
    hide Replace, SkipAnsi, NoEol;
    u, f := ReplaceShape(FileHeaders, c, e, true);
    if Finish(cfg, State(c + e, true)) == [] {
      NoEolInNothing();
      u, f := [], [];
    }
  }

  lemma {:induction false} TotalQuiet(cfg: Config, st: State, open: bool, chunks: seq<Text>)
    requires ValidState(cfg, st) && ShowsFrom(cfg, st.atLineStart, open, st.pending + Concat(chunks))
    ensures Quiet(cfg, open, Total(cfg, st, chunks))
    decreases |chunks|
  {
    hide Feed, Finish, Quiet, ValidState, ShowsFrom;
    if chunks == [] {
      FinishQuiet(cfg, st, open);
    } else {
      var z := Concat(chunks[1..]);
      FeedKeepsValid(cfg, st, chunks[0]);
      FeedIsText(cfg, st, chunks[0]);
      var (st', out) := Feed(cfg, st, chunks[0]);
      var x := Total(cfg, st', chunks[1..]);
      forall o | ShowsFrom(cfg, st'.atLineStart, o, st'.pending + z) ensures Quiet(cfg, o, x) {
        TotalQuiet(cfg, st', o, chunks[1..]);
      }
      Assoc(st.pending, chunks[0], z);
      TextQuiet(cfg, st.atLineStart, open, st.pending + chunks[0], z, x);
    }
  }

  // ----- Where something shows -----

  lemma TotalFirst(cfg: Config, full: Text, a: Text, more: seq<Text>)
    requires full != [] && Complete(full, a) && a != []
    ensures Total(cfg, START, [full + a] + more) == Transform(cfg, full) + Total(cfg, START, [a] + more)
  {
    hide Feed, Transform, Finish, Write;
    FeedSplit(cfg, true, full, a);
    WriteAtStart(cfg, full);
    assert ([full + a] + more)[1..] == more && ([a] + more)[1..] == more;
    var (st, out) := Feed(cfg, START, a);
    Assoc(Transform(cfg, full), out, Total(cfg, st, more));
  }

  /** The line is cut, and so keeps its line end. */
  lemma TotalCut(cfg: Config, c: Text, e: Text, n: nat, a: Text, more: seq<Text>)
    requires Line(c, e, a) && e != [] && a != [] && 0 < n < |c| && !HoldBack(cfg, c[..n])
    ensures Total(cfg, START, [c[..n], c[n..] + e + a] + more)
            == Transform(cfg, c[..n]) + (c[n..] + e) + Total(cfg, START, [a] + more)
  {
    hide Feed, Transform, Finish, Write, HoldBack, NoEol;
    var c1, c2 := c[..n], c[n..];
    OpenIsPartial(c, n);
    FeedPartial(cfg, c1);
    LineCut(c, e, a, n);
    LineAlone(c2, e, a);
    LineIsComplete(c2, e, a);
    FeedSplit(cfg, false, c2 + e, a);
    RestIsWritten(cfg, c2, e);
    var chunks := [c1, c2 + e + a] + more;
    assert chunks[1..] == [c2 + e + a] + more && chunks[1..][1..] == more && ([a] + more)[1..] == more;
    var (st, out) := Feed(cfg, START, a);
    assert Total(cfg, State("", false), chunks[1..]) == (c2 + e) + out + Total(cfg, st, more);
    Assoc(c2 + e, out, Total(cfg, st, more));
    Assoc(Transform(cfg, c1), c2 + e, Total(cfg, START, [a] + more));
  }

  /** If something can show, there is a way to cut the stream so that it does. */
  lemma {:induction false} SomethingShows(cfg: Config, open: bool, s: Text) returns (a: Text, more: seq<Text>)
    requires !NothingShows(cfg, open, s)
    ensures a != [] && a + Concat(more) == s && !Quiet(cfg, open, Total(cfg, START, [a] + more))
    decreases |s|
  {
    hide NothingShows, Quiet, Total, Transform, NoEol, Survives, After;
    NothingInNothing(cfg, open);
    var c, e, rest := FirstLine(s);
    ShowsLine(cfg, open, c, e, rest);
    Assoc(c, e, rest);
    if !ShowsNothing(cfg, open, c) {
      a, more := s, [];
      assert s + [] == s && [s] + [] == [s] && Concat([]) == [];
      SurvivorShows(cfg, c, e, rest);
    } else {
      NothingInNothing(cfg, After(cfg, open, c, e, rest == []));
      var a', more' := SomethingShows(cfg, After(cfg, open, c, e, rest == []), rest);
      assert rest[0] == a'[0];
      a, more := LaterShows(cfg, open, c, e, a', more');
    }
  }

  lemma LaterShows(cfg: Config, open: bool, c: Text, e: Text, a: Text, more: seq<Text>) returns (b: Text, more': seq<Text>)
    requires a != [] && Line(c, e, a + Concat(more))
    requires !Quiet(cfg, After(cfg, open, c, e, false), Total(cfg, START, [a] + more))
    ensures b != [] && b + Concat(more') == c + e + (a + Concat(more)) && !Quiet(cfg, open, Total(cfg, START, [b] + more'))
  {
    hide Quiet, Total, Transform, NoEol, SkipAnsi, Rewritable, RewriteLine, Finish;
    assert (a + Concat(more))[0] == a[0];
    LineAlone(c, e, a + Concat(more));
    LineIsComplete(c, e, a);
    var x := Total(cfg, START, [a] + more);
    var u, f := TransformShape(cfg, c, e);
    b, more' := c + e + a, more;
    Assoc(c + e, a, Concat(more));
    TotalFirst(cfg, c + e, a, more);
    if u + f == [] && StartsColons(SkipAnsi(c)) {
      assert u + f + x == x;
    } else if u + f != [] && (f == [] <==> After(cfg, open, c, e, false)) {
      QuietLine(cfg, open, u, f, x);
    } else {
      if u + f != [] { LastOf(u, f); }
      EolIsDropped(cfg, c, e, u, f);
      var n := CutLineAt(cfg, c, e);
      b, more' := c[..n], [c[n..] + e + a] + more;
      CutPieces(c, e, a, more, n);
      TotalCut(cfg, c, e, n, a, more);
      assert [b] + more' == [c[..n], c[n..] + e + a] + more;
      EndsInEol(Transform(cfg, c[..n]), c[n..], e);
      EolExposes(cfg, open, Transform(cfg, c[..n]) + (c[n..] + e), x);
    }
  }

  lemma EndsInEol(t: Text, d: Text, e: Text)
    requires IsLineEnd(e)
    ensures var o := t + (d + e); o != [] && IsEol(o[|o| - 1])
  {
    var o := t + (d + e);
    assert o[|o| - 1] == e[|e| - 1];
  }

  lemma CutPieces(c: Text, e: Text, a: Text, more: seq<Text>, n: nat)
    requires n <= |c|
    ensures c[..n] + Concat([c[n..] + e + a] + more) == c + e + (a + Concat(more))
  {
    assert ([c[n..] + e + a] + more)[1..] == more;
    assert c[..n] + c[n..] == c;
  }

  /** A line that loses its line end, and does not start with a command, has a command after a separator. */
  lemma EolIsDropped(cfg: Config, c: Text, e: Text, u: Text, f: Text)
    requires Line(c, e, []) && e != [] && !StartsColons(SkipAnsi(c))
    requires Transform(cfg, c + e) == u + f && NoEol(u) && f == []
    ensures InnerHeader(c) || InnerRewrite(cfg, c, e)
  {
    hide Transform, SkipAnsi, NoEol, InnerHeader, InnerRewrite;
    assert u + f == u;
    LastIsNoEol(u);
    if !InnerHeader(c) && !InnerRewrite(cfg, c, e) {
      RewritesSafely(cfg, c, e);
      KeepsEol(cfg, c, e);
    }
  }

  lemma KeepsEol(cfg: Config, c: Text, e: Text)
    requires IsLineEnd(e) && !StartsColons(SkipAnsi(c))
    ensures var o := RewriteLine(cfg, c, e); o != [] && IsEol(o[|o| - 1])
  {
    hide SkipAnsi;
    var o := RewriteLine(cfg, c, e);
    assert o[|o| - 1] == e[|e| - 1];
  }

  lemma LastIsNoEol(u: Text)
    requires NoEol(u)
    ensures u != [] ==> !IsEol(u[|u| - 1])
  {
  }

  lemma SurvivorShows(cfg: Config, c: Text, e: Text, rest: Text)
    requires Line(c, e, rest) && Survives(cfg, c)
    ensures !Quiet(cfg, false, Total(cfg, START, [c + e + rest]))
  {
    hide Total, Transform, NoEol, Rewritable, Finish;
    SurvivorIsHeld(cfg, c, e);
    var o, x := SurvivorIsWritten(cfg, c, e, rest);
    var t := Total(cfg, START, [c + e + rest]);
    assert t[0..] == t;
    assert LogLine(t, 0, false);
  }

  lemma SurvivorIsHeld(cfg: Config, c: Text, e: Text)
    requires Survives(cfg, c)
    ensures c != [] && StartsColons(SkipAnsi(c)) && HoldBack(cfg, c + e)
  {
    hide HoldBack;
    assert SkipAnsi([]) == [];
    ColonsGrow(c, e);
    assert c + e + [] == c + e;
    CommandPrefixIsHeld(cfg, c + e, []);
  }

  lemma SurvivorIsWritten(cfg: Config, c: Text, e: Text, rest: Text) returns (o: Text, x: Text)
    requires Line(c, e, rest) && Survives(cfg, c) && c != [] && HoldBack(cfg, c + e)
    ensures Total(cfg, START, [c + e + rest]) == o + x && Rewritable(cfg, o + x)
  {
    hide Total, Transform, NoEol, Rewritable, Finish, HoldBack, Feed, Write, Survives;
    LineAlone(c, e, rest);
    if rest != [] {
      LineIsComplete(c, e, rest);
      TotalWhole(cfg, c + e, rest);
      o, x := Transform(cfg, c + e), Total(cfg, START, [rest]);
      LineStarts(cfg, c, e, x);
      SurvivorStays(cfg, c, e);
    } else if e != [] && e != "\r" {
      assert c + e + [] == c + e;
      EndsInLF(c, e);
      FeedComplete(cfg, true, c + e);
      WriteAtStart(cfg, c + e);
      TotalOne(cfg, c + e);
      NothingFinishes(cfg, true);
      o, x := Transform(cfg, c + e), [];
      LineStarts(cfg, c, e, x);
      SurvivorStays(cfg, c, e);
    } else {
      assert c + e + [] == c + e;
      HalfIsPartial(c, e);
      FeedPartial(cfg, c + e);
      TotalOne(cfg, c + e);
      o, x := Finish(cfg, State(c + e, true)), [];
      FinishStarts(cfg, c, e);
      SurvivorFinishes(cfg, c, e);
      assert o + x == o && [] + o == o;
    }
  }

  lemma SurvivorStays(cfg: Config, c: Text, e: Text)
    requires Line(c, e, []) && e != [] && Survives(cfg, c)
    ensures Transform(cfg, c + e) != []
  {
    hide Transform, SkipAnsi;
    var a, b := FirstPart(c);
    PrefixIsOneLine(a, b);
    StartIs(cfg, a, b);
    assert b == [] ==> c == a;
    assert b + e != [] && (b + e)[0] == b[0];
    Assoc(a, b, e);
    var _ := TransformStart(cfg, a, b + e);
  }

  lemma SurvivorFinishes(cfg: Config, c: Text, e: Text)
    requires Line(c, e, []) && Survives(cfg, c)
    ensures Finish(cfg, State(c + e, true)) != []
  {
    hide Replace, SkipAnsi, DropLastCommand;
    var a, b := FirstPart(c);
    PrefixIsOneLine(a, b);
    StartIs(cfg, a, b);
    assert b == [] ==> c == a;
    var w := b + e;
    assert w != [] && w[0] == b[0];
    Assoc(a, b, e);
    NoHeaderMatch(cfg, a, w);
    var w' := KeepsStart(FileHeaders, a, w);
    NotDropped(cfg, a, w');
  }

  // ----- The law -----

  /** However a stream is cut, no line of the log starts what is rewritten. */
  ghost predicate AlwaysClean(cfg: Config, s: Text) {
    forall chunks :: Concat(chunks) == s ==> Clean(cfg, Total(cfg, START, chunks))
  }

  /** The exact law: however a stream is cut, no line of the log starts a file header or a command, and none of
      a Buildkite log starts a group, if and only if no line of the stream shows that starts with a
      command and has a separator. */
  lemma AlwaysCleanIff(cfg: Config, s: Text)
    ensures AlwaysClean(cfg, s) <==> NothingShows(cfg, false, s)
  {
    hide Clean, NothingShows, Total, Quiet;
    if NothingShows(cfg, false, s) {
      forall chunks | Concat(chunks) == s ensures Clean(cfg, Total(cfg, START, chunks)) {
        assert "" + Concat(chunks) == Concat(chunks);
        AtStart(cfg, false, s);
        TotalQuiet(cfg, START, false, chunks);
        CleanIsQuiet(cfg, Total(cfg, START, chunks));
      }
    } else {
      var a, more := SomethingShows(cfg, false, s);
      var chunks := [a] + more;
      assert chunks[1..] == more;
      assert Concat(chunks) == s;
      CleanIsQuiet(cfg, Total(cfg, START, chunks));
    }
  }

  /** Every line of the stream vanishes, is rewritten or starts with no command. */
  predicate NoLineSurvives(cfg: Config, s: Text)
    decreases |s|
  {
    s == [] || (!Survives(cfg, s[..RunLen(s)]) && NoLineSurvives(cfg, s[LineLen(s)..]))
  }

  lemma {:induction false} WithoutSurvivors(cfg: Config, open: bool, s: Text)
    requires NoLineSurvives(cfg, s)
    ensures NothingShows(cfg, open, s)
    decreases |s|
  {
    hide Survives, After, RunLen;
    if s != [] {
      var n, m := RunLen(s), LineLen(s);
      WithoutSurvivors(cfg, After(cfg, open, s[..n], s[n..m], m == |s|), s[m..]);
    }
  }

  lemma {:induction false} PlainSurvivesNot(cfg: Config, s: Text)
    requires Plain(s)
    ensures NoLineSurvives(cfg, s)
    decreases |s|
  {
    hide RunLen;
    if s != [] { PlainSurvivesNot(cfg, s[LineLen(s)..]); }
  }

  /** Whatever the cuts: the log is clean if nothing shows; and without separators it would also pass through
      a second filter unchanged. */
  lemma FilteredLogIsClean(cfg: Config, chunks: seq<Text>, again: seq<Text>)
    requires Concat(again) == Total(cfg, START, chunks)
    ensures NothingShows(cfg, false, Concat(chunks)) ==> Clean(cfg, Total(cfg, START, chunks))
    ensures Plain(Concat(chunks)) ==>
              NothingShows(cfg, false, Concat(chunks)) && Total(cfg, START, again) == Total(cfg, START, chunks)
  {
    hide NothingShows, Total, RewriteAll, Clean, Alike, Filtered;
    AlwaysCleanIff(cfg, Concat(chunks));
    if Plain(Concat(chunks)) {
      PlainSurvivesNot(cfg, Concat(chunks));
      WithoutSurvivors(cfg, false, Concat(chunks));
      ChunkingDoesNotMatter(cfg, chunks);
      RewriteAllIsPlain(cfg, Concat(chunks));
      ChunkingDoesNotMatter(cfg, again);
      CleanIsKept(cfg, Concat(again));
    }
  }

  /** Outside GitHub, a command that a separator cuts off stays in the log. */
  lemma SurvivorStaysInLog(cfg: Config, s: Text)
    requires !cfg.github && s == [':', ':', 'x', LS, 'y', '\n']
    ensures !AlwaysClean(cfg, s)
  {
    hide AlwaysClean, NothingShows, SkipAnsi, After;
    var c, e := s[..5], s[5..];
    assert c + (e + []) == s && c[3] == LS;
    NoEscape(c);
    ShowsLine(cfg, false, c, e, []);
    AlwaysCleanIff(cfg, s);
  }
}
