/** The filter as a whole: chunking does not matter, and nothing that had to be rewritten is left. */
module LiveFilter {
  import opened Wrappers
  import opened LogText
  import opened LineRewrite
  import opened LiveOutput

  // ----- The end of the stream -----

  /** A whole marker is never held back, so the end of the stream has none to defuse. */
  lemma MarkerIsNotHeld(cfg: Config, l: Text)
    requires IsGroupMarker(l)
    ensures !HoldBack(cfg, l)
  {
    assert StripAnsi(l) == [l[0]] + StripAnsi(l[1..]);
    assert StripAnsi(l[1..]) == [l[1]] + StripAnsi(l[1..][1..]);
    assert l[1..][1..] == l[2..];
    assert StripAnsi(l[2..]) == [l[2]] + StripAnsi(l[2..][1..]);
    assert l[2..][1..] == l[3..];
    assert StripAnsi(l[3..]) == [l[3]] + StripAnsi(l[3..][1..]);
  }

  /** At the end of the stream, a line that is no command is what it is. */
  lemma FinishOther(cfg: Config, c: Text, e: Text)
    requires Line(c, e, []) && !StartsColons(SkipAnsi(c)) && !InnerHeader(c) && HoldBack(cfg, c + e)
    ensures Finish(cfg, State(c + e, true)) == RewriteLine(cfg, c, e) == c + e
  {
    hide Replace, SkipAnsi, NoHits, HoldBack, DotLen;
    HitsOfLine(FileHeaders, c, e);
    ReplaceShrinks(FileHeaders, c + e, true);
    assert e + [] == e;
    EolLenOf(c, e, []);
    SkipAnsiStops(c, e);
    FixedTextStops(cfg.github, SkipAnsi(c), e);
    FixedTextStops(cfg.github, c, e);
    if IsGroupMarker(c) { MarkerIsNotHeld(cfg, c + e); }
  }

  /** Without separators, the last line of a stream is rewritten like any other. */
  lemma FinishPlain(cfg: Config, c: Text, e: Text)
    requires Line(c, e, []) && Plain(c) && (e == [] || e == "\r") && StartsColons(SkipAnsi(c))
    ensures Finish(cfg, State(c + e, true)) == RewriteLine(cfg, c, e)
  {
    hide Replace, SkipAnsi, NoHits;
    assert forall p :: !AfterSeparator(c, p);
    EolLenOf(c, e, []);
    assert e + [] == e;
    if IsFileHeader(SkipAnsi(c)) {
      FinishHeader(cfg, c, e);
    } else {
      HitsOfLine(FileHeaders, c, e);
      ReplaceShrinks(FileHeaders, c + e, true);
      DropLastCommandOf(cfg.github, c, e);
      NoMarker(c);
    }
  }

  lemma NoMarker(c: Text)
    requires StartsColons(SkipAnsi(c))
    ensures !IsGroupMarker(c)
  {
  }

  lemma FinishHeader(cfg: Config, c: Text, e: Text)
    requires Line(c, e, []) && Plain(c) && IsFileHeader(SkipAnsi(c))
    ensures Finish(cfg, State(c + e, true)) == "test: " + SkipAnsi(c)[9..] + e
  {
    hide Replace, SkipAnsi;
    var t := "test: " + SkipAnsi(c)[9..];
    ReplaceWhole(FileHeaders, c, e, t + e);
    TitleIsOneLine(SkipAnsi(c)[9..] + e);
    assert t + e == "test: " + (SkipAnsi(c)[9..] + e);
  }

  lemma DropLastCommandOf(github: bool, c: Text, e: Text)
    requires Line(c, e, []) && Plain(c) && (e == [] || e == "\r")
    ensures DropLastCommand(github, c + e) == if IsCommand(github, SkipAnsi(c)) then "" else c + e
  {
    hide SkipAnsi, DotLen, IsCommand;
    assert e + [] == e;
    EolLenOf(c, e, []);
    SkipAnsiStops(c, e);
    SkipAnsiKeeps(c);
    FixedTextStops(github, SkipAnsi(c), e);
    DotLenStops(SkipAnsi(c), e);
    assert (SkipAnsi(c) + e)[|SkipAnsi(c)|..] == e;
  }

  lemma FinishLine(cfg: Config, c: Text, e: Text)
    requires Line(c, e, []) && (e == [] || e == "\r") && c + e != []
    requires HoldBack(cfg, c + e) && LineAlike(cfg, c, e, true)
    ensures Finish(cfg, State(c + e, true)) == Filtered(cfg, c + e)
  {
    hide Finish, Filtered, HoldBack, SkipAnsi, InnerHeader, InnerRewrite, RewriteLine;
    assert e + [] == e;
    FilteredLine(cfg, c, e, []);
    NothingFiltered(cfg);
    if !StartsColons(SkipAnsi(c)) { FinishOther(cfg, c, e); }
  }

  lemma NothingFiltered(cfg: Config)
    ensures Filtered(cfg, []) == [] && Alike(cfg, []) && Finish(cfg, State([], true)) == []
  {
  }

  lemma FinishIsOwed(cfg: Config, st: State)
    requires ValidState(cfg, st) && AlikeAfter(cfg, st, [])
    ensures Finish(cfg, st) == Owed(cfg, st, [])
  {
    NothingFiltered(cfg);
    hide Filtered, Alike, HoldBack;
    var l := st.pending;
    assert l + [] == l;
    if l != [] {
      var n := if EndsWithCR(l) then |l| - 1 else |l|;
      var c, e := l[..n], l[n..];
      assert l == c + e == c + (e + []);
      assert EndsWithCR(l) ==> e == "\r";
      FilteredLine(cfg, c, e, []);
      FinishLine(cfg, c, e);
    }
  }

  // ----- Chunking does not matter -----

  /** From any state: what is written for the rest of the stream depends on the rest of the stream
      alone, not on how it is cut. */
  lemma {:induction false} TotalIsOwed(cfg: Config, st: State, chunks: seq<Text>)
    requires ValidState(cfg, st) && AlikeAfter(cfg, st, Concat(chunks))
    ensures Total(cfg, st, chunks) == Owed(cfg, st, Concat(chunks))
    decreases |chunks|
  {
    hide Feed, Finish, Owed, AlikeAfter, ValidState;
    if chunks == [] {
      FinishIsOwed(cfg, st);
    } else {
      var z := Concat(chunks[1..]);
      FeedStep(cfg, st, chunks[0], z);
      TotalIsOwed(cfg, Feed(cfg, st, chunks[0]).0, chunks[1..]);
      Assoc(Feed(cfg, st, chunks[0]).1, Owed(cfg, Feed(cfg, st, chunks[0]).0, z), []);
    }
  }

  /** However the stream is cut, each of its lines is filtered on its own. */
  lemma TotalIsFiltered(cfg: Config, chunks: seq<Text>)
    requires Alike(cfg, Concat(chunks))
    ensures Total(cfg, START, chunks) == Filtered(cfg, Concat(chunks))
  {
    hide Total, Filtered, Alike;
    assert "" + Concat(chunks) == Concat(chunks);
    TotalIsOwed(cfg, START, chunks);
  }

  /** A stream without separators may be cut anywhere, and is rewritten line by line. */
  lemma {:induction false} PlainIsRewritten(cfg: Config, s: Text)
    requires Plain(s)
    ensures Alike(cfg, s) && Filtered(cfg, s) == RewriteAll(cfg, s)
    decreases |s|
  {
    hide Filtered, Alike, RewriteAll, LineAlike, LineOut, RewriteLine;
    NothingFiltered(cfg);
    NothingToRewrite(cfg);
    if s != [] {
      var c, e, rest := FirstLine(s);
      PlainPieces(c, e, rest);
      PlainIsRewritten(cfg, rest);
      PlainLine(cfg, c, e, rest);
      FilteredLine(cfg, c, e, rest);
      RewriteAllLine(cfg, c, e, rest);
    }
  }

  lemma PlainLine(cfg: Config, c: Text, e: Text, rest: Text)
    requires Line(c, e, rest) && Plain(c)
    ensures LineAlike(cfg, c, e, rest == []) && LineOut(cfg, c, e, rest == []) == RewriteLine(cfg, c, e)
  {
    hide Transform, Finish, RewriteLine, SkipAnsi, HoldBack;
    assert forall p :: !AfterSeparator(c, p);
    LineAlone(c, e, rest);
    if StartsColons(SkipAnsi(c)) {
      if rest == [] && (e == [] || e == "\r") {
        FinishPlain(cfg, c, e);
      } else {
        RewritesPlainLine(cfg, c, e);
      }
    }
  }

  /** However a stream is cut: if nothing that matters comes after a separator, each of its lines is filtered
      on its own; and if there are no separators, it is written rewritten line by line. */
  lemma ChunkingDoesNotMatter(cfg: Config, chunks: seq<Text>)
    ensures Alike(cfg, Concat(chunks)) ==> Total(cfg, START, chunks) == Filtered(cfg, Concat(chunks))
    ensures Plain(Concat(chunks)) ==>
              Alike(cfg, Concat(chunks)) && Total(cfg, START, chunks) == RewriteAll(cfg, Concat(chunks))
  {
    hide Total, RewriteAll, Filtered, Alike;
    if Plain(Concat(chunks)) { PlainIsRewritten(cfg, Concat(chunks)); }
    if Alike(cfg, Concat(chunks)) { TotalIsFiltered(cfg, chunks); }
  }

  // ----- Nothing is left to rewrite -----

  /** A line start, as `^` sees it. */
  predicate LineStart(o: Text, p: int) { 0 <= p <= |o| && (p == 0 || IsEol(o[p - 1])) }

  /** A line that starts like this is rewritten. */
  predicate Rewritable(cfg: Config, s: Text) {
    || IsFileHeader(SkipAnsi(s))
    || IsCommand(cfg.github, SkipAnsi(s))
    || (cfg.buildkite && IsGroupMarker(s))
  }

  ghost predicate Clean(cfg: Config, o: Text) {
    forall p :: LineStart(o, p) ==> !Rewritable(cfg, o[p..])
  }

  lemma RewritableStops(cfg: Config, c: Text, w: Text)
    requires w == [] || IsLineTerminator(w[0])
    ensures Rewritable(cfg, c + w) <==> Rewritable(cfg, c)
  {
    SkipAnsiStops(c, w);
    FixedTextStops(cfg.github, SkipAnsi(c), w);
    FixedTextStops(cfg.github, c, w);
  }

  /** A line that is clean, in front of a text that is clean. */
  lemma CleanLine(cfg: Config, c: Text, e: Text, o: Text)
    requires NoEol(c) && !Rewritable(cfg, c) && Clean(cfg, o)
    requires IsLineEnd(e) || (e == [] && o == [])
    ensures Clean(cfg, c + (e + o))
  {
    var s := c + (e + o);
    assert StopsLine(e + o) by { assert e != [] ==> (e + o)[0] == e[0]; }
    forall p | LineStart(s, p) ensures !Rewritable(cfg, s[p..]) {
      if p == 0 {
        assert s[0..] == c + (e + o);
        RewritableStops(cfg, c, e + o);
      } else if p >= |c| + |e| {
        assert s[p..] == o[p - |c| - |e|..];
        assert p > |c| + |e| ==> s[p - 1] == o[p - |c| - |e| - 1];
        assert LineStart(o, p - |c| - |e|);
      } else {
        assert forall i :: 0 <= i < |c| ==> s[i] == c[i];
        assert s[p] == e[p - |c|];
        assert s[p..][0] == s[p];
        assert SkipAnsi(s[p..]) == s[p..];
      }
    }
  }

  lemma OrdinaryStart(cfg: Config, c: Text)
    requires c != [] && (c[0] == 't' || c[0] == ' ')
    ensures !Rewritable(cfg, c)
  {
    assert SkipAnsi(c) == c;
  }

  lemma NoEolAround(a: Text, b: Text, k: nat)
    requires NoEol(a) && NoEol(b) && k <= |b|
    ensures NoEol(a + b[k..])
  {
    assert forall i :: 0 <= i < |a + b[k..]| ==> (a + b[k..])[i] == if i < |a| then a[i] else b[k + i - |a|];
  }

  /** What a line is rewritten to is nothing, or a line that is clean. */
  lemma RewriteLineIsClean(cfg: Config, c: Text, e: Text) returns (c': Text)
    requires NoEol(c)
    ensures RewriteLine(cfg, c, e) == [] || RewriteLine(cfg, c, e) == c' + e
    ensures NoEol(c') && !Rewritable(cfg, c')
  {
    var t := SkipAnsi(c);
    SkipAnsiKeeps(c);
    if IsFileHeader(t) {
      c' := "test: " + t[9..];
      NoEolAround("test: ", t, 9);
      OrdinaryStart(cfg, c');
    } else if IsCommand(cfg.github, t) {
      c' := [];
    } else if cfg.buildkite && IsGroupMarker(c) {
      c' := " " + c[4..];
      NoEolAround(" ", c, 4);
      OrdinaryStart(cfg, c');
    } else {
      c' := c;
    }
  }

  lemma {:induction false} RewriteAllIsClean(cfg: Config, s: Text)
    ensures Clean(cfg, RewriteAll(cfg, s))
    decreases |s|
  {
    if s != [] {
      var c, e, rest := FirstLine(s);
      var o := RewriteAll(cfg, rest);
      RewriteAllIsClean(cfg, rest);
      RewriteAllLine(cfg, c, e, rest);
      var c' := RewriteLineIsClean(cfg, c, e);
      if RewriteLine(cfg, c, e) == [] {
        assert [] + o == o;
      } else {
        CleanLine(cfg, c', e, o);
        Assoc(c', e, o);
      }
    }
  }

  lemma {:induction false} CleanIsKept(cfg: Config, o: Text)
    requires Clean(cfg, o)
    ensures RewriteAll(cfg, o) == o
    decreases |o|
  {
    if o != [] {
      var c, e, rest := FirstLine(o);
      RewriteAllLine(cfg, c, e, rest);
      EolLenOf(c, e, rest);
      assert o[0..] == o && LineStart(o, 0);
      RewritableStops(cfg, c, e + rest);
      CleanTail(cfg, c, e, rest);
      CleanIsKept(cfg, rest);
      Assoc(c, e, rest);
    }
  }

  lemma CleanTail(cfg: Config, c: Text, e: Text, rest: Text)
    requires Line(c, e, rest) && Clean(cfg, c + (e + rest)) && c + e != []
    ensures Clean(cfg, rest)
  {
    var o, n := c + (e + rest), |c| + |e|;
    forall p | LineStart(rest, p) ensures !Rewritable(cfg, rest[p..]) {
      if e != [] {
        assert o[n + p..] == rest[p..];
        assert o[n + p - 1] == if p == 0 then e[|e| - 1] else rest[p - 1];
        assert LineStart(o, n + p);
      } else {
        assert rest[p..] == [] && SkipAnsi([]) == [];
      }
    }
  }

  /** A text is left alone exactly when no line of it needs rewriting. */
  lemma KeptIffClean(cfg: Config, o: Text)
    ensures RewriteAll(cfg, o) == o <==> Clean(cfg, o)
  {
    RewriteAllIsClean(cfg, o);
    if Clean(cfg, o) { CleanIsKept(cfg, o); }
  }

  lemma {:induction false} RewriteAllIsPlain(cfg: Config, s: Text)
    requires Plain(s)
    ensures Plain(RewriteAll(cfg, s))
    decreases |s|
  {
    if s != [] {
      var c, e, rest := FirstLine(s);
      RewriteAllLine(cfg, c, e, rest);
      PlainPieces(c, e, rest);
      RewriteAllIsPlain(cfg, rest);
      RewriteLineIsPlain(cfg, c, e);
    }
  }

  lemma PlainPieces(c: Text, e: Text, rest: Text)
    requires Plain(c + (e + rest))
    ensures Plain(c) && Plain(e) && Plain(rest)
  {
    var s := c + (e + rest);
    assert s[..|c|] == c && s[|c|..|c| + |e|] == e && s[|c| + |e|..] == rest;
  }

  lemma RewriteLineIsPlain(cfg: Config, c: Text, e: Text)
    requires Plain(c) && Plain(e)
    ensures Plain(RewriteLine(cfg, c, e))
  {
    hide SkipAnsi;
    SkipAnsiKeeps(c);
    var t := SkipAnsi(c);
    if IsFileHeader(t) {
      assert Plain("test: ") && Plain(t[9..]);
    } else if cfg.buildkite && IsGroupMarker(c) {
      assert Plain(" ") && Plain(c[4..]);
    }
  }

  // ----- The closure -----

  /** What `createLiveOutputFilter` returns. The ghost fields are the stream so far and the log so far. */
  class LiveOutputFilter {
    const cfg: Config
    var pending: Text
    var atLineStart: bool
    ghost var seen: Text
    ghost var written: Text

    ghost function Memory(): State
      reads this
    {
      State(pending, atLineStart)
    }

    /** The log so far, and what is still owed for any continuation, make up the reference. */
    ghost predicate Valid()
      reads this
    {
      && ValidState(cfg, Memory())
      && forall z :: Alike(cfg, seen + z) ==>
           AlikeAfter(cfg, Memory(), z) && Filtered(cfg, seen + z) == written + Owed(cfg, Memory(), z)
    }

    constructor (github: bool, buildkite: bool)
      ensures Valid() && seen == [] && written == [] && Memory() == START
      ensures cfg == Config(github, buildkite)
    {
      cfg := Config(github, buildkite);
      pending, atLineStart := "", true;
      seen, written := [], [];
      new;
      hide Filtered, Alike;
      StartIsValid(cfg);
    }

    method Filter(chunk: Text) returns (out: Text)
      requires Valid()
      modifies this
      ensures Valid()
      ensures seen == old(seen) + chunk && written == old(written) + out
      ensures (Memory(), out) == Feed(cfg, old(Memory()), chunk)
    {
      hide Filtered, Alike, AlikeAfter, Owed, ValidState, Replace, HoldBack, LastLineStart, LineLen;
      ghost var before := Memory();
      var text := pending + chunk;
      var startsLine := atLineStart;
      var endsWithCR := EndsWithCR(text);
      var lastLineStart := LastLineStart(text);
      var lastLine := text[lastLineStart..];
      if lastLine != [] && (lastLineStart > 0 || startsLine) && HoldBack(cfg, lastLine) {
        pending := lastLine;
        text := text[..lastLineStart];
        atLineStart := true;
      } else {
        pending := "";
        if text != [] { atLineStart := endsWithCR || lastLineStart == |text|; }
      }
      var head := "";
      if !startsLine {
        var split := LineLen(text);
        head := text[..split];
        text := text[split..];
      }
      text := Replace(Commands(cfg.github), Replace(FileHeaders, text, true), true);
      if cfg.buildkite { text := Replace(GroupMarkers, text, true); }
      out := head + text;
      seen, written := seen + chunk, written + out;
      StepKeepsValid(before, chunk, old(seen), old(written));
    }

    /** One step of the simulation, for every continuation. */
    lemma {:induction false} StepKeepsValid(before: State, chunk: Text, s: Text, w: Text)
      requires ValidState(cfg, before)
      requires forall z :: Alike(cfg, s + z) ==>
                 AlikeAfter(cfg, before, z) && Filtered(cfg, s + z) == w + Owed(cfg, before, z)
      ensures var (after, out) := Feed(cfg, before, chunk);
              && ValidState(cfg, after)
              && forall z :: Alike(cfg, s + chunk + z) ==>
                   AlikeAfter(cfg, after, z) && Filtered(cfg, s + chunk + z) == w + out + Owed(cfg, after, z)
    {
      hide Feed, Filtered, Alike, AlikeAfter, Owed, ValidState;
      FeedKeepsValid(cfg, before, chunk);
      var (after, out) := Feed(cfg, before, chunk);
      forall z | Alike(cfg, s + chunk + z)
        ensures AlikeAfter(cfg, after, z) && Filtered(cfg, s + chunk + z) == w + out + Owed(cfg, after, z)
      {
        Assoc(s, chunk, z);
        FeedStep(cfg, before, chunk, z);
        Assoc(w, out, Owed(cfg, after, z));
      }
    }

    /** Ends the stream: the log is now complete, and the filter is ready for another stream. */
    method End() returns (out: Text)
      requires Valid()
      modifies this
      ensures Valid() && Memory() == START && seen == [] && written == []
      ensures out == Finish(cfg, old(Memory()))
      ensures Alike(cfg, old(seen)) ==> old(written) + out == Filtered(cfg, old(seen))
      ensures Plain(old(seen)) ==> old(written) + out == RewriteAll(cfg, old(seen))
    {
      hide Filtered, Alike, RewriteAll, Owed, AlikeAfter, ValidState, Replace, DropLastCommand;
      out := DropLastCommand(cfg.github, Replace(FileHeaders, pending, true));
      assert seen + [] == seen;
      if Alike(cfg, seen) { FinishIsOwed(cfg, Memory()); }
      if Plain(seen) { PlainIsRewritten(cfg, seen); }
      pending, atLineStart := "", true;
      seen, written := [], [];
      StartIsValid(cfg);
    }
  }

  lemma StartIsValid(cfg: Config)
    ensures ValidState(cfg, START)
    ensures forall z: Text :: [] + z == z && Owed(cfg, START, z) == [] + Filtered(cfg, z)
    ensures forall z: Text :: AlikeAfter(cfg, START, z) <==> Alike(cfg, [] + z)
  {
    hide Filtered, Alike;
    assert forall z: Text :: [] + z == z;
  }
}
