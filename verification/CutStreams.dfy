/** Streams with U+2028 and U+2029, after which `^` matches although the filter does not treat them as
    line ends: exactly which of them are filtered the same however they are cut. */
module CutStreams {
  import opened Wrappers
  import opened LogText
  import opened LineRewrite
  import opened LiveOutput
  import opened LiveFilter

  /** The output does not depend on how the stream is cut. */
  ghost predicate CutsDoNotMatter(cfg: Config, s: Text) {
    forall chunks :: Concat(chunks) == s ==> Total(cfg, START, chunks) == Total(cfg, START, [s])
  }

  // ----- Where to cut a line -----

  /** Something is matched after the separator before `p`. */
  predicate HitAt(cfg: Config, c: Text, e: Text, p: int) {
    AfterSeparator(c, p) && (IsFileHeader(SkipAnsi(c[p..])) || IsInnerRewrite(cfg, c[p..], e))
  }

  /** The first of these places, and none is before it. */
  lemma {:induction false} FirstHit(cfg: Config, c: Text, e: Text, p: nat) returns (q: nat)
    requires HitAt(cfg, c, e, p)
    ensures HitAt(cfg, c, e, q) && forall r :: 0 <= r < q ==> !HitAt(cfg, c, e, r)
    decreases p
  {
    hide HitAt;
    if r: nat :| r < p && HitAt(cfg, c, e, r) {
      q := FirstHit(cfg, c, e, r);
    } else {
      q := p;
    }
  }

  lemma SomeHit(cfg: Config, c: Text, e: Text) returns (p: nat)
    requires InnerHeader(c) || InnerRewrite(cfg, c, e)
    ensures HitAt(cfg, c, e, p)
  {
    hide SkipAnsi, IsFileHeader, IsInnerRewrite;
    if InnerHeader(c) {
      p :| AfterSeparator(c, p) && IsFileHeader(SkipAnsi(c[p..]));
    } else {
      p :| AfterSeparator(c, p) && IsInnerRewrite(cfg, c[p..], e);
    }
  }

  /** A line is cut right after the first separator that matters. */
  lemma CutAtSeparator(cfg: Config, c: Text, e: Text) returns (n: nat)
    requires NoEol(c) && !StartsColons(SkipAnsi(c)) && !StartsColons(StripAnsi(c))
    requires InnerHeader(c) || InnerRewrite(cfg, c, e)
    ensures 0 < n < |c| && !HoldBack(cfg, c[..n]) && Transform(cfg, c[..n]) == RewriteLine(cfg, c[..n], [])
  {
    hide SkipAnsi, StripAnsi, HoldBack, Transform, RewriteLine, IsFileHeader, IsInnerRewrite;
    var p := SomeHit(cfg, c, e);
    n := FirstHit(cfg, c, e, p);
    HitIsInside(cfg, c, e, n);
    var u, x := c[..n - 1], c[n - 1..];
    StripAnsiSplit(u, x);
    assert c == u + x && c[..n] == u + [c[n - 1]];
    HeldAfterSeparator(cfg, u, [c[n - 1]]);
    NoHitBefore(cfg, c, e, n);
    assert c[..n] + c[n..] == c && c[..n] + [] == c[..n];
    if StartsColons(SkipAnsi(c[..n])) { ColonsGrow(c[..n], c[n..]); }
    NoEolPrefix(c, n);
    RewritesSafely(cfg, c[..n], []);
  }

  lemma NoEolPrefix(c: Text, n: nat)
    requires NoEol(c) && n <= |c|
    ensures NoEol(c[..n])
  {
  }

  lemma HitIsInside(cfg: Config, c: Text, e: Text, n: nat)
    requires HitAt(cfg, c, e, n)
    ensures 0 < n < |c|
  {
    assert SkipAnsi([]) == [] && c[|c|..] == [];
  }

  lemma NoHitBefore(cfg: Config, c: Text, e: Text, n: nat)
    requires 0 < n < |c| && forall r :: 0 <= r < n ==> !HitAt(cfg, c, e, r)
    ensures !InnerHeader(c[..n]) && !InnerRewrite(cfg, c[..n], [])
  {
    hide SkipAnsi;
    var c1, c2 := c[..n], c[n..];
    forall r | AfterSeparator(c1, r) ensures !IsFileHeader(SkipAnsi(c1[r..])) && !IsInnerRewrite(cfg, c1[r..], []) {
      assert c[r..] == c1[r..] + c2;
      if r < n {
        assert AfterSeparator(c, r) && !HitAt(cfg, c, e, r);
        if IsFileHeader(SkipAnsi(c1[r..])) { HeaderGrows(c1[r..], c2); }
        assert IsGroupMarker(c1[r..]) ==> IsGroupMarker(c1[r..] + c2);
      } else {
        NothingIsNoHit(cfg, c1[r..]);
      }
    }
  }

  lemma NothingIsNoHit(cfg: Config, c: Text)
    requires c == []
    ensures !IsFileHeader(SkipAnsi(c)) && !IsInnerRewrite(cfg, c, [])
  {
  }

  /** A line whose first two visible characters are colons, with an escape sequence in between, is cut
      inside of that. */
  lemma {:induction false} CutInEscape(c: Text) returns (n: nat)
    requires StartsColons(StripAnsi(c)) && !StartsColons(SkipAnsi(c))
    ensures 0 < n < |c| && StripAnsi(c[..n]) == [':', ESC] && Plain(c[..n])
    decreases |c|
  {
    hide AnsiLen, StripAnsi, SkipAnsi;
    var m := AnsiLen(c);
    if m > 0 {
      SkipsEscape(c);
      var k := CutInEscape(c[m..]);
      n := m + k;
      assert c[..n] + c[n..] == c && c[..n][m..] == c[m..][..k];
      AnsiLenPrefix(c[..n], c[n..]);
      StripStep(c[..n]);
      AnsiIsPlain(c);
      assert c[..n] == c[..m] + c[m..][..k];
    } else {
      n := 2;
      SecondColon(c);
      assert c[..2] == [':', ESC];
      ColonAndEscape(c[..2]);
    }
  }

  lemma SkipsEscape(c: Text)
    requires AnsiLen(c) > 0
    ensures SkipAnsi(c) == SkipAnsi(c[AnsiLen(c)..]) && StripAnsi(c) == StripAnsi(c[AnsiLen(c)..])
  {
  }

  lemma ColonAndEscape(v: Text)
    requires v == [':', ESC]
    ensures StripAnsi(v) == v
  {
    StripStep(v);
    StripStep(v[1..]);
    assert v[1..][1..] == [];
    StripNothing();
  }

  lemma SecondColon(c: Text)
    requires StartsColons(StripAnsi(c)) && !StartsColons(SkipAnsi(c)) && AnsiLen(c) == 0
    ensures |c| > 2 && c[0] == ':' && c[1] == ESC
  {
    assert StripAnsi(c) == [c[0]] + StripAnsi(c[1..]);
    var t := c[1..];
    assert StripAnsi(t)[0] == ':';
    StripStep(t);
  }

  /** A line that matters can be cut so that its start is written. */
  lemma CutLineAt(cfg: Config, c: Text, e: Text) returns (n: nat)
    requires NoEol(c) && !StartsColons(SkipAnsi(c)) && (InnerHeader(c) || InnerRewrite(cfg, c, e))
    ensures 0 < n < |c| && !HoldBack(cfg, c[..n]) && Transform(cfg, c[..n]) == RewriteLine(cfg, c[..n], [])
  {
    hide SkipAnsi, StripAnsi, Transform, RewriteLine, InnerHeader, InnerRewrite;
    if StartsColons(StripAnsi(c)) {
      n := CutInEscape(c);
      CutEscapeIsWritten(cfg, c[..n]);
      assert c[..n] + c[n..] == c && c[..n] + [] == c[..n];
      if StartsColons(SkipAnsi(c[..n])) { ColonsGrow(c[..n], c[n..]); }
      NoEolPrefix(c, n);
      RewritesPlainLine(cfg, c[..n], []);
    } else {
      n := CutAtSeparator(cfg, c, e);
    }
  }

  lemma CutEscapeIsWritten(cfg: Config, c: Text)
    requires StripAnsi(c) == [':', ESC]
    ensures !HoldBack(cfg, c)
  {
    assert forall i :: 0 <= i < |Markers(cfg)| && |Markers(cfg)[i]| > 2 ==> Markers(cfg)[i][0] != ':';
  }

  // ----- What that does -----

  lemma TotalOne(cfg: Config, a: Text)
    ensures var (st, out) := Feed(cfg, START, a); Total(cfg, START, [a]) == out + Finish(cfg, st)
  {
    hide Feed, Finish;
    assert [a][1..] == [];
  }

  lemma TotalTwo(cfg: Config, a: Text, b: Text)
    ensures var (st, out) := Feed(cfg, START, a);
            var (st', out') := Feed(cfg, st, b);
            Total(cfg, START, [a, b]) == out + (out' + Finish(cfg, st'))
  {
    hide Feed, Finish;
    assert [a, b][1..] == [b] && [b][1..] == [];
    var st := Feed(cfg, START, a).0;
    assert Total(cfg, st, [b]) == Feed(cfg, st, b).1 + Total(cfg, Feed(cfg, st, b).0, []);
  }

  lemma NothingFinishes(cfg: Config, atLineStart: bool)
    ensures Finish(cfg, State("", atLineStart)) == []
  {
  }

  /** The start of a line was written, so the rest of it is. */
  lemma RestIsWritten(cfg: Config, d: Text, e: Text)
    requires Line(d, e, []) && d + e != []
    ensures Write(cfg, false, d + e) == d + e
  {
    hide Transform, LineLen;
    assert e + [] == e;
    LineLenOf(d, e, []);
    assert (d + e)[..|d + e|] == d + e && (d + e)[|d + e|..] == [] && d + e + [] == d + e;
    NothingToRewrite(cfg);
  }

  /** A line with something after it. */
  lemma BadLine(cfg: Config, c: Text, e: Text, rest: Text, n: nat)
    requires Line(c, e, rest) && rest != [] && 0 < n < |c| && !HoldBack(cfg, c[..n])
    requires Transform(cfg, c[..n]) == RewriteLine(cfg, c[..n], [])
    requires !StartsColons(SkipAnsi(c)) && (InnerHeader(c) || InnerRewrite(cfg, c, e))
    ensures Total(cfg, START, [c[..n], c[n..] + e + rest]) != Total(cfg, START, [c + e + rest])
  {
    hide Total, Feed, Transform, RewriteLine, HoldBack, Finish, Write, SkipAnsi, InnerHeader, InnerRewrite, NoEol;
    var c1, c2 := c[..n], c[n..];
    assert c1 + c2 == c;
    LineAlone(c, e, rest);
    LineCut(c, e, [], n);
    OpenIsPartial(c, n);
    FeedPartial(cfg, c1);
    LineIsComplete(c, e, rest);
    LineIsComplete(c2, e, rest);
    FeedSplit(cfg, false, c2 + e, rest);
    FeedSplit(cfg, true, c + e, rest);
    RestIsWritten(cfg, c2, e);
    WriteAtStart(cfg, c + e);
    TotalTwo(cfg, c1, c2 + e + rest);
    TotalOne(cfg, c + e + rest);
    UnheldContent(cfg, c1, c2, e);
    RewritesMore(cfg, c, e);
  }

  lemma OpenIsPartial(c: Text, n: nat)
    requires NoEol(c) && 0 < n <= |c|
    ensures PartialLine(c[..n]) && !EndsWithCR(c[..n])
  {
  }

  lemma LineIsComplete(c: Text, e: Text, rest: Text)
    requires Line(c, e, rest) && e != []
    ensures c + e != [] && Complete(c + e, rest)
  {
    assert (c + e)[|c + e| - 1] == e[|e| - 1];
  }

  /** The last line, with its line end. */
  lemma BadLastLine(cfg: Config, c: Text, e: Text, n: nat)
    requires Line(c, e, []) && e != [] && e != "\r" && 0 < n < |c| && !HoldBack(cfg, c[..n])
    requires Transform(cfg, c[..n]) == RewriteLine(cfg, c[..n], [])
    requires !StartsColons(SkipAnsi(c)) && (InnerHeader(c) || InnerRewrite(cfg, c, e))
    ensures Total(cfg, START, [c[..n], c[n..] + e]) != Total(cfg, START, [c + e])
  {
    hide Total, Feed, Transform, RewriteLine, HoldBack, Finish, Write, SkipAnsi, InnerHeader, InnerRewrite, NoEol;
    var c1, c2 := c[..n], c[n..];
    assert c1 + c2 == c;
    LineCut(c, e, [], n);
    OpenIsPartial(c, n);
    FeedPartial(cfg, c1);
    EndsInLF(c, e);
    EndsInLF(c2, e);
    FeedComplete(cfg, false, c2 + e);
    FeedComplete(cfg, true, c + e);
    RestIsWritten(cfg, c2, e);
    WriteAtStart(cfg, c + e);
    TotalTwo(cfg, c1, c2 + e);
    TotalOne(cfg, c + e);
    NothingFinishes(cfg, true);
    UnheldContent(cfg, c1, c2, e);
    RewritesMore(cfg, c, e);
  }

  lemma EndsInLF(c: Text, e: Text)
    requires IsLineEnd(e) && e != "\r"
    ensures c + e != [] && LastLineStart(c + e) == |c + e|
  {
    var s := c + e;
    assert s[|s| - 1] == e[|e| - 1];
    if |e| == 1 { assert e == [e[0]]; }
  }

  /** The last line, without its line end or with half of it. */
  lemma BadOpenLine(cfg: Config, c: Text, e: Text, n: nat)
    requires Line(c, e, []) && (e == [] || e == "\r") && 0 < n < |c| && !HoldBack(cfg, c[..n])
    requires Transform(cfg, c[..n]) == RewriteLine(cfg, c[..n], [])
    requires !LineAlike(cfg, c, e, true)
    ensures Total(cfg, START, [c[..n], c[n..] + e]) != Total(cfg, START, [c + e])
  {
    hide Total, Feed, Transform, RewriteLine, HoldBack, Finish, Write, SkipAnsi, InnerHeader, InnerRewrite, NoEol;
    var c1, c2 := c[..n], c[n..];
    assert c1 + c2 == c;
    LineCut(c, e, [], n);
    OpenIsPartial(c, n);
    FeedPartial(cfg, c1);
    HalfIsPartial(c, e);
    HalfIsPartial(c2, e);
    FeedMiddle(cfg, c2 + e);
    FeedPartial(cfg, c + e);
    TotalTwo(cfg, c1, c2 + e);
    TotalOne(cfg, c + e);
    NothingFinishes(cfg, EndsWithCR(c2 + e));
    NothingFinishes(cfg, EndsWithCR(c + e));
    UnheldContent(cfg, c1, c2, e);
    if HoldBack(cfg, c + e) { FinishesMore(cfg, c, e); } else { RewritesMore(cfg, c, e); }
  }

  lemma HalfIsPartial(c: Text, e: Text)
    requires NoEol(c) && c != [] && (e == [] || e == "\r")
    ensures PartialLine(c + e)
  {
    if e == [] { assert c + e == c; } else { assert (c + e)[..|c|] == c; }
  }

  lemma FinishesMore(cfg: Config, c: Text, e: Text)
    requires Line(c, e, []) && !StartsColons(SkipAnsi(c)) && InnerHeader(c) && HoldBack(cfg, c + e)
    ensures |Finish(cfg, State(c + e, true))| < |RewriteLine(cfg, c, e)|
  {
    hide Replace, SkipAnsi, NoHits, HoldBack;
    HitsOfLine(FileHeaders, c, e);
    ReplaceShrinks(FileHeaders, c + e, true);
    assert e + [] == e;
    EolLenOf(c, e, []);
    FixedTextStops(false, c, e);
    if IsGroupMarker(c) { MarkerIsNotHeld(cfg, c + e); }
  }

  lemma BadFirstLine(cfg: Config, c: Text, e: Text, rest: Text) returns (a: Text, b: Text)
    requires Line(c, e, rest) && !LineAlike(cfg, c, e, rest == [])
    ensures a != [] && a + b == c + e + rest
    ensures Total(cfg, START, [a, b]) != Total(cfg, START, [c + e + rest])
  {
    hide Total, Transform, RewriteLine, HoldBack, SkipAnsi, InnerHeader, InnerRewrite;
    var n := CutLineAt(cfg, c, e);
    LineAlone(c, e, rest);
    a, b := c[..n], c[n..] + e + rest;
    assert a + b == c + e + rest;
    if rest != [] {
      BadLine(cfg, c, e, rest, n);
    } else {
      assert c[n..] + e + [] == c[n..] + e && c + e + [] == c + e;
      if e != [] && e != "\r" { BadLastLine(cfg, c, e, n); } else { BadOpenLine(cfg, c, e, n); }
    }
  }

  /** A stream with such a line is filtered differently in one chunk and in two. */
  lemma {:induction false} SomeCutMatters(cfg: Config, s: Text) returns (a: Text, b: Text)
    requires !Alike(cfg, s)
    ensures a != [] && a + b == s && Total(cfg, START, [a, b]) != Total(cfg, START, [s])
    decreases |s|
  {
    hide Total, Alike, LineAlike, Transform;
    NothingFiltered(cfg);
    var c, e, rest := FirstLine(s);
    FilteredLine(cfg, c, e, rest);
    Assoc(c, e, rest);
    if !LineAlike(cfg, c, e, rest == []) {
      a, b := BadFirstLine(cfg, c, e, rest);
    } else {
      var a', b' := SomeCutMatters(cfg, rest);
      a, b := c + e + a', b';
      LaterCut(cfg, c, e, a', b');
      Cancel(Transform(cfg, c + e), Total(cfg, START, [a', b']), Total(cfg, START, [rest]));
    }
  }

  /** A line in front is written in front, however the rest is cut. */
  lemma LaterCut(cfg: Config, c: Text, e: Text, a: Text, b: Text)
    requires a != [] && Line(c, e, a + b)
    ensures c + e + a + b == c + e + (a + b)
    ensures Total(cfg, START, [c + e + a, b]) == Transform(cfg, c + e) + Total(cfg, START, [a, b])
    ensures Total(cfg, START, [c + e + (a + b)]) == Transform(cfg, c + e) + Total(cfg, START, [a + b])
  {
    hide Total, NoEol;
    Assoc(c + e, a, b);
    assert (a + b)[0] == a[0];
    LineIsComplete(c, e, a + b);
    LineIsComplete(c, e, a);
    TotalSplit(cfg, c + e, a, b);
    TotalWhole(cfg, c + e, a + b);
  }

  lemma Cancel(x: Text, y: Text, z: Text)
    requires y != z
    ensures x + y != x + z
  {
    assert (x + y)[|x|..] == y && (x + z)[|x|..] == z;
  }

  lemma TotalSplit(cfg: Config, full: Text, a: Text, b: Text)
    requires full != [] && Complete(full, a) && a != []
    ensures Total(cfg, START, [full + a, b]) == Transform(cfg, full) + Total(cfg, START, [a, b])
  {
    hide Total, Feed, Transform, Finish, Write;
    FeedSplit(cfg, true, full, a);
    WriteAtStart(cfg, full);
    TotalTwo(cfg, full + a, b);
    TotalTwo(cfg, a, b);
    var (st, out) := Feed(cfg, START, a);
    var (st', out') := Feed(cfg, st, b);
    Assoc(Transform(cfg, full), out, out' + Finish(cfg, st'));
  }

  lemma TotalWhole(cfg: Config, full: Text, a: Text)
    requires full != [] && Complete(full, a) && a != []
    ensures Total(cfg, START, [full + a]) == Transform(cfg, full) + Total(cfg, START, [a])
  {
    hide Total, Feed, Transform, Finish, Write;
    FeedSplit(cfg, true, full, a);
    WriteAtStart(cfg, full);
    TotalOne(cfg, full + a);
    TotalOne(cfg, a);
    var (st, out) := Feed(cfg, START, a);
    Assoc(Transform(cfg, full), out, Finish(cfg, st));
  }

  /** The exact law: the output does not depend on how a stream is cut, if and only if every line of it
      starts with a workflow command, or has nothing that is matched after a separator. */
  lemma CutsDoNotMatterIff(cfg: Config, s: Text)
    ensures CutsDoNotMatter(cfg, s) <==> Alike(cfg, s)
  {
    hide Total, Alike;
    ConcatOne(s);
    if Alike(cfg, s) {
      forall chunks | Concat(chunks) == s ensures Total(cfg, START, chunks) == Total(cfg, START, [s]) {
        TotalIsFiltered(cfg, chunks);
        TotalIsFiltered(cfg, [s]);
      }
    } else {
      var a, b := SomeCutMatters(cfg, s);
      ConcatTwo(a, b);
      assert Concat([a, b]) == s;
    }
  }

  lemma ConcatOne(s: Text)
    ensures Concat([s]) == s
  {
    assert [s][1..] == [] && s + [] == s;
  }

  lemma ConcatTwo(a: Text, b: Text)
    ensures Concat([a, b]) == a + b
  {
    assert [a, b][1..] == [b];
    ConcatOne(b);
  }

  lemma NoEscape(c: Text)
    requires c != [] && c[0] != ESC
    ensures SkipAnsi(c) == c
  {
  }

  lemma ColonsAreCommand(cfg: Config, c: Text, e: Text)
    requires !cfg.github && c == [':', ':'] && e != []
    ensures IsInnerRewrite(cfg, c, e)
  {
    NoEscape(c);
  }

  /** A stream for which it matters: an empty command after a separator. */
  lemma SeparatorsBreakIt(cfg: Config, s: Text)
    requires !cfg.github && |s| == 5 && (s[1] == '\U{2028}' || s[1] == '\U{2029}')
    requires s[0] == 'a' && s[2] == ':' && s[3] == ':' && s[4] == '\n'
    ensures !CutsDoNotMatter(cfg, s)
  {
    hide CutsDoNotMatter, Alike, SkipAnsi, IsInnerRewrite;
    var c, e := s[..4], s[4..];
    assert c + (e + []) == s;
    FilteredLine(cfg, c, e, []);
    NoEscape(c);
    assert c[2..] == [':', ':'] && e == ['\n'];
    ColonsAreCommand(cfg, c[2..], e);
    assert AfterSeparator(c, 2);
    CutsDoNotMatterIff(cfg, s);
  }

  /** One with a separator for which it does not, since nothing is matched after it. */
  lemma SeparatorAsText(cfg: Config, s: Text)
    requires s == ['a', LS, 'b']
    ensures CutsDoNotMatter(cfg, s)
  {
    hide CutsDoNotMatter, Alike, HoldBack, SkipAnsi;
    assert s + ([] + []) == s;
    FilteredLine(cfg, s, [], []);
    NothingFiltered(cfg);
    NoEscape(s);
    NoEscape(s[2..]);
    assert forall p :: AfterSeparator(s, p) ==> p == 2;
    CutsDoNotMatterIff(cfg, s);
  }

  /** And one for which it does not, since it is held back whole. */
  lemma SeparatorInCommand(cfg: Config, s: Text)
    requires s == [':', ':', 'x', LS, ':', ':', 'y', '\n']
    ensures CutsDoNotMatter(cfg, s)
  {
    hide CutsDoNotMatter, Alike, SkipAnsi;
    var c, e := s[..7], s[7..];
    assert c + (e + []) == s;
    FilteredLine(cfg, c, e, []);
    NothingFiltered(cfg);
    NoEscape(c);
    CutsDoNotMatterIff(cfg, s);
  }
}
