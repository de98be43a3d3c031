/** The regular expressions of the live output filter (scripts/buildkite.ts), as recognisers.

    Every pattern the filter uses is deterministic: wherever a repetition could stop early, the
    next character of the pattern could not match what the repetition skipped. So each recogniser
    takes the greedy match, and no other match exists. */
module LogText {
  import opened Wrappers

  type Text = seq<char>

  const ESC: char := '\U{1B}'
  const LS: char := '\U{2028}'
  const PS: char := '\U{2029}'

  /** What a pattern matched: how much of the text, and what replaces it. */
  datatype Hit = Hit(len: nat, replacement: Text)

  /** The three global, multiline patterns of the filter. */
  datatype Rule = FileHeaders | Commands(github: bool) | GroupMarkers

  predicate IsEol(c: char) { c == '\r' || c == '\n' }

  /** The line terminators of ECMAScript that end no line of a log. */
  predicate IsSeparator(c: char) { c == LS || c == PS }

  /** What `^` looks behind at and what `.` refuses, in ECMAScript regular expressions. */
  predicate IsLineTerminator(c: char) { IsEol(c) || IsSeparator(c) }

  predicate IsParam(c: char) { '0' <= c <= '9' || c == ';' }

  predicate IsLetter(c: char) { 'a' <= c <= 'z' || 'A' <= c <= 'Z' }

  /** A text in which only `\r` and `\n` end lines. */
  predicate Plain(s: Text) { forall i :: 0 <= i < |s| ==> !IsSeparator(s[i]) }

  predicate NoEol(s: Text) { forall i :: 0 <= i < |s| ==> !IsEol(s[i]) }

  /** `[0-9;]*` */
  function ParamsLen(s: Text): (n: nat)
    ensures n <= |s|
  {
    if s == [] || !IsParam(s[0]) then 0 else 1 + ParamsLen(s[1..])
  }

  /** `\u001b\[[0-9;]*[a-zA-Z]`; 0 when it does not match. */
  function AnsiLen(s: Text): (n: nat)
    ensures n <= |s|
  {
    if |s| >= 2 && s[0] == ESC && s[1] == '[' then
      var n := 2 + ParamsLen(s[2..]);
      if n < |s| && IsLetter(s[n]) then n + 1 else 0
    else 0
  }

  /** What is left after `(?:\u001b\[[0-9;]*[a-zA-Z])*`. */
  function SkipAnsi(s: Text): (t: Text)
    ensures |t| <= |s|
  {
    if AnsiLen(s) == 0 then s else SkipAnsi(s[AnsiLen(s)..])
  }

  /** `stripAnsi`: every escape sequence removed. */
  function StripAnsi(s: Text): Text {
    if s == [] then []
    else if AnsiLen(s) > 0 then StripAnsi(s[AnsiLen(s)..])
    else [s[0]] + StripAnsi(s[1..])
  }

  /** `[^\r\n]*` */
  function RunLen(s: Text): (n: nat)
    ensures n <= |s|
  {
    if s == [] || IsEol(s[0]) then 0 else 1 + RunLen(s[1..])
  }

  /** `.*` */
  function DotLen(s: Text): (n: nat)
    ensures n <= |s|
  {
    if s == [] || IsLineTerminator(s[0]) then 0 else 1 + DotLen(s[1..])
  }

  /** `\r\n|\r|\n`; 0 when it does not match. */
  function EolLen(s: Text): (n: nat)
    ensures n <= |s|
  {
    if s == [] then 0
    else if |s| >= 2 && s[0] == '\r' && s[1] == '\n' then 2
    else if IsEol(s[0]) then 1
    else 0
  }

  /** The text starts with `::`. */
  predicate StartsColons(t: Text) { |t| >= 2 && t[0] == ':' && t[1] == ':' }

  /** The text starts with `group::`. */
  predicate StartsGroup(t: Text) {
    && |t| >= 7
    && t[0] == 'g' && t[1] == 'r' && t[2] == 'o' && t[3] == 'u' && t[4] == 'p' && t[5] == ':' && t[6] == ':'
  }

  /** The text starts with `end`. */
  predicate StartsEnd(t: Text) { |t| >= 3 && t[0] == 'e' && t[1] == 'n' && t[2] == 'd' }

  /** `::group::` */
  predicate IsFileHeader(t: Text) { StartsColons(t) && StartsGroup(t[2..]) }

  /** `::(?:end)?group::` in GitHub Actions, `::` anywhere else. */
  predicate IsCommand(github: bool, t: Text) {
    && StartsColons(t)
    && (!github || StartsGroup(t[2..]) || (StartsEnd(t[2..]) && StartsGroup(t[5..])))
  }

  /** `(?:---|\+\+\+|~~~|\^\^\^) ` */
  predicate IsGroupMarker(s: Text) {
    && |s| >= 4
    && (s[0] == '-' || s[0] == '+' || s[0] == '~' || s[0] == '^')
    && s[1] == s[0] && s[2] == s[0] && s[3] == ' '
  }

  /** `([^\r\n]*)(\r\n|\r|\n|$)` on what follows `::group::`, `before` characters into the match.
      What stops the name is a line end or the end of the text. */
  function HeaderHit(before: nat, s: Text): (h: Hit)
    ensures before <= h.len <= before + |s|
  {
    var n := RunLen(s);
    var m := n + EolLen(s[n..]);
    Hit(before + m, "test: " + s[..n] + s[n..m])
  }

  /** `.*(?:\r\n|\r|\n)` on a workflow command, `before` characters into the match. The fixed text of
      a command holds no line terminator, so `.*` may as well start at its first colon. */
  function CommandHit(before: nat, s: Text): (h: Option<Hit>)
    ensures h.Some? ==> before < h.value.len <= before + |s|
  {
    var n := DotLen(s);
    var m := EolLen(s[n..]);
    if m == 0 then None else Some(Hit(before + n + m, ""))
  }

  /** One match attempt of a pattern at the start of a line, `s` being the rest of the text. */
  function Match(rule: Rule, s: Text): (h: Option<Hit>)
    ensures h.Some? ==> 0 < h.value.len <= |s|
  {
    var t := SkipAnsi(s);
    match rule
    case FileHeaders =>
      if IsFileHeader(t) then Some(HeaderHit(|s| - |t| + 9, t[9..])) else None
    case Commands(github) =>
      if IsCommand(github, t) then CommandHit(|s| - |t|, t) else None
    case GroupMarkers =>
      if IsGroupMarker(s) then Some(Hit(4, " ")) else None
  }

  /** `s.replace(rule, …)` with the flags `gm`. `atStart` says whether `^` matches before `s[0]`. */
  function Replace(rule: Rule, s: Text, atStart: bool): Text
    decreases |s|
  {
    if s == [] then []
    else
      var h := if atStart then Match(rule, s) else None;
      if h.Some? then
        h.value.replacement + Replace(rule, s[h.value.len..], IsLineTerminator(s[h.value.len - 1]))
      else
        [s[0]] + Replace(rule, s[1..], IsLineTerminator(s[0]))
  }

  /** `s.replace(lastCommand, "")`: the pattern has no flags, so it matches the whole of `s` or nothing. */
  function DropLastCommand(github: bool, s: Text): Text {
    var t := SkipAnsi(s);
    if IsCommand(github, t) && t[DotLen(t)..] in {"", "\r"} then "" else s
  }

  /** `s.lastIndexOf(c, from)`: a negative `from` is taken as 0. */
  function LastIndexOf(s: Text, c: char, from: int): (i: int)
    ensures -1 <= i < |s|
    ensures i >= 0 ==> s[i] == c && (i <= from || i == 0)
    ensures forall j :: i < j <= from && j < |s| ==> s[j] != c
    ensures i < 0 && s != [] ==> s[0] != c
    decreases if from > 0 then from else 0
  {
    if s == [] then -1
    else if from <= 0 then if s[0] == c then 0 else -1
    else if from < |s| && s[from] == c then from
    else LastIndexOf(s, c, from - 1)
  }
}
