/** `parseLog` (scripts/ci-slowest-tests.ts): how long each test file took, from the timestamps of a CI
    log. A line is taken as what its patterns make of it. */
module LogSpans {
  import opened Wrappers

  /** What a line with a timestamp says: a file that ran in a batch, with its time; the start of a test
      (`grouped` if it opens a group, and no name if the title is not a path); a header that ends a
      phase; or anything else. */
  datatype Message = Timed(file: string, ms: nat) | Test(grouped: bool, name: Option<string>) | PhaseHeader | Other

  datatype Line = Unstamped | Stamped(ts: nat, message: Message)

  /** A span that was charged to a file. */
  datatype Charge = Charge(file: string, start: nat, end: nat, concurrent: bool, amount: int)

  /** `charges` and `timed` are what has been added to `out`, in order. */
  datatype State = State(
    out: map<string, int>, curName: Option<string>, curStart: nat, concurrent: bool, lastTs: nat,
    charges: seq<Charge>, timed: seq<(string, nat)>)

  const START := State(map[], None, 0, false, 0, [], [])

  function Get(out: map<string, int>, file: string): int { if file in out then out[file] else 0 }

  function Min(a: int, b: int): int { if a < b then a else b }

  /** `close(ts)` */
  function Close(st: State, ts: nat): State {
    if st.curName.None? then st
    else
      var file, span := st.curName.value, ts - st.curStart;
      var amount := if st.concurrent then Min(span, 500) else span;
      st.(out := st.out[file := Get(st.out, file) + amount], curName := None,
          charges := st.charges + [Charge(file, st.curStart, ts, st.concurrent, amount)])
  }

  function Step(st: State, line: Line): State {
    match line
    case Unstamped => st
    case Stamped(ts, message) =>
      var seen := st.(lastTs := ts);
      match message
      case Other => seen
      case PhaseHeader => Close(seen, ts).(concurrent := false)
      case Timed(file, ms) =>
        var closed := Close(seen, ts);
        closed.(out := closed.out[file := Get(closed.out, file) + ms], concurrent := false,
                timed := closed.timed + [(file, ms)])
      case Test(grouped, name) =>
        Close(seen, ts).(curName := name, curStart := ts, concurrent := !grouped)
  }

  function Run(st: State, lines: seq<Line>): State
    decreases |lines|
  {
    if lines == [] then st else Run(Step(st, lines[0]), lines[1..])
  }

  function Finish(st: State): State { Close(st, st.lastTs) }

  method ParseLog(lines: seq<Line>) returns (out: map<string, int>)
    ensures out == Finish(Run(START, lines)).out
  {
    var curName: Option<string>, curStart: nat, concurrent, lastTs: nat := None, 0, false, 0;
    out := map[];
    ghost var charges: seq<Charge>, timed: seq<(string, nat)> := [], [];
    for k := 0 to |lines|
      invariant Run(START, lines) == Run(State(out, curName, curStart, concurrent, lastTs, charges, timed), lines[k..])
    {
      ghost var st := State(out, curName, curStart, concurrent, lastTs, charges, timed);
      assert lines[k..][0] == lines[k] && lines[k..][1..] == lines[k + 1..];
      if lines[k].Stamped? {
        var ts := lines[k].ts;
        lastTs := ts;
        if lines[k].message != Other && curName.Some? {
          var file, span := curName.value, ts - curStart;
          var amount := if concurrent then Min(span, 500) else span;
          out := out[file := Get(out, file) + amount];
          charges := charges + [Charge(file, curStart, ts, concurrent, amount)];
          curName := None;
        }
        match lines[k].message {
          case Other =>
          case PhaseHeader =>
            concurrent := false;
          case Timed(file, ms) =>
            out := out[file := Get(out, file) + ms];
            timed := timed + [(file, ms)];
            concurrent := false;
          case Test(grouped, name) =>
            curName, curStart, concurrent := name, ts, !grouped;
        }
      }
      assert State(out, curName, curStart, concurrent, lastTs, charges, timed) == Step(st, lines[k]);
    }
    if curName.Some? {
      var file, span := curName.value, lastTs - curStart;
      out := out[file := Get(out, file) + if concurrent then Min(span, 500) else span];
    }
  }

  // ----- Time is charged once -----

  /** Timestamps never go back. */
  predicate Ordered(from: nat, lines: seq<Line>)
    decreases |lines|
  {
    lines == [] ||
    match lines[0]
    case Unstamped => Ordered(from, lines[1..])
    case Stamped(ts, _) => from <= ts && Ordered(ts, lines[1..])
  }

  /** A span is charged in full, but the time between two dispatches of a concurrent phase is clamped. */
  predicate Fair(c: Charge) {
    c.start <= c.end && c.amount == if c.concurrent then Min(c.end - c.start, 500) else c.end - c.start
  }

  /** Each charge is for an interval after the one before, and for no more than its length. */
  predicate Disjoint(charges: seq<Charge>) {
    && (forall i :: 0 <= i < |charges| ==> Fair(charges[i]))
    && (forall i, j :: 0 <= i < j < |charges| ==> charges[i].end <= charges[j].start)
  }

  predicate Timely(st: State) {
    && Disjoint(st.charges)
    && (forall i :: 0 <= i < |st.charges| ==> st.charges[i].end <= st.curStart || st.curName.None?)
    && (forall i :: 0 <= i < |st.charges| ==> st.charges[i].end <= st.lastTs)
    && (st.curName.Some? ==> st.curStart <= st.lastTs)
  }

  lemma CloseIsTimely(st: State, ts: nat)
    requires Timely(st) && st.lastTs <= ts
    ensures Timely(Close(st, ts).(lastTs := ts))
  {
  }

  lemma StepIsTimely(st: State, line: Line)
    requires Timely(st) && (line.Stamped? ==> st.lastTs <= line.ts)
    ensures Timely(Step(st, line))
  {
    if line.Stamped? {
      CloseIsTimely(st, line.ts);
      var closed := Close(st, line.ts).(lastTs := line.ts);
      assert closed == Close(st.(lastTs := line.ts), line.ts);
      var st' := Step(st, line);
      assert line.message != Other ==> st'.charges == closed.charges && st'.lastTs == line.ts;
    }
  }

  lemma {:induction false} RunIsTimely(st: State, lines: seq<Line>)
    requires Timely(st) && Ordered(st.lastTs, lines)
    ensures Timely(Run(st, lines)) && Run(st, lines).lastTs >= st.lastTs
    decreases |lines|
  {
    if lines != [] {
      StepIsTimely(st, lines[0]);
      RunIsTimely(Step(st, lines[0]), lines[1..]);
    }
  }

  function Total(charges: seq<Charge>): int {
    if charges == [] then 0 else Total(charges[..|charges| - 1]) + charges[|charges| - 1].amount
  }

  lemma {:induction false} TotalIsBounded(charges: seq<Charge>, first: nat, last: nat)
    requires Disjoint(charges) && first <= last
    requires forall i :: 0 <= i < |charges| ==> first <= charges[i].start && charges[i].end <= last
    ensures 0 <= Total(charges) <= last - first
    decreases |charges|
  {
    if charges != [] {
      var c, rest := charges[|charges| - 1], charges[..|charges| - 1];
      assert forall i :: 0 <= i < |rest| ==> rest[i] == charges[i];
      TotalIsBounded(rest, first, c.start);
    }
  }

  // ----- What a file is charged -----

  function ChargedTo(charges: seq<Charge>, file: string): int {
    if charges == [] then 0
    else
      var n := |charges| - 1;
      ChargedTo(charges[..n], file) + if charges[n].file == file then charges[n].amount else 0
  }

  function TimedFor(timed: seq<(string, nat)>, file: string): nat {
    if timed == [] then 0
    else
      var n := |timed| - 1;
      TimedFor(timed[..n], file) + if timed[n].0 == file then timed[n].1 else 0
  }

  /** `out` is the charges and the times of batches, added up. */
  ghost predicate AddsUp(st: State) {
    forall file :: Get(st.out, file) == ChargedTo(st.charges, file) + TimedFor(st.timed, file)
  }

  lemma CloseAddsUp(st: State, ts: nat)
    requires AddsUp(st)
    ensures AddsUp(Close(st, ts))
  {
    var closed := Close(st, ts);
    if st.curName.Some? {
      var n := |st.charges|;
      assert closed.charges[..n] == st.charges;
    }
  }

  lemma TimeAddsUp(st: State, file: string, ms: nat)
    requires AddsUp(st)
    ensures AddsUp(st.(out := st.out[file := Get(st.out, file) + ms], timed := st.timed + [(file, ms)]))
  {
    assert (st.timed + [(file, ms)])[..|st.timed|] == st.timed;
  }

  /** Whether the sums are right depends on nothing else. */
  lemma SameSums(st: State, st': State)
    requires AddsUp(st) && st'.out == st.out && st'.charges == st.charges && st'.timed == st.timed
    ensures AddsUp(st')
  {
    forall file ensures Get(st'.out, file) == ChargedTo(st'.charges, file) + TimedFor(st'.timed, file) {
      assert Get(st.out, file) == ChargedTo(st.charges, file) + TimedFor(st.timed, file);
    }
  }

  lemma StepAddsUp(st: State, line: Line)
    requires AddsUp(st)
    ensures AddsUp(Step(st, line))
  {
    if line.Stamped? {
      var seen := st.(lastTs := line.ts);
      SameSums(st, seen);
      CloseAddsUp(seen, line.ts);
      var closed := Close(seen, line.ts);
      match line.message {
        case Other =>
        case Timed(file, ms) =>
          TimeAddsUp(closed, file, ms);
          SameSums(closed.(out := closed.out[file := Get(closed.out, file) + ms], timed := closed.timed + [(file, ms)]),
                   Step(st, line));
        case _ => SameSums(closed, Step(st, line));
      }
    }
  }

  lemma {:induction false} RunAddsUp(st: State, lines: seq<Line>)
    requires AddsUp(st)
    ensures AddsUp(Run(st, lines))
    decreases |lines|
  {
    if lines != [] {
      StepAddsUp(st, lines[0]);
      RunAddsUp(Step(st, lines[0]), lines[1..]);
    }
  }

  /** For every log in which time goes forward: each file gets what its own spans and batch times add up
      to, the spans are disjoint, and together they are no longer than the log from its first charge
      on. */
  lemma ChargesAreDisjoint(lines: seq<Line>)
    requires Ordered(0, lines)
    ensures var st := Finish(Run(START, lines));
            && AddsUp(st) && Disjoint(st.charges)
            && (st.charges != [] ==> 0 <= Total(st.charges) <= st.lastTs - st.charges[0].start)
            && forall i :: 0 <= i < |st.charges| ==>
                 var c := st.charges[i];
                 && 0 <= c.amount <= c.end - c.start && (c.concurrent ==> c.amount <= 500)
                 && (!c.concurrent || c.end - c.start <= 500 ==> c.amount == c.end - c.start)
  {
    RunIsTimely(START, lines);
    RunAddsUp(START, lines);
    var st := Run(START, lines);
    CloseIsTimely(st, st.lastTs);
    CloseAddsUp(st, st.lastTs);
    var end := Finish(st);
    assert Timely(end.(lastTs := st.lastTs));
    if end.charges != [] {
      var first := end.charges[0].start;
      assert forall i :: 0 < i < |end.charges| ==> end.charges[0].end <= end.charges[i].start;
      TotalIsBounded(end.charges, first, end.lastTs);
    }
  }

  // ----- Which spans are charged -----

  /** What ends a span: the next line that is not an ordinary one, or else the end of the log. */
  function Until(lines: seq<Line>, lastTs: nat): nat
    decreases |lines|
  {
    if lines == [] then lastTs
    else
      match lines[0]
      case Unstamped => Until(lines[1..], lastTs)
      case Stamped(ts, Other) => Until(lines[1..], ts)
      case Stamped(ts, _) => ts
  }

  function Span(file: string, start: nat, end: nat, concurrent: bool): Charge {
    Charge(file, start, end, concurrent, if concurrent then Min(end - start, 500) else end - start)
  }

  /** Every test that was announced, from there to the end of its span. */
  function Spans(lines: seq<Line>): seq<Charge> {
    if lines == [] then [] else Announced(lines[0], lines[1..]) + Spans(lines[1..])
  }

  function Announced(line: Line, rest: seq<Line>): seq<Charge> {
    match line
    case Stamped(ts, Test(grouped, Some(name))) => [Span(name, ts, Until(rest, ts), !grouped)]
    case _ => []
  }

  /** Every time that a batch reported. */
  function Times(lines: seq<Line>): seq<(string, nat)> {
    if lines == [] then [] else Reported(lines[0]) + Times(lines[1..])
  }

  function Reported(line: Line): seq<(string, nat)> {
    match line
    case Stamped(_, Timed(file, ms)) => [(file, ms)]
    case _ => []
  }

  function OpenSpan(st: State, lines: seq<Line>): seq<Charge> {
    if st.curName.None? then [] else [Span(st.curName.value, st.curStart, Until(lines, st.lastTs), st.concurrent)]
  }

  /** One line: a span ends, another one starts, or neither. */
  lemma OpenSpanStep(st: State, line: Line, rest: seq<Line>)
    ensures var st', lines := Step(st, line), [line] + rest;
            && st'.charges + OpenSpan(st', rest) == st.charges + OpenSpan(st, lines) + Announced(line, rest)
            && st'.timed == st.timed + Reported(line)
  {
    assert ([line] + rest)[1..] == rest;
  }

  lemma {:induction false} SpansFrom(st: State, lines: seq<Line>)
    ensures Finish(Run(st, lines)).charges == st.charges + OpenSpan(st, lines) + Spans(lines)
    ensures Finish(Run(st, lines)).timed == st.timed + Times(lines)
    decreases |lines|
  {
    hide Step, Close, Announced, Reported, Until;
    if lines == [] {
      NothingLeft(st);
    } else {
      var line, rest := lines[0], lines[1..];
      var st' := Step(st, line);
      SpansFrom(st', rest);
      assert lines == [line] + rest;
      OpenSpanStep(st, line, rest);
      Assoc(st.charges + OpenSpan(st, lines), Announced(line, rest), Spans(rest));
      Assoc(st.timed, Reported(line), Times(rest));
    }
  }

  lemma NothingLeft(st: State)
    ensures Finish(st).charges == st.charges + OpenSpan(st, []) + [] && Finish(st).timed == st.timed + []
  {
  }

  /** What is charged is exactly the span of each announced test and the time of each batch line. */
  lemma ChargesAreTheSpans(lines: seq<Line>)
    ensures var st := Finish(Run(START, lines)); st.charges == Spans(lines) && st.timed == Times(lines)
  {
    SpansFrom(START, lines);
  }

  // ----- A longer log never charges less -----

  ghost predicate AtMost(a: map<string, int>, b: map<string, int>) { forall file :: Get(a, file) <= Get(b, file) }

  lemma StepChargesMore(st: State, line: Line)
    requires Timely(st) && (line.Stamped? ==> st.lastTs <= line.ts)
    ensures AtMost(Finish(st).out, Finish(Step(st, line)).out)
  {
  }

  lemma {:induction false} RunChargesMore(st: State, lines: seq<Line>)
    requires Timely(st) && Ordered(st.lastTs, lines)
    ensures AtMost(Finish(st).out, Finish(Run(st, lines)).out)
    decreases |lines|
  {
    if lines != [] {
      var st' := Step(st, lines[0]);
      StepIsTimely(st, lines[0]);
      StepChargesMore(st, lines[0]);
      RunChargesMore(st', lines[1..]);
      forall file ensures Get(Finish(st).out, file) <= Get(Finish(Run(st, lines)).out, file) {
        assert Get(Finish(st).out, file) <= Get(Finish(st').out, file);
      }
    }
  }

  lemma {:induction false} RunConcat(st: State, a: seq<Line>, b: seq<Line>)
    ensures Run(st, a + b) == Run(Run(st, a), b)
    ensures Ordered(st.lastTs, a + b) ==> Ordered(st.lastTs, a) && Ordered(Run(st, a).lastTs, b)
    decreases |a|
  {
    if a == [] {
      assert a + b == b;
    } else {
      assert (a + b)[1..] == a[1..] + b && (a + b)[0] == a[0];
      assert Step(st, a[0]).lastTs == if a[0].Stamped? then a[0].ts else st.lastTs;
      RunConcat(Step(st, a[0]), a[1..], b);
    }
  }

  /** A log that breaks off charges every file at most what the whole log charges it. */
  lemma PrefixChargesLess(lines: seq<Line>, k: nat)
    requires Ordered(0, lines) && k <= |lines|
    ensures AtMost(Finish(Run(START, lines[..k])).out, Finish(Run(START, lines)).out)
  {
    var a, b := lines[..k], lines[k..];
    assert lines == a + b;
    RunConcat(START, a, b);
    RunIsTimely(START, a);
    RunChargesMore(Run(START, a), b);
  }
}
