/** The pieces of a test run (scripts/runner.node.ts): retries and their verdict, the phases the selected
    tests are split into, and the parallel batch with its reruns. */
module TestRun {
  import opened Wrappers

  /** How one attempt at a test ended. `always` is what `isAlwaysFailure` says about its error. */
  datatype Attempt = Pass | Fail(always: bool)

  datatype Verdict = Ok | Flaky | Failed

  /** `index` is the number printed for the test, `first` how its first attempt ended. */
  datatype Entry = Entry(title: string, index: nat, first: Attempt)

  // ----- One test -----

  /** The attempt loop of `runTest`, from some attempt on; `attempts(k)` is what attempt `k` would do. */
  function Judge(attempts: nat -> Attempt, maxAttempts: int, attempt: nat, failedBefore: bool): Option<Verdict>
    decreases maxAttempts - attempt
  {
    if attempt > maxAttempts then None
    else
      match attempts(attempt)
      case Pass => Some(if failedBefore then Flaky else Ok)
      case Fail(always) =>
        if attempt >= maxAttempts || always then Some(Failed)
        else Judge(attempts, maxAttempts, attempt + 1, true)
  }

  /** Attempts 1 to k-1 fail, and none of them in a way that is never retried. */
  ghost predicate RetriedUpTo(attempts: nat -> Attempt, k: nat) {
    forall j: nat :: 1 <= j < k ==> attempts(j) == Fail(false)
  }

  lemma {:induction false} JudgeFrom(attempts: nat -> Attempt, maxAttempts: int, k: nat)
    requires 1 <= k <= maxAttempts && RetriedUpTo(attempts, k)
    ensures var v := Judge(attempts, maxAttempts, k, k > 1);
            && v.Some?
            && (v.value == Ok <==> attempts(1) == Pass)
            && (v.value == Flaky ==> exists n: nat ::
                  2 <= n <= maxAttempts && attempts(n) == Pass && RetriedUpTo(attempts, n))
            && (v.value == Failed ==> exists n: nat ::
                  && 1 <= n <= maxAttempts && attempts(n).Fail? && RetriedUpTo(attempts, n)
                  && (n == maxAttempts || attempts(n).always))
    decreases maxAttempts - k
  {
    match attempts(k) {
      case Pass =>
      case Fail(always) =>
        if k < maxAttempts && !always { JudgeFrom(attempts, maxAttempts, k + 1); }
    }
  }

  /** What the verdict of a test means, for every behaviour of the test. */
  lemma VerdictMeans(attempts: nat -> Attempt, maxAttempts: int)
    requires maxAttempts >= 1
    ensures var v := Judge(attempts, maxAttempts, 1, false);
            && v.Some?
            && (v.value == Ok <==> attempts(1) == Pass)
            && (v.value == Flaky <==> exists n: nat ::
                  2 <= n <= maxAttempts && attempts(n) == Pass && RetriedUpTo(attempts, n))
            && (v.value == Failed <==> exists n: nat ::
                  && 1 <= n <= maxAttempts && attempts(n).Fail? && RetriedUpTo(attempts, n)
                  && (n == maxAttempts || attempts(n).always))
  {
    JudgeFrom(attempts, maxAttempts, 1);
  }

  // ----- Which phase a test is in -----

  function Filter(tests: seq<string>, p: string -> bool): seq<string> {
    if tests == [] then []
    else (if p(tests[0]) then [tests[0]] else []) + Filter(tests[1..], p)
  }

  /** The four phases of `runTests`, in the order in which they run. */
  datatype Phases = Phases(modified: seq<string>, rest: seq<string>, bucket: seq<string>, parallelSafe: seq<string>)

  /** A batch of fewer than 8 files is not worth its while. */
  function Split(
    tests: seq<string>, isParallelSafe: string -> bool, isModified: string -> bool, isCandidate: string -> bool): Phases
  {
    var serial := Filter(tests, t => !isParallelSafe(t));
    var candidates := Filter(serial, t => !isModified(t) && isCandidate(t));
    var bucketable := if |candidates| >= 8 then candidates else [];
    Phases(
      Filter(serial, isModified),
      Filter(serial, t => !isModified(t) && t !in bucketable),
      bucketable,
      Filter(tests, isParallelSafe))
  }

  lemma {:induction false} FilterCount(tests: seq<string>, p: string -> bool, t: string)
    ensures multiset(Filter(tests, p))[t] == if p(t) then multiset(tests)[t] else 0
    decreases |tests|
  {
    if tests != [] {
      FilterCount(tests[1..], p, t);
      assert tests == [tests[0]] + tests[1..];
      var head := if p(tests[0]) then [tests[0]] else [];
      assert multiset(head + Filter(tests[1..], p)) == multiset(head) + multiset(Filter(tests[1..], p));
    }
  }

  /** Every selected test is in exactly one phase, as often as it was selected. */
  lemma PhasesPartition(
      tests: seq<string>, isParallelSafe: string -> bool, isModified: string -> bool, isCandidate: string -> bool)
    ensures var s := Split(tests, isParallelSafe, isModified, isCandidate);
            && multiset(s.modified) + multiset(s.rest) + multiset(s.bucket) + multiset(s.parallelSafe)
               == multiset(tests)
            && multiset(s.modified) !! multiset(s.rest) !! multiset(s.bucket) !! multiset(s.parallelSafe)
            && (s.bucket == [] || |s.bucket| >= 8)
  {
    var s := Split(tests, isParallelSafe, isModified, isCandidate);
    var serial := Filter(tests, t => !isParallelSafe(t));
    var candidates := Filter(serial, t => !isModified(t) && isCandidate(t));
    forall t
      ensures multiset(s.modified)[t] + multiset(s.rest)[t] + multiset(s.bucket)[t] + multiset(s.parallelSafe)[t]
              == multiset(tests)[t]
      ensures multiset(s.modified)[t] > 0 ==> multiset(s.rest)[t] == 0
      ensures multiset(s.modified)[t] + multiset(s.rest)[t] > 0 ==> multiset(s.bucket)[t] == 0
      ensures multiset(s.modified)[t] + multiset(s.rest)[t] + multiset(s.bucket)[t] > 0 ==>
                multiset(s.parallelSafe)[t] == 0
    {
      FilterCount(tests, t => !isParallelSafe(t), t);
      FilterCount(tests, isParallelSafe, t);
      FilterCount(serial, isModified, t);
      FilterCount(serial, t => !isModified(t) && isCandidate(t), t);
      FilterCount(serial, t => !isModified(t) && t !in s.bucket, t);
      assert t in s.bucket <==> multiset(s.bucket)[t] > 0;
    }
  }

  /** `s` is some of `tests`, in the same order. */
  ghost predicate Subsequence(s: seq<string>, tests: seq<string>) {
    exists at: seq<nat> :: Picks(at, s, tests)
  }

  predicate Picks(at: seq<nat>, s: seq<string>, tests: seq<string>) {
    && |at| == |s|
    && (forall k :: 0 <= k < |at| ==> at[k] < |tests| && s[k] == tests[at[k]])
    && (forall k, l :: 0 <= k < l < |at| ==> at[k] < at[l])
  }

  lemma {:induction false} FilterPicks(tests: seq<string>, p: string -> bool) returns (at: seq<nat>)
    ensures Picks(at, Filter(tests, p), tests)
    decreases |tests|
  {
    if tests == [] {
      at := [];
    } else {
      var n := |tests| - 1;
      var t, before := tests[n], tests[..n];
      at := FilterPicks(before, p);
      assert tests == before + [t];
      FilterAppend(before, t, p);
      if p(t) { at := at + [n]; }
    }
  }

  lemma {:induction false} FilterIn(tests: seq<string>, p: string -> bool, t: string)
    ensures t in Filter(tests, p) <==> t in tests && p(t)
    decreases |tests|
  {
    if tests != [] { FilterIn(tests[1..], p, t); }
  }

  /** The places of the tests with a property. */
  ghost function Places(tests: seq<string>, p: string -> bool): set<nat> {
    set i: nat | i < |tests| && p(tests[i])
  }

  lemma {:induction false} FilterSize(tests: seq<string>, p: string -> bool)
    ensures |Filter(tests, p)| == |Places(tests, p)|
    decreases |tests|
  {
    if tests != [] {
      var n := |tests| - 1;
      var t, before := tests[n], tests[..n];
      FilterSize(before, p);
      assert tests == before + [t];
      FilterAppend(before, t, p);
      assert Places(tests, p) == Places(before, p) + if p(t) then {n as nat} else {};
    }
  }

  lemma {:induction false} FilterAppend(tests: seq<string>, t: string, p: string -> bool)
    ensures Filter(tests + [t], p) == Filter(tests, p) + if p(t) then [t] else []
    decreases |tests|
  {
    if tests == [] {
      assert tests + [t] == [t] && [t][1..] == [];
    } else {
      assert (tests + [t])[1..] == tests[1..] + [t] && (tests + [t])[0] == tests[0];
      FilterAppend(tests[1..], t, p);
    }
  }

  lemma {:induction false} FilterTwice(tests: seq<string>, p: string -> bool, q: string -> bool)
    ensures Filter(Filter(tests, p), q) == Filter(tests, t => p(t) && q(t))
    decreases |tests|
  {
    if tests != [] {
      FilterTwice(tests[1..], p, q);
      var rest := Filter(tests[1..], p);
      assert p(tests[0]) ==> ([tests[0]] + rest)[1..] == rest;
      assert [] + rest == rest;
    }
  }

  /** Which phase a test is in: the wide one if it is parallel-safe, else the first one if it was modified, else
      the batch if it is a candidate and there are at least 8 of these, else the other serial phase. Each
      phase keeps the order of the tests. */
  lemma PhaseOfTest(
      tests: seq<string>, isParallelSafe: string -> bool, isModified: string -> bool, isCandidate: string -> bool,
      t: string)
    ensures var s := Split(tests, isParallelSafe, isModified, isCandidate);
            var batch := |Places(tests, u => !isParallelSafe(u) && !isModified(u) && isCandidate(u))| >= 8;
            var bucketed := batch && !isParallelSafe(t) && !isModified(t) && isCandidate(t);
            && (t in s.parallelSafe <==> t in tests && isParallelSafe(t))
            && (t in s.modified <==> t in tests && !isParallelSafe(t) && isModified(t))
            && (t in s.bucket <==> t in tests && bucketed)
            && (t in s.rest <==> t in tests && !isParallelSafe(t) && !isModified(t) && !bucketed)
    ensures var s := Split(tests, isParallelSafe, isModified, isCandidate);
            && Subsequence(s.parallelSafe, tests) && Subsequence(s.modified, tests)
            && Subsequence(s.bucket, tests) && Subsequence(s.rest, tests)
  {
    var s := Split(tests, isParallelSafe, isModified, isCandidate);
    var isSerial := u => !isParallelSafe(u);
    var eligible := u => !isModified(u) && isCandidate(u);
    var candidates, left := (u: string) => isSerial(u) && eligible(u), u => !isModified(u) && u !in s.bucket;
    FilterTwice(tests, isSerial, eligible);
    FilterTwice(tests, isSerial, isModified);
    FilterTwice(tests, isSerial, left);
    FilterSize(tests, candidates);
    assert Places(tests, candidates)
           == Places(tests, u => !isParallelSafe(u) && !isModified(u) && isCandidate(u));
    assert s.bucket == [] || s.bucket == Filter(tests, candidates);
    FilterIn(tests, candidates, t);
    FilterIn(tests, isParallelSafe, t);
    FilterIn(tests, u => isSerial(u) && isModified(u), t);
    FilterIn(tests, u => isSerial(u) && left(u), t);
    var a := FilterPicks(tests, isParallelSafe);
    var b := FilterPicks(tests, u => isSerial(u) && isModified(u));
    var c := FilterPicks(tests, candidates);
    var d := FilterPicks(tests, u => isSerial(u) && left(u));
    assert Picks([], [], tests);
  }

  // ----- What a parallel batch says about its files -----

  predicate Unique(s: seq<string>) { forall i, j :: 0 <= i < j < |s| ==> s[i] != s[j] }

  /** `Set.add` */
  function Add(s: seq<string>, t: string): seq<string> { if t in s then s else s + [t] }

  /** A line of the output of a batch, by what its patterns make of it. A file is None when its path is
      not one of the batch. */
  datatype Line =
    | StillRunning | NotStarted
    | Listed(file: Option<string>)
    | Ended(file: Option<string>, crashed: bool)
    | Other

  /** Which list of an interrupt report the reader is in, and the two sets. */
  datatype Reading = Reading(list: Option<Line>, failed: seq<string>, incomplete: seq<string>)

  const UNREAD := Reading(None, [], [])

  function Note(r: Reading, file: Option<string>, failed: bool): Reading {
    if file.None? then r
    else if failed then r.(failed := Add(r.failed, file.value))
    else r.(incomplete := Add(r.incomplete, file.value))
  }

  function ReadLine(r: Reading, line: Line): Reading {
    match line
    case StillRunning => r.(list := Some(StillRunning))
    case NotStarted => r.(list := Some(NotStarted))
    case Listed(file) => if r.list.Some? then Note(r, file, r.list.value == StillRunning) else r
    case Ended(file, crashed) => Note(r.(list := None), file, crashed)
    case Other => r.(list := None)
  }

  function ReadLines(lines: seq<Line>): Reading
    decreases |lines|
  {
    if lines == [] then UNREAD else ReadLine(ReadLines(lines[..|lines| - 1]), lines[|lines| - 1])
  }

  /** Reading the output of a batch that left no report. */
  method ReadOutput(lines: seq<Line>) returns (failed: seq<string>, incomplete: seq<string>)
    ensures failed == ReadLines(lines).failed && incomplete == ReadLines(lines).incomplete
    ensures forall files: seq<string> ::
              && failed == FailedIn(files, Batch(false, map[], lines))
              && incomplete == IncompleteIn(files, Batch(false, map[], lines))
  {
    var list: Option<Line> := None;
    failed, incomplete := [], [];
    for k := 0 to |lines|
      invariant Reading(list, failed, incomplete) == ReadLines(lines[..k])
    {
      var line := lines[k];
      assert lines[..k + 1][..k] == lines[..k];
      if line == StillRunning || line == NotStarted {
        list := Some(line);
      } else if list.Some? && line.Listed? {
        if line.file.Some? {
          if list.value == StillRunning {
            failed := Add(failed, line.file.value);
          } else {
            incomplete := Add(incomplete, line.file.value);
          }
        }
      } else {
        list := None;
        if line.Ended? && line.file.Some? {
          if line.crashed {
            failed := Add(failed, line.file.value);
          } else {
            incomplete := Add(incomplete, line.file.value);
          }
        }
      }
    }
    assert lines[..|lines|] == lines;
  }

  /** Line `k` is in the list under that header: nothing but listed files in between. */
  predicate Under(header: Line, lines: seq<Line>, k: int) {
    exists j :: 0 <= j < k <= |lines| && lines[j] == header && AllListed(lines, j + 1, k)
  }

  predicate AllListed(lines: seq<Line>, from: int, to: int) {
    forall i :: from <= i < to && 0 <= i < |lines| ==> lines[i].Listed?
  }

  /** Line `k` says that a file crashed or hung; or that it was never run to its end. */
  predicate SaysFailed(lines: seq<Line>, k: int, t: string) {
    0 <= k < |lines| &&
    (lines[k] == Ended(Some(t), true) || (lines[k] == Listed(Some(t)) && Under(StillRunning, lines, k)))
  }

  predicate SaysIncomplete(lines: seq<Line>, k: int, t: string) {
    0 <= k < |lines| &&
    (lines[k] == Ended(Some(t), false) || (lines[k] == Listed(Some(t)) && Under(NotStarted, lines, k)))
  }

  lemma {:induction false} ListIs(lines: seq<Line>)
    ensures var list := ReadLines(lines).list;
            && (list == None || list == Some(StillRunning) || list == Some(NotStarted))
            && (list == Some(StillRunning) <==> Under(StillRunning, lines, |lines|))
            && (list == Some(NotStarted) <==> Under(NotStarted, lines, |lines|))
    decreases |lines|
  {
    if lines != [] {
      var n := |lines| - 1;
      ListIs(lines[..n]);
      UnderStep(StillRunning, lines);
      UnderStep(NotStarted, lines);
    }
  }

  lemma UnderStep(header: Line, lines: seq<Line>)
    requires lines != [] && !header.Listed?
    ensures var n := |lines| - 1;
            Under(header, lines, n + 1) <==> lines[n] == header || (lines[n].Listed? && Under(header, lines[..n], n))
  {
    var n := |lines| - 1;
    var before := lines[..n];
    if Under(header, lines, n + 1) {
      var j :| 0 <= j < n + 1 && lines[j] == header && AllListed(lines, j + 1, n + 1);
      if j < n { assert before[j] == header && AllListed(before, j + 1, n); }
    }
    if lines[n].Listed? && Under(header, before, n) {
      var j :| 0 <= j < n && before[j] == header && AllListed(before, j + 1, n);
      assert forall i :: 0 <= i < n ==> lines[i] == before[i];
      assert AllListed(lines, j + 1, n + 1);
    }
    if lines[n] == header { assert AllListed(lines, n + 1, n + 1); }
  }

  lemma UnderPrefix(header: Line, lines: seq<Line>, n: nat, k: nat)
    requires k <= n <= |lines|
    ensures Under(header, lines[..n], k) <==> Under(header, lines, k)
  {
    var before := lines[..n];
    assert forall i :: 0 <= i < k ==> lines[i] == before[i];
    if Under(header, lines, k) {
      var j :| 0 <= j < k && lines[j] == header && AllListed(lines, j + 1, k);
      assert before[j] == header && AllListed(before, j + 1, k);
    }
    if Under(header, before, k) {
      var j :| 0 <= j < k && before[j] == header && AllListed(before, j + 1, k);
      assert lines[j] == header && AllListed(lines, j + 1, k);
    }
  }

  lemma LineSays(r: Reading, line: Line, t: string)
    requires r.list == None || r.list == Some(StillRunning) || r.list == Some(NotStarted)
    ensures t in ReadLine(r, line).failed <==>
              t in r.failed || line == Ended(Some(t), true) || (line == Listed(Some(t)) && r.list == Some(StillRunning))
    ensures t in ReadLine(r, line).incomplete <==>
              t in r.incomplete || line == Ended(Some(t), false) || (line == Listed(Some(t)) && r.list == Some(NotStarted))
  {
  }

  /** Exactly which files end up in the two sets. */
  lemma {:induction false} OutputSays(lines: seq<Line>, t: string)
    ensures t in ReadLines(lines).failed <==> exists k :: SaysFailed(lines, k, t)
    ensures t in ReadLines(lines).incomplete <==> exists k :: SaysIncomplete(lines, k, t)
    decreases |lines|
  {
    hide ReadLine, Under;
    if lines != [] {
      var n := |lines| - 1;
      OutputSays(lines[..n], t);
      ListIs(lines[..n]);
      LineSays(ReadLines(lines[..n]), lines[n], t);
      UnderPrefixes(lines);
      SaysStep(lines, t);
    }
  }

  lemma UnderPrefixes(lines: seq<Line>)
    requires lines != []
    ensures var n := |lines| - 1;
            forall k :: 0 <= k <= n ==>
              && (Under(StillRunning, lines[..n], k) <==> Under(StillRunning, lines, k))
              && (Under(NotStarted, lines[..n], k) <==> Under(NotStarted, lines, k))
  {
    hide Under;
    var n := |lines| - 1;
    forall k | 0 <= k <= n
      ensures Under(StillRunning, lines[..n], k) <==> Under(StillRunning, lines, k)
      ensures Under(NotStarted, lines[..n], k) <==> Under(NotStarted, lines, k)
    {
      UnderPrefix(StillRunning, lines, n, k);
      UnderPrefix(NotStarted, lines, n, k);
    }
  }

  lemma SaysStep(lines: seq<Line>, t: string)
    requires lines != []
    requires var n := |lines| - 1;
             forall k :: 0 <= k <= n ==>
               && (Under(StillRunning, lines[..n], k) <==> Under(StillRunning, lines, k))
               && (Under(NotStarted, lines[..n], k) <==> Under(NotStarted, lines, k))
    ensures var n := |lines| - 1;
            && ((exists k :: SaysFailed(lines, k, t)) <==> SaysFailed(lines, n, t) || exists k :: SaysFailed(lines[..n], k, t))
            && ((exists k :: SaysIncomplete(lines, k, t)) <==>
                  SaysIncomplete(lines, n, t) || exists k :: SaysIncomplete(lines[..n], k, t))
  {
    var n := |lines| - 1;
    var before := lines[..n];
    hide Under;
    assert forall k :: 0 <= k < n ==> (SaysFailed(before, k, t) <==> SaysFailed(lines, k, t));
    assert forall k :: 0 <= k < n ==> (SaysIncomplete(before, k, t) <==> SaysIncomplete(lines, k, t));
    if k :| SaysFailed(before, k, t) { assert SaysFailed(lines, k, t); }
    if k :| SaysIncomplete(before, k, t) { assert SaysIncomplete(lines, k, t); }
    if k :| SaysFailed(lines, k, t) { assert k < n ==> SaysFailed(before, k, t); }
    if k :| SaysIncomplete(lines, k, t) { assert k < n ==> SaysIncomplete(before, k, t); }
  }

  lemma {:induction false} ReadingIsUnique(lines: seq<Line>)
    ensures Unique(ReadLines(lines).failed) && Unique(ReadLines(lines).incomplete)
    decreases |lines|
  {
    if lines != [] { ReadingIsUnique(lines[..|lines| - 1]); }
  }

  // ----- Which files are run again -----

  /** What a batch leaves behind: how it ended, the suites of its report with their failures, and its
      output. */
  datatype Batch = Batch(ok: bool, suites: map<string, nat>, lines: seq<Line>)

  /** The set of the files with a property, in the order in which they are added. */
  function Collect(files: seq<string>, p: string -> bool): seq<string> {
    if files == [] then []
    else
      var n := |files| - 1;
      var r := Collect(files[..n], p);
      if p(files[n]) then Add(r, files[n]) else r
  }

  lemma {:induction false} CollectIs(files: seq<string>, p: string -> bool)
    ensures Unique(Collect(files, p)) && forall t :: t in Collect(files, p) <==> t in files && p(t)
    decreases |files|
  {
    if files != [] {
      var n := |files| - 1;
      CollectIs(files[..n], p);
      assert files == files[..n] + [files[n]];
    }
  }

  /** The files that ran and failed, and those that did not run to their end. */
  function FailedIn(files: seq<string>, b: Batch): seq<string> {
    if b.ok then []
    else if b.suites != map[] then Collect(files, t => t in b.suites && b.suites[t] > 0)
    else ReadLines(b.lines).failed
  }

  function IncompleteIn(files: seq<string>, b: Batch): seq<string> {
    if b.ok then []
    else if b.suites != map[] then Collect(files, t => t !in b.suites)
    else ReadLines(b.lines).incomplete
  }

  predicate Evidence(files: seq<string>, b: Batch) {
    if b.ok || b.suites != map[] then b.suites != map[]
    else |FailedIn(files, b)| + |IncompleteIn(files, b)| > 0
  }

  /** The files that are run again one at a time: all of them when a failed batch says nothing about
      its files, else those that failed and then those that did not finish. */
  function Rerun(files: seq<string>, b: Batch): seq<string> {
    if !b.ok && !Evidence(files, b) then files else FailedIn(files, b) + IncompleteIn(files, b)
  }

  /** What a JUnit report says about a batch: a file without a suite did not finish, one with failures
      failed. */
  method ReadReport(files: seq<string>, suites: map<string, nat>) returns (failed: seq<string>, incomplete: seq<string>)
    ensures Unique(failed) && forall t :: t in failed <==> t in files && t in suites && suites[t] > 0
    ensures Unique(incomplete) && forall t :: t in incomplete <==> t in files && t !in suites
    ensures forall b: Batch :: !b.ok && b.suites == suites && suites != map[] ==>
              failed == FailedIn(files, b) && incomplete == IncompleteIn(files, b)
  {
    failed, incomplete := [], [];
    ghost var isFailed, isIncomplete := (t: string) => t in suites && suites[t] > 0, (t: string) => t !in suites;
    for k := 0 to |files|
      invariant failed == Collect(files[..k], isFailed) && incomplete == Collect(files[..k], isIncomplete)
    {
      var t := files[k];
      assert files[..k + 1][..k] == files[..k];
      if t !in suites {
        incomplete := Add(incomplete, t);
      } else if suites[t] > 0 {
        failed := Add(failed, t);
      }
    }
    assert files[..|files|] == files;
    CollectIs(files, isFailed);
    CollectIs(files, isIncomplete);
    forall b: Batch | !b.ok && b.suites == suites && suites != map[]
      ensures failed == FailedIn(files, b) && incomplete == IncompleteIn(files, b)
    {
      SameCollect(files, isFailed, t => t in b.suites && b.suites[t] > 0);
      SameCollect(files, isIncomplete, t => t !in b.suites);
    }
  }

  lemma {:induction false} SameCollect(files: seq<string>, p: string -> bool, q: string -> bool)
    requires forall t :: p(t) == q(t)
    ensures Collect(files, p) == Collect(files, q)
    decreases |files|
  {
    if files != [] { SameCollect(files[..|files| - 1], p, q); }
  }

  /** The end of a batch: which files are run again. */
  method ReadBatch(files: seq<string>, b: Batch) returns (rerun: seq<string>)
    ensures rerun == Rerun(files, b)
  {
    var failed: seq<string>, incomplete: seq<string> := [], [];
    var evidence := b.suites != map[];
    if !b.ok && b.suites != map[] {
      failed, incomplete := ReadReport(files, b.suites);
    } else if !b.ok {
      failed, incomplete := ReadOutput(b.lines);
      evidence := |failed| + |incomplete| > 0;
    }
    rerun := if !b.ok && !evidence then files else failed + incomplete;
  }

  /** The files that pass with the batch. */
  function Passed(files: seq<string>, b: Batch): seq<string> { Filter(files, t => t !in Rerun(files, b)) }

  /** The output names no file that is not of the batch. */
  predicate OfBatch(files: seq<string>, b: Batch) {
    forall k :: 0 <= k < |b.lines| && (b.lines[k].Listed? || b.lines[k].Ended?) && b.lines[k].file.Some? ==>
      b.lines[k].file.value in files
  }

  /** A file that is in both sets, and so is run again twice. */
  predicate Both(files: seq<string>, b: Batch, t: string) { t in FailedIn(files, b) && t in IncompleteIn(files, b) }

  /** The output says something about a file. */
  ghost predicate Named(lines: seq<Line>, t: string) {
    exists k :: SaysFailed(lines, k, t) || SaysIncomplete(lines, k, t)
  }

  /** After a batch that succeeded, every file passes with it, and none is run again. */
  lemma GoodBatchPasses(files: seq<string>, b: Batch, t: string)
    requires b.ok
    ensures (t in Passed(files, b) <==> t in files) && Rerun(files, b) == []
  {
    FilterIn(files, t => t !in Rerun(files, b), t);
  }

  /** After one that failed, with a report: exactly the files that have a suite without failures pass with it,
      and exactly the others are run again, those that failed first. */
  lemma ReportMeans(files: seq<string>, b: Batch, t: string)
    requires !b.ok && b.suites != map[]
    ensures t in Passed(files, b) <==> t in files && t in b.suites && b.suites[t] == 0
    ensures t in Rerun(files, b) <==> t in files && !(t in b.suites && b.suites[t] == 0)
    ensures var rerun := Rerun(files, b);
            forall i, j :: 0 <= i < |rerun| && 0 <= j < |rerun| && rerun[i] in b.suites && rerun[j] !in b.suites ==> i < j
  {
    var isFailed, isIncomplete := t => t in b.suites && b.suites[t] > 0, t => t !in b.suites;
    CollectIs(files, isFailed);
    CollectIs(files, isIncomplete);
    assert Rerun(files, b) == Collect(files, isFailed) + Collect(files, isIncomplete);
    FilterIn(files, t => t !in Rerun(files, b), t);
    InOrder(Collect(files, isFailed), Collect(files, isIncomplete), b.suites);
  }

  lemma InOrder(a: seq<string>, c: seq<string>, suites: map<string, nat>)
    requires (forall t :: t in a ==> t in suites) && (forall t :: t in c ==> t !in suites)
    ensures forall i, j :: 0 <= i < |a + c| && 0 <= j < |a + c| && (a + c)[i] in suites && (a + c)[j] !in suites ==> i < j
  {
    assert forall i :: 0 <= i < |a| ==> (a + c)[i] == a[i] && a[i] in a;
    assert forall i :: |a| <= i < |a + c| ==> (a + c)[i] == c[i - |a|] && c[i - |a|] in c;
  }

  /** After one that failed, without a report: the files that the output says something about are run again and
      the others pass; if it says nothing about any, all of them are run again. */
  lemma OutputMeans(files: seq<string>, b: Batch, t: string)
    requires !b.ok && b.suites == map[]
    ensures (exists u :: Named(b.lines, u)) ==>
              && (t in Rerun(files, b) <==> Named(b.lines, t))
              && (t in Passed(files, b) <==> t in files && !Named(b.lines, t))
    ensures !(exists u :: Named(b.lines, u)) ==> Rerun(files, b) == files && t !in Passed(files, b)
  {
    hide SaysFailed, SaysIncomplete;
    FilterIn(files, t => t !in Rerun(files, b), t);
    var failed, incomplete := FailedIn(files, b), IncompleteIn(files, b);
    forall u ensures u in failed + incomplete <==> Named(b.lines, u) {
      OutputSays(b.lines, u);
      if k :| SaysFailed(b.lines, k, u) { assert Named(b.lines, u); }
      if k :| SaysIncomplete(b.lines, k, u) { assert Named(b.lines, u); }
    }
    assert |failed| + |incomplete| > 0 ==> (failed + incomplete)[0] in failed + incomplete;
  }

  lemma SetsAreUnique(files: seq<string>, b: Batch)
    requires OfBatch(files, b)
    ensures Unique(FailedIn(files, b)) && Unique(IncompleteIn(files, b))
    ensures forall t :: t in FailedIn(files, b) || t in IncompleteIn(files, b) ==> t in files
  {
    var failed, incomplete := t => t in b.suites && b.suites[t] > 0, t => t !in b.suites;
    CollectIs(files, failed);
    CollectIs(files, incomplete);
    ReadingIsUnique(b.lines);
    forall t | t in FailedIn(files, b) || t in IncompleteIn(files, b) ensures t in files {
      OutputSays(b.lines, t);
    }
  }

  lemma {:induction false} UniqueCount(s: seq<string>, t: string)
    requires Unique(s)
    ensures multiset(s)[t] == if t in s then 1 else 0
    decreases |s|
  {
    if s != [] {
      UniqueCount(s[1..], t);
      assert s == [s[0]] + s[1..];
    }
  }

  /** How often a file of a batch is recorded, passing with it or run again. */
  lemma RecordedCount(files: seq<string>, b: Batch, t: string)
    requires Unique(files) && OfBatch(files, b)
    ensures multiset(Passed(files, b) + Rerun(files, b))[t] == multiset(files)[t] + if Both(files, b, t) then 1 else 0
  {
    hide FailedIn, IncompleteIn;
    var rerun, p := Rerun(files, b), t => t !in Rerun(files, b);
    SetsAreUnique(files, b);
    FilterCount(files, p, t);
    UniqueCount(files, t);
    UniqueCount(FailedIn(files, b), t);
    UniqueCount(IncompleteIn(files, b), t);
    assert multiset(Passed(files, b) + rerun) == multiset(Passed(files, b)) + multiset(rerun);
    assert multiset(FailedIn(files, b) + IncompleteIn(files, b))
           == multiset(FailedIn(files, b)) + multiset(IncompleteIn(files, b));
    assert t in rerun <==> multiset(rerun)[t] > 0;
    NoEvidence(files, b, t);
  }

  lemma NoEvidence(files: seq<string>, b: Batch, t: string)
    ensures !b.ok && !Evidence(files, b) ==> !Both(files, b, t)
  {
  }

  /** Every file of the batch is recorded exactly once, exactly when none is in both sets. */
  lemma BatchRecordsEachFileOnce(files: seq<string>, b: Batch)
    requires Unique(files) && OfBatch(files, b)
    ensures multiset(Passed(files, b) + Rerun(files, b)) == multiset(files) <==> forall t :: !Both(files, b, t)
  {
    hide Passed, Rerun, Both;
    forall t ensures multiset(Passed(files, b) + Rerun(files, b))[t]
                     == multiset(files)[t] + if Both(files, b, t) then 1 else 0
    {
      RecordedCount(files, b, t);
    }
  }

  /** A report never puts a file in both sets. */
  lemma ReportRecordsEachFileOnce(files: seq<string>, b: Batch, t: string)
    requires b.ok || b.suites != map[]
    ensures !Both(files, b, t)
  {
    CollectIs(files, t => t in b.suites && b.suites[t] > 0);
    CollectIs(files, t => t !in b.suites);
  }

  /** Without a report: exactly the files that the output calls both. */
  lemma OutputRecordsTwice(files: seq<string>, b: Batch, t: string)
    requires !b.ok && b.suites == map[]
    ensures Both(files, b, t) <==> (exists k :: SaysFailed(b.lines, k, t)) && (exists k :: SaysIncomplete(b.lines, k, t))
  {
    OutputSays(b.lines, t);
  }

  /** A worker that crashed on a file that is then listed as not started. */
  lemma CrashedAndNotStarted(files: seq<string>, t: string)
    ensures Both(files, Batch(false, map[], [Ended(Some(t), true), NotStarted, Listed(Some(t))]), t)
  {
    var lines := [Ended(Some(t), true), NotStarted, Listed(Some(t))];
    assert lines[1] == NotStarted && AllListed(lines, 1 + 1, 2);
    assert Under(NotStarted, lines, 2);
    assert SaysFailed(lines, 0, t) && SaysIncomplete(lines, 2, t);
    OutputRecordsTwice(files, Batch(false, map[], lines), t);
  }
}
