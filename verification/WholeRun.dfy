/** A whole test run (scripts/runner.node.ts): the installs, then phase after phase the tests that were
    selected, in every interleaving that the limiter of a phase allows; and where each test ends up. */
module WholeRun {
  import opened Wrappers
  import opened TestRun

  // ----- What happens in a run -----

  /** Everything a run depends on. `attempts(t, i)(k)` is how attempt `k` at test `t` ends when it is run
      as number `i`. */
  datatype Plan = Plan(
    installs: seq<string>, phases: Phases, batch: Batch,
    parallelism: nat, parallelSafeWidth: nat, maxAttempts: int, attempts: (string, nat) -> nat -> Attempt)

  /** The three lists of results. */
  datatype Lists = Lists(ok: seq<Entry>, flaky: seq<Entry>, failed: seq<Entry>)

  function Of(l: Lists, v: Verdict): seq<Entry> {
    match v
    case Ok => l.ok
    case Flaky => l.flaky
    case Failed => l.failed
  }

  /** An entry goes to the list that the verdict names. */
  function Filed(l: Lists, v: Option<Verdict>, e: Entry): Lists {
    match v
    case Some(Ok) => l.(ok := l.ok + [e])
    case Some(Flaky) => l.(flaky := l.flaky + [e])
    case Some(Failed) => l.(failed := l.failed + [e])
    case None => l
  }

  /** A test as it gets its number: run on its own, or passed with the batch. */
  datatype Job = Job(title: string, batch: bool)

  function EntryOf(p: Plan, job: Job, index: nat): Entry {
    Entry(job.title, index, if job.batch then Pass else p.attempts(job.title, index)(1))
  }

  function VerdictOf(p: Plan, job: Job, index: nat): Option<Verdict> {
    if job.batch then Some(Ok) else Judge(p.attempts(job.title, index), p.maxAttempts, 1, false)
  }

  /** A test between getting its number and its entry. */
  datatype Active = Active(index: nat, title: string)

  /** `queue` are the tests of the phase that wait for a slot, `held` are those that have one and are not
      numbered yet, and `started` is what has been given a number, in that order. */
  datatype World = World(
    i: nat, queue: seq<string>, held: seq<string>, active: seq<Active>, lists: Lists, started: seq<Job>)

  const START := World(0, [], [], [], Lists([], [], []), [])

  /** The next test of the phase takes a slot; a test that has one gets its number, which it may have to wait
      for (`awaitNapiPrebuild`); or a test that is active ends. */
  datatype Step = Take | Begin(place: nat) | End(place: nat)

  predicate Enabled(w: World, width: nat, step: Step) {
    match step
    case Take => w.queue != [] && |w.held| + |w.active| < width
    case Begin(place) => place < |w.held|
    case End(place) => place < |w.active|
  }

  function Without<T>(s: seq<T>, k: nat): seq<T>
    requires k < |s|
  {
    s[..k] + s[k + 1..]
  }

  function Next(p: Plan, w: World, width: nat, step: Step): World
    requires Enabled(w, width, step)
  {
    match step
    case Take => w.(queue := w.queue[1..], held := w.held + [w.queue[0]])
    case Begin(place) =>
      var t := w.held[place];
      w.(i := w.i + 1, held := Without(w.held, place), active := w.active + [Active(w.i + 1, t)],
         started := w.started + [Job(t, false)])
    case End(place) =>
      var a := w.active[place];
      var job := Job(a.title, false);
      w.(active := Without(w.active, place), lists := Filed(w.lists, VerdictOf(p, job, a.index), EntryOf(p, job, a.index)))
  }

  predicate Legal(p: Plan, w: World, width: nat, steps: seq<Step>)
    decreases |steps|
  {
    steps == [] || (Enabled(w, width, steps[0]) && Legal(p, Next(p, w, width, steps[0]), width, steps[1..]))
  }

  function Run(p: Plan, w: World, width: nat, steps: seq<Step>): World
    requires Legal(p, w, width, steps)
    decreases |steps|
  {
    if steps == [] then w else Run(p, Next(p, w, width, steps[0]), width, steps[1..])
  }

  /** A file passes with the batch. */
  function PassOne(p: Plan, w: World, t: string): World {
    var job := Job(t, true);
    w.(i := w.i + 1, lists := Filed(w.lists, VerdictOf(p, job, w.i + 1), EntryOf(p, job, w.i + 1)), started := w.started + [job])
  }

  function PassAll(p: Plan, w: World, files: seq<string>): World
    decreases |files|
  {
    if files == [] then w else PassAll(p, PassOne(p, w, files[0]), files[1..])
  }

  /** Some tests, each on its own and `width` at a time, or some files that pass with the batch. */
  datatype Phase = Solo(tests: seq<string>, width: nat) | Passing(files: seq<string>)

  predicate Between(w: World) { w.queue == [] && w.held == [] && w.active == [] }

  /** A phase is over when all of its tests have ended. */
  predicate LegalPhase(p: Plan, w: World, phase: Phase, steps: seq<Step>) {
    match phase
    case Solo(tests, width) =>
      && Legal(p, w.(queue := tests), width, steps)
      && Between(Run(p, w.(queue := tests), width, steps))
    case Passing(_) => steps == []
  }

  function RunPhase(p: Plan, w: World, phase: Phase, steps: seq<Step>): World
    requires LegalPhase(p, w, phase, steps)
  {
    match phase
    case Solo(tests, width) => Run(p, w.(queue := tests), width, steps)
    case Passing(files) => PassAll(p, w, files)
  }

  predicate LegalPhases(p: Plan, w: World, phases: seq<Phase>, schedule: seq<seq<Step>>)
    decreases |phases|
  {
    |schedule| == |phases| &&
    (phases == [] ||
     (LegalPhase(p, w, phases[0], schedule[0]) &&
      LegalPhases(p, RunPhase(p, w, phases[0], schedule[0]), phases[1..], schedule[1..])))
  }

  function RunPhases(p: Plan, w: World, phases: seq<Phase>, schedule: seq<seq<Step>>): World
    requires LegalPhases(p, w, phases, schedule)
    decreases |phases|
  {
    if phases == [] then w else RunPhases(p, RunPhase(p, w, phases[0], schedule[0]), phases[1..], schedule[1..])
  }

  /** The phases of the selected tests. The files of the batch pass with it or are run again. */
  function TestPhases(p: Plan): seq<Phase> {
    var files := p.phases.bucket;
    [Solo(p.phases.modified, p.parallelism), Solo(p.phases.rest, p.parallelism),
     Passing(TestRun.Passed(files, p.batch)), Solo(Rerun(files, p.batch), 1),
     Solo(p.phases.parallelSafe, p.parallelSafeWidth)]
  }

  /** The installs come first, and nothing else is run if one of them fails. */
  predicate LegalRun(p: Plan, installing: seq<Step>, schedule: seq<seq<Step>>) {
    LegalPhase(p, START, Solo(p.installs, 1), installing) &&
    var w := RunPhase(p, START, Solo(p.installs, 1), installing);
    if w.lists.failed != [] then schedule == [] else LegalPhases(p, w, TestPhases(p), schedule)
  }

  function RunAll(p: Plan, installing: seq<Step>, schedule: seq<seq<Step>>): World
    requires LegalRun(p, installing, schedule)
  {
    var w := RunPhase(p, START, Solo(p.installs, 1), installing);
    if w.lists.failed != [] then w else RunPhases(p, w, TestPhases(p), schedule)
  }

  // ----- What each list must hold -----

  /** The entries of the tests with a verdict, if `started[k]` is number `k + 1`. */
  function Due(p: Plan, started: seq<Job>, v: Verdict): seq<Entry> {
    if started == [] then []
    else
      var n := |started| - 1;
      Due(p, started[..n], v) + if VerdictOf(p, started[n], n + 1) == Some(v) then [EntryOf(p, started[n], n + 1)] else []
  }

  function DueActive(p: Plan, active: seq<Active>, v: Verdict): seq<Entry> {
    if active == [] then []
    else
      var a := active[0];
      var job := Job(a.title, false);
      (if VerdictOf(p, job, a.index) == Some(v) then [EntryOf(p, job, a.index)] else []) + DueActive(p, active[1..], v)
  }

  /** At every moment: each list holds what is due, but for the tests that are still active. */
  ghost predicate Accounted(p: Plan, w: World) {
    && w.i == |w.started|
    && forall v :: multiset(Of(w.lists, v)) + multiset(DueActive(p, w.active, v)) == multiset(Due(p, w.started, v))
  }

  lemma DueAppend(p: Plan, started: seq<Job>, job: Job, v: Verdict)
    ensures Due(p, started + [job], v)
            == Due(p, started, v)
               + if VerdictOf(p, job, |started| + 1) == Some(v) then [EntryOf(p, job, |started| + 1)] else []
  {
    assert (started + [job])[..|started|] == started;
  }

  lemma {:induction false} DueActiveConcat(p: Plan, a: seq<Active>, b: seq<Active>, v: Verdict)
    ensures DueActive(p, a + b, v) == DueActive(p, a, v) + DueActive(p, b, v)
    decreases |a|
  {
    if a == [] {
      assert a + b == b;
    } else {
      assert (a + b)[1..] == a[1..] + b && (a + b)[0] == a[0];
      DueActiveConcat(p, a[1..], b, v);
    }
  }

  lemma DueActiveOne(p: Plan, a: Active, v: Verdict)
    ensures var job := Job(a.title, false);
            DueActive(p, [a], v) == if VerdictOf(p, job, a.index) == Some(v) then [EntryOf(p, job, a.index)] else []
  {
    assert [a][1..] == [];
  }

  lemma DueActiveWithout(p: Plan, active: seq<Active>, place: nat, v: Verdict)
    requires place < |active|
    ensures multiset(DueActive(p, active, v))
            == multiset(DueActive(p, Without(active, place), v)) + multiset(DueActive(p, [active[place]], v))
  {
    var a, b := active[..place], active[place + 1..];
    assert active == a + ([active[place]] + b);
    DueActiveConcat(p, a, [active[place]] + b, v);
    DueActiveConcat(p, [active[place]], b, v);
    DueActiveConcat(p, a, b, v);
  }

  lemma FiledIs(l: Lists, verdict: Option<Verdict>, e: Entry, v: Verdict)
    ensures Of(Filed(l, verdict, e), v) == Of(l, v) + if verdict == Some(v) then [e] else []
  {
  }

  lemma BeginAccounts(p: Plan, w: World, width: nat, place: nat)
    requires Accounted(p, w) && Enabled(w, width, Begin(place))
    ensures Accounted(p, Next(p, w, width, Begin(place)))
  {
    hide Judge;
    var w', t := Next(p, w, width, Begin(place)), w.held[place];
    forall v ensures multiset(Of(w'.lists, v)) + multiset(DueActive(p, w'.active, v)) == multiset(Due(p, w'.started, v)) {
      var a := Active(w.i + 1, t);
      DueAppend(p, w.started, Job(t, false), v);
      DueActiveConcat(p, w.active, [a], v);
      DueActiveOne(p, a, v);
    }
  }

  lemma EndAccounts(p: Plan, w: World, width: nat, place: nat)
    requires Accounted(p, w) && Enabled(w, width, End(place))
    ensures Accounted(p, Next(p, w, width, End(place)))
  {
    hide Judge, Filed;
    var w' := Next(p, w, width, End(place));
    forall v ensures multiset(Of(w'.lists, v)) + multiset(DueActive(p, w'.active, v)) == multiset(Due(p, w'.started, v)) {
      var a := w.active[place];
      DueActiveWithout(p, w.active, place, v);
      DueActiveOne(p, a, v);
      FiledIs(w.lists, VerdictOf(p, Job(a.title, false), a.index), EntryOf(p, Job(a.title, false), a.index), v);
      Moves(Of(w.lists, v), Of(w'.lists, v), DueActive(p, [a], v),
            DueActive(p, w.active, v), DueActive(p, w'.active, v));
    }
  }

  lemma Moves(l: seq<Entry>, l': seq<Entry>, e: seq<Entry>, a: seq<Entry>, a': seq<Entry>)
    requires l' == l + e && multiset(a) == multiset(a') + multiset(e)
    ensures multiset(l') + multiset(a') == multiset(l) + multiset(a)
  {
  }

  lemma PassAccounts(p: Plan, w: World, t: string)
    requires Accounted(p, w)
    ensures Accounted(p, PassOne(p, w, t))
  {
    hide Judge, Filed;
    var w', job := PassOne(p, w, t), Job(t, true);
    forall v ensures multiset(Of(w'.lists, v)) + multiset(DueActive(p, w'.active, v)) == multiset(Due(p, w'.started, v)) {
      DueAppend(p, w.started, job, v);
      FiledIs(w.lists, VerdictOf(p, job, w.i + 1), EntryOf(p, job, w.i + 1), v);
    }
  }

  // ----- Who is started -----

  function Alone(tests: seq<string>): (jobs: seq<Job>)
    ensures |jobs| == |tests|
  {
    seq(|tests|, k requires 0 <= k < |tests| => Job(tests[k], false))
  }

  function WithBatch(files: seq<string>): (jobs: seq<Job>)
    ensures |jobs| == |files|
  {
    seq(|files|, k requires 0 <= k < |files| => Job(files[k], true))
  }

  function JobsOf(phase: Phase): seq<Job> {
    match phase
    case Solo(tests, _) => Alone(tests)
    case Passing(files) => WithBatch(files)
  }

  function AllJobs(phases: seq<Phase>): seq<Job> {
    if phases == [] then [] else JobsOf(phases[0]) + AllJobs(phases[1..])
  }

  /** The tests of a phase that are still to be numbered. */
  function Line(w: World): seq<string> { w.held + w.queue }

  /** At every moment of a phase: everything is accounted for, and what has been numbered and what has not
      are the tests of the phase. */
  lemma {:induction false} RunAccounts(p: Plan, w: World, width: nat, steps: seq<Step>) returns (more: seq<Job>)
    requires Accounted(p, w) && Legal(p, w, width, steps)
    ensures var w' := Run(p, w, width, steps);
            && Accounted(p, w') && w'.started == w.started + more
            && multiset(more) + multiset(Alone(Line(w'))) == multiset(Alone(Line(w)))
    decreases |steps|
  {
    hide Accounted, Judge;
    if steps == [] {
      more := [];
      assert w.started + [] == w.started;
    } else {
      var w1 := Next(p, w, width, steps[0]);
      match steps[0] {
        case Take =>
          TakeAccounts(p, w, width);
          more := RunAccounts(p, w1, width, steps[1..]);
        case End(place) =>
          EndAccounts(p, w, width, place);
          more := RunAccounts(p, w1, width, steps[1..]);
        case Begin(place) =>
          BeginAccounts(p, w, width, place);
          var rest := RunAccounts(p, w1, width, steps[1..]);
          var job := Job(w.held[place], false);
          more := [job] + rest;
          Assoc(w.started, [job], rest);
          LineWithout(w, place);
      }
    }
  }

  lemma TakeAccounts(p: Plan, w: World, width: nat)
    requires Accounted(p, w) && Enabled(w, width, Take)
    ensures var w1 := Next(p, w, width, Take); Accounted(p, w1) && Line(w1) == Line(w)
  {
  }

  lemma LineWithout(w: World, place: nat)
    requires place < |w.held|
    ensures multiset(Alone(Line(w)))
            == multiset{Job(w.held[place], false)} + multiset(Alone(Without(w.held, place) + w.queue))
  {
    assert Alone(Line(w))
           == Alone(w.held[..place]) + [Job(w.held[place], false)] + Alone(w.held[place + 1..] + w.queue);
    assert Alone(Without(w.held, place) + w.queue) == Alone(w.held[..place]) + Alone(w.held[place + 1..] + w.queue);
  }

  // ----- The order of the numbers -----

  /** Numbers are given in the order in which slots were taken. */
  predicate InTurn(steps: seq<Step>) { forall k :: 0 <= k < |steps| && steps[k].Begin? ==> steps[k].place == 0 }

  lemma AloneFirst(tests: seq<string>)
    requires tests != []
    ensures Alone(tests) == [Job(tests[0], false)] + Alone(tests[1..])
  {
  }

  /** In a run of some tests to the end: the numbers follow the list exactly if they are given in turn. */
  lemma {:induction false} InListOrderIff(p: Plan, w: World, width: nat, steps: seq<Step>)
    requires Legal(p, w, width, steps) && Line(Run(p, w, width, steps)) == [] && Unique(Line(w))
    ensures Run(p, w, width, steps).started == w.started + Alone(Line(w)) <==> InTurn(steps)
    decreases |steps|
  {
    hide Judge, VerdictOf;
    if steps == [] {
      assert Alone([]) == [] && w.started + [] == w.started;
    } else {
      var w1, rest := Next(p, w, width, steps[0]), steps[1..];
      assert InTurn(steps) <==> (steps[0].Begin? ==> steps[0].place == 0) && InTurn(rest) by { InTurnStep(steps); }
      match steps[0] {
        case Take =>
          assert Line(w1) == Line(w);
          InListOrderIff(p, w1, width, rest);
        case End(_) => InListOrderIff(p, w1, width, rest);
        case Begin(place) => BeginInOrder(p, w, width, steps);
      }
    }
  }

  lemma InTurnStep(steps: seq<Step>)
    requires steps != []
    ensures InTurn(steps) <==> (steps[0].Begin? ==> steps[0].place == 0) && InTurn(steps[1..])
  {
    assert forall k :: 1 <= k < |steps| ==> steps[k] == steps[1..][k - 1];
  }

  lemma {:induction false} BeginInOrder(p: Plan, w: World, width: nat, steps: seq<Step>)
    requires Legal(p, w, width, steps) && Line(Run(p, w, width, steps)) == [] && Unique(Line(w))
    requires steps != [] && steps[0].Begin?
    ensures Run(p, w, width, steps).started == w.started + Alone(Line(w)) <==> steps[0].place == 0 && InTurn(steps[1..])
    decreases |steps|, 0
  {
    hide Judge, VerdictOf, InTurn;
    var w1, rest, t := Next(p, w, width, steps[0]), steps[1..], w.held[steps[0].place];
    var end := Run(p, w, width, steps).started;
    assert Line(w)[0] == w.held[0] && Line(w)[steps[0].place] == t;
    AloneFirst(Line(w));
    StartedGrows(p, w1, width, rest);
    assert end[|w.started|] == Job(t, false);
    if steps[0].place == 0 {
      assert Line(w1) == Line(w)[1..];
      InListOrderIff(p, w1, width, rest);
      Assoc(w.started, [Job(t, false)], Alone(Line(w1)));
    } else {
      assert (w.started + Alone(Line(w)))[|w.started|] == Job(w.held[0], false);
    }
  }

  lemma {:induction false} StartedGrows(p: Plan, w: World, width: nat, steps: seq<Step>)
    requires Legal(p, w, width, steps)
    ensures w.started <= Run(p, w, width, steps).started
    decreases |steps|
  {
    hide Judge, VerdictOf;
    if steps != [] { StartedGrows(p, Next(p, w, width, steps[0]), width, steps[1..]); }
  }

  /** One test at a time has to be in turn, and then the tests may be listed twice. */
  lemma {:induction false} OneAtATime(p: Plan, w: World, steps: seq<Step>)
    requires Legal(p, w, 1, steps) && |w.held| + |w.active| <= 1 && Line(Run(p, w, 1, steps)) == []
    ensures Run(p, w, 1, steps).started == w.started + Alone(Line(w)) && InTurn(steps)
    decreases |steps|
  {
    hide Judge, VerdictOf;
    if steps == [] {
      assert Alone([]) == [] && w.started + [] == w.started;
    } else {
      var w1, rest := Next(p, w, 1, steps[0]), steps[1..];
      OneAtATime(p, w1, rest);
      InTurnStep(steps);
      match steps[0] {
        case Take => assert Line(w1) == Line(w);
        case End(_) =>
        case Begin(_) =>
          AloneFirst(Line(w));
          assert Line(w1) == Line(w)[1..];
          Assoc(w.started, [Job(w.held[0], false)], Alone(Line(w1)));
      }
    }
  }

  /** Two at a time, and the first one has to wait for its number: it gets the second one. */
  lemma NumbersOutOfOrder(p: Plan, w: World, steps: seq<Step>)
    requires w == START.(queue := ["a", "b"]) && steps == [Take, Take, Begin(1), Begin(0)]
    ensures Legal(p, w, 2, steps) && Run(p, w, 2, steps).active == [Active(1, "b"), Active(2, "a")]
  {
    hide Judge, VerdictOf, Filed, EntryOf;
    var w1 := w.(queue := ["b"], held := ["a"]);
    var w2 := w.(queue := [], held := ["a", "b"]);
    var w3 := w2.(i := 1, held := ["a"], active := [Active(1, "b")], started := [Job("b", false)]);
    var w4 := w3.(i := 2, held := [], active := [Active(1, "b"), Active(2, "a")], started := [Job("b", false), Job("a", false)]);
    assert Next(p, w, 2, Take) == w1 && Next(p, w1, 2, Take) == w2;
    assert Next(p, w2, 2, Begin(1)) == w3 && Next(p, w3, 2, Begin(0)) == w4;
    assert steps[1..] == [Take, Begin(1), Begin(0)] && steps[1..][1..] == [Begin(1), Begin(0)];
    assert steps[1..][1..][1..] == [Begin(0)] && steps[1..][1..][1..][1..] == [];
    assert Legal(p, w3, 2, [Begin(0)]) && Run(p, w3, 2, [Begin(0)]) == w4;
    assert Legal(p, w2, 2, [Begin(1), Begin(0)]) && Run(p, w2, 2, [Begin(1), Begin(0)]) == w4;
  }

  lemma {:induction false} PassAllAccounts(p: Plan, w: World, files: seq<string>)
    requires Accounted(p, w)
    ensures var w' := PassAll(p, w, files);
            && Accounted(p, w') && w'.started == w.started + WithBatch(files)
            && w'.queue == w.queue && w'.held == w.held && w'.active == w.active
    decreases |files|
  {
    hide Accounted;
    if files != [] {
      PassAccounts(p, w, files[0]);
      PassAllAccounts(p, PassOne(p, w, files[0]), files[1..]);
      assert WithBatch(files) == [Job(files[0], true)] + WithBatch(files[1..]);
    }
  }

  /** What a phase adds: its tests, and in their order unless several of them are run at a time. */
  ghost predicate Adds(phase: Phase, more: seq<Job>) {
    && multiset(more) == multiset(JobsOf(phase))
    && (phase.Passing? || phase.width == 1 ==> more == JobsOf(phase))
  }

  lemma PhaseAccounts(p: Plan, w: World, phase: Phase, steps: seq<Step>) returns (more: seq<Job>)
    requires Accounted(p, w) && Between(w) && LegalPhase(p, w, phase, steps)
    ensures var w' := RunPhase(p, w, phase, steps);
            Accounted(p, w') && Between(w') && w'.started == w.started + more && Adds(phase, more)
  {
    match phase {
      case Solo(tests, width) =>
        var w1 := w.(queue := tests);
        assert Accounted(p, w1) && Line(w1) == tests && Alone([]) == [];
        more := RunAccounts(p, w1, width, steps);
        if width == 1 {
          OneAtATime(p, w1, steps);
          assert more == (w.started + more)[|w.started|..] && Alone(tests) == (w.started + Alone(tests))[|w.started|..];
        }
      case Passing(files) =>
        PassAllAccounts(p, w, files);
        more := WithBatch(files);
    }
  }

  /** Phase by phase, each adds its tests. */
  ghost predicate PhaseByPhase(phases: seq<Phase>, jobs: seq<Job>)
    decreases |phases|
  {
    if phases == [] then jobs == []
    else
      var n := |JobsOf(phases[0])|;
      n <= |jobs| && Adds(phases[0], jobs[..n]) && PhaseByPhase(phases[1..], jobs[n..])
  }

  lemma AddsMany(phase: Phase, more: seq<Job>)
    requires Adds(phase, more)
    ensures |more| == |JobsOf(phase)|
  {
    assert |multiset(more)| == |more| && |multiset(JobsOf(phase))| == |JobsOf(phase)|;
  }

  lemma {:induction false} PhasesAccount(p: Plan, w: World, phases: seq<Phase>, schedule: seq<seq<Step>>)
    returns (more: seq<Job>)
    requires Accounted(p, w) && Between(w) && LegalPhases(p, w, phases, schedule)
    ensures var w' := RunPhases(p, w, phases, schedule);
            Accounted(p, w') && Between(w') && w'.started == w.started + more && PhaseByPhase(phases, more)
    decreases |phases|
  {
    hide Accounted, RunPhase, LegalPhase, Adds;
    if phases == [] {
      more := [];
      assert w.started + [] == w.started;
    } else {
      var first := PhaseAccounts(p, w, phases[0], schedule[0]);
      var rest := PhasesAccount(p, RunPhase(p, w, phases[0], schedule[0]), phases[1..], schedule[1..]);
      more := first + rest;
      AddsMany(phases[0], first);
      assert more[..|first|] == first && more[|first|..] == rest;
      Assoc(w.started, first, rest);
    }
  }

  lemma {:induction false} PhasesAddAll(phases: seq<Phase>, jobs: seq<Job>)
    requires PhaseByPhase(phases, jobs)
    ensures multiset(jobs) == multiset(AllJobs(phases))
    decreases |phases|
  {
    if phases != [] {
      var n := |JobsOf(phases[0])|;
      PhasesAddAll(phases[1..], jobs[n..]);
      assert jobs == jobs[..n] + jobs[n..];
    }
  }

  // ----- The whole run -----

  ghost predicate InstallFails(p: Plan) {
    exists k :: 0 <= k < |p.installs| && VerdictOf(p, Job(p.installs[k], false), k + 1) == Some(Failed)
  }

  /** The phases that are run. */
  ghost function AllPhases(p: Plan): seq<Phase> {
    [Solo(p.installs, 1)] + if InstallFails(p) then [] else TestPhases(p)
  }

  lemma {:induction false} DueIs(p: Plan, started: seq<Job>, v: Verdict)
    ensures Due(p, started, v) == [] <==> forall k :: 0 <= k < |started| ==> VerdictOf(p, started[k], k + 1) != Some(v)
    ensures forall e :: e in Due(p, started, v) ==>
              exists k :: 0 <= k < |started| && VerdictOf(p, started[k], k + 1) == Some(v) && e == EntryOf(p, started[k], k + 1)
    decreases |started|
  {
    if started != [] {
      var n := |started| - 1;
      DueIs(p, started[..n], v);
      assert forall k :: 0 <= k < n ==> started[..n][k] == started[k];
    }
  }

  lemma InstallsEnd(p: Plan, installing: seq<Step>)
    requires LegalPhase(p, START, Solo(p.installs, 1), installing)
    ensures var w := RunPhase(p, START, Solo(p.installs, 1), installing);
            && Accounted(p, w) && Between(w) && w.started == Alone(p.installs)
            && (w.lists.failed != [] <==> InstallFails(p))
  {
    hide RunPhase, LegalPhase, VerdictOf, Accounted, Due;
    StartAccounted(p);
    var more := PhaseAccounts(p, START, Solo(p.installs, 1), installing);
    var w := RunPhase(p, START, Solo(p.installs, 1), installing);
    assert w.started == [] + more == Alone(p.installs);
    Settled(p, w);
    DueIs(p, Alone(p.installs), Failed);
    EmptyList(Of(w.lists, Failed), Due(p, w.started, Failed));
    assert forall k :: 0 <= k < |p.installs| ==> Alone(p.installs)[k] == Job(p.installs[k], false);
    if InstallFails(p) {
      var k :| 0 <= k < |p.installs| && VerdictOf(p, Job(p.installs[k], false), k + 1) == Some(Failed);
      assert VerdictOf(p, Alone(p.installs)[k], k + 1) == Some(Failed);
    }
  }

  /** In every interleaving: phase by phase, the tests of the phase are numbered, and each of the three lists
      ends up with exactly the entries that are due there for these numbers. */
  lemma EveryRunFilesWhatIsDue(p: Plan, installing: seq<Step>, schedule: seq<seq<Step>>)
    requires LegalRun(p, installing, schedule)
    ensures var w := RunAll(p, installing, schedule);
            && PhaseByPhase(AllPhases(p), w.started) && w.i == |w.started|
            && forall v :: multiset(Of(w.lists, v)) == multiset(Due(p, w.started, v))
  {
    hide RunPhase, LegalPhase, RunPhases, LegalPhases, InstallFails, Due, Of, TestPhases, Alone, DueActive, PhaseByPhase;
    InstallsEnd(p, installing);
    var w := RunPhase(p, START, Solo(p.installs, 1), installing);
    var more: seq<Job> := [];
    if w.lists.failed == [] { more := PhasesAccount(p, w, TestPhases(p), schedule); } else { NoPhases(); }
    InstallsFirst(p, more);
    assert Alone(p.installs) + [] == Alone(p.installs);
    Settled(p, RunAll(p, installing, schedule));
  }

  lemma NoPhases()
    ensures PhaseByPhase([], [])
  {
  }

  lemma InstallsFirst(p: Plan, more: seq<Job>)
    requires PhaseByPhase(if InstallFails(p) then [] else TestPhases(p), more)
    ensures PhaseByPhase(AllPhases(p), Alone(p.installs) + more)
  {
    hide InstallFails, TestPhases;
    var phases, jobs := AllPhases(p), Alone(p.installs) + more;
    assert jobs[..|Alone(p.installs)|] == Alone(p.installs) && jobs[|Alone(p.installs)|..] == more;
    assert phases[1..] == if InstallFails(p) then [] else TestPhases(p);
  }

  lemma OnePhase(phases: seq<Phase>, jobs: seq<Job>) returns (first: seq<Job>, rest: seq<Job>)
    requires phases != [] && PhaseByPhase(phases, jobs)
    ensures jobs == first + rest && Adds(phases[0], first) && PhaseByPhase(phases[1..], rest)
  {
    hide Adds;
    var n := |JobsOf(phases[0])|;
    first, rest := jobs[..n], jobs[n..];
  }

  /** The phases, spelled out: the installs, the modified tests, the other serial ones, the batch, what is run
      again of it, and the parallel-safe tests last. The serial tests are run `parallelism` at a time, what
      is run again one at a time, and the parallel-safe tests `parallelSafeWidth` at a time; so with a
      width of 1 they keep their order. */
  lemma PhasesInOrder(p: Plan, installing: seq<Step>, schedule: seq<seq<Step>>)
    returns (modified: seq<Job>, others: seq<Job>, last: seq<Job>)
    requires LegalRun(p, installing, schedule) && !InstallFails(p)
    ensures RunAll(p, installing, schedule).started
            == Alone(p.installs) + (modified + (others + (WithBatch(TestRun.Passed(p.phases.bucket, p.batch))
                                                          + (Alone(Rerun(p.phases.bucket, p.batch)) + last))))
    ensures multiset(modified) == multiset(Alone(p.phases.modified)) && multiset(others) == multiset(Alone(p.phases.rest))
    ensures multiset(last) == multiset(Alone(p.phases.parallelSafe))
    ensures p.parallelism == 1 ==> modified == Alone(p.phases.modified) && others == Alone(p.phases.rest)
    ensures p.parallelSafeWidth == 1 ==> last == Alone(p.phases.parallelSafe)
  {
    hide RunAll, LegalRun, InstallFails, PhaseByPhase, Alone, WithBatch, Due, Of, TestRun.Passed, Rerun;
    EveryRunFilesWhatIsDue(p, installing, schedule);
    var started, f := RunAll(p, installing, schedule).started, TestPhases(p);
    assert AllPhases(p)[1..] == f;
    var installs, r0 := OnePhase(AllPhases(p), started);
    var r1, r2, r3, r4, r5, passed, again;
    modified, r1 := OnePhase(f, r0);
    others, r2 := OnePhase(f[1..], r1);
    passed, r3 := OnePhase(f[1..][1..], r2);
    again, r4 := OnePhase(f[1..][1..][1..], r3);
    last, r5 := OnePhase(f[1..][1..][1..][1..], r4);
    assert f[1..][1..][1..][1..][1..] == [];
    NoMorePhases(r5);
    assert last + [] == last;
  }

  lemma NoMorePhases(jobs: seq<Job>)
    requires PhaseByPhase([], jobs)
    ensures jobs == []
  {
  }

  lemma EmptyList<S>(a: seq<S>, b: seq<S>)
    requires multiset(a) == multiset(b)
    ensures a == [] <==> b == []
  {
    assert |multiset(a)| == |a| && |multiset(b)| == |b|;
  }

  lemma StartAccounted(p: Plan)
    ensures Accounted(p, START) && Between(START)
  {
    assert forall v :: Of(START.lists, v) == [];
  }

  lemma Settled(p: Plan, w: World)
    requires Accounted(p, w) && Between(w)
    ensures forall v :: multiset(Of(w.lists, v)) == multiset(Due(p, w.started, v))
  {
    forall v ensures multiset(Of(w.lists, v)) == multiset(Due(p, w.started, v)) {
      assert DueActive(p, [], v) == [];
    }
  }

  // ----- Conservation -----

  /** `[...okResults, ...failedResults].every(({ ok }) => ok)` */
  predicate Passes(l: Lists) { forall e :: e in l.ok + l.failed ==> e.first == Pass }

  /** What each number was given to. */
  function Expected(p: Plan, started: seq<Job>): (s: seq<Entry>)
    ensures |s| == |started|
  {
    seq(|started|, k requires 0 <= k < |started| => EntryOf(p, started[k], k + 1))
  }

  /** Every test is due in exactly one list. */
  lemma {:induction false} DueOnce(p: Plan, started: seq<Job>)
    requires p.maxAttempts >= 1
    ensures multiset(Due(p, started, Ok)) + multiset(Due(p, started, Flaky)) + multiset(Due(p, started, Failed))
            == multiset(Expected(p, started))
    decreases |started|
  {
    if started == [] {
      assert Expected(p, started) == [];
    } else {
      var n := |started| - 1;
      var job, before := started[n], started[..n];
      assert Expected(p, started) == Expected(p, before) + [EntryOf(p, job, n + 1)];
      hide Due, VerdictOf, EntryOf, Expected;
      DueOnce(p, before);
      assert started == before + [job];
      DueAppend(p, before, job, Ok);
      DueAppend(p, before, job, Flaky);
      DueAppend(p, before, job, Failed);
      HasVerdict(p, job, n + 1);
      OneOfThree(Due(p, before, Ok), Due(p, before, Flaky), Due(p, before, Failed),
                 VerdictOf(p, job, n + 1).value, EntryOf(p, job, n + 1));
    }
  }

  lemma HasVerdict(p: Plan, job: Job, index: nat)
    requires p.maxAttempts >= 1
    ensures VerdictOf(p, job, index).Some?
  {
    VerdictMeans(p.attempts(job.title, index), p.maxAttempts);
  }

  lemma OneOfThree(a: seq<Entry>, b: seq<Entry>, c: seq<Entry>, v: Verdict, e: Entry)
    ensures multiset(a + if v == Ok then [e] else []) + multiset(b + if v == Flaky then [e] else [])
            + multiset(c + if v == Failed then [e] else [])
            == multiset(a) + multiset(b) + multiset(c) + multiset{e}
  {
  }

  function Titles(jobs: seq<Job>): (t: seq<string>)
    ensures |t| == |jobs|
  {
    seq(|jobs|, k requires 0 <= k < |jobs| => jobs[k].title)
  }

  lemma TitlesConcat(a: seq<Job>, b: seq<Job>)
    ensures Titles(a + b) == Titles(a) + Titles(b)
  {
  }

  lemma TitlesOfAlone(tests: seq<string>)
    ensures Titles(Alone(tests)) == tests && Titles(WithBatch(tests)) == tests
  {
  }

  lemma TitlesOfPhases(p: Plan)
    ensures var s := p.phases;
            multiset(Titles(AllJobs(TestPhases(p))))
            == multiset(s.modified) + multiset(s.rest)
               + multiset(TestRun.Passed(s.bucket, p.batch) + Rerun(s.bucket, p.batch)) + multiset(s.parallelSafe)
  {
    hide TestRun.Passed, Rerun, Titles;
    var phases := TestPhases(p);
    var m, r, b, a, s := JobsOf(phases[0]), JobsOf(phases[1]), JobsOf(phases[2]), JobsOf(phases[3]), JobsOf(phases[4]);
    FivePhases(phases);
    TitlesConcat(m, r + (b + (a + s)));
    TitlesConcat(r, b + (a + s));
    TitlesConcat(b, a + s);
    TitlesConcat(a, s);
    TitlesOfAlone(p.phases.modified);
    TitlesOfAlone(p.phases.rest);
    TitlesOfAlone(TestRun.Passed(p.phases.bucket, p.batch));
    TitlesOfAlone(Rerun(p.phases.bucket, p.batch));
    TitlesOfAlone(p.phases.parallelSafe);
  }

  lemma FivePhases(f: seq<Phase>)
    requires |f| == 5
    ensures AllJobs(f) == JobsOf(f[0]) + (JobsOf(f[1]) + (JobsOf(f[2]) + (JobsOf(f[3]) + JobsOf(f[4]))))
  {
    hide JobsOf;
    assert AllJobs(f[1..][1..][1..][1..]) == JobsOf(f[4]) + AllJobs(f[1..][1..][1..][1..][1..]);
    assert AllJobs(f[1..][1..][1..]) == JobsOf(f[3]) + AllJobs(f[1..][1..][1..][1..]);
    assert AllJobs(f[1..][1..]) == JobsOf(f[2]) + AllJobs(f[1..][1..][1..]);
    assert f[1..][1..][1..][1..][1..] == [] && JobsOf(f[4]) + [] == JobsOf(f[4]);
  }

  function Project<S, T>(s: seq<S>, f: S -> T): (t: seq<T>)
    ensures |t| == |s|
  {
    seq(|s|, k requires 0 <= k < |s| => f(s[k]))
  }

  lemma RemoveOne<T>(s: seq<T>, k: nat)
    requires k < |s|
    ensures multiset(Without(s, k)) + multiset{s[k]} == multiset(s)
  {
    assert s == s[..k] + [s[k]] + s[k + 1..];
  }

  lemma SameRest<S>(a: seq<S>, b: seq<S>, j: nat)
    requires a != [] && j < |b| && b[j] == a[0] && multiset(a) == multiset(b)
    ensures multiset(a[1..]) == multiset(Without(b, j))
  {
    RemoveOne(b, j);
    assert a == [a[0]] + a[1..];
    CancelOne(multiset(a[1..]), multiset(Without(b, j)), a[0]);
  }

  lemma CancelOne<S>(x: multiset<S>, y: multiset<S>, e: S)
    requires multiset{e} + x == y + multiset{e}
    ensures x == y
  {
    assert (multiset{e} + x) - multiset{e} == x && (y + multiset{e}) - multiset{e} == y;
  }

  lemma ProjectWithout<S, T>(b: seq<S>, j: nat, f: S -> T)
    requires j < |b|
    ensures multiset(Project(b, f)) == multiset(Project(Without(b, j), f)) + multiset{f(b[j])}
  {
    assert Project(Without(b, j), f) == Project(b[..j], f) + Project(b[j + 1..], f);
    assert Project(b, f) == Project(b[..j], f) + [f(b[j])] + Project(b[j + 1..], f);
  }

  lemma {:induction false} ProjectSame<S, T>(a: seq<S>, b: seq<S>, f: S -> T)
    requires multiset(a) == multiset(b)
    ensures multiset(Project(a, f)) == multiset(Project(b, f))
    decreases |a|
  {
    EmptyList(a, b);
    if a != [] {
      assert a[0] in multiset(b);
      var j :| 0 <= j < |b| && b[j] == a[0];
      SameRest(a, b, j);
      ProjectSame(a[1..], Without(b, j), f);
      ProjectWithout(b, j, f);
      assert Project(a, f) == [f(a[0])] + Project(a[1..], f);
    }
  }

  /** Whether a run passes: nothing is due in the list of failures. */
  lemma PassesIff(p: Plan, started: seq<Job>, l: Lists)
    requires p.maxAttempts >= 1 && forall v :: multiset(Of(l, v)) == multiset(Due(p, started, v))
    ensures Passes(l) <==> forall k :: 0 <= k < |started| ==> VerdictOf(p, started[k], k + 1) != Some(Failed)
  {
    hide Due, Judge, RetriedUpTo;
    DueIs(p, started, Failed);
    EmptyList(Of(l, Failed), Due(p, started, Failed));
    forall e | e in l.ok ensures e.first == Pass {
      FirstOf(p, started, Ok, Of(l, Ok), e);
    }
    forall e | e in l.failed ensures e.first != Pass {
      FirstOf(p, started, Failed, Of(l, Failed), e);
    }
    assert l.failed != [] ==> l.failed[0] in l.failed;
  }

  lemma FirstOf(p: Plan, started: seq<Job>, v: Verdict, list: seq<Entry>, e: Entry)
    requires p.maxAttempts >= 1 && multiset(list) == multiset(Due(p, started, v)) && e in list
    ensures e.first == Pass <==> v == Ok
    ensures v == Flaky ==> RetriedAndPassed(p, e)
  {
    hide Due, Judge;
    assert e in multiset(list);
    assert e in Due(p, started, v);
    DueIs(p, started, v);
    var k :| 0 <= k < |started| && VerdictOf(p, started[k], k + 1) == Some(v) && e == EntryOf(p, started[k], k + 1);
    VerdictMeans(p.attempts(started[k].title, k + 1), p.maxAttempts);
  }

  /** The test passed at some later attempt, and no attempt before was one that is never retried. */
  ghost predicate RetriedAndPassed(p: Plan, e: Entry) {
    exists n: nat :: 2 <= n <= p.maxAttempts && p.attempts(e.title, e.index)(n) == Pass
                     && RetriedUpTo(p.attempts(e.title, e.index), n)
  }

  lemma TitlesSame(a: seq<Job>, b: seq<Job>)
    requires multiset(a) == multiset(b)
    ensures multiset(Titles(a)) == multiset(Titles(b))
  {
    var f := (job: Job) => job.title;
    ProjectSame(a, b, f);
    assert Titles(a) == Project(a, f) && Titles(b) == Project(b, f);
  }

  /** How often each title is numbered. */
  lemma StartedTitles(
      tests: seq<string>, isParallelSafe: string -> bool, isModified: string -> bool, isCandidate: string -> bool,
      p: Plan, started: seq<Job>)
    requires p.phases == Split(tests, isParallelSafe, isModified, isCandidate)
    requires Unique(p.phases.bucket) && OfBatch(p.phases.bucket, p.batch) && PhaseByPhase(AllPhases(p), started)
    ensures InstallFails(p) ==> multiset(Titles(started)) == multiset(p.installs)
    ensures !InstallFails(p) ==>
              (multiset(Titles(started)) == multiset(p.installs) + multiset(tests) <==>
                 forall t :: !Both(p.phases.bucket, p.batch, t))
  {
    hide Split, TestPhases, Titles, InstallFails, Both, Alone, AllJobs, PhaseByPhase;
    var b := p.phases.bucket;
    var both := multiset(TestRun.Passed(b, p.batch) + Rerun(b, p.batch));
    hide TestRun.Passed, Rerun;
    PhasesAddAll(AllPhases(p), started);
    TitlesSame(started, AllJobs(AllPhases(p)));
    InstallJobs(p);
    TitlesOfAlone(p.installs);
    if !InstallFails(p) {
      TitlesConcat(Alone(p.installs), AllJobs(TestPhases(p)));
      PhasesPartition(tests, isParallelSafe, isModified, isCandidate);
      TitlesOfPhases(p);
      BatchRecordsEachFileOnce(b, p.batch);
      SameButOne(multiset(p.installs), multiset(p.phases.modified) + multiset(p.phases.rest),
                 both, multiset(b), multiset(p.phases.parallelSafe));
    }
  }

  lemma InstallJobs(p: Plan)
    ensures AllJobs(AllPhases(p))
            == if InstallFails(p) then Alone(p.installs) else Alone(p.installs) + AllJobs(TestPhases(p))
  {
    hide InstallFails, TestPhases, Alone;
    var phases := AllPhases(p);
    assert phases[1..] == if InstallFails(p) then [] else TestPhases(p);
    assert AllJobs([]) == [] && Alone(p.installs) + [] == Alone(p.installs);
  }

  lemma SameButOne(
      i: multiset<string>, m: multiset<string>, x: multiset<string>, y: multiset<string>, s: multiset<string>)
    ensures i + (m + x + s) == i + (m + y + s) <==> x == y
  {
    if i + (m + x + s) == i + (m + y + s) {
      forall t ensures x[t] == y[t] {
        assert (i + (m + x + s))[t] == (i + (m + y + s))[t];
      }
    }
  }

  function Number(e: Entry): nat { e.index }

  function Title(e: Entry): string { e.title }

  lemma ExpectedIs(p: Plan, started: seq<Job>)
    ensures Project(Expected(p, started), Number) == seq<nat>(|started|, k => k + 1)
    ensures Project(Expected(p, started), Title) == Titles(started)
  {
    var s := Expected(p, started);
    forall k | 0 <= k < |started|
      ensures Project(s, Number)[k] == k + 1 && Project(s, Title)[k] == started[k].title
    {
      assert Project(s, Number)[k] == Number(s[k]) && Project(s, Title)[k] == Title(s[k]);
    }
    assert Project(s, Number) == seq<nat>(|started|, k => k + 1);
    assert Project(s, Title) == Titles(started);
  }

  /** All entries of a run. */
  function All(l: Lists): seq<Entry> { l.ok + l.flaky + l.failed }

  /** For every run, in every interleaving: every number from 1 to `i` has exactly one entry in exactly one
      list, the one of its verdict; if the installs succeed, the entries are those of the installs and of
      the selected tests exactly when no file of the batch is both failed and incomplete, and then there
      are no more numbers than that; the run passes exactly when no test failed; and a flaky test
      passed in the end without an attempt that is never retried. */
  lemma EveryTestIsAccountedFor(
      tests: seq<string>, isParallelSafe: string -> bool, isModified: string -> bool, isCandidate: string -> bool,
      p: Plan, installing: seq<Step>, schedule: seq<seq<Step>>)
    requires p.phases == Split(tests, isParallelSafe, isModified, isCandidate) && p.maxAttempts >= 1
    requires Unique(p.phases.bucket) && OfBatch(p.phases.bucket, p.batch)
    requires LegalRun(p, installing, schedule)
    ensures var w := RunAll(p, installing, schedule);
            var all, once := All(w.lists), forall t :: !Both(p.phases.bucket, p.batch, t);
            && PhaseByPhase(AllPhases(p), w.started) && multiset(all) == multiset(Expected(p, w.started))
            && multiset(Project(all, Number)) == multiset(seq<nat>(w.i, k => k + 1))
            && (!InstallFails(p) ==>
                  && (multiset(Project(all, Title)) == multiset(p.installs) + multiset(tests) <==> once)
                  && (once ==> w.i == |p.installs| + |tests|))
            && (InstallFails(p) ==> multiset(Project(all, Title)) == multiset(p.installs) && w.i == |p.installs|)
            && (|p.installs| <= 2 && once ==> w.i <= |tests| + 2)
            && (Passes(w.lists) <==>
                  forall k :: 0 <= k < |w.started| ==> VerdictOf(p, w.started[k], k + 1) != Some(Failed))
            && (forall e :: e in w.lists.flaky ==> RetriedAndPassed(p, e))
  {
    hide RunAll, LegalRun, Due, Split, Passes, VerdictOf, Both, InstallFails, RetriedAndPassed, Expected, Project, PhaseByPhase;
    EveryRunFilesWhatIsDue(p, installing, schedule);
    var w := RunAll(p, installing, schedule);
    var all, started := All(w.lists), w.started;
    DueOnce(p, started);
    AllIs(p, started, w.lists);
    ExpectedIs(p, started);
    ProjectSame(all, Expected(p, started), Number);
    ProjectSame(all, Expected(p, started), Title);
    PassesIff(p, started, w.lists);
    forall e | e in w.lists.flaky ensures RetriedAndPassed(p, e) {
      FirstOf(p, started, Flaky, Of(w.lists, Flaky), e);
    }
    StartedTitles(tests, isParallelSafe, isModified, isCandidate, p, started);
    Sizes(Titles(started), p.installs, tests);
  }

  lemma Sizes(titles: seq<string>, installs: seq<string>, tests: seq<string>)
    ensures multiset(titles) == multiset(installs) + multiset(tests) ==> |titles| == |installs| + |tests|
    ensures multiset(titles) == multiset(installs) ==> |titles| == |installs|
  {
    assert |multiset(titles)| == |titles| && |multiset(installs)| == |installs|;
    assert |multiset(installs) + multiset(tests)| == |installs| + |tests|;
  }

  lemma AllIs(p: Plan, order: seq<Job>, l: Lists)
    requires forall v :: multiset(Of(l, v)) == multiset(Due(p, order, v))
    ensures multiset(All(l)) == multiset(Due(p, order, Ok)) + multiset(Due(p, order, Flaky)) + multiset(Due(p, order, Failed))
  {
    hide Due;
    assert multiset(Of(l, Ok)) == multiset(l.ok) && multiset(Of(l, Flaky)) == multiset(l.flaky);
    assert multiset(Of(l, Failed)) == multiset(l.failed);
  }

  // ----- Every run can be completed -----

  /** One test after the other. */
  function Serially(n: nat): seq<Step> { if n == 0 then [] else [Take, Begin(0), End(0)] + Serially(n - 1) }

  lemma {:induction false} SeriallyIsLegal(p: Plan, w: World, width: nat)
    requires w.held == [] && w.active == [] && width > 0
    ensures Legal(p, w, width, Serially(|w.queue|)) && Between(Run(p, w, width, Serially(|w.queue|)))
    decreases |w.queue|
  {
    hide Judge, VerdictOf, Filed;
    if w.queue != [] {
      var steps, rest := Serially(|w.queue|), Serially(|w.queue| - 1);
      assert steps[0] == Take && steps[1..] == [Begin(0), End(0)] + rest;
      assert steps[1..][1..] == [End(0)] + rest && steps[1..][1..][1..] == rest;
      var w1 := Next(p, w, width, Take);
      var w2 := Next(p, w1, width, Begin(0));
      var w3 := Next(p, w2, width, End(0));
      assert w3.held == [] && w3.active == [];
      SeriallyIsLegal(p, w3, width);
      assert Legal(p, w2, width, steps[1..][1..]) && Run(p, w2, width, steps[1..][1..]) == Run(p, w3, width, rest);
      assert Legal(p, w1, width, steps[1..]) && Run(p, w1, width, steps[1..]) == Run(p, w3, width, rest);
    }
  }

  lemma {:induction false} PhasesCanRun(p: Plan, w: World, phases: seq<Phase>) returns (schedule: seq<seq<Step>>)
    requires Accounted(p, w) && Between(w) && forall k :: 0 <= k < |phases| && phases[k].Solo? ==> phases[k].width > 0
    ensures LegalPhases(p, w, phases, schedule)
    decreases |phases|
  {
    hide Accounted, Run, Legal;
    if phases == [] {
      schedule := [];
    } else {
      var phase := phases[0];
      var steps := if phase.Solo? then Serially(|phase.tests|) else [];
      if phase.Solo? { SeriallyIsLegal(p, w.(queue := phase.tests), phase.width); }
      var _ := PhaseAccounts(p, w, phase, steps);
      var more := PhasesCanRun(p, RunPhase(p, w, phase, steps), phases[1..]);
      schedule := [steps] + more;
      assert schedule[1..] == more;
    }
  }

  /** So the theorem is about something for every plan. */
  lemma EveryPlanCanRun(p: Plan) returns (installing: seq<Step>, schedule: seq<seq<Step>>)
    requires p.parallelism > 0 && p.parallelSafeWidth > 0
    ensures LegalRun(p, installing, schedule)
  {
    installing := Serially(|p.installs|);
    SeriallyIsLegal(p, START.(queue := p.installs), 1);
    InstallsEnd(p, installing);
    hide Run, Legal, Accounted, PassAll;
    var w := RunPhase(p, START, Solo(p.installs, 1), installing);
    if w.lists.failed == [] {
      schedule := PhasesCanRun(p, w, TestPhases(p));
    } else {
      schedule := [];
    }
  }

  // ----- The code -----

  /** The variables of `runTests` that `runTest` and `runParallelBucket` work on. Between the two halves of
      `runTest`, other tests may do what they like with them. */
  class Results {
    const maxAttempts: int
    var i: nat
    var okResults: seq<Entry>
    var flakyResults: seq<Entry>
    var failedResults: seq<Entry>

    ghost function View(): Lists
      reads this
    {
      Lists(okResults, flakyResults, failedResults)
    }

    /** The machine has the same count and the same lists. */
    ghost predicate Agrees(p: Plan, w: World)
      reads this
    {
      w.i == i && w.lists == View() && p.maxAttempts == maxAttempts
    }

    constructor (maxAttempts: int)
      ensures this.maxAttempts == maxAttempts && i == 0 && View() == START.lists
    {
      this.maxAttempts := maxAttempts;
      i, okResults, flakyResults, failedResults := 0, [], [], [];
    }

    /** The start of `runTest`, whatever else is running: the step of a test that gets its number. */
    method BeginTest(ghost p: Plan, ghost w: World, ghost width: nat, ghost place: nat) returns (index: nat)
      requires Agrees(p, w) && Enabled(w, width, Begin(place))
      modifies this`i
      ensures var w' := Next(p, w, width, Begin(place));
              Agrees(p, w') && w'.active[|w'.active| - 1] == Active(index, w.held[place])
    {
      i := i + 1;
      index := i;
    }

    /** The attempts of `runTest`, whatever else is running: the step of an active test that ends. */
    method EndTest(
        ghost p: Plan, ghost w: World, ghost width: nat, ghost place: nat, title: string, index: nat, attempts: nat -> Attempt)
      requires Agrees(p, w) && Enabled(w, width, End(place)) && w.active[place] == Active(index, title)
      requires attempts == p.attempts(title, index)
      modifies this`okResults, this`flakyResults, this`failedResults
      ensures Agrees(p, Next(p, w, width, End(place)))
      ensures maxAttempts >= 1 ==> |All(View())| == |All(old(View()))| + 1
    {
      var failure: Option<Attempt> := None;
      var attempt: nat := 1;
      if maxAttempts >= 1 { VerdictMeans(attempts, maxAttempts); }
      while attempt <= maxAttempts
        invariant attempt >= 1 && View() == old(View())
        invariant failure == if attempt > 1 then Some(attempts(1)) else None
        invariant Judge(attempts, maxAttempts, 1, false) == Judge(attempts, maxAttempts, attempt, attempt > 1)
        decreases maxAttempts - attempt
      {
        var result := attempts(attempt);
        if result == Pass {
          if failure.Some? {
            flakyResults := flakyResults + [Entry(title, index, failure.value)];
          } else {
            okResults := okResults + [Entry(title, index, result)];
          }
          break;
        }
        if failure.None? { failure := Some(result); }
        if attempt >= maxAttempts || result.always {
          failedResults := failedResults + [Entry(title, index, failure.value)];
          break;
        }
        attempt := attempt + 1;
      }
    }

    /** The files of a batch that are not run again pass with it. */
    method PassBatch(ghost p: Plan, ghost w: World, files: seq<string>, rerun: seq<string>)
      requires Agrees(p, w)
      modifies this
      ensures Agrees(p, PassAll(p, w, Filter(files, t => t !in rerun)))
    {
      ghost var kept := t => t !in rerun;
      ghost var now := w;
      ghost var goal := PassAll(p, w, Filter(files, kept));
      assert files[0..] == files;
      for k := 0 to |files|
        invariant Agrees(p, now)
        invariant PassAll(p, now, Filter(files[k..], kept)) == goal
      {
        assert files[k..][0] == files[k] && files[k..][1..] == files[k + 1..];
        if files[k] in rerun {
          assert Filter(files[k..], kept) == Filter(files[k + 1..], kept);
          continue;
        }
        i := i + 1;
        okResults := okResults + [Entry(files[k], i, Pass)];
        ghost var rest := Filter(files[k + 1..], kept);
        assert Filter(files[k..], kept) == [files[k]] + rest && ([files[k]] + rest)[1..] == rest;
        now := PassOne(p, now, files[k]);
      }
    }
  }
}
