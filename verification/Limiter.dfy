/** `createLimit` (scripts/runner.node.ts): at most `concurrency` of the functions passed to it run at
    once, and a slot is handed straight to the next caller in line.

    The callers are numbered in call order. What can happen at any moment is one of three things: a new
    call, a function that settles (resolves or rejects, the `finally` block does not tell), or a
    caller that was handed a slot and now starts, which takes one turn of the microtask queue. That
    queue is first in, first out, and so is `granted`. */
module Limiter {
  import opened Wrappers

  /** `limit`, `running` and `waiting` are the variables of the closure; the rest is where the
      callers are, and in what order they started. */
  datatype State = State(
    limit: nat,
    running: int,
    waiting: seq<nat>,
    granted: seq<nat>,
    executing: set<nat>,
    settled: set<nat>,
    started: seq<nat>,
    calls: nat)

  datatype Step = Call | Start | Settle(id: nat)

  function Init(limit: nat): State { State(limit, 0, [], [], {}, {}, [], 0) }

  predicate Enabled(st: State, step: Step) {
    match step
    case Call => true
    case Start => st.granted != []
    case Settle(id) => id in st.executing
  }

  function Next(st: State, step: Step): State
    requires Enabled(st, step)
  {
    match step
    case Call =>
      if st.running < st.limit then
        st.(running := st.running + 1, executing := st.executing + {st.calls},
            started := st.started + [st.calls], calls := st.calls + 1)
      else
        st.(waiting := st.waiting + [st.calls], calls := st.calls + 1)
    case Start =>
      st.(granted := st.granted[1..], executing := st.executing + {st.granted[0]},
          started := st.started + [st.granted[0]])
    case Settle(id) =>
      var left := st.(executing := st.executing - {id}, settled := st.settled + {id});
      if st.waiting != [] then
        left.(waiting := st.waiting[1..], granted := st.granted + [st.waiting[0]])
      else
        left.(running := st.running - 1)
  }

  predicate Legal(st: State, steps: seq<Step>)
    decreases |steps|
  {
    steps == [] || (Enabled(st, steps[0]) && Legal(Next(st, steps[0]), steps[1..]))
  }

  function Run(st: State, steps: seq<Step>): State
    requires Legal(st, steps)
    decreases |steps|
  {
    if steps == [] then st else Run(Next(st, steps[0]), steps[1..])
  }

  // ----- What every step keeps -----

  predicate Increasing(s: seq<nat>) { forall i, j :: 0 <= i < j < |s| ==> s[i] < s[j] }

  predicate Distinct(s: seq<nat>) { forall i, j :: 0 <= i < j < |s| ==> s[i] != s[j] }

  /** Slots: every slot that is taken is held by one caller that executes or was just handed it. */
  predicate Slots(st: State) {
    && st.running == |st.executing| + |st.granted| <= st.limit
    && (st.waiting != [] ==> st.running == st.limit)
  }

  /** Callers: each one is in exactly one place, and those in line are in call order. */
  ghost predicate Callers(st: State) {
    && Increasing(st.granted + st.waiting) && Distinct(st.started)
    && (forall id :: id in st.started <==> id in st.executing || id in st.settled)
    && (forall id :: id in st.granted + st.waiting ==> id < st.calls && id !in st.started)
    && (forall id :: id in st.started ==> id < st.calls)
    && (forall id :: id in st.executing ==> id !in st.settled)
    && (forall id: nat :: id < st.calls ==> id in st.started || id in st.granted + st.waiting)
  }

  lemma StepKeepsSlots(st: State, step: Step)
    requires Slots(st) && Callers(st) && Enabled(st, step)
    ensures Slots(Next(st, step))
  {
    match step {
      case Call =>
        assert st.calls !in st.executing;
      case Start =>
        assert st.granted[0] in st.granted + st.waiting;
      case Settle(id) =>
        assert |st.executing - {id}| == |st.executing| - 1;
    }
  }

  lemma StepKeepsCallers(st: State, step: Step)
    requires Slots(st) && Callers(st) && Enabled(st, step)
    ensures Callers(Next(st, step))
  {
    match step {
      case Call => CallKeepsCallers(st);
      case Start => StartKeepsCallers(st);
      case Settle(id) =>
        if st.waiting != [] {
          assert st.granted + [st.waiting[0]] + st.waiting[1..] == st.granted + st.waiting;
        }
    }
  }

  lemma CallKeepsCallers(st: State)
    requires Slots(st) && Callers(st)
    ensures Callers(Next(st, Call))
  {
    var st' := Next(st, Call);
    assert st.calls !in st.started;
    if st.running < st.limit {
      assert forall id :: id in st'.started <==> id in st.started || id == st.calls;
    } else {
      Enqueue(st.granted + st.waiting, st.calls);
      assert st'.granted + st'.waiting == st.granted + st.waiting + [st.calls];
    }
  }

  lemma Enqueue(q: seq<nat>, id: nat)
    requires Increasing(q) && forall x :: x in q ==> x < id
    ensures Increasing(q + [id]) && forall x :: x in q + [id] <==> x in q || x == id
  {
    forall i, j | 0 <= i < j < |q + [id]| ensures (q + [id])[i] < (q + [id])[j] {
      assert (q + [id])[i] in q;
    }
  }

  lemma StartKeepsCallers(st: State)
    requires Slots(st) && Callers(st) && st.granted != []
    ensures Callers(Next(st, Start))
  {
    var st' := Next(st, Start);
    var q, g := st.granted + st.waiting, st.granted[0];
    assert st'.granted + st'.waiting == q[1..];
    assert q[0] == g && g in q;
    assert forall id :: id in q <==> id == g || id in q[1..];
    assert forall id :: id in st'.started <==> id in st.started || id == g;
    assert g !in q[1..];
  }

  lemma {:induction false} RunKeeps(st: State, steps: seq<Step>)
    requires Slots(st) && Callers(st) && Legal(st, steps)
    ensures Slots(Run(st, steps)) && Callers(Run(st, steps))
    ensures Run(st, steps).limit == st.limit
    ensures st.started <= Run(st, steps).started
    decreases |steps|
  {
    if steps != [] {
      StepKeepsSlots(st, steps[0]);
      StepKeepsCallers(st, steps[0]);
      RunKeeps(Next(st, steps[0]), steps[1..]);
    }
  }

  /** In every state of every run: never more than `limit` at once, nobody waits while a slot is free,
      nobody starts twice, and the callers that have to wait start in call order. */
  lemma EveryRunIsSafe(limit: nat, steps: seq<Step>)
    requires Legal(Init(limit), steps)
    ensures var st := Run(Init(limit), steps);
            && Slots(st) && Callers(st)
            && |st.executing| <= limit
            && (st.waiting != [] ==> |st.executing| + |st.granted| == limit)
  {
    RunKeeps(Init(limit), steps);
  }

  // ----- No slot is lost, nobody is stuck -----

  predicate AllSettled(st: State) { forall id :: 0 <= id < st.calls ==> id in st.settled }

  predicate Idle(st: State) {
    st.running == 0 && st.waiting == [] && st.granted == [] && st.executing == {}
  }

  /** When every caller has settled, every slot is free again; and the other way round. */
  lemma AllSettledIsIdle(st: State)
    requires Slots(st) && Callers(st)
    ensures AllSettled(st) <==> Idle(st)
  {
    var q := st.granted + st.waiting;
    assert q != [] ==> q[0] in q;
    assert |q| == |st.granted| + |st.waiting|;
    if AllSettled(st) {
      assert forall id :: id in st.executing ==> id in st.started && id < st.calls;
      assert st.executing == {};
    }
  }

  /** Unless all have settled, somebody executes or is about to. */
  lemma NobodyIsStuck(st: State)
    requires Slots(st) && Callers(st) && st.limit > 0 && !AllSettled(st)
    ensures st.executing != {} || st.granted != []
  {
    AllSettledIsIdle(st);
  }

  /** How many steps the callers so far can still take. */
  function StepsLeft(st: State): nat { 3 * |st.waiting| + 2 * |st.granted| + |st.executing| }

  predicate NoCalls(steps: seq<Step>) { forall i :: 0 <= i < |steps| ==> steps[i] != Call }

  /** Between calls, a run is finite; and a run that cannot go on has served everybody. */
  lemma {:induction false} RunsComeToAnEnd(st: State, steps: seq<Step>)
    requires Slots(st) && Callers(st) && st.limit > 0 && Legal(st, steps) && NoCalls(steps)
    ensures |steps| <= StepsLeft(st)
    ensures var end := Run(st, steps);
            end.granted == [] && end.executing == {} ==> AllSettled(end)
    decreases |steps|
  {
    if steps != [] {
      var st' := Next(st, steps[0]);
      StepKeepsSlots(st, steps[0]);
      StepKeepsCallers(st, steps[0]);
      StepTakesOne(st, steps[0]);
      RunsComeToAnEnd(st', steps[1..]);
    } else {
      if !AllSettled(st) { NobodyIsStuck(st); }
    }
  }

  lemma StepTakesOne(st: State, step: Step)
    requires Slots(st) && Callers(st) && Enabled(st, step) && step != Call
    ensures StepsLeft(Next(st, step)) < StepsLeft(st)
  {
    match step {
      case Start =>
        assert st.granted[0] in st.granted + st.waiting;
        assert |st.executing + {st.granted[0]}| == |st.executing| + 1;
      case Settle(id) =>
        assert |st.executing - {id}| == |st.executing| - 1;
    }
  }

  // ----- In which order callers start -----

  /** Callers started in call order, and nobody was left out. */
  predicate InCallOrder(st: State) { forall i :: 0 <= i < |st.started| ==> st.started[i] == i }

  /** A call that finds a free slot while a caller that waited has its slot but has not started yet. */
  predicate Overtakes(st: State, step: Step) {
    step == Call && st.running < st.limit && st.granted != []
  }

  predicate Overtaking(st: State, steps: seq<Step>)
    requires Legal(st, steps)
    decreases |steps|
  {
    steps != [] && (Overtakes(st, steps[0]) || Overtaking(Next(st, steps[0]), steps[1..]))
  }

  /** Started, about to start, and waiting: together, the callers in call order. */
  predicate Queued(st: State) {
    var q := st.started + st.granted + st.waiting;
    |q| == st.calls && forall i :: 0 <= i < |q| ==> q[i] == i
  }

  lemma QueuedIsInCallOrder(st: State)
    requires Queued(st)
    ensures InCallOrder(st)
  {
    assert forall i :: 0 <= i < |st.started| ==>
      st.started[i] == (st.started + st.granted + st.waiting)[i];
  }

  lemma CallKeepsQueued(st: State)
    requires Slots(st) && Queued(st)
    ensures !Overtakes(st, Call) ==> Queued(Next(st, Call))
    ensures Overtakes(st, Call) ==> !InCallOrder(Next(st, Call))
  {
    var st' := Next(st, Call);
    if Overtakes(st, Call) {
      assert st'.started[|st.started|] == st.calls;
    } else {
      var q := st.started + st.granted + st.waiting;
      assert st'.started + st'.granted + st'.waiting == q + [st.calls];
    }
  }

  lemma StepKeepsQueued(st: State, step: Step)
    requires Slots(st) && Queued(st) && Enabled(st, step)
    ensures !Overtakes(st, step) ==> Queued(Next(st, step))
    ensures Overtakes(st, step) ==> !InCallOrder(Next(st, step))
  {
    if step == Call {
      CallKeepsQueued(st);
    } else {
      var st' := Next(st, step);
      assert st'.started + st'.granted + st'.waiting == st.started + st.granted + st.waiting;
    }
  }

  lemma OutOfOrderForGood(st: State, steps: seq<Step>)
    requires Slots(st) && Callers(st) && Legal(st, steps) && !InCallOrder(st)
    ensures !InCallOrder(Run(st, steps))
  {
    RunKeeps(st, steps);
    var i :| 0 <= i < |st.started| && st.started[i] != i;
    assert Run(st, steps).started[i] == st.started[i];
  }

  lemma {:induction false} OrderOfRun(st: State, steps: seq<Step>)
    requires Slots(st) && Callers(st) && Queued(st) && Legal(st, steps)
    ensures InCallOrder(Run(st, steps)) <==> !Overtaking(st, steps)
    decreases |steps|
  {
    if steps == [] {
      QueuedIsInCallOrder(st);
    } else {
      var st' := Next(st, steps[0]);
      StepKeepsSlots(st, steps[0]);
      StepKeepsCallers(st, steps[0]);
      StepKeepsQueued(st, steps[0]);
      if Overtakes(st, steps[0]) {
        OutOfOrderForGood(st', steps[1..]);
      } else {
        OrderOfRun(st', steps[1..]);
      }
    }
  }

  /** Callers start in call order exactly in the runs in which no call comes between the hand-over of
      a slot and the start of the caller it was handed to, with another slot free. */
  lemma InCallOrderIffNoOvertaking(limit: nat, steps: seq<Step>)
    requires Legal(Init(limit), steps)
    ensures InCallOrder(Run(Init(limit), steps)) <==> !Overtaking(Init(limit), steps)
  {
    OrderOfRun(Init(limit), steps);
  }

  /** Such a run exists: two settle at once while a third waits, and a fourth call comes in between.
      The fourth caller starts, and the third one does not have to be started yet. */
  lemma OvertakingHappens()
    ensures var steps := [Call, Call, Call, Settle(0), Settle(1), Call];
            Legal(Init(2), steps) && Run(Init(2), steps).started == [0, 1, 3]
  {
    var s1 := Next(Init(2), Call);
    var s2 := Next(s1, Call);
    var s3 := Next(s2, Call);
    var s4 := Next(s3, Settle(0));
    var s5 := Next(s4, Settle(1));
    var s6 := Next(s5, Call);
    var steps := [Call, Call, Call, Settle(0), Settle(1), Call];
    assert s6.started == [0, 1, 3];
    assert steps[1..] == [Call, Call, Settle(0), Settle(1), Call];
    assert steps[1..][1..] == [Call, Settle(0), Settle(1), Call];
    assert steps[1..][1..][1..] == [Settle(0), Settle(1), Call];
    assert steps[1..][1..][1..][1..] == [Settle(1), Call];
    assert steps[1..][1..][1..][1..][1..] == [Call];
    assert steps[1..][1..][1..][1..][1..][1..] == [];
    assert Legal(s5, [Call]) && Run(s5, [Call]) == s6;
    assert Legal(s4, [Settle(1), Call]) && Run(s4, [Settle(1), Call]) == s6;
    assert Legal(s3, [Settle(0), Settle(1), Call]) && Run(s3, [Settle(0), Settle(1), Call]) == s6;
  }

  /** The callers that were handed a slot, in the order in which they started. */
  function Served(st: State, steps: seq<Step>): seq<nat>
    requires Legal(st, steps)
    decreases |steps|
  {
    if steps == [] then []
    else (if steps[0] == Start then [st.granted[0]] else []) + Served(Next(st, steps[0]), steps[1..])
  }

  /** The callers in line, those that were handed a slot first. */
  function InLine(st: State): seq<nat> { st.granted + st.waiting }

  function Moved(st: State, step: Step): seq<nat>
    requires Enabled(st, step)
  {
    if step == Start then [st.granted[0]] else []
  }

  lemma LineStep(st: State, step: Step)
    requires Slots(st) && Callers(st) && Enabled(st, step)
    ensures var st' := Next(st, step);
            || Moved(st, step) + InLine(st') == InLine(st)
            || Moved(st, step) + InLine(st') == InLine(st) + [st.calls]
    ensures step != Call ==> Moved(st, step) + InLine(Next(st, step)) == InLine(st)
  {
  }

  lemma {:induction false} LineMovesUp(st: State, steps: seq<Step>, before: seq<nat>)
    requires Slots(st) && Callers(st) && Legal(st, steps)
    requires Increasing(before + InLine(st))
    requires forall i :: 0 <= i < |before| ==> before[i] < st.calls
    ensures Increasing(before + Served(st, steps) + InLine(Run(st, steps)))
    decreases |steps|
  {
    if steps == [] {
      assert before + [] == before;
    } else {
      var st', moved := Next(st, steps[0]), Moved(st, steps[0]);
      StepKeepsSlots(st, steps[0]);
      StepKeepsCallers(st, steps[0]);
      LineKeepsOrder(st, steps[0], before);
      LineMovesUp(st', steps[1..], before + moved);
      Assoc(before, moved, Served(st', steps[1..]));
    }
  }

  lemma LineKeepsOrder(st: State, step: Step, before: seq<nat>)
    requires Slots(st) && Callers(st) && Enabled(st, step) && Increasing(before + InLine(st))
    requires forall i :: 0 <= i < |before| ==> before[i] < st.calls
    ensures var before' := before + Moved(st, step);
            && Increasing(before' + InLine(Next(st, step)))
            && forall i :: 0 <= i < |before'| ==> before'[i] < st.calls
  {
    var q, line' := before + InLine(st), InLine(Next(st, step));
    assert forall i :: 0 <= i < |InLine(st)| ==> InLine(st)[i] in st.granted + st.waiting;
    assert forall i :: 0 <= i < |q| ==> q[i] == if i < |before| then before[i] else InLine(st)[i - |before|];
    LineStep(st, step);
    Assoc(before, Moved(st, step), line');
    Assoc(before, InLine(st), [st.calls]);
    assert step == Start ==> st.granted[0] == InLine(st)[0];
  }

  /** The callers that have to wait are served in call order, in every run. */
  lemma WaitersAreServedInOrder(limit: nat, steps: seq<Step>)
    requires Legal(Init(limit), steps)
    ensures Increasing(Served(Init(limit), steps) + InLine(Run(Init(limit), steps)))
  {
    LineMovesUp(Init(limit), steps, []);
    assert [] + Served(Init(limit), steps) == Served(Init(limit), steps);
  }

  // ----- The phases of the runner -----

  /** One `await Promise.all(tests.map(t => limit(…)))`: all calls at once, then nothing but starts and
      settlements until every call has settled. `width` is that of the limiter the phase uses. */
  datatype Phase = Phase(width: nat, tests: nat, steps: seq<Step>)

  function Calls(n: nat): seq<Step> { seq(n, _ => Call) }

  /** An idle limiter is as good as a new one, so a phase may use another one. */
  function Enter(st: State, phase: Phase): State { st.(limit := phase.width) }

  predicate LegalPhases(st: State, phases: seq<Phase>)
    decreases |phases|
  {
    phases == [] ||
    var p := phases[0];
    var steps := Calls(p.tests) + p.steps;
    && p.width > 0 && NoCalls(p.steps) && Legal(Enter(st, p), steps)
    && AllSettled(Run(Enter(st, p), steps))
    && LegalPhases(Run(Enter(st, p), steps), phases[1..])
  }

  function RunPhases(st: State, phases: seq<Phase>): State
    requires LegalPhases(st, phases)
    decreases |phases|
  {
    if phases == [] then st
    else RunPhases(Run(Enter(st, phases[0]), Calls(phases[0].tests) + phases[0].steps), phases[1..])
  }

  lemma {:induction false} RunConcat(st: State, a: seq<Step>, b: seq<Step>)
    ensures Legal(st, a + b) <==> Legal(st, a) && Legal(Run(st, a), b)
    ensures Legal(st, a + b) ==> Run(st, a + b) == Run(Run(st, a), b)
    ensures Legal(st, a + b) ==> (Overtaking(st, a + b) <==> Overtaking(st, a) || Overtaking(Run(st, a), b))
    decreases |a|
  {
    if a == [] {
      assert a + b == b;
    } else {
      assert (a + b)[1..] == a[1..] + b && (a + b)[0] == a[0];
      if Enabled(st, a[0]) { RunConcat(Next(st, a[0]), a[1..], b); }
    }
  }

  /** Calls made in one go overtake nobody. */
  lemma {:induction false} CallsDoNotOvertake(st: State, n: nat)
    requires Slots(st) && Callers(st) && st.granted == []
    ensures Legal(st, Calls(n)) && !Overtaking(st, Calls(n))
    ensures var end := Run(st, Calls(n));
            end.granted == [] && end.calls == st.calls + n && end.settled == st.settled
    decreases n
  {
    if n > 0 {
      assert Calls(n)[1..] == Calls(n - 1);
      StepKeepsSlots(st, Call);
      StepKeepsCallers(st, Call);
      CallsDoNotOvertake(Next(st, Call), n - 1);
    }
  }

  lemma {:induction false} OnlyCallsOvertake(st: State, steps: seq<Step>)
    requires Legal(st, steps) && NoCalls(steps)
    ensures !Overtaking(st, steps)
    ensures Run(st, steps).calls == st.calls && st.settled <= Run(st, steps).settled
    decreases |steps|
  {
    if steps != [] { OnlyCallsOvertake(Next(st, steps[0]), steps[1..]); }
  }

  /** In every state of a phase, whoever is not settled belongs to the phase: no test of one phase
      overlaps a test of another one. And at most `width` tests of the phase execute at once. */
  lemma PhasesDoNotOverlap(st: State, phase: Phase, done: seq<Step>)
    requires Slots(st) && Callers(st) && AllSettled(st) && NoCalls(done)
    requires Legal(Enter(st, phase), Calls(phase.tests) + done)
    ensures var now := Run(Enter(st, phase), Calls(phase.tests) + done);
            && Slots(now) && Callers(now) && now.calls == st.calls + phase.tests
            && |now.executing| <= phase.width
            && forall id :: id in now.executing || id in now.granted + now.waiting ==>
                 st.calls <= id < st.calls + phase.tests
    ensures !Overtaking(Enter(st, phase), Calls(phase.tests) + done)
  {
    AllSettledIsIdle(st);
    var st0 := Enter(st, phase);
    assert Callers(st0);
    var calls := Calls(phase.tests);
    CallsDoNotOvertake(st0, phase.tests);
    RunConcat(st0, calls, done);
    RunKeeps(st0, calls + done);
    OnlyCallsOvertake(Run(st0, calls), done);
  }

  /** The whole run: every test starts exactly once, in the order of the test lists, and everything
      has settled and every slot is free at the end. */
  lemma {:induction false} PhasesRunEverything(st: State, phases: seq<Phase>)
    requires Slots(st) && Callers(st) && Queued(st) && AllSettled(st) && LegalPhases(st, phases)
    ensures var end := RunPhases(st, phases);
            && Slots(end) && Callers(end) && Queued(end) && AllSettled(end) && Idle(end)
            && InCallOrder(end) && |end.started| == end.calls == st.calls + Tests(phases)
    decreases |phases|
  {
    if phases == [] {
      AllSettledIsIdle(st);
      QueuedIsInCallOrder(st);
      assert |st.started + st.granted + st.waiting| == |st.started|;
    } else {
      var p := phases[0];
      AllSettledIsIdle(st);
      PhasesDoNotOverlap(st, p, p.steps);
      var st0 := Enter(st, p);
      assert Callers(st0) && Queued(st0);
      RunKeepsQueued(st0, Calls(p.tests) + p.steps);
      PhasesRunEverything(Run(st0, Calls(p.tests) + p.steps), phases[1..]);
    }
  }

  function Tests(phases: seq<Phase>): nat {
    if phases == [] then 0 else phases[0].tests + Tests(phases[1..])
  }

  lemma {:induction false} RunKeepsQueued(st: State, steps: seq<Step>)
    requires Slots(st) && Callers(st) && Queued(st) && Legal(st, steps) && !Overtaking(st, steps)
    ensures Queued(Run(st, steps))
    decreases |steps|
  {
    if steps != [] {
      StepKeepsSlots(st, steps[0]);
      StepKeepsCallers(st, steps[0]);
      StepKeepsQueued(st, steps[0]);
      RunKeepsQueued(Next(st, steps[0]), steps[1..]);
    }
  }

  // ----- The closure -----

  /** `createLimit(concurrency)`: what its variables do around a call, next to where the callers are. */
  class Limit {
    const concurrency: nat
    var running: int
    var waiting: seq<nat>
    ghost var callers: State

    ghost predicate Valid()
      reads this
    {
      && callers.limit == concurrency && callers.running == running && callers.waiting == waiting
      && Slots(callers) && Callers(callers)
    }

    constructor (concurrency: nat)
      ensures Valid() && callers == Init(concurrency)
    {
      this.concurrency := concurrency;
      running, waiting := 0, [];
      callers := Init(concurrency);
    }

    /** Before `fn` is called: whether it is called at once. */
    method Acquire(id: nat) returns (now: bool)
      requires Valid() && id == callers.calls
      modifies this
      ensures Valid() && callers == Next(old(callers), Call)
      ensures now == (id in callers.executing)
    {
      StepKeepsSlots(callers, Call);
      StepKeepsCallers(callers, Call);
      assert id !in callers.executing by { assert id !in callers.started; }
      if running < concurrency {
        running := running + 1;
        now := true;
      } else {
        waiting := waiting + [id];
        now := false;
      }
      callers := Next(callers, Call);
    }

    /** The `finally` block: who gets the slot. */
    method Release(id: nat) returns (next: Option<nat>)
      requires Valid() && id in callers.executing
      modifies this
      ensures Valid() && callers == Next(old(callers), Settle(id))
      ensures next == if old(waiting) == [] then None else Some(old(waiting)[0])
      ensures next.Some? ==> next.value == callers.granted[|callers.granted| - 1] && running == old(running)
    {
      StepKeepsSlots(callers, Settle(id));
      StepKeepsCallers(callers, Settle(id));
      if waiting != [] {
        next := Some(waiting[0]);
        waiting := waiting[1..];
      } else {
        next := None;
        running := running - 1;
      }
      callers := Next(callers, Settle(id));
    }
  }
}
