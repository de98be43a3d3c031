/** `__esm` (src/runtime.js): the wrapper the bundler puts around the body of a module. The first call
    evaluates the body, every later call returns or throws what that evaluation ended with, and a call
    that comes back to a module still being evaluated returns at once.

    A body imports other modules in some order by calling their wrappers, and may throw in between. */
module ModuleInit {
  import opened Wrappers

  datatype Stmt = Import(target: nat) | Throw(error: nat)

  /** The body of a module: what it does, and the value it returns. */
  datatype Body = Body(stmts: seq<Stmt>, value: nat)

  type Graph = map<nat, Body>

  /** The variables of one closure: `fn` is whether it is still set, `res` starts undefined, and `err`
      boxes what was thrown. */
  datatype Wrapper = Wrapper(fn: bool, res: Option<nat>, err: Option<nat>)

  datatype Event = Started(id: nat) | Returned(id: nat) | Threw(id: nat, error: nat)

  datatype World = World(wrappers: map<nat, Wrapper>, log: seq<Event>)

  datatype Outcome = Normal(value: Option<nat>) | Abrupt(error: nat)

  predicate Closed(g: Graph) {
    forall m, i :: m in g && 0 <= i < |g[m].stmts| && g[m].stmts[i].Import? ==> g[m].stmts[i].target in g
  }

  predicate ImportsIn(g: Graph, stmts: seq<Stmt>) {
    forall i :: 0 <= i < |stmts| && stmts[i].Import? ==> stmts[i].target in g
  }

  predicate For(g: Graph, w: World) { Closed(g) && w.wrappers.Keys == g.Keys }

  /** The modules whose body has not been started. */
  function Waiting(w: World): set<nat> { set m | m in w.wrappers && w.wrappers[m].fn }

  function Fresh(g: Graph): World { World(map m | m in g :: Wrapper(true, None, None), []) }

  function Begin(w: World, m: nat): World
    requires m in w.wrappers
  {
    World(w.wrappers[m := w.wrappers[m].(fn := false)], w.log + [Started(m)])
  }

  function Finish(w: World, m: nat, out: Outcome): World
    requires m in w.wrappers
  {
    match out
    case Normal(v) => World(w.wrappers[m := w.wrappers[m].(res := v)], w.log + [Returned(m)])
    case Abrupt(e) => World(w.wrappers[m := w.wrappers[m].(err := Some(e))], w.log + [Threw(m, e)])
  }

  function Answer(wrapper: Wrapper): Outcome {
    if wrapper.err.Some? then Abrupt(wrapper.err.value) else Normal(wrapper.res)
  }

  /** One call of a wrapper. */
  function Call(g: Graph, m: nat, w: World): (r: (World, Outcome))
    requires For(g, w) && m in g
    ensures For(g, r.0) && Waiting(r.0) <= Waiting(w)
    decreases |Waiting(w)|, 0, 0
  {
    if w.wrappers[m].fn then
      var w1 := Begin(w, m);
      BeginStarts(w, m);
      var (w2, out) := RunBody(g, g[m].stmts, g[m].value, w1);
      var w3 := Finish(w2, m, out);
      assert Waiting(w3) <= Waiting(w2);
      (w3, Answer(w3.wrappers[m]))
    else
      (w, Answer(w.wrappers[m]))
  }

  /** A body from some statement on. What an import throws, the body throws. */
  function RunBody(g: Graph, stmts: seq<Stmt>, value: nat, w: World): (r: (World, Outcome))
    requires For(g, w) && ImportsIn(g, stmts)
    ensures For(g, r.0) && Waiting(r.0) <= Waiting(w)
    decreases |Waiting(w)|, 1, |stmts|
  {
    if stmts == [] then (w, Normal(Some(value)))
    else
      match stmts[0]
      case Throw(e) => (w, Abrupt(e))
      case Import(d) =>
        var (w', out) := Call(g, d, w);
        Smaller(Waiting(w'), Waiting(w));
        if out.Abrupt? then (w', out) else RunBody(g, stmts[1..], value, w')
  }

  lemma Smaller(a: set<nat>, b: set<nat>)
    requires a <= b
    ensures |a| <= |b|
  {
    var c := b - a;
    assert b == a + c;
  }

  lemma BeginStarts(w: World, m: nat)
    requires m in w.wrappers && w.wrappers[m].fn
    ensures Waiting(Begin(w, m)) == Waiting(w) - {m} && |Waiting(Begin(w, m))| < |Waiting(w)|
  {
    assert m in Waiting(w);
    assert |Waiting(w) - {m}| == |Waiting(w)| - 1;
  }

  /** The program calls wrappers one after the other, whatever the earlier calls ended with. */
  function CallAll(g: Graph, roots: seq<nat>, w: World): (r: World)
    requires For(g, w) && forall i :: 0 <= i < |roots| ==> roots[i] in g
    ensures For(g, r)
    decreases |roots|
  {
    if roots == [] then w else CallAll(g, roots[1..], Call(g, roots[0], w).0)
  }

  // ----- Each body once, each answer for good -----

  function Count(log: seq<Event>, e: Event): nat { multiset(log)[e] }

  /** The log and the wrapper of a module tell the same story. */
  ghost predicate ConsistentAt(g: Graph, w: World, m: nat)
    requires m in g && m in w.wrappers
  {
    var x := w.wrappers[m];
    && Count(w.log, Started(m)) == (if x.fn then 0 else 1)
    && (x.fn ==> x == Wrapper(true, None, None))
    && (forall e: nat :: x.err == Some(e) <==> Threw(m, e) in w.log)
    && (x.res.Some? <==> Returned(m) in w.log)
    && (x.res.Some? ==> x.res == Some(g[m].value) && x.err.None?)
  }

  ghost predicate Consistent(g: Graph, w: World) {
    For(g, w) && forall m :: m in g ==> ConsistentAt(g, w, m)
  }

  /** A module whose evaluation has begun and not ended. */
  predicate Active(w: World, m: nat)
    requires m in w.wrappers
  {
    !w.wrappers[m].fn && w.wrappers[m].res.None? && w.wrappers[m].err.None?
  }

  /** What a call leaves alone: every module that was started before, and the log so far. */
  ghost predicate Extends(w: World, w': World) {
    && w'.wrappers.Keys == w.wrappers.Keys
    && (forall m :: m in w.wrappers && !w.wrappers[m].fn ==> w'.wrappers[m] == w.wrappers[m])
    && w.log <= w'.log
  }

  lemma {:induction false} CallKeeps(g: Graph, m: nat, w: World)
    requires Consistent(g, w) && m in g
    ensures var (w', out) := Call(g, m, w); Consistent(g, w') && Extends(w, w')
    decreases |Waiting(w)|, 0, 0
  {
    if w.wrappers[m].fn {
      var w1 := Begin(w, m);
      BeginStarts(w, m);
      BeginKeeps(g, w, m);
      BodyKeeps(g, g[m].stmts, g[m].value, w1);
      var (w2, out) := RunBody(g, g[m].stmts, g[m].value, w1);
      FinishKeeps(g, w2, m, out);
      ExtendsAround(w, m, w2, out);
    }
  }

  lemma ExtendsAround(w: World, m: nat, w2: World, out: Outcome)
    requires m in w.wrappers && w.wrappers[m].fn && Extends(Begin(w, m), w2)
    ensures Extends(w, Finish(w2, m, out))
  {
    assert w.log <= Begin(w, m).log;
  }

  lemma ExtendsFurther(w: World, w': World, w'': World)
    requires Extends(w, w') && Extends(w', w'')
    ensures Extends(w, w'')
  {
  }

  lemma {:induction false} BodyKeeps(g: Graph, stmts: seq<Stmt>, value: nat, w: World)
    requires Consistent(g, w) && ImportsIn(g, stmts)
    ensures var (w', out) := RunBody(g, stmts, value, w);
            Consistent(g, w') && Extends(w, w') && (out.Normal? ==> out.value == Some(value))
    decreases |Waiting(w)|, 1, |stmts|
  {
    hide Call, ConsistentAt;
    if stmts != [] && stmts[0].Import? {
      var (w', out) := Call(g, stmts[0].target, w);
      CallKeeps(g, stmts[0].target, w);
      Smaller(Waiting(w'), Waiting(w));
      if out.Normal? {
        BodyKeeps(g, stmts[1..], value, w');
        ExtendsFurther(w, w', RunBody(g, stmts[1..], value, w').0);
      }
    }
  }

  lemma BeginKeeps(g: Graph, w: World, m: nat)
    requires Consistent(g, w) && m in g && w.wrappers[m].fn
    ensures Consistent(g, Begin(w, m)) && Active(Begin(w, m), m)
  {
    forall x | x in g ensures ConsistentAt(g, Begin(w, m), x) {
      assert ConsistentAt(g, w, x);
    }
  }

  lemma FinishKeeps(g: Graph, w: World, m: nat, out: Outcome)
    requires Consistent(g, w) && m in g && Active(w, m) && (out.Normal? ==> out.value == Some(g[m].value))
    ensures Consistent(g, Finish(w, m, out))
  {
    forall x | x in g ensures ConsistentAt(g, Finish(w, m, out), x) {
      if x == m { FinishKeepsOwn(g, w, m, out); } else { FinishKeepsOther(g, w, m, out, x); }
    }
  }

  lemma FinishKeepsOther(g: Graph, w: World, m: nat, out: Outcome, x: nat)
    requires Consistent(g, w) && m in g && x in g && x != m
    ensures ConsistentAt(g, Finish(w, m, out), x)
  {
    assert ConsistentAt(g, w, x);
  }

  lemma FinishKeepsOwn(g: Graph, w: World, m: nat, out: Outcome)
    requires Consistent(g, w) && m in g && Active(w, m) && (out.Normal? ==> out.value == Some(g[m].value))
    ensures ConsistentAt(g, Finish(w, m, out), m)
  {
    assert ConsistentAt(g, w, m);
    assert forall e: nat :: Threw(m, e) !in w.log;
  }

  lemma {:induction false} CallAllKeeps(g: Graph, roots: seq<nat>, w: World)
    requires Consistent(g, w) && forall i :: 0 <= i < |roots| ==> roots[i] in g
    ensures Consistent(g, CallAll(g, roots, w)) && Extends(w, CallAll(g, roots, w))
    decreases |roots|
  {
    if roots != [] {
      CallKeeps(g, roots[0], w);
      CallAllKeeps(g, roots[1..], Call(g, roots[0], w).0);
    }
  }

  lemma FreshIsConsistent(g: Graph)
    requires Closed(g)
    ensures Consistent(g, Fresh(g))
  {
  }

  /** Over any sequence of calls, on any graph, the body of a module runs at most once. */
  lemma EachBodyRunsAtMostOnce(g: Graph, roots: seq<nat>, m: nat)
    requires Closed(g) && m in g && forall i :: 0 <= i < |roots| ==> roots[i] in g
    ensures Count(CallAll(g, roots, Fresh(g)).log, Started(m)) <= 1
  {
    FreshIsConsistent(g);
    CallAllKeeps(g, roots, Fresh(g));
  }

  /** A module that threw throws the same value again, and one that returned returns the same value
      again, however many calls come in between; and nothing is evaluated for it. */
  lemma AnswersAreForGood(g: Graph, m: nat, w: World, roots: seq<nat>)
    requires Consistent(g, w) && m in g && forall i :: 0 <= i < |roots| ==> roots[i] in g
    requires !w.wrappers[m].fn && !Active(w, m)
    ensures var later := CallAll(g, roots, w);
            Call(g, m, later) == (later, Call(g, m, w).1)
  {
    CallAllKeeps(g, roots, w);
  }

  // ----- What a call that returns has done -----

  /** No body is being evaluated, so the program is between two calls. */
  predicate Quiet(w: World) { forall m :: m in w.wrappers ==> !Active(w, m) }

  /** Every module that returned has called every module it imports. */
  predicate ImportsStarted(g: Graph, w: World)
    requires For(g, w)
  {
    forall m :: m in g && w.wrappers[m].res.Some? ==> AllStarted(g, w, g[m].stmts)
  }

  predicate StartedBy(g: Graph, w: World, stmt: Stmt) {
    stmt.Import? && stmt.target in w.wrappers && !w.wrappers[stmt.target].fn
  }

  /** `w'` has the same bodies under evaluation as `w`, and no module failed in between. */
  ghost predicate NoNewError(w: World, w': World) {
    w'.wrappers.Keys == w.wrappers.Keys &&
    forall m :: m in w.wrappers ==> w'.wrappers[m].err == w.wrappers[m].err
  }

  ghost predicate SameActive(w: World, w': World) {
    w'.wrappers.Keys == w.wrappers.Keys &&
    forall m :: m in w.wrappers ==> (Active(w', m) <==> Active(w, m))
  }

  /** The first call of a wrapper, in pieces. */
  lemma FirstCall(g: Graph, m: nat, w: World) returns (w1: World, w2: World, out: Outcome)
    requires Consistent(g, w) && m in g && w.wrappers[m].fn
    ensures w1 == Begin(w, m) && Consistent(g, w1) && |Waiting(w1)| < |Waiting(w)|
    ensures (w2, out) == RunBody(g, g[m].stmts, g[m].value, w1)
    ensures Consistent(g, w2) && Extends(w1, w2) && Active(w2, m)
    ensures out.Normal? ==> out.value == Some(g[m].value)
    ensures Call(g, m, w).0 == Finish(w2, m, out) && (Call(g, m, w).1.Normal? <==> out.Normal?)
  {
    w1 := Begin(w, m);
    BeginStarts(w, m);
    BeginKeeps(g, w, m);
    BodyKeeps(g, g[m].stmts, g[m].value, w1);
    var r := RunBody(g, g[m].stmts, g[m].value, w1);
    w2, out := r.0, r.1;
  }

  /** A body that starts with an import, in pieces. */
  lemma FirstImport(g: Graph, stmts: seq<Stmt>, value: nat, w: World)
    returns (d: nat, w1: World, out: Outcome, rest: seq<Stmt>)
    requires Consistent(g, w) && ImportsIn(g, stmts) && stmts != [] && stmts[0].Import?
    ensures stmts[0] == Import(d) && rest == stmts[1..] && d in g && ImportsIn(g, rest)
    ensures (w1, out) == Call(g, d, w) && Consistent(g, w1) && Extends(w, w1)
    ensures |Waiting(w1)| <= |Waiting(w)|
    ensures RunBody(g, stmts, value, w) == if out.Abrupt? then (w1, out) else RunBody(g, rest, value, w1)
    ensures out.Normal? ==> Extends(w1, RunBody(g, rest, value, w1).0)
  {
    d, rest := stmts[0].target, stmts[1..];
    var r := Call(g, d, w);
    w1, out := r.0, r.1;
    CallKeeps(g, d, w);
    Smaller(Waiting(w1), Waiting(w));
    BodyIs(g, stmts, value, w);
    if out.Normal? { BodyKeeps(g, rest, value, w1); }
  }

  lemma BodyIs(g: Graph, stmts: seq<Stmt>, value: nat, w: World)
    requires For(g, w) && ImportsIn(g, stmts) && stmts != [] && stmts[0].Import?
    ensures ImportsIn(g, stmts[1..])
    ensures var (w1, out) := Call(g, stmts[0].target, w);
            RunBody(g, stmts, value, w) == if out.Abrupt? then (w1, out) else RunBody(g, stmts[1..], value, w1)
  {
  }

  lemma {:induction false} CallDoes(g: Graph, m: nat, w: World)
    requires Consistent(g, w) && m in g && ImportsStarted(g, w)
    ensures var (w', out) := Call(g, m, w);
            && SameActive(w, w') && ImportsStarted(g, w') && !w'.wrappers[m].fn
            && (out.Normal? ==> NoNewError(w, w'))
    decreases |Waiting(w)|, 0, 0
  {
    if w.wrappers[m].fn {
      var w1, w2, out := FirstCall(g, m, w);
      assert ConsistentAt(g, w, m);
      BeginDoes(g, w, m);
      BodyDoes(g, g[m].stmts, g[m].value, w1);
      FinishDoes(g, w, m, w2, out);
    }
  }

  lemma BeginDoes(g: Graph, w: World, m: nat)
    requires For(g, w) && m in g && ImportsStarted(g, w)
    ensures ImportsStarted(g, Begin(w, m))
  {
    var w1 := Begin(w, m);
    forall x | x in g && w1.wrappers[x].res.Some? ensures AllStarted(g, w1, g[x].stmts) {
      assert AllStarted(g, w, g[x].stmts);
    }
  }

  lemma FinishDoes(g: Graph, w: World, m: nat, w2: World, out: Outcome)
    requires For(g, w) && m in g && w.wrappers[m] == Wrapper(true, None, None)
    requires For(g, w2) && ImportsStarted(g, w2) && SameActive(Begin(w, m), w2) && Extends(Begin(w, m), w2)
    requires out.Normal? ==>
               out.value == Some(g[m].value) && NoNewError(Begin(w, m), w2) && AllStarted(g, w2, g[m].stmts)
    ensures var w3 := Finish(w2, m, out);
            && SameActive(w, w3) && ImportsStarted(g, w3) && !w3.wrappers[m].fn
            && (out.Normal? ==> NoNewError(w, w3))
  {
    var w3 := Finish(w2, m, out);
    forall x | x in g && w3.wrappers[x].res.Some? ensures AllStarted(g, w3, g[x].stmts) {
      assert AllStarted(g, w2, g[x].stmts);
    }
    forall x | x in w.wrappers ensures Active(w3, x) <==> Active(w, x) {
      assert x != m ==> (Active(w2, x) <==> Active(Begin(w, m), x));
    }
  }

  lemma {:induction false} BodyDoes(g: Graph, stmts: seq<Stmt>, value: nat, w: World)
    requires Consistent(g, w) && ImportsIn(g, stmts) && ImportsStarted(g, w)
    ensures var (w', out) := RunBody(g, stmts, value, w);
            && SameActive(w, w') && ImportsStarted(g, w')
            && (out.Normal? ==> NoNewError(w, w') && AllStarted(g, w', stmts))
    decreases |Waiting(w)|, 1, |stmts|
  {
    if stmts != [] && stmts[0].Import? {
      var d, w1, out, rest := FirstImport(g, stmts, value, w);
      CallDoes(g, d, w);
      if out.Normal? {
        BodyDoes(g, rest, value, w1);
        var (w2, out') := RunBody(g, rest, value, w1);
        Further(w, w1, w2);
        if out'.Normal? { AllStartedFrom(g, w1, w2, stmts); }
      }
    }
  }

  predicate AllStarted(g: Graph, w: World, stmts: seq<Stmt>) {
    forall i :: 0 <= i < |stmts| ==> StartedBy(g, w, stmts[i])
  }

  lemma AllStartedFrom(g: Graph, w: World, w': World, stmts: seq<Stmt>)
    requires stmts != [] && StartedBy(g, w, stmts[0]) && Extends(w, w') && AllStarted(g, w', stmts[1..])
    ensures AllStarted(g, w', stmts)
  {
    assert forall i :: 1 <= i < |stmts| ==> stmts[i] == stmts[1..][i - 1];
  }

  lemma Further(w: World, w1: World, w2: World)
    requires SameActive(w, w1) && SameActive(w1, w2)
    ensures SameActive(w, w2)
    ensures NoNewError(w, w1) && NoNewError(w1, w2) ==> NoNewError(w, w2)
  {
    forall m | m in w.wrappers ensures Active(w2, m) <==> Active(w, m) {
      assert Active(w1, m) <==> Active(w, m);
    }
  }

  lemma {:induction false} CallAllDoes(g: Graph, roots: seq<nat>, w: World)
    requires Consistent(g, w) && Quiet(w) && ImportsStarted(g, w)
    requires forall i :: 0 <= i < |roots| ==> roots[i] in g
    ensures Quiet(CallAll(g, roots, w)) && ImportsStarted(g, CallAll(g, roots, w))
    decreases |roots|
  {
    if roots != [] {
      CallKeeps(g, roots[0], w);
      CallDoes(g, roots[0], w);
      CallAllDoes(g, roots[1..], Call(g, roots[0], w).0);
    }
  }

  predicate Imports(g: Graph, m: nat, d: nat) { m in g && Import(d) in g[m].stmts }

  /** Each module on the path imports the next one. */
  predicate Path(g: Graph, path: seq<nat>) {
    && path != [] && (forall i :: 0 <= i < |path| ==> path[i] in g)
    && forall i :: 0 <= i < |path| - 1 ==> Imports(g, path[i], path[i + 1])
  }

  predicate HasReturned(w: World, m: nat) { m in w.wrappers && w.wrappers[m].res.Some? }

  predicate HasThrown(w: World, m: nat) { m in w.wrappers && w.wrappers[m].err.Some? }

  /** From a module that returned, along imports: every module returned, up to the first one that threw. */
  lemma {:induction false} AlongPath(g: Graph, w: World, path: seq<nat>, k: nat)
    requires Consistent(g, w) && Quiet(w) && ImportsStarted(g, w) && Path(g, path)
    requires HasReturned(w, path[0]) && k < |path|
    requires forall i :: 0 <= i <= k ==> !HasThrown(w, path[i])
    ensures HasReturned(w, path[k])
    decreases k
  {
    if k > 0 {
      AlongPath(g, w, path, k - 1);
      assert Imports(g, path[k - 1], path[k]);
      var m := path[k - 1];
      var i :| 0 <= i < |g[m].stmts| && g[m].stmts[i] == Import(path[k]);
      assert StartedBy(g, w, g[m].stmts[i]);
      assert !Active(w, path[k]);
    }
  }

  /** The first call of a module ends as its body does, and throws what that throws. */
  lemma FirstCallEndsAsBody(g: Graph, m: nat, w: World)
    requires Consistent(g, w) && m in g && w.wrappers[m].fn
    ensures var w1 := World(w.wrappers[m := Wrapper(false, None, None)], w.log + [Started(m)]);
            For(g, w1) && Call(g, m, w).1 == RunBody(g, g[m].stmts, g[m].value, w1).1
  {
    var w1, w2, out := FirstCall(g, m, w);
    assert ConsistentAt(g, w, m);
    BodyKeeps(g, g[m].stmts, g[m].value, w1);
  }

  /** A body does one thing after the other, up to the first that throws. */
  lemma {:induction false} BodyRunsInOrder(g: Graph, a: seq<Stmt>, b: seq<Stmt>, value: nat, w: World)
    requires For(g, w) && ImportsIn(g, a + b)
    ensures ImportsIn(g, a) && ImportsIn(g, b)
    ensures var (w', out) := RunBody(g, a, value, w);
            RunBody(g, a + b, value, w) == if out.Normal? then RunBody(g, b, value, w') else (w', out)
    decreases |a|
  {
    assert forall i :: 0 <= i < |a| ==> a[i] == (a + b)[i];
    assert forall i :: 0 <= i < |b| ==> b[i] == (a + b)[|a| + i];
    if a == [] {
      assert a + b == b;
    } else {
      assert (a + b)[1..] == a[1..] + b && (a + b)[0] == a[0];
      if a[0].Import? {
        var (w', out) := Call(g, a[0].target, w);
        if out.Normal? { BodyRunsInOrder(g, a[1..], b, value, w'); }
      }
    }
  }

  /** An import calls the module, and a throw throws. */
  lemma OneStatement(g: Graph, d: nat, e: nat, value: nat, w: World)
    requires For(g, w) && d in g
    ensures RunBody(g, [], value, w) == (w, Normal(Some(value)))
    ensures RunBody(g, [Throw(e)], value, w) == (w, Abrupt(e))
    ensures var (w', out) := Call(g, d, w);
            RunBody(g, [Import(d)], value, w) == (w', if out.Abrupt? then out else Normal(Some(value)))
  {
    hide Call;
    assert [Import(d)][1..] == [];
  }

  lemma ThrownThrows(g: Graph, m: nat, w: World)
    requires Consistent(g, w) && m in g && HasThrown(w, m)
    ensures !Call(g, m, w).1.Normal?
  {
    assert ConsistentAt(g, w, m);
  }

  lemma FreshIsQuiet(g: Graph)
    requires Closed(g)
    ensures Quiet(Fresh(g)) && ImportsStarted(g, Fresh(g))
  {
  }

  /** A call between two calls, if it returns. */
  lemma CallReturns(g: Graph, m: nat, w: World)
    requires Consistent(g, w) && Quiet(w) && ImportsStarted(g, w) && m in g && Call(g, m, w).1.Normal?
    ensures var w' := Call(g, m, w).0;
            && Consistent(g, w') && Quiet(w') && ImportsStarted(g, w') && HasReturned(w', m)
            && forall x :: x in g ==> (HasThrown(w', x) <==> HasThrown(w, x))
  {
    hide Call, ImportsStarted, ConsistentAt;
    if HasThrown(w, m) { ThrownThrows(g, m, w); }
    CallKeeps(g, m, w);
    CallDoes(g, m, w);
    assert !Active(Call(g, m, w).0, m);
  }

  lemma ReturnedDidNotThrow(g: Graph, w: World, x: nat)
    requires Consistent(g, w) && x in g && HasReturned(w, x)
    ensures !HasThrown(w, x)
  {
    assert ConsistentAt(g, w, x);
  }

  /** After any calls at all, whatever they ended with: when a call of `m` returns, a module reachable
      from `m` has been evaluated to its end, unless it or a module on the way had thrown before. */
  lemma ReturnMeansEvaluated(g: Graph, roots: seq<nat>, m: nat, path: seq<nat>)
    requires Closed(g) && m in g && forall i :: 0 <= i < |roots| ==> roots[i] in g
    requires Path(g, path) && path[0] == m
    requires Call(g, m, CallAll(g, roots, Fresh(g))).1.Normal?
    ensures var before := CallAll(g, roots, Fresh(g));
            var after := Call(g, m, before).0;
            && (forall x :: x in g ==> (HasThrown(after, x) <==> HasThrown(before, x)))
            && ((forall i :: 0 <= i < |path| ==> HasReturned(after, path[i]))
                <==> (forall i :: 0 <= i < |path| ==> !HasThrown(before, path[i])))
  {
    hide Call, CallAll, Fresh, Quiet, ImportsStarted, ConsistentAt, HasThrown, HasReturned;
    FreshIsConsistent(g);
    FreshIsQuiet(g);
    CallAllKeeps(g, roots, Fresh(g));
    CallAllDoes(g, roots, Fresh(g));
    var before := CallAll(g, roots, Fresh(g));
    CallReturns(g, m, before);
    var after := Call(g, m, before).0;
    if forall i :: 0 <= i < |path| ==> !HasThrown(before, path[i]) {
      forall i | 0 <= i < |path| ensures HasReturned(after, path[i]) {
        AlongPath(g, after, path, i);
      }
    }
    forall i | 0 <= i < |path| && HasReturned(after, path[i]) ensures !HasThrown(after, path[i]) {
      ReturnedDidNotThrow(g, after, path[i]);
    }
  }

  predicate AllReturn(g: Graph, roots: seq<nat>, w: World)
    requires For(g, w) && forall i :: 0 <= i < |roots| ==> roots[i] in g
    decreases |roots|
  {
    roots == [] ||
    (Call(g, roots[0], w).1.Normal? && AllReturn(g, roots[1..], Call(g, roots[0], w).0))
  }

  lemma {:induction false} ReturnsLeaveNoError(g: Graph, roots: seq<nat>, w: World)
    requires Consistent(g, w) && ImportsStarted(g, w)
    requires forall i :: 0 <= i < |roots| ==> roots[i] in g
    requires AllReturn(g, roots, w)
    ensures NoNewError(w, CallAll(g, roots, w))
    decreases |roots|
  {
    if roots != [] {
      CallKeeps(g, roots[0], w);
      CallDoes(g, roots[0], w);
      ReturnsLeaveNoError(g, roots[1..], Call(g, roots[0], w).0);
    }
  }

  /** As long as every call so far has returned, cycles or not: everything reachable from what was
      called has been evaluated to its end. */
  lemma ReturnsMeanEvaluated(g: Graph, roots: seq<nat>, m: nat, path: seq<nat>, k: nat)
    requires Closed(g) && m in g && forall i :: 0 <= i < |roots| ==> roots[i] in g
    requires Path(g, path) && path[0] == m && k < |path|
    requires AllReturn(g, roots, Fresh(g)) && Call(g, m, CallAll(g, roots, Fresh(g))).1.Normal?
    ensures HasReturned(Call(g, m, CallAll(g, roots, Fresh(g))).0, path[k])
  {
    FreshIsConsistent(g);
    ReturnsLeaveNoError(g, roots, Fresh(g));
    ReturnMeansEvaluated(g, roots, m, path);
  }

  /** The condition matters: a module that was called back in a cycle returned before its importer
      threw, and a later call of it returns although what it imports has thrown. */
  lemma ReturnAfterFailure(g: Graph)
    requires g == map[0 := Body([Import(1), Throw(7)], 0), 1 := Body([Import(0)], 1)]
    ensures Closed(g)
    ensures var after := CallAll(g, [0], Fresh(g));
            HasThrown(after, 0) && Imports(g, 1, 0) && Call(g, 1, after) == (after, Normal(Some(1)))
  {
    var w0 := Fresh(g);
    var w1 := Begin(w0, 0);
    var w2 := Begin(w1, 1);
    assert Call(g, 0, w2) == (w2, Normal(None));
    assert [Import(0)][1..] == [];
    assert RunBody(g, [Import(0)], 1, w2) == (w2, Normal(Some(1)));
    var w3 := Finish(w2, 1, Normal(Some(1)));
    assert Call(g, 1, w1) == (w3, Normal(Some(1)));
    assert [Import(1), Throw(7)][1..] == [Throw(7)];
    assert RunBody(g, [Throw(7)], 0, w3) == (w3, Abrupt(7));
    assert RunBody(g, [Import(1), Throw(7)], 0, w1) == (w3, Abrupt(7));
    var w4 := Finish(w3, 0, Abrupt(7));
    assert Call(g, 0, w0) == (w4, Abrupt(7));
    assert [0][1..] == [];
  }

  // ----- Without cycles -----

  ghost predicate Acyclic(g: Graph, rank: nat -> nat) {
    forall m, d :: Imports(g, m, d) ==> rank(d) < rank(m)
  }

  /** Every module returned after everything it imports had returned. */
  ghost predicate InDependencyOrder(g: Graph, log: seq<Event>) {
    forall p :: 0 <= p < |log| ==> ReturnedAfterImports(g, log[..p], log[p])
  }

  ghost predicate ReturnedAfterImports(g: Graph, earlier: seq<Event>, e: Event) {
    e.Returned? ==> forall d :: Imports(g, e.id, d) ==> Returned(d) in earlier
  }

  ghost predicate ActiveAbove(w: World, rank: nat -> nat, r: nat) {
    forall x :: x in w.wrappers && Active(w, x) ==> rank(x) >= r
  }

  lemma OrderedAppend(g: Graph, log: seq<Event>, e: Event)
    requires InDependencyOrder(g, log) && ReturnedAfterImports(g, log, e)
    ensures InDependencyOrder(g, log + [e])
  {
    var log' := log + [e];
    forall p | 0 <= p < |log'| ensures ReturnedAfterImports(g, log'[..p], log'[p]) {
      assert log'[..p] == log[..p];
      assert log[..|log|] == log;
    }
  }

  lemma {:induction false} CallInOrder(g: Graph, rank: nat -> nat, m: nat, w: World)
    requires Consistent(g, w) && ImportsStarted(g, w) && m in g && Acyclic(g, rank)
    requires InDependencyOrder(g, w.log) && ActiveAbove(w, rank, rank(m) + 1)
    ensures var (w', out) := Call(g, m, w);
            InDependencyOrder(g, w'.log) && (out.Normal? ==> Returned(m) in w'.log)
    decreases |Waiting(w)|, 0, 0
  {
    if w.wrappers[m].fn {
      var w1, w2, out := FirstCall(g, m, w);
      BeginDoes(g, w, m);
      OrderedAppend(g, w.log, Started(m));
      assert Below(g[m].stmts, rank, rank(m)) by {
        forall i | 0 <= i < |g[m].stmts| && g[m].stmts[i].Import? ensures rank(g[m].stmts[i].target) < rank(m) {
          assert Imports(g, m, g[m].stmts[i].target);
        }
      }
      BeginAbove(w, rank, m);
      BodyInOrder(g, rank, g[m].stmts, g[m].value, w1, rank(m));
      OrderedAppend(g, w2.log, if out.Normal? then Returned(m) else Threw(m, out.error));
    } else {
      assert !Active(w, m);
      assert ConsistentAt(g, w, m);
    }
  }

  lemma BeginAbove(w: World, rank: nat -> nat, m: nat)
    requires m in w.wrappers && ActiveAbove(w, rank, rank(m) + 1)
    ensures ActiveAbove(Begin(w, m), rank, rank(m))
  {
    forall x | x in w.wrappers && Active(Begin(w, m), x) ensures rank(x) >= rank(m) {
      assert x != m ==> Active(w, x);
    }
  }

  /** The imports of some statements are of lower rank than `r`. */
  ghost predicate Below(stmts: seq<Stmt>, rank: nat -> nat, r: nat) {
    forall i :: 0 <= i < |stmts| && stmts[i].Import? ==> rank(stmts[i].target) < r
  }

  lemma {:induction false} BodyInOrder(g: Graph, rank: nat -> nat, stmts: seq<Stmt>, value: nat, w: World, r: nat)
    requires Consistent(g, w) && ImportsStarted(g, w) && ImportsIn(g, stmts) && Acyclic(g, rank)
    requires Below(stmts, rank, r) && InDependencyOrder(g, w.log) && ActiveAbove(w, rank, r)
    ensures var (w', out) := RunBody(g, stmts, value, w);
            && InDependencyOrder(g, w'.log)
            && (out.Normal? ==> forall d :: Import(d) in stmts ==> Returned(d) in w'.log)
    decreases |Waiting(w)|, 1, |stmts|
  {
    if stmts != [] && stmts[0].Import? {
      var d, w1, out, rest := FirstImport(g, stmts, value, w);
      CallDoes(g, d, w);
      CallInOrder(g, rank, d, w);
      if out.Normal? {
        assert ActiveAbove(w1, rank, r);
        BodyInOrder(g, rank, rest, value, w1, r);
        ReturnedFirst(stmts, d, w1.log, RunBody(g, rest, value, w1).0.log);
      }
    }
  }

  lemma ReturnedFirst(stmts: seq<Stmt>, d: nat, log: seq<Event>, log': seq<Event>)
    requires stmts != [] && stmts[0] == Import(d) && log <= log' && Returned(d) in log
    ensures Returned(d) in log'
    ensures forall x :: Import(x) in stmts ==> x == d || Import(x) in stmts[1..]
  {
    var i :| 0 <= i < |log| && log[i] == Returned(d);
    assert log'[i] == Returned(d);
  }

  /** On a graph without cycles, over any calls and whatever they end with, bodies finish in
      dependency order. */
  lemma {:induction false} CallAllInOrder(g: Graph, rank: nat -> nat, roots: seq<nat>, w: World)
    requires Consistent(g, w) && Quiet(w) && ImportsStarted(g, w) && Acyclic(g, rank)
    requires InDependencyOrder(g, w.log) && forall i :: 0 <= i < |roots| ==> roots[i] in g
    ensures InDependencyOrder(g, CallAll(g, roots, w).log)
    decreases |roots|
  {
    if roots != [] {
      var w' := Call(g, roots[0], w).0;
      CallKeeps(g, roots[0], w);
      CallDoes(g, roots[0], w);
      CallInOrder(g, rank, roots[0], w);
      CallAllInOrder(g, rank, roots[1..], w');
    }
  }

  lemma BodiesFinishInDependencyOrder(g: Graph, rank: nat -> nat, roots: seq<nat>)
    requires Closed(g) && Acyclic(g, rank) && forall i :: 0 <= i < |roots| ==> roots[i] in g
    ensures InDependencyOrder(g, CallAll(g, roots, Fresh(g)).log)
  {
    FreshIsConsistent(g);
    CallAllInOrder(g, rank, roots, Fresh(g));
  }

  lemma {:induction false} ReturnedAlongPath(g: Graph, log: seq<Event>, path: seq<nat>, k: nat)
    requires InDependencyOrder(g, log) && Path(g, path) && k < |path| && Returned(path[0]) in log
    ensures Returned(path[k]) in log
    decreases k
  {
    if k > 0 {
      ReturnedAlongPath(g, log, path, k - 1);
      var p :| 0 <= p < |log| && log[p] == Returned(path[k - 1]);
      assert ReturnedAfterImports(g, log[..p], log[p]);
      assert Imports(g, path[k - 1], path[k]);
      assert Returned(path[k]) in log[..p];
    }
  }

  /** On a graph without cycles a call that returns has everything reachable evaluated, even when
      earlier calls have thrown. */
  lemma WithoutCyclesReturnMeansEvaluated(
      g: Graph, rank: nat -> nat, roots: seq<nat>, m: nat, path: seq<nat>, k: nat)
    requires Closed(g) && Acyclic(g, rank) && m in g && forall i :: 0 <= i < |roots| ==> roots[i] in g
    requires Path(g, path) && path[0] == m && k < |path|
    requires Call(g, m, CallAll(g, roots, Fresh(g))).1.Normal?
    ensures HasReturned(Call(g, m, CallAll(g, roots, Fresh(g))).0, path[k])
  {
    FreshIsConsistent(g);
    CallAllKeeps(g, roots, Fresh(g));
    CallAllDoes(g, roots, Fresh(g));
    CallAllInOrder(g, rank, roots, Fresh(g));
    var before := CallAll(g, roots, Fresh(g));
    CallKeeps(g, m, before);
    CallInOrder(g, rank, m, before);
    var after := Call(g, m, before).0;
    ReturnedAlongPath(g, after.log, path, k);
    assert ConsistentAt(g, after, path[k]);
  }

  // ----- The closures -----

  /** The wrappers of a bundle. */
  class Bundle {
    const graph: Graph
    var wrappers: map<nat, Wrapper>
    ghost var log: seq<Event>

    ghost function View(): World
      reads this
    {
      World(wrappers, log)
    }

    constructor (graph: Graph)
      requires Closed(graph)
      ensures this.graph == graph && View() == Fresh(graph) && Consistent(graph, View())
    {
      this.graph := graph;
      wrappers := map m | m in graph :: Wrapper(true, None, None);
      log := [];
      new;
      FreshIsConsistent(graph);
    }

    /** Calling the wrapper of `m`. */
    method Init(m: nat) returns (out: Outcome)
      requires Consistent(graph, View()) && m in graph
      modifies this
      ensures Consistent(graph, View())
      ensures (View(), out) == Call(graph, m, old(View()))
      decreases |Waiting(View())|, 0, 0
    {
      CallKeeps(graph, m, View());
      if wrappers[m].fn {
        BeginStarts(View(), m);
        BeginKeeps(graph, View(), m);
        wrappers := wrappers[m := wrappers[m].(fn := false)];
        log := log + [Started(m)];
        var body := Evaluate(graph[m].stmts, graph[m].value);
        match body {
          case Normal(v) =>
            wrappers := wrappers[m := wrappers[m].(res := v)];
            log := log + [Returned(m)];
          case Abrupt(e) =>
            wrappers := wrappers[m := wrappers[m].(err := Some(e))];
            log := log + [Threw(m, e)];
        }
      }
      if wrappers[m].err.Some? {
        return Abrupt(wrappers[m].err.value);
      }
      return Normal(wrappers[m].res);
    }

    /** Running a body. */
    method Evaluate(stmts: seq<Stmt>, value: nat) returns (out: Outcome)
      requires Consistent(graph, View()) && ImportsIn(graph, stmts)
      modifies this
      ensures Consistent(graph, View())
      ensures (View(), out) == RunBody(graph, stmts, value, old(View()))
      decreases |Waiting(View())|, 1, |stmts|
    {
      if stmts == [] {
        return Normal(Some(value));
      }
      match stmts[0] {
        case Throw(e) =>
          return Abrupt(e);
        case Import(d) =>
          ghost var before := View();
          BodyIs(graph, stmts, value, before);
          out := Init(d);
          Smaller(Waiting(View()), Waiting(before));
          if out.Normal? {
            out := Evaluate(stmts[1..], value);
          }
      }
    }
  }
}
