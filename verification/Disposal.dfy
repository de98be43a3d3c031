/** `__using` and `__callDispose` (src/runtime.bun.js): what the bundler makes of `using` and
    `await using`, next to the algorithms of the ECMAScript Explicit Resource Management proposal. */
module Disposal {
  import opened Wrappers

  /** How a promise settles. Awaiting any other value is awaiting a promise that fulfills. */
  datatype Settlement = Fulfills | Rejects(error: nat)

  /** What a dispose method does when it is called. */
  datatype Reply = Throws(error: nat) | Returns(awaited: Settlement)

  datatype Method = Method(id: nat, reply: Reply)

  /** What a property of an object holds. */
  datatype Slot = Undefined | Null | NotCallable | Callable(disposer: Method)

  datatype Value = Nullish | Primitive | Object(asyncDispose: Slot, dispose: Slot)

  datatype Error = Plain(code: nat) | Suppressed(error: Error, suppressed: Error)

  /** `[async, dispose, value]`, or `[async]` for `await using x = null`. */
  datatype Entry = Entry(isAsync: bool, disposer: Option<Method>)

  datatype Event = Called(id: nat) | Settled(awaited: Settlement)

  // ----- Disposing -----

  /** The closure of `__callDispose`: `error` is there when `hasError` is set, and `waiting` is the
      promise that `next` has returned on. */
  datatype State = State(
    stack: seq<Entry>, error: Option<Error>, log: seq<Event>, waiting: Option<Settlement>, done: bool)

  function Begin(stack: seq<Entry>, error: Option<Error>): State { State(stack, error, [], None, false) }

  function Fail(error: Option<Error>, e: nat): Option<Error> {
    if error.Some? then Some(Suppressed(Plain(e), error.value)) else Some(Plain(e))
  }

  /** `next`: pops entries until it has to wait or the stack is empty. */
  function Next(st: State): (r: State)
    ensures |r.stack| <= |st.stack| && (r.waiting.Some? ==> |r.stack| < |st.stack|)
    ensures r.done || r.waiting.Some?
    decreases |st.stack|
  {
    if st.stack == [] then st.(waiting := None, done := true)
    else
      var n := |st.stack| - 1;
      var it := st.stack[n];
      var popped := st.(stack := st.stack[..n], waiting := None, done := false);
      match it.disposer
      case None =>
        if it.isAsync then popped.(waiting := Some(Fulfills)) else Next(popped)
      case Some(Method(id, Throws(e))) =>
        Next(popped.(error := Fail(st.error, e), log := st.log + [Called(id)]))
      case Some(Method(id, Returns(s))) =>
        var called := popped.(log := st.log + [Called(id)]);
        if it.isAsync then called.(waiting := Some(s)) else Next(called)
  }

  /** The promise settles, and one of the two callbacks goes on. */
  function Resume(st: State): State
    requires st.waiting.Some?
  {
    var settled := st.(log := st.log + [Settled(st.waiting.value)]);
    match st.waiting.value
    case Fulfills => Next(settled)
    case Rejects(e) => Next(settled.(error := Fail(st.error, e)))
  }

  /** The state after `k` promises have settled, or at the end. */
  function After(st: State, k: nat): State
    decreases k
  {
    if k == 0 || st.waiting.None? then st else After(Resume(st), k - 1)
  }

  // ----- What it should come to -----

  /** Top of the stack first. */
  function Reverse(stack: seq<Entry>): seq<Entry> {
    if stack == [] then [] else [stack[|stack| - 1]] + Reverse(stack[..|stack| - 1])
  }

  /** The error an entry adds, if any. */
  function ErrorsOf(it: Entry): seq<nat> {
    match it.disposer
    case None => []
    case Some(Method(_, Throws(e))) => [e]
    case Some(Method(_, Returns(Rejects(e)))) => if it.isAsync then [e] else []
    case Some(Method(_, Returns(Fulfills))) => []
  }

  /** What disposing of an entry looks like: the call, and for an async one the wait. */
  function EventsOf(it: Entry): seq<Event> {
    match it.disposer
    case None => if it.isAsync then [Settled(Fulfills)] else []
    case Some(Method(id, Throws(_))) => [Called(id)]
    case Some(Method(id, Returns(s))) => if it.isAsync then [Called(id), Settled(s)] else [Called(id)]
  }

  /** A later error suppresses all earlier ones. */
  function Fold(error: Option<Error>, errors: seq<nat>): Option<Error>
    decreases |errors|
  {
    if errors == [] then error else Fold(Fail(error, errors[0]), errors[1..])
  }

  function Errors(entries: seq<Entry>): seq<nat> {
    if entries == [] then [] else ErrorsOf(entries[0]) + Errors(entries[1..])
  }

  function Events(entries: seq<Entry>): seq<Event> {
    if entries == [] then [] else EventsOf(entries[0]) + Events(entries[1..])
  }

  // ----- Disposal runs to its end -----

  lemma {:induction false} FoldConcat(error: Option<Error>, a: seq<nat>, b: seq<nat>)
    ensures Fold(error, a + b) == Fold(Fold(error, a), b)
    decreases |a|
  {
    if a == [] {
      assert a + b == b;
    } else {
      assert (a + b)[1..] == a[1..] + b;
      FoldConcat(Fail(error, a[0]), a[1..], b);
    }
  }

  /** What is left to do: the promise that is awaited, then the rest of the stack. */
  function EventsLeft(st: State): seq<Event> {
    (if st.waiting.Some? then [Settled(st.waiting.value)] else []) + Events(Reverse(st.stack))
  }

  function ErrorsLeft(st: State): seq<nat> {
    (if st.waiting.Some? && st.waiting.value.Rejects? then [st.waiting.value.error] else [])
    + Errors(Reverse(st.stack))
  }

  /** The log and the error, with what is left to do, do not change. */
  lemma {:induction false} NextKeeps(st: State)
    requires st.waiting.None?
    ensures var r := Next(st);
            && r.log + EventsLeft(r) == st.log + Events(Reverse(st.stack))
            && Fold(r.error, ErrorsLeft(r)) == Fold(st.error, Errors(Reverse(st.stack)))
            && (r.done ==> r.stack == [] && r.waiting.None?)
    decreases |st.stack|
  {
    if st.stack != [] {
      var n := |st.stack| - 1;
      var it, rest := st.stack[n], Reverse(st.stack[..n]);
      assert Reverse(st.stack) == [it] + rest;
      assert Events([it] + rest) == EventsOf(it) + Events(rest);
      assert Errors([it] + rest) == ErrorsOf(it) + Errors(rest);
      Assoc(st.log, EventsOf(it), Events(rest));
      FoldConcat(st.error, ErrorsOf(it), Errors(rest));
      var popped := st.(stack := st.stack[..n], waiting := None, done := false);
      match it.disposer {
        case None =>
          assert [] + Events(rest) == Events(rest) && [] + Errors(rest) == Errors(rest);
          if !it.isAsync { NextKeeps(popped); }
        case Some(Method(id, Throws(e))) =>
          assert [e][1..] == [];
          NextKeeps(popped.(error := Fail(st.error, e), log := st.log + [Called(id)]));
        case Some(Method(id, Returns(s))) =>
          var called := popped.(log := st.log + [Called(id)]);
          if it.isAsync {
            assert st.log + [Called(id), Settled(s)] == called.log + [Settled(s)];
            Assoc(called.log, [Settled(s)], Events(rest));
            FoldConcat(st.error, if s.Rejects? then [s.error] else [], Errors(rest));
          } else {
            assert [] + Errors(rest) == Errors(rest);
            NextKeeps(called);
          }
      }
    }
  }

  lemma ResumeKeeps(st: State)
    requires st.waiting.Some?
    ensures var r := Resume(st);
            && r.log + EventsLeft(r) == st.log + EventsLeft(st)
            && Fold(r.error, ErrorsLeft(r)) == Fold(st.error, ErrorsLeft(st))
            && (r.done ==> r.stack == [] && r.waiting.None?)
            && (r.waiting.Some? ==> |r.stack| < |st.stack|)
  {
    var s, rest := st.waiting.value, Reverse(st.stack);
    Assoc(st.log, [Settled(s)], Events(rest));
    var settled := st.(log := st.log + [Settled(s)]);
    NextIgnoresWaiting(settled);
    if s.Rejects? {
      assert [s.error][1..] == [];
      FoldConcat(st.error, [s.error], Errors(rest));
      assert Fold(st.error, [s.error]) == Fail(st.error, s.error);
      NextIgnoresWaiting(settled.(error := Fail(st.error, s.error)));
      NextKeeps(settled.(error := Fail(st.error, s.error), waiting := None));
    } else {
      assert [] + Errors(rest) == Errors(rest);
      NextKeeps(settled.(waiting := None));
    }
  }

  lemma {:induction false} NextIgnoresWaiting(st: State)
    ensures Next(st) == Next(st.(waiting := None))
  {
  }

  /** After any number of settlements: the log so far is the start of the whole story, the error so far
      is on its way to the final one, and as long as a promise is awaited nothing else happens. */
  lemma {:induction false} AfterKeeps(st: State, k: nat)
    requires st.done ==> st.stack == [] && st.waiting.None?
    requires st.done || st.waiting.Some?
    ensures var r := After(st, k);
            && r.log + EventsLeft(r) == st.log + EventsLeft(st)
            && Fold(r.error, ErrorsLeft(r)) == Fold(st.error, ErrorsLeft(st))
            && (r.done ==> r.stack == [] && r.waiting.None?) && (r.done || r.waiting.Some?)
            && (k > |st.stack| ==> r.done)
    decreases k
  {
    if k > 0 && st.waiting.Some? {
      ResumeKeeps(st);
      AfterKeeps(Resume(st), k - 1);
    }
  }

  /** The state of a disposal in which `k` promises have settled. */
  function Dispose(stack: seq<Entry>, error: Option<Error>, k: nat): State {
    After(Next(Begin(stack, error)), k)
  }

  /** Every disposal, whatever the resources do: at every moment its log is the start of one and the
      same story, in which the entries are taken from the top and each wait ends before the next call;
      and it comes to an end, with the errors folded in the order in which they occurred. */
  lemma DisposalIsOrderly(stack: seq<Entry>, error: Option<Error>, k: nat)
    ensures var st := Dispose(stack, error, k);
            var story := Events(Reverse(stack));
            && st.log <= story
            && (st.waiting.Some? ==> st.log + [Settled(st.waiting.value)] <= story)
            && (st.done <==> st.waiting.None?)
            && (st.done ==> st.log == story && st.error == Fold(error, Errors(Reverse(stack))))
            && (k > |stack| ==> st.done)
  {
    var st0 := Begin(stack, error);
    NextKeeps(st0);
    assert [] + Events(Reverse(stack)) == Events(Reverse(stack));
    AfterKeeps(Next(st0), k);
    var st := Dispose(stack, error, k);
    if st.done {
      assert EventsLeft(st) == [] && ErrorsLeft(st) == [];
      assert st.log + [] == st.log;
    } else {
      Assoc(st.log, [Settled(st.waiting.value)], Events(Reverse(st.stack)));
    }
  }

  // ----- Each method once, last in first out -----

  function CalledIds(log: seq<Event>): seq<nat> {
    if log == [] then []
    else (if log[0].Called? then [log[0].id] else []) + CalledIds(log[1..])
  }

  function MethodIds(entries: seq<Entry>): seq<nat> {
    if entries == [] then []
    else (if entries[0].disposer.Some? then [entries[0].disposer.value.id] else []) + MethodIds(entries[1..])
  }

  lemma {:induction false} CalledIdsConcat(a: seq<Event>, b: seq<Event>)
    ensures CalledIds(a + b) == CalledIds(a) + CalledIds(b)
    decreases |a|
  {
    if a == [] {
      assert a + b == b;
    } else {
      assert (a + b)[1..] == a[1..] + b && (a + b)[0] == a[0];
      CalledIdsConcat(a[1..], b);
      var head := if a[0].Called? then [a[0].id] else [];
      assert head + (CalledIds(a[1..]) + CalledIds(b)) == head + CalledIds(a[1..]) + CalledIds(b);
    }
  }

  lemma {:induction false} StoryCallsMethods(entries: seq<Entry>)
    ensures CalledIds(Events(entries)) == MethodIds(entries)
    decreases |entries|
  {
    if entries != [] {
      var it := entries[0];
      StoryCallsMethods(entries[1..]);
      CalledIdsConcat(EventsOf(it), Events(entries[1..]));
      assert CalledIds([]) == [];
      assert forall s :: CalledIds([Settled(s)]) == [] by {
        forall s ensures CalledIds([Settled(s)]) == [] { assert [Settled(s)][1..] == []; }
      }
      if it.disposer.Some? {
        var id := it.disposer.value.id;
        assert [Called(id)][1..] == [];
        forall s ensures CalledIds([Called(id), Settled(s)]) == [id] {
          assert [Called(id), Settled(s)][1..] == [Settled(s)];
        }
      }
    }
  }

  lemma {:induction false} ReverseIs(stack: seq<Entry>)
    ensures |Reverse(stack)| == |stack|
    ensures forall i :: 0 <= i < |stack| ==> Reverse(stack)[i] == stack[|stack| - 1 - i]
    decreases |stack|
  {
    if stack != [] { ReverseIs(stack[..|stack| - 1]); }
  }

  /** At the end, the dispose methods have been called exactly once each, last in first out. */
  lemma EachMethodOnceLastInFirstOut(stack: seq<Entry>, error: Option<Error>, k: nat)
    requires Dispose(stack, error, k).done
    ensures CalledIds(Dispose(stack, error, k).log) == MethodIds(Reverse(stack))
    ensures |Reverse(stack)| == |stack|
    ensures forall i :: 0 <= i < |stack| ==> Reverse(stack)[i] == stack[|stack| - 1 - i]
  {
    DisposalIsOrderly(stack, error, k);
    StoryCallsMethods(Reverse(stack));
    ReverseIs(stack);
  }

  // ----- The proposal -----

  /** A DisposableResource record. `wrapped` says that the method is the closure which an async
      resource gets around its synchronous dispose method. */
  datatype Resource = Resource(isAsync: bool, disposer: Option<Method>, wrapped: bool)

  datatype Result<+T> = Ok(value: T) | TypeError

  /** GetMethod: null counts as undefined. */
  function GetMethod(slot: Slot): Result<Option<Method>> {
    match slot
    case Undefined => Ok(None)
    case Null => Ok(None)
    case NotCallable => TypeError
    case Callable(m) => Ok(Some(m))
  }

  /** CreateDisposableResource with GetDisposeMethod; None when there is nothing to dispose. */
  function CreateResource(value: Value, isAsync: bool): Result<Option<Resource>> {
    match value
    case Nullish => Ok(if isAsync then Some(Resource(true, None, false)) else None)
    case Primitive => TypeError
    case Object(asyncDispose, dispose) =>
      var first := if isAsync then GetMethod(asyncDispose) else Ok(None);
      if first.TypeError? then TypeError
      else if first.value.Some? then Ok(Some(Resource(true, first.value, false)))
      else
        var second := GetMethod(dispose);
        if second.TypeError? || second.value.None? then TypeError
        else Ok(Some(Resource(isAsync, second.value, isAsync)))
  }

  /** One resource of DisposeResources: the completion after its method was called and awaited. The
      closure around a synchronous method throws what the method throws and drops what it returns. */
  function DisposeResource(r: Resource, completion: Option<Error>): Option<Error> {
    match r.disposer
    case None => completion
    case Some(Method(_, Throws(e))) => Fail(completion, e)
    case Some(Method(_, Returns(s))) =>
      if r.isAsync && !r.wrapped && s.Rejects? then Fail(completion, s.error) else completion
  }

  /** DisposeResources, as far as the completion goes. */
  function DisposeResources(resources: seq<Resource>, completion: Option<Error>): Option<Error>
    decreases |resources|
  {
    if resources == [] then completion
    else
      var n := |resources| - 1;
      DisposeResources(resources[..n], DisposeResource(resources[n], completion))
  }

  function EntryOf(r: Resource): Entry { Entry(r.isAsync, r.disposer) }

  function Entries(resources: seq<Resource>): (s: seq<Entry>)
    ensures |s| == |resources|
  {
    seq(|resources|, i requires 0 <= i < |resources| => EntryOf(resources[i]))
  }

  /** A synchronous dispose method, used for `await using`, that returned a promise which rejects. */
  predicate Stray(r: Resource) {
    r.isAsync && r.wrapped && r.disposer.Some? && r.disposer.value.reply.Returns? &&
    r.disposer.value.reply.awaited.Rejects?
  }

  function Strays(resources: seq<Resource>): nat {
    if resources == [] then 0
    else Strays(resources[..|resources| - 1]) + if Stray(resources[|resources| - 1]) then 1 else 0
  }

  function Depth(e: Error): nat {
    match e
    case Plain(_) => 1
    case Suppressed(a, b) => Depth(a) + Depth(b)
  }

  function Size(error: Option<Error>): nat { if error.Some? then Depth(error.value) else 0 }

  /** How errors nest: after one more, the outcome is a SuppressedError whose error is the new one and whose
      suppressed error is the outcome before it; the first error of all stays as it is. */
  lemma OutcomeNests(error: Option<Error>, errors: seq<nat>, e: nat)
    ensures Fold(error, []) == error
    ensures var before := Fold(error, errors);
            Fold(error, errors + [e]) == Some(if before.None? then Plain(e) else Suppressed(Plain(e), before.value))
  {
    FoldConcat(error, errors, [e]);
    assert [e][1..] == [];
  }

  lemma FailSize(error: Option<Error>, e: nat)
    ensures Size(Fail(error, e)) == Size(error) + 1
  {
    assert Depth(Plain(e)) == 1;
  }

  lemma {:induction false} FoldSize(error: Option<Error>, errors: seq<nat>)
    ensures Size(Fold(error, errors)) == Size(error) + |errors|
    decreases |errors|
  {
    hide Size, Fail;
    if errors != [] {
      FailSize(error, errors[0]);
      FoldSize(Fail(error, errors[0]), errors[1..]);
    }
  }

  /** What the helper ends with, resource by resource. */
  lemma FoldIsStepwise(resources: seq<Resource>, error: Option<Error>)
    requires resources != []
    ensures var n := |resources| - 1;
            Fold(error, Errors(Reverse(Entries(resources))))
            == Fold(Fold(error, ErrorsOf(EntryOf(resources[n]))), Errors(Reverse(Entries(resources[..n]))))
  {
    var n := |resources| - 1;
    var entries := Entries(resources);
    assert entries[..n] == Entries(resources[..n]);
    assert Reverse(entries) == [entries[n]] + Reverse(entries[..n]);
    assert Errors(Reverse(entries)) == ErrorsOf(entries[n]) + Errors(Reverse(entries[..n]));
    FoldConcat(error, ErrorsOf(entries[n]), Errors(Reverse(entries[..n])));
  }

  lemma OneResource(r: Resource, error: Option<Error>)
    requires r.wrapped ==> r.isAsync
    ensures !Stray(r) ==> Fold(error, ErrorsOf(EntryOf(r))) == DisposeResource(r, error)
    ensures |ErrorsOf(EntryOf(r))| == Size(DisposeResource(r, error)) - Size(error) + if Stray(r) then 1 else 0
  {
    forall e: nat ensures Fold(error, [e]) == Fail(error, e) && Size(Fail(error, e)) == Size(error) + 1 {
      assert [e][1..] == [];
      FoldSize(error, [e]);
    }
  }

  lemma {:induction false} SizesDiffer(resources: seq<Resource>, error: Option<Error>, completion: Option<Error>)
    requires forall i :: 0 <= i < |resources| ==> (resources[i].wrapped ==> resources[i].isAsync)
    ensures Size(Fold(error, Errors(Reverse(Entries(resources))))) - Size(error)
            == Size(DisposeResources(resources, completion)) - Size(completion) + Strays(resources)
    decreases |resources|
  {
    if resources != [] {
      var n := |resources| - 1;
      var r := resources[n];
      FoldIsStepwise(resources, error);
      OneResource(r, completion);
      FoldSize(error, ErrorsOf(EntryOf(r)));
      SizesDiffer(resources[..n], Fold(error, ErrorsOf(EntryOf(r))), DisposeResource(r, completion));
    }
  }

  lemma {:induction false} NoStraysAgree(resources: seq<Resource>, error: Option<Error>)
    requires forall i :: 0 <= i < |resources| ==> (resources[i].wrapped ==> resources[i].isAsync)
    requires Strays(resources) == 0
    ensures Fold(error, Errors(Reverse(Entries(resources)))) == DisposeResources(resources, error)
    decreases |resources|
  {
    if resources != [] {
      var n := |resources| - 1;
      FoldIsStepwise(resources, error);
      OneResource(resources[n], error);
      NoStraysAgree(resources[..n], DisposeResource(resources[n], error));
    }
  }

  /** The helper ends with the error the proposal asks for, exactly when no `await using` resource
      falls back on a synchronous method that returns a promise which rejects: the helper awaits that
      promise, the proposal does not. */
  lemma RefinesDisposeResources(resources: seq<Resource>, error: Option<Error>, k: nat)
    requires forall i :: 0 <= i < |resources| ==> (resources[i].wrapped ==> resources[i].isAsync)
    requires Dispose(Entries(resources), error, k).done
    ensures Dispose(Entries(resources), error, k).error == DisposeResources(resources, error)
            <==> forall i :: 0 <= i < |resources| ==> !Stray(resources[i])
  {
    DisposalIsOrderly(Entries(resources), error, k);
    SizesDiffer(resources, error, error);
    StraysAre(resources);
    if Strays(resources) == 0 { NoStraysAgree(resources, error); }
  }

  lemma {:induction false} StraysAre(resources: seq<Resource>)
    ensures Strays(resources) == 0 <==> forall i :: 0 <= i < |resources| ==> !Stray(resources[i])
    decreases |resources|
  {
    if resources != [] {
      var n := |resources| - 1;
      StraysAre(resources[..n]);
      assert forall i :: 0 <= i < n ==> resources[..n][i] == resources[i];
    }
  }

  // ----- Declaring -----

  /** `__using`: the stack after the declaration, or the TypeError it throws. */
  function Using(stack: seq<Entry>, value: Value, isAsync: bool): Result<seq<Entry>> {
    match value
    case Nullish => Ok(if isAsync then stack + [Entry(true, None)] else stack)
    case Primitive => TypeError
    case Object(asyncDispose, dispose) =>
      var slot := if isAsync && asyncDispose != Undefined then asyncDispose else dispose;
      if slot.Callable? then Ok(stack + [Entry(isAsync, Some(slot.disposer))]) else TypeError
  }

  /** A declaration pushes what the proposal adds, and throws when the proposal throws, exactly unless
      the async dispose property is null and there is a synchronous method to fall back on: the
      helper only falls back from undefined. */
  lemma UsingRefinesCreateResource(stack: seq<Entry>, value: Value, isAsync: bool)
    ensures var r := CreateResource(value, isAsync);
            var asked := if r.TypeError? then TypeError
                         else Ok(if r.value.Some? then stack + [EntryOf(r.value.value)] else stack);
            Using(stack, value, isAsync) == asked
            <==> !(isAsync && value.Object? && value.asyncDispose.Null? && value.dispose.Callable?)
    ensures var r := CreateResource(value, isAsync);
            r.Ok? && r.value.Some? && r.value.value.wrapped ==> r.value.value.isAsync
  {
  }

  // ----- The closures -----

  /** The stack of one block, with the helpers that work on it. */
  class Block {
    var stack: seq<Entry>
    var error: Option<Error>
    var waiting: Option<Settlement>
    var done: bool
    ghost var log: seq<Event>

    ghost function View(): State
      reads this
    {
      State(stack, error, log, waiting, done)
    }

    constructor ()
      ensures View() == Begin([], None)
    {
      stack, error, waiting, done := [], None, None, false;
      log := [];
    }

    method Declare(value: Value, isAsync: bool) returns (r: Result<()>)
      modifies this`stack
      ensures match Using(old(stack), value, isAsync)
              case Ok(s) => r == Ok(()) && stack == s
              case TypeError => r == TypeError && stack == old(stack)
    {
      match value {
        case Nullish =>
          if isAsync { stack := stack + [Entry(true, None)]; }
        case Primitive =>
          return TypeError;
        case Object(asyncDispose, dispose) =>
          var slot := Undefined;
          if isAsync { slot := asyncDispose; }
          if slot == Undefined { slot := dispose; }
          if !slot.Callable? {
            return TypeError;
          }
          stack := stack + [Entry(isAsync, Some(slot.disposer))];
      }
      return Ok(());
    }

    /** `fail` */
    method Failed(e: nat)
      modifies this`error
      ensures error == Fail(old(error), e)
    {
      if error.Some? {
        error := Some(Suppressed(Plain(e), error.value));
      } else {
        error := Some(Plain(e));
      }
    }

    /** `next` */
    method Proceed()
      modifies this
      ensures View() == Next(old(View()))
    {
      ghost var result := Next(View());
      waiting := None;
      while stack != []
        invariant Next(View()) == result
        invariant waiting.None?
        decreases |stack|
      {
        var it := stack[|stack| - 1];
        stack := stack[..|stack| - 1];
        var settlement := Fulfills;
        if it.disposer.Some? {
          log := log + [Called(it.disposer.value.id)];
          match it.disposer.value.reply {
            case Throws(e) =>
              Failed(e);
              done := false;
              continue;
            case Returns(s) =>
              settlement := s;
          }
        }
        done := false;
        if it.isAsync {
          waiting := Some(settlement);
          return;
        }
      }
      done := true;
    }

    /** The promise settles. */
    method Settle()
      requires waiting.Some?
      modifies this
      ensures View() == Resume(old(View()))
    {
      var settlement := waiting.value;
      log := log + [Settled(settlement)];
      if settlement.Rejects? { Failed(settlement.error); }
      Proceed();
    }

    /** The block is left, with the error its body threw, if any; all promises settle in their time. */
    method Leave(thrown: Option<Error>) returns (outcome: Option<Error>)
      requires log == [] && !done && waiting.None?
      modifies this
      ensures View() == Dispose(old(stack), thrown, |old(stack)| + 1)
      ensures done && stack == [] && outcome == Fold(thrown, Errors(Reverse(old(stack))))
    {
      ghost var all := stack;
      error := thrown;
      Proceed();
      ghost var k := 0;
      while waiting.Some?
        invariant View() == Dispose(all, thrown, k)
        invariant k <= |all| && (waiting.Some? ==> k + |stack| < |all|)
        decreases |stack| + if waiting.Some? then 1 else 0
      {
        OneSettles(all, thrown, k);
        Settle();
        k := k + 1;
      }
      AllSettled(all, thrown, k);
      return error;
    }
  }

  lemma OneSettles(stack: seq<Entry>, error: Option<Error>, k: nat)
    requires Dispose(stack, error, k).waiting.Some?
    ensures var st, st' := Dispose(stack, error, k), Dispose(stack, error, k + 1);
            st' == Resume(st) && |st'.stack| <= |st.stack| && (st'.waiting.Some? ==> |st'.stack| < |st.stack|)
  {
    AfterOne(Next(Begin(stack, error)), k);
  }

  lemma AllSettled(stack: seq<Entry>, error: Option<Error>, k: nat)
    requires Dispose(stack, error, k).waiting.None? && k <= |stack|
    ensures var st := Dispose(stack, error, k);
            && st == Dispose(stack, error, |stack| + 1) && st.done && st.stack == []
            && st.error == Fold(error, Errors(Reverse(stack)))
  {
    hide Next, Events, Errors, Fold;
    var st0 := Next(Begin(stack, error));
    AfterEnd(st0, k, |stack| + 1);
    DisposalIsOrderly(stack, error, k);
    NextKeeps(Begin(stack, error));
    AfterKeeps(st0, k);
  }

  lemma {:induction false} AfterOne(st: State, k: nat)
    requires After(st, k).waiting.Some?
    ensures After(st, k + 1) == Resume(After(st, k))
    decreases k
  {
    if k > 0 && st.waiting.Some? { AfterOne(Resume(st), k - 1); }
  }

  lemma {:induction false} AfterEnd(st: State, k: nat, n: nat)
    requires After(st, k).waiting.None? && k <= n
    ensures After(st, n) == After(st, k)
    decreases k
  {
    if k > 0 && st.waiting.Some? { AfterEnd(Resume(st), k - 1, n - 1); }
  }
}
