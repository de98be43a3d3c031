/** The calls and waits of DisposeResources of the ECMAScript Explicit Resource Management proposal, next to
    those of `__callDispose` (src/runtime.bun.js), and whole blocks from their declarations on. */
module ProposalTrace {
  import opened Wrappers
  import opened Disposal

  // ----- The proposal, with its waits -----

  /** `await using x = null` */
  predicate IsNull(r: Resource) { r.disposer.None? }

  /** After its method was called, this resource is awaited. The closure around a synchronous method turns
      what the method throws into a promise that rejects, and drops what it returns. */
  predicate Awaits(r: Resource) {
    r.isAsync && r.disposer.Some? && (r.wrapped || r.disposer.value.reply.Returns?)
  }

  function CallEvents(r: Resource): seq<Event>
    requires r.disposer.Some?
  {
    var Method(id, reply) := r.disposer.value;
    if !Awaits(r) then [Called(id)]
    else if !r.wrapped then [Called(id), Settled(reply.awaited)]
    else [Called(id), Settled(if reply.Throws? then Rejects(reply.error) else Fulfills)]
  }

  /** Nothing is awaited for null by itself. It is made up for before the next synchronous resource or at
      the end, unless something has been awaited (`needsAwait` and `hasAwaited`). Top of the stack
      first. */
  function Trace(rs: seq<Resource>, needsAwait: bool, hasAwaited: bool): seq<Event> {
    var due := if needsAwait && !hasAwaited then [Settled(Fulfills)] else [];
    if rs == [] then due
    else if IsNull(rs[0]) then Trace(rs[1..], true, hasAwaited)
    else if !rs[0].isAsync then
      due + CallEvents(rs[0]) + Trace(rs[1..], needsAwait && hasAwaited, hasAwaited)
    else CallEvents(rs[0]) + Trace(rs[1..], needsAwait, hasAwaited || Awaits(rs[0]))
  }

  /** As CreateDisposableResource makes them. */
  predicate WellMade(r: Resource) { (r.wrapped ==> r.isAsync && r.disposer.Some?) && (IsNull(r) ==> r.isAsync) }

  /** The order of disposal. */
  function Backwards(rs: seq<Resource>): (b: seq<Resource>)
    ensures |b| == |rs|
  {
    seq(|rs|, i requires 0 <= i < |rs| => rs[|rs| - 1 - i])
  }

  // ----- Calls -----

  /** Whatever is awaited, the same methods are called in the same order. */
  lemma {:induction false} SameCalls(rs: seq<Resource>, needsAwait: bool, hasAwaited: bool)
    ensures CalledIds(Trace(rs, needsAwait, hasAwaited)) == CalledIds(Events(Entries(rs)))
    decreases |rs|
  {
    hide CallEvents, CalledIds, Entries;
    if rs == [] {
      NoCalls(Trace(rs, needsAwait, hasAwaited));
      NoEntries(rs);
    } else {
      var r := rs[0];
      var needs := if IsNull(r) then true else if r.isAsync then needsAwait else needsAwait && hasAwaited;
      var has := if !IsNull(r) && r.isAsync then hasAwaited || Awaits(r) else hasAwaited;
      var due := if !IsNull(r) && !r.isAsync && needsAwait && !hasAwaited then [Settled(Fulfills)] else [];
      var calls := if IsNull(r) then [] else CallEvents(r);
      var rest := Trace(rs[1..], needs, has);
      SameCalls(rs[1..], needs, has);
      FirstEntry(rs);
      CalledOne(r);
      assert Trace(rs, needsAwait, hasAwaited) == due + calls + rest;
      CallsConcat(due, calls, rest);
      CalledIdsConcat(EventsOf(EntryOf(r)), Events(Entries(rs[1..])));
      NoCalls([]);
    }
  }

  lemma CallsConcat(due: seq<Event>, calls: seq<Event>, rest: seq<Event>)
    requires due == [] || due == [Settled(Fulfills)]
    ensures CalledIds(due + calls + rest) == CalledIds(calls) + CalledIds(rest)
  {
    hide CalledIds;
    NoCalls(due);
    CalledIdsConcat(due, calls);
    CalledIdsConcat(due + calls, rest);
    assert [] + CalledIds(calls) == CalledIds(calls);
  }

  lemma NoEntries(rs: seq<Resource>)
    requires rs == []
    ensures Entries(rs) == [] && CalledIds([]) == []
  {
  }

  lemma NoCalls(due: seq<Event>)
    requires due == [] || due == [Settled(Fulfills)]
    ensures CalledIds(due) == []
  {
    if due != [] { assert due[1..] == []; }
  }

  lemma FirstEntry(rs: seq<Resource>)
    requires rs != []
    ensures Events(Entries(rs)) == EventsOf(EntryOf(rs[0])) + Events(Entries(rs[1..]))
  {
    assert Entries(rs)[1..] == Entries(rs[1..]);
  }

  lemma CalledOne(r: Resource)
    ensures IsNull(r) ==> CalledIds(EventsOf(EntryOf(r))) == []
    ensures !IsNull(r) ==>
              CalledIds(CallEvents(r)) == [r.disposer.value.id] && CalledIds(EventsOf(EntryOf(r))) == [r.disposer.value.id]
  {
    if IsNull(r) {
      NoCalls(EventsOf(EntryOf(r)));
    } else {
      CalledFirst(EventsOf(EntryOf(r)), r.disposer.value.id);
      CalledFirst(CallEvents(r), r.disposer.value.id);
    }
  }

  lemma CalledFirst(e: seq<Event>, id: nat)
    requires e == [Called(id)] || (|e| == 2 && e[0] == Called(id) && e[1].Settled?)
    ensures CalledIds(e) == [id]
  {
    if |e| == 2 {
      assert e[1..] == [e[1]] && [e[1]][1..] == [];
      assert CalledIds([e[1]]) == CalledIds([]);
    } else {
      assert e[1..] == [];
    }
  }

  // ----- Waits -----

  /** What a resource that falls back on a synchronous method must do: return, and no promise that
      rejects. */
  predicate Quiet(r: Resource) { r.wrapped ==> r.disposer.Some? && r.disposer.value.reply == Returns(Fulfills) }

  /** Null waits for itself: nothing has been awaited before, and a synchronous resource comes next or
      nothing. */
  predicate NullInPlace(rs: seq<Resource>, hasAwaited: bool, i: int)
    requires 0 <= i < |rs|
  {
    && !hasAwaited && (forall j :: 0 <= j < i ==> !Awaits(rs[j]))
    && (i + 1 < |rs| ==> !rs[i + 1].isAsync)
  }

  /** When the waits are the same. */
  predicate InStep(rs: seq<Resource>, hasAwaited: bool) {
    && (forall i :: 0 <= i < |rs| ==> Quiet(rs[i]))
    && (forall i :: 0 <= i < |rs| && IsNull(rs[i]) ==> NullInPlace(rs, hasAwaited, i))
  }

  lemma InStepTail(rs: seq<Resource>, hasAwaited: bool)
    requires rs != []
    ensures InStep(rs, hasAwaited) <==>
              && Quiet(rs[0]) && (IsNull(rs[0]) ==> !hasAwaited && (|rs| > 1 ==> !rs[1].isAsync))
              && InStep(rs[1..], hasAwaited || Awaits(rs[0]))
  {
    var t, has := rs[1..], hasAwaited || Awaits(rs[0]);
    assert forall i :: 0 <= i < |t| ==> t[i] == rs[i + 1];
    forall i | 0 <= i < |t| ensures NullInPlace(t, has, i) <==> NullInPlace(rs, hasAwaited, i + 1) {
      assert (forall j :: 0 <= j < i ==> !Awaits(t[j])) && !Awaits(rs[0]) <==> forall j :: 0 <= j < i + 1 ==> !Awaits(rs[j]);
    }
    if InStep(rs, hasAwaited) {
      forall i | 0 <= i < |t| ensures Quiet(t[i]) && (IsNull(t[i]) ==> NullInPlace(t, has, i)) {
        assert t[i] == rs[i + 1];
      }
    }
    if InStep(t, has) && Quiet(rs[0]) && (IsNull(rs[0]) ==> !hasAwaited && (|rs| > 1 ==> !rs[1].isAsync)) {
      forall i | 0 <= i < |rs| ensures Quiet(rs[i]) && (IsNull(rs[i]) ==> NullInPlace(rs, hasAwaited, i)) {
        if i > 0 { assert t[i - 1] == rs[i] && Quiet(t[i - 1]); }
      }
    }
  }

  /** After something was awaited, null leaves no trace, so what comes first is a call. */
  lemma {:induction false} FirstIsCall(rs: seq<Resource>, needsAwait: bool)
    ensures var t := Trace(rs, needsAwait, true); t == [] || t[0].Called?
    decreases |rs|
  {
    if rs != [] && IsNull(rs[0]) { FirstIsCall(rs[1..], true); }
  }

  /** However many nulls there are, they are made up for once. */
  lemma {:induction false} DueOnce(rs: seq<Resource>)
    ensures var t := Trace(rs, true, false); !([Settled(Fulfills), Settled(Fulfills)] <= t)
    decreases |rs|
  {
    if rs != [] {
      if IsNull(rs[0]) {
        DueOnce(rs[1..]);
      } else {
        var t := Trace(rs, true, false);
        assert !rs[0].isAsync ==> t[1] == CallEvents(rs[0])[0];
        assert rs[0].isAsync ==> t[0] == CallEvents(rs[0])[0];
      }
    }
  }

  lemma FirstEvent(rs: seq<Resource>)
    requires rs != [] ==> WellMade(rs[0])
    ensures var h := Events(Entries(rs)); h == [] || h[0].Called? || h[0] == Settled(Fulfills)
  {
    if rs != [] {
      FirstEntry(rs);
      assert Events(Entries(rs))[0] == EventsOf(EntryOf(rs[0]))[0];
    }
  }

  /** From any point of the disposal; `pending` says that the helper has just waited for a null. */
  lemma {:induction false} TraceFrom(rs: seq<Resource>, pending: bool, hasAwaited: bool)
    requires (forall i :: 0 <= i < |rs| ==> WellMade(rs[i])) && !(pending && hasAwaited)
    ensures (if pending then [Settled(Fulfills)] else []) + Events(Entries(rs)) == Trace(rs, pending, hasAwaited) <==>
              InStep(rs, hasAwaited) && (pending && rs != [] ==> !rs[0].isAsync)
    decreases |rs|
  {
    hide InStep, WellMade, Quiet;
    var due := if pending then [Settled(Fulfills)] else [];
    if rs == [] {
      assert Entries(rs) == [] && InStep(rs, hasAwaited) by { NothingInStep(rs, hasAwaited); }
    } else {
      var r, t := rs[0], rs[1..];
      assert forall i :: 0 <= i < |t| ==> t[i] == rs[i + 1];
      FirstEntry(rs);
      InStepTail(rs, hasAwaited);
      assert WellMade(r);
      FirstEvent(t);
      assert forall x: seq<Event> :: [] + x == x;
      if IsNull(r) {
        NullFrom(rs, pending, hasAwaited);
        if !hasAwaited && !pending { TraceFrom(t, true, false); }
      } else if !r.isAsync {
        TraceFrom(t, false, hasAwaited);
        SyncFrom(rs, pending, hasAwaited);
      } else if !pending {
        TraceFrom(t, false, hasAwaited || Awaits(r));
        AsyncFrom(rs, hasAwaited);
      } else {
        AsyncPending(rs);
      }
    }
  }

  lemma NothingInStep(rs: seq<Resource>, hasAwaited: bool)
    requires rs == []
    ensures InStep(rs, hasAwaited)
  {
  }

  lemma NullFrom(rs: seq<Resource>, pending: bool, hasAwaited: bool)
    requires rs != [] && IsNull(rs[0]) && WellMade(rs[0]) && !(pending && hasAwaited)
    ensures var lhs := (if pending then [Settled(Fulfills)] else []) + (EventsOf(EntryOf(rs[0])) + Events(Entries(rs[1..])));
            && (hasAwaited || pending ==> lhs != Trace(rs, pending, hasAwaited))
            && (!hasAwaited && !pending ==>
                  lhs == [Settled(Fulfills)] + Events(Entries(rs[1..])) && Trace(rs, pending, hasAwaited) == Trace(rs[1..], true, false))
    ensures !Awaits(rs[0]) && Quiet(rs[0]) && rs[0].isAsync
  {
    var t := rs[1..];
    FirstIsCall(t, true);
    DueOnce(t);
    var h := Events(Entries(t));
    assert [Settled(Fulfills)] + ([Settled(Fulfills)] + h) == [Settled(Fulfills), Settled(Fulfills)] + h;
  }

  lemma SyncFrom(rs: seq<Resource>, pending: bool, hasAwaited: bool)
    requires rs != [] && !IsNull(rs[0]) && !rs[0].isAsync && WellMade(rs[0]) && !(pending && hasAwaited)
    ensures var due := if pending then [Settled(Fulfills)] else [];
            var h := Events(Entries(rs[1..]));
            due + (EventsOf(EntryOf(rs[0])) + h) == Trace(rs, pending, hasAwaited) <==> h == Trace(rs[1..], false, hasAwaited)
    ensures !Awaits(rs[0]) && Quiet(rs[0])
  {
    var due := if pending then [Settled(Fulfills)] else [];
    var c, h, t := CallEvents(rs[0]), Events(Entries(rs[1..])), Trace(rs[1..], false, hasAwaited);
    assert EventsOf(EntryOf(rs[0])) == c;
    assert due + (c + h) == due + c + h;
    Cancel(due + c, h, t);
  }

  lemma Cancel(x: seq<Event>, y: seq<Event>, z: seq<Event>)
    ensures x + y == x + z <==> y == z
  {
    assert (x + y)[|x|..] == y && (x + z)[|x|..] == z;
  }

  lemma AsyncFrom(rs: seq<Resource>, hasAwaited: bool)
    requires rs != [] && !IsNull(rs[0]) && rs[0].isAsync
    requires var h := Events(Entries(rs[1..])); h == [] || h[0].Called? || h[0] == Settled(Fulfills)
    ensures var h := Events(Entries(rs[1..]));
            EventsOf(EntryOf(rs[0])) + h == Trace(rs, false, hasAwaited) <==>
              Quiet(rs[0]) && h == Trace(rs[1..], false, hasAwaited || Awaits(rs[0]))
  {
    var h, t := Events(Entries(rs[1..])), Trace(rs[1..], false, hasAwaited || Awaits(rs[0]));
    var e, c := EventsOf(EntryOf(rs[0])), CallEvents(rs[0]);
    assert Trace(rs, false, hasAwaited) == c + t;
    if Quiet(rs[0]) {
      assert e == c;
      Cancel(c, h, t);
    } else {
      assert |c| == 2 && (c + t)[0] == c[0] && (c + t)[1] == c[1];
      assert |e| == 2 ==> (e + h)[1] == e[1];
      assert |e| == 1 && h != [] ==> (e + h)[1] == h[0];
    }
  }

  lemma AsyncPending(rs: seq<Resource>)
    requires rs != [] && !IsNull(rs[0]) && rs[0].isAsync
    ensures [Settled(Fulfills)] + (EventsOf(EntryOf(rs[0])) + Events(Entries(rs[1..]))) != Trace(rs, true, false)
  {
    assert Trace(rs, true, false)[0] == CallEvents(rs[0])[0];
  }

  lemma ReverseIsBackwards(rs: seq<Resource>)
    ensures Reverse(Entries(rs)) == Entries(Backwards(rs))
  {
    ReverseIs(Entries(rs));
  }

  /** The helper calls the methods that the proposal calls, in the same order. Its waits are the same
      exactly if no resource falls back on a synchronous method that throws or returns a promise which
      rejects, and every null comes before all that is awaited and not right before another
      asynchronous resource, in the order of disposal. */
  lemma TracesAgreeIff(resources: seq<Resource>, error: Option<Error>, k: nat)
    requires forall i :: 0 <= i < |resources| ==> WellMade(resources[i])
    requires Dispose(Entries(resources), error, k).done
    ensures var log, trace := Dispose(Entries(resources), error, k).log, Trace(Backwards(resources), false, false);
            && CalledIds(log) == CalledIds(trace)
            && (log == trace <==> InStep(Backwards(resources), false))
  {
    hide InStep, WellMade, Dispose;
    var rs := Backwards(resources);
    DisposalIsOrderly(Entries(resources), error, k);
    ReverseIsBackwards(resources);
    assert forall i :: 0 <= i < |rs| ==> WellMade(rs[i]);
    SameCalls(rs, false, false);
    TraceFrom(rs, false, false);
    assert [] + Events(Entries(rs)) == Events(Entries(rs));
  }

  // ----- Whole blocks -----

  datatype Declaration = Declaration(value: Value, isAsync: bool)

  /** The stack when the declarations are done, or when one of them throws; and whether none did. */
  function UsingAll(ds: seq<Declaration>): (seq<Entry>, bool) {
    if ds == [] then ([], true)
    else
      var n := |ds| - 1;
      var (stack, ok) := UsingAll(ds[..n]);
      if !ok then (stack, false)
      else match Using(stack, ds[n].value, ds[n].isAsync) case Ok(s) => (s, true) case TypeError => (stack, false)
  }

  /** The same by the proposal. */
  function CreateAll(ds: seq<Declaration>): (seq<Resource>, bool) {
    if ds == [] then ([], true)
    else
      var n := |ds| - 1;
      var (rs, ok) := CreateAll(ds[..n]);
      if !ok then (rs, false)
      else
        match CreateResource(ds[n].value, ds[n].isAsync)
        case Ok(Some(r)) => (rs + [r], true)
        case Ok(None) => (rs, true)
        case TypeError => (rs, false)
  }

  /** A null asynchronous method with a synchronous one to fall back on. */
  predicate NullFallback(d: Declaration) {
    d.isAsync && d.value.Object? && d.value.asyncDispose.Null? && d.value.dispose.Callable?
  }

  /** How many declarations there are before the first of that kind. */
  function Before(ds: seq<Declaration>): (n: nat)
    ensures n <= |ds| && (n < |ds| ==> NullFallback(ds[n])) && forall i :: 0 <= i < n ==> !NullFallback(ds[i])
  {
    if ds == [] || NullFallback(ds[0]) then 0
    else
      assert forall i :: 1 <= i < |ds| ==> ds[i] == ds[1..][i - 1];
      1 + Before(ds[1..])
  }

  lemma {:induction false} DeclarationsAgree(ds: seq<Declaration>)
    requires forall i :: 0 <= i < |ds| ==> !NullFallback(ds[i])
    ensures UsingAll(ds).0 == Entries(CreateAll(ds).0) && UsingAll(ds).1 == CreateAll(ds).1
    ensures forall i :: 0 <= i < |CreateAll(ds).0| ==> WellMade(CreateAll(ds).0[i])
    decreases |ds|
  {
    if ds != [] {
      var n := |ds| - 1;
      assert forall i :: 0 <= i < n ==> ds[..n][i] == ds[i];
      DeclarationsAgree(ds[..n]);
      var rs := CreateAll(ds[..n]).0;
      UsingRefinesCreateResource(Entries(rs), ds[n].value, ds[n].isAsync);
      var r := CreateResource(ds[n].value, ds[n].isAsync);
      if r.Ok? && r.value.Some? { assert Entries(rs + [r.value.value]) == Entries(rs) + [EntryOf(r.value.value)]; }
    }
  }

  /** Once a declaration has thrown, nothing is added. */
  lemma {:induction false} NothingAfterThrow(ds: seq<Declaration>, n: nat)
    requires n <= |ds| && !UsingAll(ds[..n]).1
    ensures UsingAll(ds) == UsingAll(ds[..n])
    decreases |ds|
  {
    if n == |ds| {
      assert ds[..n] == ds;
    } else {
      var k := |ds| - 1;
      assert ds[..k][..n] == ds[..n];
      NothingAfterThrow(ds[..k], n);
    }
  }

  /** At the first declaration of that kind, the helper throws and the proposal goes on. */
  lemma HelperThrows(ds: seq<Declaration>, n: nat)
    requires n < |ds| && NullFallback(ds[n]) && UsingAll(ds[..n]).1 && CreateAll(ds[..n]).1
    ensures UsingAll(ds) == (UsingAll(ds[..n]).0, false) && CreateAll(ds[..n + 1]).1
    ensures |CreateAll(ds[..n + 1]).0| == |CreateAll(ds[..n]).0| + 1
  {
    assert ds[..n + 1][..n] == ds[..n];
    NothingAfterThrow(ds, n + 1);
  }

  /** From the declarations to the end of the block. Up to the first declaration whose asynchronous method is
      null and which has a synchronous one: the same resources in the same order, up to the same
      declaration that throws. There, if it is reached, the helper throws and the proposal goes on.
      What was declared before is disposed of with the same calls, with the outcome of the proposal
      exactly if nothing strays, and with its waits exactly if they are in step. */
  lemma BlockRefinesProposal(ds: seq<Declaration>, error: Option<Error>, k: nat)
    requires Dispose(UsingAll(ds).0, error, k).done
    ensures var n := Before(ds);
            var rs, end := CreateAll(ds[..n]).0, Dispose(UsingAll(ds).0, error, k);
            && UsingAll(ds).0 == Entries(rs)
            && UsingAll(ds).1 == (n == |ds| && CreateAll(ds).1)
            && (n < |ds| && CreateAll(ds[..n]).1 ==> CreateAll(ds[..n + 1]).1)
            && (end.error == DisposeResources(rs, error) <==> forall i :: 0 <= i < |rs| ==> !Stray(rs[i]))
            && CalledIds(end.log) == CalledIds(Trace(Backwards(rs), false, false))
            && (end.log == Trace(Backwards(rs), false, false) <==> InStep(Backwards(rs), false))
  {
    hide UsingAll, CreateAll, InStep, Dispose, DisposeResources, Trace, Before;
    var n := Before(ds);
    DeclarationsAgree(ds[..n]);
    if n == |ds| {
      assert ds[..n] == ds;
    } else if UsingAll(ds[..n]).1 {
      HelperThrows(ds, n);
    } else {
      NothingAfterThrow(ds, n);
    }
    RefinesDisposeResources(CreateAll(ds[..n]).0, error, k);
    TracesAgreeIff(CreateAll(ds[..n]).0, error, k);
  }

  /** A fallback whose promise rejects: an error for the helper, and none for the proposal. */
  lemma FallbackRejects(r: Resource)
    requires r == Resource(true, Some(Method(0, Returns(Rejects(1)))), true)
    ensures Fold(None, Errors(Reverse(Entries([r])))) == Some(Plain(1)) && DisposeResources([r], None) == None
  {
    var s := Entries([r]);
    assert s[..0] == [] && [r][..0] == [];
    assert Reverse(s) == [s[0]] + Reverse([]) == [s[0]];
    assert [s[0]][1..] == [] && Errors([s[0]]) == [1] && [1][1..] == [];
    assert Fold(None, [1]) == Fold(Fail(None, 1), []);
  }
}
