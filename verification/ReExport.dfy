/** `__reExport` (src/runtime.js): `export * from` on module objects, cycles included. */
module ReExport {
  import opened Wrappers

  /** A data property, or a getter that was bound to a module and a key. */
  datatype Property = Data(value: nat) | Getter(mod: nat, key: string)

  type Object = map<string, Property>

  type Heap = map<nat, Object>

  /** One loop of `__reExport`: what `target` gets from the module `mod` with the given keys. */
  function Merge(target: Object, mod: nat, keys: set<string>): Object {
    target + (map k | k in keys && k !in target && k != "default" :: Getter(mod, k))
  }

  function MergeInto(h: Heap, target: nat, mod: nat, keys: set<string>): Heap
    requires target in h
  {
    h[target := Merge(h[target], mod, keys)]
  }

  /** The call. A module that is no object has no named exports. */
  function Apply(h: Heap, target: nat, mod: Option<nat>, second: Option<nat>): Heap
    requires target in h && (mod.Some? ==> mod.value in h) && (second.Some? ==> second.value in h)
  {
    if mod.None? then h
    else
      var keys := h[mod.value].Keys;
      var h' := MergeInto(h, target, mod.value, keys);
      if second.None? then h' else MergeInto(h', second.value, mod.value, keys)
  }

  lemma MergeNone(target: Object, mod: nat)
    ensures Merge(target, mod, {}) == target
  {
  }

  lemma MergeOne(target: Object, mod: nat, keys: set<string>, key: string)
    ensures var m := Merge(target, mod, keys);
            Merge(target, mod, keys + {key})
            == if key !in m && key != "default" then m[key := Getter(mod, key)] else m
  {
  }

  // ----- The objects -----

  class Modules {
    var objects: Heap

    constructor (objects: Heap)
      ensures this.objects == objects
    {
      this.objects := objects;
    }

    /** One of the two loops. The order of the keys does not matter. */
    method CopyKeys(target: nat, mod: nat, keys: set<string>)
      requires target in objects
      modifies this
      ensures objects == MergeInto(old(objects), target, mod, keys)
    {
      ghost var before := objects[target];
      var left := keys;
      MergeNone(before, mod);
      assert keys - left == {} && objects == objects[target := before];
      while left != {}
        invariant left <= keys && target in objects
        invariant objects == old(objects)[target := Merge(before, mod, keys - left)]
        decreases left
      {
        var key :| key in left;
        MergeOne(before, mod, keys - left, key);
        assert keys - (left - {key}) == keys - left + {key};
        if key !in objects[target] && key != "default" {
          objects := objects[target := objects[target][key := Getter(mod, key)]];
        }
        left := left - {key};
      }
      assert keys - left == keys;
    }

    method ReExport(target: nat, mod: Option<nat>, second: Option<nat>)
      requires target in objects && (mod.Some? ==> mod.value in objects) && (second.Some? ==> second.value in objects)
      modifies this
      ensures objects == Apply(old(objects), target, mod, second)
    {
      if mod.Some? {
        var keys := objects[mod.value].Keys;
        CopyKeys(target, mod.value, keys);
        if second.Some? { CopyKeys(second.value, mod.value, keys); }
      }
    }
  }

  // ----- Which module a key comes from -----

  predicate InHeap(h: Heap, o: Option<nat>) { o.Some? ==> o.value in h }

  predicate AllInHeap(h: Heap, mods: seq<Option<nat>>) { forall i :: 0 <= i < |mods| ==> InHeap(h, mods[i]) }

  /** `export * from` one module after the other, with or without a second target. */
  function ApplyAll(h: Heap, target: nat, second: Option<nat>, mods: seq<Option<nat>>): (h': Heap)
    requires target in h && InHeap(h, second) && AllInHeap(h, mods)
    ensures h'.Keys == h.Keys
    decreases |mods|
  {
    if mods == [] then h
    else
      assert InHeap(h, mods[0]);
      var h1 := Apply(h, target, mods[0], second);
      assert h1.Keys == h.Keys && forall i :: 1 <= i < |mods| ==> InHeap(h, mods[i]) && InHeap(h1, mods[i]);
      ApplyAll(h1, target, second, mods[1..])
  }

  predicate Has(h: Heap, o: Option<nat>, key: string) { o.Some? && o.value in h && key in h[o.value] }

  /** The first of the modules that has a key. */
  function FirstWith(h: Heap, mods: seq<Option<nat>>, key: string): (o: Option<nat>)
    ensures o.Some? ==> Has(h, o, key)
  {
    if mods == [] then None
    else if Has(h, mods[0], key) then mods[0]
    else FirstWith(h, mods[1..], key)
  }

  /** What becomes of a key of an object: its own property stays; else, but for `default`, it is bound to the
      first module that had it. */
  predicate Bound(h: Heap, h': Heap, o: nat, mods: seq<Option<nat>>, key: string)
    requires o in h && o in h'
  {
    var from := FirstWith(h, mods, key);
    if key in h[o] then key in h'[o] && h'[o][key] == h[o][key]
    else if key != "default" && from.Some? then key in h'[o] && h'[o][key] == Getter(from.value, key)
    else key !in h'[o]
  }

  /** After any sequence of calls with the same targets, where the modules may be the targets themselves:
      both targets keep their own properties and get every other key from the first module that had it,
      and no other object changes. */
  lemma {:induction false} FirstModuleWins(h: Heap, target: nat, second: Option<nat>, mods: seq<Option<nat>>, key: string)
    requires target in h && InHeap(h, second) && AllInHeap(h, mods)
    ensures var h' := ApplyAll(h, target, second, mods);
            && Bound(h, h', target, mods, key) && (second.Some? ==> Bound(h, h', second.value, mods, key))
            && forall o :: o in h && o != target && second != Some(o) ==> h'[o] == h[o]
    decreases |mods|
  {
    if mods != [] {
      assert InHeap(h, mods[0]);
      var h1 := Apply(h, target, mods[0], second);
      var rest := mods[1..];
      assert forall i :: 0 <= i < |rest| ==> InHeap(h, rest[i]) && InHeap(h1, rest[i]) by {
        assert forall i :: 0 <= i < |rest| ==> rest[i] == mods[i + 1];
      }
      FirstModuleWins(h1, target, second, rest, key);
      OneCall(h, target, second, mods[0], key);
      if key == "default" || !Has(h, mods[0], key) { SameFirst(h, h1, rest, key); }
    }
  }

  /** One call, as far as one key goes. */
  lemma OneCall(h: Heap, target: nat, second: Option<nat>, mod: Option<nat>, key: string)
    requires target in h && InHeap(h, second) && InHeap(h, mod)
    ensures var h1 := Apply(h, target, mod, second);
            && h1.Keys == h.Keys
            && (forall o :: o in h && o != target && second != Some(o) ==> h1[o] == h[o])
            && (forall o :: o in h && key in h[o] ==> key in h1[o] && h1[o][key] == h[o][key])
            && (forall o :: o in h && (o == target || second == Some(o)) && key !in h[o] ==>
                  if key != "default" && Has(h, mod, key) then key in h1[o] && h1[o][key] == Getter(mod.value, key)
                  else key !in h1[o])
  {
  }

  lemma {:induction false} SameFirst(h: Heap, h1: Heap, mods: seq<Option<nat>>, key: string)
    requires h1.Keys == h.Keys && forall o :: o in h ==> (key in h[o] <==> key in h1[o])
    ensures FirstWith(h1, mods, key) == FirstWith(h, mods, key)
    decreases |mods|
  {
    if mods != [] { SameFirst(h, h1, mods[1..], key); }
  }

  /** A call with two targets is two calls, so that what holds of calls with one target, in any order, holds
      of these. */
  lemma SecondTargetAlike(h: Heap, target: nat, mod: nat, second: nat)
    requires target in h && mod in h && second in h
    ensures Apply(h, target, Some(mod), Some(second))
            == Apply(Apply(h, target, Some(mod), None), second, Some(mod), None)
    ensures var h' := Apply(h, target, Some(mod), Some(second));
            && h'[target] == Apply(h, target, Some(mod), None)[target]
            && h'[second] == Apply(h, second, Some(mod), None)[second]
  {
    MergeTwice(h[target], mod, h[mod].Keys);
  }

  lemma MergeTwice(target: Object, mod: nat, keys: set<string>)
    ensures Merge(Merge(target, mod, keys), mod, keys) == Merge(target, mod, keys)
  {
  }

  // ----- Reading -----

  /** Reading a property through at most `n` getters. */
  function Read(h: Heap, o: nat, key: string, n: nat): Option<nat>
    decreases n
  {
    if o !in h || key !in h[o] then None
    else
      match h[o][key]
      case Data(v) => Some(v)
      case Getter(m, k) => if n == 0 then None else Read(h, m, k, n - 1)
  }

  /** Every getter leads to a property of lower rank. */
  ghost predicate Grounded(h: Heap, rank: (nat, string) -> nat) {
    forall o, k :: o in h && k in h[o] && h[o][k].Getter? ==>
      var p := h[o][k];
      p.mod in h && p.key in h[p.mod] && rank(p.mod, p.key) < rank(o, k)
  }

  lemma {:induction false} ReadEnds(h: Heap, rank: (nat, string) -> nat, o: nat, key: string, n: nat)
    requires Grounded(h, rank) && o in h && key in h[o] && rank(o, key) <= n
    ensures Read(h, o, key, n).Some?
    decreases n
  {
    if h[o][key].Getter? { ReadEnds(h, rank, h[o][key].mod, h[o][key].key, n - 1); }
  }

  /** A re-export, or a later write to a property that holds a value. */
  datatype Step = Export(target: nat, mod: nat) | Write(o: nat, key: string, value: nat)

  predicate Enabled(h: Heap, step: Step) {
    match step
    case Export(target, mod) => target in h && mod in h
    case Write(o, key, _) => o in h && key in h[o] && h[o][key].Data?
  }

  function Next(h: Heap, step: Step): Heap
    requires Enabled(h, step)
  {
    match step
    case Export(target, mod) => Apply(h, target, Some(mod), None)
    case Write(o, key, value) => h[o := h[o][key := Data(value)]]
  }

  predicate Legal(h: Heap, steps: seq<Step>)
    decreases |steps|
  {
    steps == [] || (Enabled(h, steps[0]) && Legal(Next(h, steps[0]), steps[1..]))
  }

  function Run(h: Heap, steps: seq<Step>): Heap
    requires Legal(h, steps)
    decreases |steps|
  {
    if steps == [] then h else Run(Next(h, steps[0]), steps[1..])
  }

  lemma StepKeepsGrounded(h: Heap, step: Step, rank: (nat, string) -> nat)
    returns (rank': (nat, string) -> nat)
    requires Grounded(h, rank) && Enabled(h, step)
    ensures Grounded(Next(h, step), rank')
  {
    match step {
      case Export(target, mod) =>
        rank' := (o, k) =>
          if o == target && target in h && k !in h[target] then rank(mod, k) + 1 else rank(o, k);
      case Write(_, _, _) =>
        rank' := rank;
    }
  }

  lemma {:induction false} RunKeepsGrounded(h: Heap, steps: seq<Step>, rank: (nat, string) -> nat)
    returns (rank': (nat, string) -> nat)
    requires Grounded(h, rank) && Legal(h, steps)
    ensures Grounded(Run(h, steps), rank')
    decreases |steps|
  {
    if steps == [] {
      rank' := rank;
    } else {
      var rank1 := StepKeepsGrounded(h, steps[0], rank);
      rank' := RunKeepsGrounded(Next(h, steps[0]), steps[1..], rank1);
    }
  }

  /** Modules that re-export each other, in any order and in cycles, with writes in between: no read
      ever runs in circles. */
  lemma EveryReadEnds(h: Heap, steps: seq<Step>, o: nat, key: string)
    requires forall m, k :: m in h && k in h[m] ==> h[m][k].Data?
    requires Legal(h, steps) && o in Run(h, steps) && key in Run(h, steps)[o]
    ensures exists n: nat :: Read(Run(h, steps), o, key, n).Some?
  {
    var rank := RunKeepsGrounded(h, steps, (_, _) => 0);
    ReadEnds(Run(h, steps), rank, o, key, rank(o, key));
  }

  lemma {:induction false} GettersStay(h: Heap, steps: seq<Step>, o: nat, key: string)
    requires Legal(h, steps) && o in h && key in h[o] && h[o][key].Getter?
    ensures o in Run(h, steps) && key in Run(h, steps)[o] && Run(h, steps)[o][key] == h[o][key]
    decreases |steps|
  {
    if steps != [] { GettersStay(Next(h, steps[0]), steps[1..], o, key); }
  }

  /** A key that was re-exported reads what the module holds, after whatever comes later. */
  lemma ReadsCurrentValue(h: Heap, target: nat, mod: nat, key: string, later: seq<Step>, n: nat)
    requires target in h && mod in h && key in h[mod] && key !in h[target] && key != "default"
    requires Legal(Apply(h, target, Some(mod), None), later)
    ensures var now := Run(Apply(h, target, Some(mod), None), later);
            Read(now, target, key, n + 1) == Read(now, mod, key, n)
  {
    GettersStay(Apply(h, target, Some(mod), None), later, target, key);
  }
}
