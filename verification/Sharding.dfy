/** How a CI run is split over machines: `getRelevantTests` of scripts/runner.node.ts with more than
    one shard. Expected durations are an arbitrary function to natural numbers. */
module Sharding {
  import opened BinPacking

  datatype Job = Job(path: string, index: nat, cost: nat)

  datatype Result<+T> = Ok(value: T) | TypeError

  // ----- Sorting: the comparators are total orders, so there is one sorted permutation -----

  predicate Longest(a: Job, b: Job) { a.cost > b.cost || (a.cost == b.cost && a.index <= b.index) }

  predicate Earliest(a: Job, b: Job) { a.index <= b.index }

  function Insert(before: (Job, Job) -> bool, x: Job, s: seq<Job>): seq<Job> {
    if s == [] then [x]
    else if before(x, s[0]) then [x] + s
    else [s[0]] + Insert(before, x, s[1..])
  }

  function Sort(before: (Job, Job) -> bool, s: seq<Job>): seq<Job> {
    if s == [] then [] else Insert(before, s[0], Sort(before, s[1..]))
  }

  predicate Sorted(before: (Job, Job) -> bool, s: seq<Job>) {
    forall i, j :: 0 <= i < j < |s| ==> before(s[i], s[j])
  }

  ghost predicate TotalOrder(before: (Job, Job) -> bool) {
    && (forall a, b :: before(a, b) || before(b, a))
    && (forall a, b, c :: before(a, b) && before(b, c) ==> before(a, c))
  }

  /** The sum of `f` over a list of jobs. */
  function JobSum(s: seq<Job>, f: Job -> nat): nat {
    if s == [] then 0 else f(s[0]) + JobSum(s[1..], f)
  }

  lemma {:induction false} InsertKeeps(before: (Job, Job) -> bool, x: Job, s: seq<Job>)
    ensures multiset(Insert(before, x, s)) == multiset([x]) + multiset(s)
    decreases |s|
  {
    if s != [] && !before(x, s[0]) {
      InsertKeeps(before, x, s[1..]);
      assert s == [s[0]] + s[1..];
    }
  }

  lemma {:induction false} SortKeeps(before: (Job, Job) -> bool, s: seq<Job>)
    ensures multiset(Sort(before, s)) == multiset(s)
    decreases |s|
  {
    if s != [] {
      SortKeeps(before, s[1..]);
      InsertKeeps(before, s[0], Sort(before, s[1..]));
      assert s == [s[0]] + s[1..];
    }
  }

  lemma {:induction false} InsertKeepsSum(before: (Job, Job) -> bool, x: Job, s: seq<Job>, f: Job -> nat)
    ensures JobSum(Insert(before, x, s), f) == f(x) + JobSum(s, f)
    decreases |s|
  {
    if s != [] && !before(x, s[0]) { InsertKeepsSum(before, x, s[1..], f); }
  }

  lemma {:induction false} SortKeepsSum(before: (Job, Job) -> bool, s: seq<Job>, f: Job -> nat)
    ensures JobSum(Sort(before, s), f) == JobSum(s, f)
    decreases |s|
  {
    if s != [] {
      SortKeepsSum(before, s[1..], f);
      InsertKeepsSum(before, s[0], Sort(before, s[1..]), f);
    }
  }

  lemma {:induction false} InsertSorts(before: (Job, Job) -> bool, x: Job, s: seq<Job>)
    requires TotalOrder(before) && Sorted(before, s)
    ensures Sorted(before, Insert(before, x, s))
    decreases |s|
  {
    if s != [] && !before(x, s[0]) {
      InsertSorts(before, x, s[1..]);
      InsertKeeps(before, x, s[1..]);
      var t := Insert(before, x, s[1..]);
      forall i | 0 <= i < |t| ensures before(s[0], t[i]) {
        assert t[i] in multiset(t);
        assert t[i] == x || t[i] in s[1..];
      }
    }
  }

  lemma {:induction false} SortSorts(before: (Job, Job) -> bool, s: seq<Job>)
    requires TotalOrder(before)
    ensures Sorted(before, Sort(before, s))
    decreases |s|
  {
    if s != [] {
      SortSorts(before, s[1..]);
      InsertSorts(before, s[0], Sort(before, s[1..]));
    }
  }

  // ----- The assignment -----

  function Jobs(tests: seq<string>, cost: string -> nat): (jobs: seq<Job>)
    ensures |jobs| == |tests|
  {
    seq(|tests|, i requires 0 <= i < |tests| => Job(tests[i], i, cost(tests[i])))
  }

  function Costs(jobs: seq<Job>): (costs: seq<nat>)
    ensures |costs| == |jobs|
  {
    seq(|jobs|, i requires 0 <= i < |jobs| => jobs[i].cost)
  }

  function Paths(jobs: seq<Job>): (paths: seq<string>)
    ensures |paths| == |jobs|
  {
    seq(|jobs|, i requires 0 <= i < |jobs| => jobs[i].path)
  }

  /** The first of the least loaded bins below `k`. */
  function LeastBin(costs: seq<nat>, bins: seq<nat>, k: nat): (b: nat)
    requires |costs| == |bins| && k > 0
    ensures b < k
    decreases k
  {
    if k == 1 then 0
    else
      var b := LeastBin(costs, bins, k - 1);
      if Load(costs, bins, k - 1) < Load(costs, bins, b) then k - 1 else b
  }

  /** The bin of every job, in packing order. */
  function Pack(costs: seq<nat>, m: nat): (bins: seq<nat>)
    requires m > 0
    ensures |bins| == |costs|
    decreases |costs|
  {
    if costs == [] then []
    else
      var n := |costs| - 1;
      var bins := Pack(costs[..n], m);
      bins + [LeastBin(costs[..n], bins, m)]
  }

  /** The jobs that were put in bin `b`, in packing order. */
  function Assigned(order: seq<Job>, bins: seq<nat>, b: nat): seq<Job>
    requires |order| == |bins|
    decreases |order|
  {
    if order == [] then []
    else
      var n := |order| - 1;
      Assigned(order[..n], bins[..n], b) + if bins[n] == b then [order[n]] else []
  }

  function Order(tests: seq<string>, cost: string -> nat): (order: seq<Job>)
    ensures |order| == |tests|
  {
    SortKeeps(Longest, Jobs(tests, cost));
    assert |Sort(Longest, Jobs(tests, cost))| == |multiset(Sort(Longest, Jobs(tests, cost)))|;
    assert |Jobs(tests, cost)| == |multiset(Jobs(tests, cost))|;
    Sort(Longest, Jobs(tests, cost))
  }

  /** The jobs of one shard, back in the order of the test list. */
  function ShardJobs(tests: seq<string>, cost: string -> nat, m: nat, b: nat): seq<Job>
    requires m > 0
  {
    var order := Order(tests, cost);
    Sort(Earliest, Assigned(order, Pack(Costs(order), m), b))
  }

  /** The tests one shard runs. */
  function Shard(tests: seq<string>, cost: string -> nat, m: nat, b: nat): seq<string>
    requires m > 0
  {
    Paths(ShardJobs(tests, cost, m, b))
  }

  /** How long a list of tests is expected to take. */
  function Duration(paths: seq<string>, cost: string -> nat): nat {
    if paths == [] then 0 else cost(paths[0]) + Duration(paths[1..], cost)
  }

  /** Packing one more job. */
  lemma PackStep(order: seq<Job>, k: nat, m: nat)
    requires k < |order| && m > 0
    ensures var costs := Costs(order);
            var bins := Pack(costs[..k], m);
            var bin := LeastBin(costs[..k], bins, m);
            && Pack(costs[..k + 1], m) == bins + [bin]
            && (forall s :: 0 <= s < m ==>
                  Load(costs[..k + 1], bins + [bin], s)
                  == Load(costs[..k], bins, s) + if bin == s then order[k].cost else 0)
            && (forall s :: 0 <= s < m ==>
                  Assigned(order[..k + 1], bins + [bin], s)
                  == Assigned(order[..k], bins, s) + if bin == s then [order[k]] else [])
  {
    var costs := Costs(order);
    var bins := Pack(costs[..k], m);
    var bins' := bins + [LeastBin(costs[..k], bins, m)];
    assert costs[..k + 1][..k] == costs[..k] && order[..k + 1][..k] == order[..k] && bins'[..k] == bins;
  }

  /** The packing loop: every job goes to the first of the least loaded bins. */
  method PackShards(order: seq<Job>, maxShards: nat) returns (shards: seq<seq<Job>>)
    requires maxShards > 0
    ensures |shards| == maxShards
    ensures forall s :: 0 <= s < maxShards ==> shards[s] == Assigned(order, Pack(Costs(order), maxShards), s)
  {
    hide Costs, Pack;
    ghost var costs := Costs(order);
    ghost var bins: seq<nat> := [];
    var load := new nat[maxShards](_ => 0);
    shards := seq(maxShards, _ => []);
    for k := 0 to |order|
      invariant |shards| == maxShards
      invariant bins == Pack(costs[..k], maxShards)
      invariant forall s :: 0 <= s < maxShards ==> load[s] == Load(costs[..k], bins, s)
      invariant forall s :: 0 <= s < maxShards ==> shards[s] == Assigned(order[..k], bins, s)
    {
      var bin := 0;
      for s := 1 to maxShards
        invariant bin < s && bin == LeastBin(costs[..k], bins, s)
      {
        if load[s] < load[bin] { bin := s; }
      }
      load[bin] := load[bin] + order[k].cost;
      shards := shards[bin := shards[bin] + [order[k]]];
      PackStep(order, k, maxShards);
      bins := bins + [bin];
    }
    assert costs[..|order|] == costs && order[..|order|] == order;
  }

  /** The shard that a machine computes for itself. */
  method ShardTests(tests: seq<string>, cost: string -> nat, maxShards: nat, shardId: int)
    returns (r: Result<seq<string>>)
    requires maxShards > 1
    ensures r == if 0 <= shardId < maxShards then Ok(Shard(tests, cost, maxShards, shardId)) else TypeError
  {
    var order := Order(tests, cost);
    var shards := PackShards(order, maxShards);
    if !(0 <= shardId < maxShards) {
      return TypeError;
    }
    var shard := Sort(Earliest, shards[shardId]);
    var filteredTests: seq<string> := [];
    for k := 0 to |shard|
      invariant filteredTests == Paths(shard)[..k]
    {
      filteredTests := filteredTests + [shard[k].path];
    }
    assert Paths(shard)[..|shard|] == Paths(shard);
    r := Ok(filteredTests);
  }

  // ----- What the assignment is -----

  lemma {:induction false} LeastBinIsLeast(costs: seq<nat>, bins: seq<nat>, k: nat)
    requires |costs| == |bins| && k > 0
    ensures LeastLoaded(costs, bins, k, LeastBin(costs, bins, k))
    decreases k
  {
    if k > 1 { LeastBinIsLeast(costs, bins, k - 1); }
  }

  /** Of the least loaded bins it is the first: every bin before it has a larger load. */
  lemma {:induction false} LeastBinIsFirst(costs: seq<nat>, bins: seq<nat>, k: nat)
    requires |costs| == |bins| && k > 0
    ensures var b := LeastBin(costs, bins, k);
            forall s :: 0 <= s < b ==> Load(costs, bins, s) > Load(costs, bins, b)
    decreases k
  {
    if k > 1 {
      LeastBinIsFirst(costs, bins, k - 1);
      LeastBinIsLeast(costs, bins, k - 1);
    }
  }

  lemma {:induction false} PackPrefix(costs: seq<nat>, m: nat, k: nat)
    requires m > 0 && k <= |costs|
    ensures Pack(costs, m)[..k] == Pack(costs[..k], m)
    decreases |costs|
  {
    if k == |costs| {
      assert costs[..k] == costs;
    } else {
      var n := |costs| - 1;
      PackPrefix(costs[..n], m, k);
      assert costs[..n][..k] == costs[..k];
    }
  }

  lemma PackIsGreedy(costs: seq<nat>, m: nat)
    requires m > 0
    ensures Greedy(costs, Pack(costs, m), m)
  {
    var bins := Pack(costs, m);
    forall i | 0 <= i < |costs|
      ensures bins[i] < m && LeastLoaded(costs[..i], bins[..i], m, bins[i])
    {
      PackPrefix(costs, m, i);
      PackPrefix(costs, m, i + 1);
      assert costs[..i + 1][..i] == costs[..i];
      assert bins[i] == bins[..i + 1][i];
      LeastBinIsLeast(costs[..i], bins[..i], m);
    }
  }

  /** Each job goes to the first of the bins that are least loaded at that moment. */
  lemma PackTakesFirst(costs: seq<nat>, m: nat, i: nat, s: nat)
    requires m > 0 && i < |costs| && s < m
    ensures var bins := Pack(costs, m);
            var b := bins[i];
            && Load(costs[..i], bins[..i], b) <= Load(costs[..i], bins[..i], s)
            && (s < b ==> Load(costs[..i], bins[..i], b) < Load(costs[..i], bins[..i], s))
  {
    hide Load, LeastBin;
    var bins := Pack(costs, m);
    PackPrefix(costs, m, i);
    PackPrefix(costs, m, i + 1);
    assert costs[..i + 1][..i] == costs[..i];
    assert bins[i] == bins[..i + 1][i];
    LeastBinIsLeast(costs[..i], bins[..i], m);
    LeastBinIsFirst(costs[..i], bins[..i], m);
  }

  /** The order of packing: larger costs first, and among equal ones the order of the test list. */
  lemma OrderIsLongestFirst(tests: seq<string>, cost: string -> nat)
    ensures LongestFirst(Costs(Order(tests, cost)))
    ensures var order := Order(tests, cost);
            forall i, j :: 0 <= i < j < |order| ==>
              order[i].cost > order[j].cost || (order[i].cost == order[j].cost && order[i].index < order[j].index)
  {
    SortSorts(Longest, Jobs(tests, cost));
    var order := Order(tests, cost);
    assert forall i, j :: 0 <= i < j < |order| ==> Longest(order[i], order[j]);
    OrderIsJobs(tests, cost);
    JobsAreDistinct(tests, cost);
    forall i, j | 0 <= i < j < |order| && order[i].cost == order[j].cost ensures order[i].index < order[j].index {
      assert Longest(order[i], order[j]) && order[i] in order && order[j] in order;
      if order[i].index == order[j].index {
        TwoPlaces(order, i, j);
      }
    }
  }

  /** The jobs are the tests, at their places and with their costs. */
  lemma OrderIsJobs(tests: seq<string>, cost: string -> nat)
    ensures multiset(Order(tests, cost)) == multiset(Jobs(tests, cost))
    ensures forall j :: j in Order(tests, cost) ==>
              j.index < |tests| && j == Job(tests[j.index], j.index, cost(tests[j.index]))
  {
    var jobs, order := Jobs(tests, cost), Order(tests, cost);
    SortKeeps(Longest, jobs);
    forall j | j in order
      ensures j.index < |tests| && j == Job(tests[j.index], j.index, cost(tests[j.index]))
    {
      assert j in multiset(order);
      assert j in jobs;
    }
  }

  // ----- The shards partition the tests -----

  /** The jobs of the first `k` bins. */
  function AssignedBelow(order: seq<Job>, bins: seq<nat>, k: nat): multiset<Job>
    requires |order| == |bins|
    decreases k
  {
    if k == 0 then multiset{}
    else AssignedBelow(order, bins, k - 1) + multiset(Assigned(order, bins, k - 1))
  }

  lemma AssignedStep(order: seq<Job>, bins: seq<nat>, b: nat)
    requires |order| == |bins| > 0
    ensures var n := |order| - 1;
            multiset(Assigned(order, bins, b))
            == multiset(Assigned(order[..n], bins[..n], b)) + if bins[n] == b then multiset{order[n]} else multiset{}
  {
  }

  lemma {:induction false} AssignedBelowStep(order: seq<Job>, bins: seq<nat>, k: nat)
    requires |order| == |bins| > 0
    ensures var n := |order| - 1;
            AssignedBelow(order, bins, k)
            == AssignedBelow(order[..n], bins[..n], k) + if bins[n] < k then multiset{order[n]} else multiset{}
    decreases k
  {
    hide Assigned;
    if k > 0 {
      AssignedBelowStep(order, bins, k - 1);
      AssignedStep(order, bins, k - 1);
    }
  }

  lemma {:induction false} AssignedBelowIsOrder(order: seq<Job>, bins: seq<nat>, m: nat)
    requires |order| == |bins| && Within(bins, m)
    ensures AssignedBelow(order, bins, m) == multiset(order)
    decreases |order|
  {
    if order == [] {
      NothingAssigned(m);
    } else {
      var n := |order| - 1;
      AssignedBelowStep(order, bins, m);
      AssignedBelowIsOrder(order[..n], bins[..n], m);
      assert order == order[..n] + [order[n]];
    }
  }

  lemma {:induction false} NothingAssigned(m: nat)
    ensures AssignedBelow([], [], m) == multiset{}
  {
    if m > 0 { NothingAssigned(m - 1); }
  }

  /** The jobs of the first `k` shards. */
  function JobsBelow(tests: seq<string>, cost: string -> nat, m: nat, k: nat): multiset<Job>
    requires m > 0
    decreases k
  {
    if k == 0 then multiset{} else JobsBelow(tests, cost, m, k - 1) + multiset(ShardJobs(tests, cost, m, k - 1))
  }

  lemma {:induction false} JobsBelowIsAssigned(tests: seq<string>, cost: string -> nat, m: nat, k: nat)
    requires m > 0
    ensures var order := Order(tests, cost);
            JobsBelow(tests, cost, m, k) == AssignedBelow(order, Pack(Costs(order), m), k)
    decreases k
  {
    hide Order, Pack, Assigned, Costs, Sort;
    if k > 0 {
      JobsBelowIsAssigned(tests, cost, m, k - 1);
      var order := Order(tests, cost);
      SortKeeps(Earliest, Assigned(order, Pack(Costs(order), m), k - 1));
    }
  }

  /** Over all shards together, every place of the test list is run exactly once. */
  lemma ShardsPartition(tests: seq<string>, cost: string -> nat, m: nat)
    requires m > 0
    ensures JobsBelow(tests, cost, m, m) == multiset(Jobs(tests, cost))
  {
    var order := Order(tests, cost);
    JobsBelowIsAssigned(tests, cost, m, m);
    PackIsGreedy(Costs(order), m);
    AssignedBelowIsOrder(order, Pack(Costs(order), m), m);
    OrderIsJobs(tests, cost);
  }

  lemma {:induction false} AssignedIsOfOrder(order: seq<Job>, bins: seq<nat>, b: nat)
    requires |order| == |bins|
    ensures multiset(Assigned(order, bins, b)) <= multiset(order)
    decreases |order|
  {
    if order != [] {
      var n := |order| - 1;
      AssignedIsOfOrder(order[..n], bins[..n], b);
      assert order == order[..n] + [order[n]];
    }
  }

  lemma {:induction false} JobsAreDistinct(tests: seq<string>, cost: string -> nat)
    ensures forall j :: multiset(Jobs(tests, cost))[j] <= 1
    decreases |tests|
  {
    if tests != [] {
      var n := |tests| - 1;
      var jobs := Jobs(tests, cost);
      JobsAreDistinct(tests[..n], cost);
      assert jobs == Jobs(tests[..n], cost) + [jobs[n]];
      assert jobs[n] !in Jobs(tests[..n], cost);
    }
  }

  /** A shard keeps the order of the test list: its places only go up. */
  lemma ShardIsSubsequence(tests: seq<string>, cost: string -> nat, m: nat, b: nat)
    requires m > 0
    ensures var jobs, shard := ShardJobs(tests, cost, m, b), Shard(tests, cost, m, b);
            && (forall k :: 0 <= k < |shard| ==> jobs[k].index < |tests| && shard[k] == tests[jobs[k].index])
            && (forall k, l :: 0 <= k < l < |shard| ==> jobs[k].index < jobs[l].index)
  {
    var order, jobs := Order(tests, cost), ShardJobs(tests, cost, m, b);
    var inBin := Assigned(order, Pack(Costs(order), m), b);
    OrderIsJobs(tests, cost);
    AssignedIsOfOrder(order, Pack(Costs(order), m), b);
    SortKeeps(Earliest, inBin);
    SortSorts(Earliest, inBin);
    JobsAreDistinct(tests, cost);
    forall k | 0 <= k < |jobs| ensures jobs[k] in order {
      assert jobs[k] in multiset(jobs);
    }
    forall k, l | 0 <= k < l < |jobs| ensures jobs[k].index < jobs[l].index {
      assert Earliest(jobs[k], jobs[l]);
      TwoPlaces(jobs, k, l);
    }
  }

  lemma TwoPlaces(s: seq<Job>, k: nat, l: nat)
    requires k < l < |s|
    ensures s[k] == s[l] ==> multiset(s)[s[k]] >= 2
  {
    assert s == s[..l] + s[l..];
    assert s[k] in s[..l] && s[l] in s[l..];
  }

  // ----- The shards are balanced -----

  lemma {:induction false} JobSumAppend(s: seq<Job>, x: Job, f: Job -> nat)
    ensures JobSum(s + [x], f) == JobSum(s, f) + f(x)
    decreases |s|
  {
    if s == [] {
      assert s + [x] == [x];
    } else {
      assert (s + [x])[1..] == s[1..] + [x];
      JobSumAppend(s[1..], x, f);
    }
  }

  lemma {:induction false} LoadIsJobSum(jobs: seq<Job>, bins: seq<nat>, b: nat, f: Job -> nat)
    requires |jobs| == |bins|
    requires forall i :: 0 <= i < |jobs| ==> f(jobs[i]) == if bins[i] == b then jobs[i].cost else 0
    ensures Load(Costs(jobs), bins, b) == JobSum(jobs, f)
    decreases |jobs|
  {
    if jobs != [] {
      var n := |jobs| - 1;
      LoadIsJobSum(jobs[..n], bins[..n], b, f);
      JobSumAppend(jobs[..n], jobs[n], f);
      assert jobs == jobs[..n] + [jobs[n]];
      assert Costs(jobs)[..n] == Costs(jobs[..n]);
    }
  }

  function CostOf(j: Job): nat { j.cost }

  lemma {:induction false} AssignedSum(order: seq<Job>, bins: seq<nat>, b: nat)
    requires |order| == |bins|
    ensures JobSum(Assigned(order, bins, b), CostOf) == Load(Costs(order), bins, b)
    decreases |order|
  {
    if order != [] {
      var n := |order| - 1;
      AssignedSum(order[..n], bins[..n], b);
      JobSumAppend(Assigned(order[..n], bins[..n], b), order[n], CostOf);
      assert Costs(order)[..n] == Costs(order[..n]);
      assert Assigned(order[..n], bins[..n], b) + [] == Assigned(order[..n], bins[..n], b);
    }
  }

  lemma {:induction false} DurationIsSum(jobs: seq<Job>, cost: string -> nat)
    requires forall i :: 0 <= i < |jobs| ==> jobs[i].cost == cost(jobs[i].path)
    ensures Duration(Paths(jobs), cost) == JobSum(jobs, CostOf)
    decreases |jobs|
  {
    if jobs != [] {
      assert Paths(jobs)[1..] == Paths(jobs[1..]);
      DurationIsSum(jobs[1..], cost);
    }
  }

  /** The duration of a shard is the load of its bin. */
  lemma ShardDuration(tests: seq<string>, cost: string -> nat, m: nat, b: nat)
    requires m > 0
    ensures var costs := Costs(Order(tests, cost));
            Duration(Shard(tests, cost, m, b), cost) == Load(costs, Pack(costs, m), b)
  {
    var order, jobs := Order(tests, cost), ShardJobs(tests, cost, m, b);
    var bins := Pack(Costs(order), m);
    OrderIsJobs(tests, cost);
    AssignedIsOfOrder(order, bins, b);
    SortKeeps(Earliest, Assigned(order, bins, b));
    forall i | 0 <= i < |jobs| ensures jobs[i].cost == cost(jobs[i].path) {
      assert jobs[i] in multiset(jobs);
      assert jobs[i] in order;
    }
    DurationIsSum(jobs, cost);
    SortKeepsSum(Earliest, Assigned(order, bins, b), CostOf);
    AssignedSum(order, bins, b);
  }

  /** What another way of sharding would give shard `s`: `other[i]` is the shard of `tests[i]`. */
  function OtherDuration(tests: seq<string>, cost: string -> nat, other: seq<nat>, s: nat): nat
    requires |other| == |tests|
  {
    Load(Costs(Jobs(tests, cost)), other, s)
  }

  /** The other way of sharding, seen in packing order. */
  function Reordered(order: seq<Job>, other: seq<nat>): (r: seq<nat>)
    requires forall j :: j in order ==> j.index < |other|
    ensures |r| == |order|
  {
    seq(|order|, i requires 0 <= i < |order| => assert order[i] in order; other[order[i].index])
  }

  lemma ReorderedLoad(tests: seq<string>, cost: string -> nat, other: seq<nat>, s: nat)
    requires |other| == |tests|
    requires forall j :: j in Order(tests, cost) ==> j.index < |other|
    ensures var order := Order(tests, cost);
            Load(Costs(order), Reordered(order, other), s) == OtherDuration(tests, cost, other, s)
  {
    var jobs, order := Jobs(tests, cost), Order(tests, cost);
    var f := (j: Job) => if j.index < |other| && other[j.index] == s then j.cost else 0;
    SortKeepsSum(Longest, jobs, f);
    LoadIsJobSum(jobs, other, s, f);
    LoadIsJobSum(order, Reordered(order, other), s, f);
  }

  /** However the tests could have been split over `m` machines: if that gets every machine done by
      `t`, no shard takes longer than (4/3 - 1/(3m)) times `t`. */
  lemma ShardsAreNearOptimal(
      tests: seq<string>, cost: string -> nat, m: nat, b: nat, other: seq<nat>, t: nat)
    requires b < m && |other| == |tests| && Within(other, m)
    requires forall s :: 0 <= s < m ==> OtherDuration(tests, cost, other, s) <= t
    ensures 3 * m * Duration(Shard(tests, cost, m, b), cost) <= (4 * m - 1) * t
  {
    var order := Order(tests, cost);
    var costs := Costs(order);
    OrderIsJobs(tests, cost);
    OrderIsLongestFirst(tests, cost);
    PackIsGreedy(costs, m);
    ShardDuration(tests, cost, m, b);
    var reordered := Reordered(order, other);
    forall s | 0 <= s < m ensures Load(costs, reordered, s) <= t {
      ReorderedLoad(tests, cost, other, s);
    }
    assert Within(reordered, m);
    GrahamBound(costs, Pack(costs, m), m, b, reordered, t);
  }

  /** Any two shards: the longer one is ahead by at most any one of its own tests. */
  lemma ShardsAreBalanced(
      tests: seq<string>, cost: string -> nat, m: nat, b: nat, s: nat, path: string)
    requires b < m && s < m && path in Shard(tests, cost, m, b)
    ensures Duration(Shard(tests, cost, m, b), cost) <= Duration(Shard(tests, cost, m, s), cost) + cost(path)
  {
    var order := Order(tests, cost);
    var costs := Costs(order);
    var bins := Pack(costs, m);
    OrderIsJobs(tests, cost);
    OrderIsLongestFirst(tests, cost);
    PackIsGreedy(costs, m);
    ShardDuration(tests, cost, m, b);
    ShardDuration(tests, cost, m, s);
    var jobs := ShardJobs(tests, cost, m, b);
    var k :| 0 <= k < |jobs| && jobs[k].path == path;
    SortKeeps(Earliest, Assigned(order, bins, b));
    assert jobs[k] in multiset(jobs);
    assert jobs[k] in Assigned(order, bins, b);
    var i := PlaceOf(order, bins, b, jobs[k]);
    Balanced(costs, bins, m, i, s);
  }

  lemma {:induction false} PlaceOf(order: seq<Job>, bins: seq<nat>, b: nat, j: Job) returns (i: nat)
    requires |order| == |bins| && j in Assigned(order, bins, b)
    ensures i < |order| && order[i] == j && bins[i] == b
    decreases |order|
  {
    var n := |order| - 1;
    if bins[n] == b && order[n] == j {
      i := n;
    } else {
      i := PlaceOf(order[..n], bins[..n], b, j);
    }
  }
}
