/** Longest-processing-time-first bin packing (scripts/runner.node.ts), on the bare costs: `bins[i]`
    is the bin of job `i`, and the jobs come longest first. */
module BinPacking {

  /** The sum of the weights that are in bin `b`. */
  function Load(w: seq<nat>, bins: seq<nat>, b: nat): nat
    requires |w| == |bins|
    decreases |w|
  {
    if w == [] then 0
    else
      var n := |w| - 1;
      Load(w[..n], bins[..n], b) + if bins[n] == b then w[n] else 0
  }

  function Sum(w: seq<nat>): nat {
    if w == [] then 0 else Sum(w[..|w| - 1]) + w[|w| - 1]
  }

  /** The sum of the loads of the first `m` bins. */
  function SumLoads(w: seq<nat>, bins: seq<nat>, m: nat): nat
    requires |w| == |bins|
    decreases m
  {
    if m == 0 then 0 else SumLoads(w, bins, m - 1) + Load(w, bins, m - 1)
  }

  predicate Within(bins: seq<nat>, m: nat) { forall i :: 0 <= i < |bins| ==> bins[i] < m }

  predicate LongestFirst(costs: seq<nat>) {
    forall i, j :: 0 <= i < j < |costs| ==> costs[i] >= costs[j]
  }

  /** Every job was put where the load was least. */
  ghost predicate Greedy(costs: seq<nat>, bins: seq<nat>, m: nat) {
    && |costs| == |bins| && Within(bins, m)
    && forall i :: 0 <= i < |costs| ==> LeastLoaded(costs[..i], bins[..i], m, bins[i])
  }

  ghost predicate LeastLoaded(costs: seq<nat>, bins: seq<nat>, m: nat, b: nat)
    requires |costs| == |bins|
  {
    forall s :: 0 <= s < m ==> Load(costs, bins, b) <= Load(costs, bins, s)
  }

  /** Every load of the assignment `bins` is at most `t`. */
  ghost predicate AtMost(costs: seq<nat>, bins: seq<nat>, m: nat, t: nat) {
    && |costs| == |bins| && Within(bins, m)
    && forall s :: 0 <= s < m ==> Load(costs, bins, s) <= t
  }

  // ----- Counting the same weight twice: by job, and by bin -----

  lemma {:induction false} SumLoadsStep(w: seq<nat>, bins: seq<nat>, m: nat)
    requires |w| == |bins| > 0
    ensures var n := |w| - 1;
            SumLoads(w, bins, m) == SumLoads(w[..n], bins[..n], m) + if bins[n] < m then w[n] else 0
    decreases m
  {
    if m > 0 { SumLoadsStep(w, bins, m - 1); }
  }

  lemma {:induction false} SumLoadsIsSum(w: seq<nat>, bins: seq<nat>, m: nat)
    requires |w| == |bins| && Within(bins, m)
    ensures SumLoads(w, bins, m) == Sum(w)
    decreases |w|
  {
    if w == [] {
      SumLoadsEmpty(m);
    } else {
      SumLoadsStep(w, bins, m);
      SumLoadsIsSum(w[..|w| - 1], bins[..|w| - 1], m);
    }
  }

  lemma {:induction false} SumLoadsEmpty(m: nat)
    ensures SumLoads([], [], m) == 0
  {
    if m > 0 { SumLoadsEmpty(m - 1); }
  }

  lemma {:induction false} SumLoadsAtLeast(w: seq<nat>, bins: seq<nat>, m: nat, l: nat)
    requires |w| == |bins| && forall s :: 0 <= s < m ==> l <= Load(w, bins, s)
    ensures m * l <= SumLoads(w, bins, m)
    decreases m
  {
    if m > 0 {
      SumLoadsAtLeast(w, bins, m - 1, l);
      assert m * l == (m - 1) * l + l;
    }
  }

  lemma {:induction false} SumLoadsAtMost(w: seq<nat>, bins: seq<nat>, m: nat, t: nat)
    requires |w| == |bins| && forall s :: 0 <= s < m ==> Load(w, bins, s) <= t
    ensures SumLoads(w, bins, m) <= m * t
    decreases m
  {
    if m > 0 {
      SumLoadsAtMost(w, bins, m - 1, t);
      assert m * t == (m - 1) * t + t;
    }
  }

  /** Loads only grow. */
  lemma {:induction false} LoadGrows(w: seq<nat>, bins: seq<nat>, k: nat, b: nat)
    requires |w| == |bins| && k <= |w|
    ensures Load(w[..k], bins[..k], b) <= Load(w, bins, b)
    decreases |w|
  {
    if k < |w| {
      var n := |w| - 1;
      LoadGrows(w[..n], bins[..n], k, b);
      assert w[..n][..k] == w[..k] && bins[..n][..k] == bins[..k];
    } else {
      assert w[..k] == w && bins[..k] == bins;
    }
  }

  lemma {:induction false} SumGrows(w: seq<nat>, k: nat)
    requires k <= |w|
    ensures Sum(w[..k]) <= Sum(w)
    decreases |w|
  {
    if k < |w| {
      SumGrows(w[..|w| - 1], k);
      assert w[..|w| - 1][..k] == w[..k];
    } else {
      assert w[..k] == w;
    }
  }

  /** The last job of a bin that holds any. */
  lemma {:induction false} LastJob(costs: seq<nat>, bins: seq<nat>, b: nat) returns (j: nat)
    requires |costs| == |bins| && exists i :: 0 <= i < |bins| && bins[i] == b
    ensures j < |bins| && bins[j] == b
    ensures forall i :: j < i < |bins| ==> bins[i] != b
    ensures Load(costs, bins, b) == Load(costs[..j], bins[..j], b) + costs[j]
    decreases |bins|
  {
    var n := |bins| - 1;
    if bins[n] == b {
      j := n;
    } else {
      assert exists i :: 0 <= i < n && bins[..n][i] == b;
      j := LastJob(costs[..n], bins[..n], b);
      assert costs[..n][..j] == costs[..j] && bins[..n][..j] == bins[..j];
    }
  }

  lemma {:induction false} EmptyBin(costs: seq<nat>, bins: seq<nat>, b: nat)
    requires |costs| == |bins| && forall i :: 0 <= i < |bins| ==> bins[i] != b
    ensures Load(costs, bins, b) == 0
    decreases |bins|
  {
    if bins != [] { EmptyBin(costs[..|bins| - 1], bins[..|bins| - 1], b); }
  }

  // ----- How far two bins can be apart -----

  /** A bin exceeds any other by at most the smallest job it holds. */
  lemma Balanced(costs: seq<nat>, bins: seq<nat>, m: nat, i: nat, s: nat)
    requires Greedy(costs, bins, m) && LongestFirst(costs) && i < |bins| && s < m
    ensures Load(costs, bins, bins[i]) <= Load(costs, bins, s) + costs[i]
  {
    var j := LastJob(costs, bins, bins[i]);
    LoadGrows(costs, bins, j, s);
    assert Load(costs[..j], bins[..j], bins[j]) <= Load(costs[..j], bins[..j], s);
    assert i <= j;
  }

  /** The stepping stone: a bin is at most the average of the other jobs above its last job. */
  lemma AverageBound(costs: seq<nat>, bins: seq<nat>, m: nat, j: nat, other: seq<nat>, t: nat)
    requires Greedy(costs, bins, m) && j < |bins| && AtMost(costs, other, m, t)
    ensures m * Load(costs[..j], bins[..j], bins[j]) + costs[j] <= m * t
  {
    var l := Load(costs[..j], bins[..j], bins[j]);
    SumLoadsAtLeast(costs[..j], bins[..j], m, l);
    SumLoadsIsSum(costs[..j], bins[..j], m);
    assert costs[..j + 1][..j] == costs[..j];
    SumGrows(costs, j + 1);
    SumLoadsIsSum(costs, other, m);
    SumLoadsAtMost(costs, other, m, t);
  }

  // ----- Big jobs -----

  /** A job counts twice when it leaves no room for another job of cost `c` below `t`. */
  function Weights(costs: seq<nat>, c: nat, t: nat): (w: seq<nat>)
    ensures |w| == |costs|
    ensures forall i :: 0 <= i < |costs| ==> w[i] == if costs[i] + c > t then 2 else 1
  {
    seq(|costs|, i requires 0 <= i < |costs| => if costs[i] + c > t then 2 else 1)
  }

  lemma WeightsPrefix(costs: seq<nat>, c: nat, t: nat, k: nat)
    requires k <= |costs|
    ensures Weights(costs, c, t)[..k] == Weights(costs[..k], c, t)
  {
  }

  /** A bin with no room for `c` below `t` weighs at least 2. */
  lemma {:induction false} FullBin(costs: seq<nat>, bins: seq<nat>, b: nat, c: nat, t: nat)
    requires |costs| == |bins|
    ensures Load(Weights(costs, c, t), bins, b) == 0 ==> Load(costs, bins, b) == 0
    ensures Load(Weights(costs, c, t), bins, b) == 1 ==> Load(costs, bins, b) + c <= t
    decreases |costs|
  {
    if costs != [] {
      var n := |costs| - 1;
      WeightsPrefix(costs, c, t, n);
      FullBin(costs[..n], bins[..n], b, c, t);
    }
  }

  /** A bin of jobs of more than a third of `t` that weighs 3 exceeds `t`. */
  lemma {:induction false} RoomyBin(costs: seq<nat>, bins: seq<nat>, b: nat, c: nat, t: nat)
    requires |costs| == |bins| && 3 * c > t && forall i :: 0 <= i < |costs| ==> c <= costs[i]
    ensures var w := Load(Weights(costs, c, t), bins, b);
            var l := Load(costs, bins, b);
            && (w == 1 ==> l >= c)
            && (w == 2 ==> l >= 2 * c || l + c > t)
            && (w >= 3 ==> l > t)
    decreases |costs|
  {
    if costs != [] {
      var n := |costs| - 1;
      WeightsPrefix(costs, c, t, n);
      RoomyBin(costs[..n], bins[..n], b, c, t);
      FullBin(costs[..n], bins[..n], b, c, t);
    }
  }

  /** When the last job of a bin costs more than a third of what another assignment gets by with,
      the bin stays within that: otherwise every bin was full before the job, weighing at least 2
      each, and the other assignment, whose bins weigh at most 2 each, has no place for the job. */
  lemma BigLastJob(costs: seq<nat>, bins: seq<nat>, m: nat, j: nat, other: seq<nat>, t: nat)
    requires Greedy(costs, bins, m) && LongestFirst(costs) && j < |bins| && AtMost(costs, other, m, t)
    requires 3 * costs[j] > t
    ensures Load(costs[..j], bins[..j], bins[j]) + costs[j] <= t
  {
    var c, upTo := costs[j], costs[..j + 1];
    OtherWeighs(costs, m, j, other, t);
    JobFits(costs, other, m, j, t);
    var w := Weights(upTo, c, t);
    assert upTo[..j] == costs[..j];
    WeightsPrefix(upTo, c, t, j);
    assert Sum(w) == Sum(w[..j]) + w[j];
    if Load(costs[..j], bins[..j], bins[j]) + c > t { FullBinsWeigh(costs[..j], bins[..j], m, bins[j], c, t); }
  }

  lemma FullBinsWeigh(costs: seq<nat>, bins: seq<nat>, m: nat, b: nat, c: nat, t: nat)
    requires |costs| == |bins| && Within(bins, m) && LeastLoaded(costs, bins, m, b)
    requires c <= t && Load(costs, bins, b) + c > t
    ensures 2 * m <= Sum(Weights(costs, c, t))
  {
    var w := Weights(costs, c, t);
    forall s | 0 <= s < m ensures 2 <= Load(w, bins, s) {
      FullBin(costs, bins, s, c, t);
    }
    SumLoadsAtLeast(w, bins, m, 2);
    SumLoadsIsSum(w, bins, m);
  }

  lemma OtherWeighs(costs: seq<nat>, m: nat, j: nat, other: seq<nat>, t: nat)
    requires LongestFirst(costs) && j < |costs| && AtMost(costs, other, m, t) && 3 * costs[j] > t
    ensures Sum(Weights(costs[..j + 1], costs[j], t)) <= 2 * m
  {
    var upTo, bins := costs[..j + 1], other[..j + 1];
    var w := Weights(upTo, costs[j], t);
    forall s | 0 <= s < m ensures Load(w, bins, s) <= 2 {
      RoomyBin(upTo, bins, s, costs[j], t);
      LoadGrows(costs, other, j + 1, s);
    }
    SumLoadsAtMost(w, bins, m, 2);
    SumLoadsIsSum(w, bins, m);
  }

  lemma JobFits(costs: seq<nat>, other: seq<nat>, m: nat, j: nat, t: nat)
    requires AtMost(costs, other, m, t) && j < |costs|
    ensures costs[j] <= t
  {
    var k := j + 1;
    LoadGrows(costs, other, k, other[j]);
    assert costs[..k][j] == costs[j] && other[..k][j] == other[j];
  }

  // ----- The bound -----

  /** Graham's bound: no load exceeds (4/3 - 1/(3m)) times the largest load of any assignment. */
  lemma {:induction false} GrahamBound(costs: seq<nat>, bins: seq<nat>, m: nat, b: nat, other: seq<nat>, t: nat)
    requires Greedy(costs, bins, m) && LongestFirst(costs) && b < m && AtMost(costs, other, m, t)
    ensures 3 * m * Load(costs, bins, b) <= (4 * m - 1) * t
  {
    if forall i :: 0 <= i < |bins| ==> bins[i] != b {
      EmptyBin(costs, bins, b);
    } else {
      var j := LastJob(costs, bins, b);
      var l, c := Load(costs[..j], bins[..j], b), costs[j];
      AverageBound(costs, bins, m, j, other, t);
      if 3 * c > t { BigLastJob(costs, bins, m, j, other, t); }
      Arithmetic(m, l, c, t);
    }
  }

  lemma Arithmetic(m: nat, l: nat, c: nat, t: nat)
    requires m >= 1 && m * l + c <= m * t && (l + c <= t || 3 * c <= t)
    ensures 3 * m * (l + c) <= (4 * m - 1) * t
  {
    assert 3 * m * (l + c) == 3 * (m * l) + 3 * (m * c);
    assert (4 * m - 1) * t == 3 * (m * t) + (m - 1) * t;
    if l + c <= t {
      assert m * (l + c) == m * l + m * c;
      assert m * (l + c) <= m * t;
    } else {
      assert (m - 1) * (3 * c) <= (m - 1) * t;
      assert (m - 1) * (3 * c) == 3 * (m * c) - 3 * c;
    }
  }
}
