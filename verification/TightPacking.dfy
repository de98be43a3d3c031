/** Graham's bound on longest-processing-time-first packing is met by the packing of the test runner, for every
    number of bins. */
module TightPacking {
  import opened BinPacking
  import S = Sharding

  /** The costs of 2m + 1 jobs: 2m - 1 twice, 2m - 2 twice, down to m + 1 twice, and m three times. */
  function Cost(m: nat, k: nat): nat
    requires m > 0 && k <= 2 * m
  {
    if k < 2 * m then 2 * m - 1 - k / 2 else m
  }

  /** The other bin whose first job costs the same. */
  function Twin(m: nat, b: nat): (t: nat)
    requires b < m
    ensures t < m && t / 2 == b / 2
  {
    if b % 2 == 1 then b - 1 else if b + 1 < m then b + 1 else b
  }

  /** Each of the first m jobs gets a bin of its own, the next m jobs fill these up from the last ones on, of
      two alike the first one first, and the last job comes on top. */
  function PackBin(m: nat, k: nat): (b: nat)
    requires m > 0 && k <= 2 * m
    ensures b < m
  {
    if k < m then k else if k < 2 * m then Twin(m, 2 * m - 1 - k) else 0
  }

  /** The three jobs of cost m share a bin, and the others make pairs. */
  function BestBin(m: nat, k: nat): nat
    requires m > 0 && k <= 2 * m
  {
    if k < m - 1 then k else if k < 2 * m - 2 then 2 * m - 3 - k else m - 1
  }

  function Costs(m: nat): (s: seq<nat>)
    requires m > 0
    ensures |s| == 2 * m + 1
  {
    seq<nat>(2 * m + 1, k requires 0 <= k <= 2 * m => Cost(m, k))
  }

  function PackBins(m: nat): (s: seq<nat>)
    requires m > 0
    ensures |s| == 2 * m + 1
  {
    seq<nat>(2 * m + 1, k requires 0 <= k <= 2 * m => PackBin(m, k))
  }

  function BestBins(m: nat): (s: seq<nat>)
    requires m > 0
    ensures |s| == 2 * m + 1
  {
    seq<nat>(2 * m + 1, k requires 0 <= k <= 2 * m => BestBin(m, k))
  }

  function CostIf(m: nat, k: int, i: nat): nat
    requires m > 0
  {
    if 0 <= k < i && k <= 2 * m then Cost(m, k) else 0
  }

  // ----- The packing -----

  /** The load of a bin after `i` jobs: its first job, its second one, and the last one. */
  function PackLoad(m: nat, i: nat, b: nat): nat
    requires b < m
  {
    CostIf(m, b, i) + CostIf(m, 2 * m - 1 - Twin(m, b), i) + if b == 0 then CostIf(m, 2 * m, i) else 0
  }

  lemma LoadStep(w: seq<nat>, bins: seq<nat>, i: nat, b: nat)
    requires |w| == |bins| && i < |w|
    ensures Load(w[..i + 1], bins[..i + 1], b) == Load(w[..i], bins[..i], b) + if bins[i] == b then w[i] else 0
  {
    assert w[..i + 1][..i] == w[..i] && bins[..i + 1][..i] == bins[..i];
  }

  lemma TwinOfTwin(m: nat, b: nat)
    requires b < m
    ensures Twin(m, Twin(m, b)) == b
  {
  }

  /** Which jobs a bin gets. */
  lemma PackBinIs(m: nat, k: nat, b: nat)
    requires b < m && k <= 2 * m
    ensures PackBin(m, k) == b <==> k == b || k == 2 * m - 1 - Twin(m, b) || (k == 2 * m && b == 0)
  {
    TwinOfTwin(m, b);
    if m <= k < 2 * m { TwinOfTwin(m, 2 * m - 1 - k); }
  }

  lemma {:induction false} PackLoadIs(m: nat, i: nat, b: nat)
    requires i <= 2 * m + 1 && b < m
    ensures Load(Costs(m)[..i], PackBins(m)[..i], b) == PackLoad(m, i, b)
    decreases i
  {
    if i > 0 {
      hide Load, Cost, PackBin, Twin;
      PackLoadIs(m, i - 1, b);
      LoadStep(Costs(m), PackBins(m), i - 1, b);
      PackBinIs(m, i - 1, b);
    }
  }

  /** A first and a second job together. */
  lemma PairCosts(m: nat, b: nat)
    requires b < m
    ensures Cost(m, b) + Cost(m, 2 * m - 1 - Twin(m, b)) == 3 * m - 1
    ensures b < m - 1 ==> Cost(m, b) + Cost(m, 2 * m - 3 - b) == 3 * m
  {
    assert b / 2 + (2 * m - 1 - Twin(m, b)) / 2 == m - 1;
    assert b < m - 1 ==> b / 2 + (2 * m - 3 - b) / 2 == m - 2;
  }

  /** The bin that is chosen is the first of the least loaded ones. */
  lemma PackedFirst(m: nat, i: nat, s: nat)
    requires i <= 2 * m && s < m
    ensures PackLoad(m, i, PackBin(m, i)) <= PackLoad(m, i, s)
    ensures s < PackBin(m, i) ==> PackLoad(m, i, PackBin(m, i)) < PackLoad(m, i, s)
  {
    var b := PackBin(m, i);
    PairCosts(m, s);
    PairCosts(m, b);
    if m <= i < 2 * m {
      var j := 2 * m - 1 - i;
      TwinOfTwin(m, j);
      assert PackLoad(m, i, b) == Cost(m, b);
      if Twin(m, s) <= j {
        assert PackLoad(m, i, s) == Cost(m, s) && s / 2 <= b / 2;
        assert s < b ==> s / 2 < b / 2;
      }
    }
  }

  lemma {:induction false} LeastBinIs(costs: seq<nat>, bins: seq<nat>, k: nat, b: nat)
    requires |costs| == |bins| && b < k
    requires forall s :: 0 <= s < k ==> Load(costs, bins, b) <= Load(costs, bins, s)
    requires forall s :: 0 <= s < b ==> Load(costs, bins, b) < Load(costs, bins, s)
    ensures S.LeastBin(costs, bins, k) == b
    decreases k
  {
    hide Load;
    if b < k - 1 { LeastBinIs(costs, bins, k - 1, b); }
  }

  lemma ChoosesPackBin(m: nat, i: nat)
    requires m > 0 && i <= 2 * m
    ensures S.LeastBin(Costs(m)[..i], PackBins(m)[..i], m) == PackBin(m, i)
  {
    hide Load, PackLoad, Costs, PackBins, PackBin, S.LeastBin;
    var costs, bins, b := Costs(m)[..i], PackBins(m)[..i], PackBin(m, i);
    forall s | 0 <= s < m
      ensures Load(costs, bins, b) <= Load(costs, bins, s) && (s < b ==> Load(costs, bins, b) < Load(costs, bins, s))
    {
      PackLoadIs(m, i, s);
      PackLoadIs(m, i, b);
      PackedFirst(m, i, s);
    }
    LeastBinIs(costs, bins, m, b);
  }

  lemma {:induction false} PackIs(m: nat, i: nat)
    requires m > 0 && i <= 2 * m + 1
    ensures S.Pack(Costs(m)[..i], m) == PackBins(m)[..i]
    decreases i
  {
    if i > 0 {
      hide Costs, PackBin, S.LeastBin;
      PackIs(m, i - 1);
      ChoosesPackBin(m, i - 1);
      assert Costs(m)[..i][..i - 1] == Costs(m)[..i - 1];
      assert PackBins(m)[..i] == PackBins(m)[..i - 1] + [PackBin(m, i - 1)];
    }
  }

  /** The first bin gets the last job on top. */
  lemma PackFillsFirst(m: nat)
    requires m > 0
    ensures LongestFirst(Costs(m)) && Load(Costs(m), S.Pack(Costs(m), m), 0) == 4 * m - 1
  {
    hide Load, PackLoad, S.Pack;
    var costs, bins := Costs(m), PackBins(m);
    assert costs[..2 * m + 1] == costs && bins[..2 * m + 1] == bins;
    PackIs(m, 2 * m + 1);
    PackLoadIs(m, 2 * m + 1, 0);
    FirstBinAtTheEnd(m);
  }

  lemma FirstBinAtTheEnd(m: nat)
    requires m > 0
    ensures PackLoad(m, 2 * m + 1, 0) == 4 * m - 1
  {
    PairCosts(m, 0);
  }

  // ----- A better assignment -----

  function BestLoad(m: nat, i: nat, b: nat): nat
    requires m > 0
  {
    if b < m - 1 then CostIf(m, b, i) + CostIf(m, 2 * m - 3 - b, i)
    else CostIf(m, 2 * m - 2, i) + CostIf(m, 2 * m - 1, i) + CostIf(m, 2 * m, i)
  }

  lemma BestBinIs(m: nat, k: nat, b: nat)
    requires b < m && k <= 2 * m
    ensures BestBin(m, k) == b <==> if b < m - 1 then k == b || k == 2 * m - 3 - b else k >= 2 * m - 2
  {
  }

  lemma {:induction false} BestLoadIs(m: nat, i: nat, b: nat)
    requires m > 0 && i <= 2 * m + 1 && b < m
    ensures Load(Costs(m)[..i], BestBins(m)[..i], b) == BestLoad(m, i, b)
    decreases i
  {
    if i > 0 {
      hide Load, Cost, BestBin;
      BestLoadIs(m, i - 1, b);
      LoadStep(Costs(m), BestBins(m), i - 1, b);
      BestBinIs(m, i - 1, b);
    }
  }

  lemma BestBinsAreEven(m: nat)
    requires m > 0
    ensures AtMost(Costs(m), BestBins(m), m, 3 * m)
  {
    hide Load;
    var costs, bins := Costs(m), BestBins(m);
    assert costs[..2 * m + 1] == costs && bins[..2 * m + 1] == bins;
    forall s | 0 <= s < m ensures Load(costs, bins, s) <= 3 * m {
      BestLoadIs(m, 2 * m + 1, s);
      PairCosts(m, s);
    }
  }

  /** For every number of bins there are jobs, longest first, which the runner packs exactly as badly as the
      bound allows. */
  lemma GrahamBoundIsTight(m: nat)
    requires m > 0
    ensures exists costs, other, t: nat ::
              && LongestFirst(costs) && AtMost(costs, other, m, t)
              && 0 < t && 3 * m * Load(costs, S.Pack(costs, m), 0) == (4 * m - 1) * t
  {
    hide AtMost, LongestFirst, S.Pack;
    PackFillsFirst(m);
    BestBinsAreEven(m);
    var costs, t := Costs(m), 3 * m;
    assert 3 * m * Load(costs, S.Pack(costs, m), 0) == (4 * m - 1) * t;
  }
}
