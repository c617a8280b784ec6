/** The discrete parts of the equilibrium set-up of the SimTime-expiry
    variant (Population::equi_pop_setup in model/white/Population.cpp): the
    age bins and their demography, the ageing rates, the bin nearest to a
    20-year-old, the cumulative compartment table of one age and
    heterogeneity cell, the age and heterogeneity bin of a new individual,
    and the initial compartment and hypnozoite count drawn from the table.
    Values come out of the equilibrium solves as plain reals; exp is a
    parameter. */
module WhiteEquilibrium {
  import opened Common
  import opened Compartments
  import Hazard

  /** The number of age bins. */
  const N_AGE: nat := 58

  /** The number of human compartments. */
  const N_H_COMP: nat := 6

  /** The bounds of the age bins, in days (years times 365). */
  const AGE_BOUNDS: seq<real> := [
    0.0, 73.0, 146.0, 219.0, 292.0, 365.0,
    438.0, 511.0, 584.0, 657.0, 730.0,
    803.0, 876.0, 949.0, 1022.0, 1095.0,
    1241.0, 1387.0, 1533.0, 1679.0, 1825.0,
    2007.5, 2190.0, 2372.5, 2555.0, 2737.5, 2920.0, 3102.5, 3285.0, 3467.5, 3650.0,
    4015.0, 4380.0, 4745.0, 5110.0, 5475.0, 5840.0, 6205.0, 6570.0, 6935.0, 7300.0,
    8030.0, 8760.0, 9490.0, 10220.0, 10950.0, 11680.0, 12410.0, 13140.0, 13870.0, 14600.0,
    16425.0, 18250.0, 20075.0, 21900.0, 23725.0, 25550.0, 27375.0, 29200.0]

  /** Twenty years in days. */
  const TWENTY_YEARS: real := 7300.0

  // ---------------------------------------------------------------------
  // Age demography

  /** The proportion of a population with death rate mu that is older
      than age b: exp(-mu b). */
  function Survival(expf: real -> real, mu: real, b: real): real
  {
    expf(-mu * b)
  }

  /** A bin's share: the proportion between its two bounds. */
  function BinShare(expf: real -> real, mu: real, bounds: seq<real>, i: nat): real
    requires i + 1 < |bounds|
  {
    Survival(expf, mu, bounds[i]) - Survival(expf, mu, bounds[i + 1])
  }

  /** The shares of the first n bins telescope to the proportion between
      the first bound and bound n. */
  lemma {:induction false} SharesTelescope(expf: real -> real, mu: real, bounds: seq<real>, d: seq<real>, n: nat)
    requires n < |bounds| && n <= |d|
    requires forall i :: 0 <= i < n ==> d[i] == BinShare(expf, mu, bounds, i)
    ensures Hazard.Sum(d[..n]) == Survival(expf, mu, bounds[0]) - Survival(expf, mu, bounds[n])
  {
    if n > 0 {
      SharesTelescope(expf, mu, bounds, d, n - 1);
      assert d[..n][..n - 1] == d[..n - 1];
    }
  }

  /** age_demog: the exponential shares of the first N_age - 1 bins, and
      the remainder in the last bin, so that the shares sum to exactly 1;
      the last bin then holds everyone older than its lower bound. */
  method AgeDemography(expf: real -> real, muH: real, bounds: seq<real>) returns (d: seq<real>)
    requires |bounds| == N_AGE + 1
    ensures |d| == N_AGE
    ensures forall i :: 0 <= i < N_AGE - 1 ==> d[i] == BinShare(expf, muH, bounds, i)
    ensures Hazard.Sum(d) == 1.0
    ensures Survival(expf, muH, bounds[0]) == 1.0 ==> d[N_AGE - 1] == Survival(expf, muH, bounds[N_AGE - 1])
  {
    d := seq(N_AGE, _ => 0.0);
    var i := 0;
    while i < N_AGE - 1
      invariant 0 <= i <= N_AGE - 1 && |d| == N_AGE
      invariant forall j :: 0 <= j < i ==> d[j] == BinShare(expf, muH, bounds, j)
    {
      d := d[i := Survival(expf, muH, bounds[i]) - Survival(expf, muH, bounds[i + 1])];
      i := i + 1;
    }
    var head := d[..N_AGE - 1];
    d := d[N_AGE - 1 := 1.0 - Hazard.Sum(head)];
    assert d[..N_AGE - 1] == head;
    SharesTelescope(expf, muH, bounds, d, N_AGE - 1);
    assert d == d[..N_AGE - 1] + [d[N_AGE - 1]];
    SumSnoc(d[..N_AGE - 1], d[N_AGE - 1]);
  }

  lemma SumSnoc(s: seq<real>, x: real)
    ensures Hazard.Sum(s + [x]) == Hazard.Sum(s) + x
  {
    assert (s + [x])[..|s|] == s;
  }

  // ---------------------------------------------------------------------
  // Ageing rates

  /** The flow out of a bin: its rate times its share. */
  function Flow(r: real, d: real): real
  {
    r * d
  }

  /** The rate that carries a given flow out of a bin of nonzero share. */
  lemma Balances(inflow: real, di: real)
    ensures di != 0.0 ==> Flow(Div(inflow, di), di) == inflow
    ensures di == 0.0 ==> Div(inflow, di) == 0.0
  {
  }

  /** Bin j balances: its ageing outflow is the inflow from bin j-1 less its
      deaths, or its rate is 0 when it is empty. */
  predicate Balanced(muH: real, d: seq<real>, r: seq<real>, j: nat)
    requires 1 <= j < |d| && |r| == |d|
  {
    (d[j] != 0.0 ==> Flow(r[j], d[j]) == Flow(r[j - 1], d[j - 1]) - muH * d[j]) &&
    (d[j] == 0.0 ==> r[j] == 0.0)
  }

  /** r_age: the ageing rate out of each bin that keeps the demography
      balanced: what leaves bin i by ageing is what ageing brings in from
      bin i-1 minus the deaths in bin i, the first bin being fed by births
      (mu in total), and nobody ages out of the last bin. A bin with zero
      share gets rate 0. */
  method AgeingRates(muH: real, d: seq<real>) returns (r: seq<real>)
    requires |d| == N_AGE
    ensures |r| == N_AGE
    ensures r[N_AGE - 1] == 0.0
    ensures d[0] != 0.0 ==> Flow(r[0], d[0]) == muH * (1.0 - d[0])
    ensures d[0] == 0.0 ==> r[0] == 0.0
    ensures forall i :: 1 <= i < N_AGE - 1 ==> Balanced(muH, d, r, i)
  {
    r := seq(N_AGE, _ => 0.0);
    r := r[0 := Div(muH * (1.0 - d[0]), d[0])];
    var i := 1;
    while i < N_AGE - 1
      invariant 1 <= i <= N_AGE - 1 && |r| == N_AGE
      invariant d[0] != 0.0 ==> Flow(r[0], d[0]) == muH * (1.0 - d[0])
      invariant d[0] == 0.0 ==> r[0] == 0.0
      invariant forall j :: 1 <= j < i ==> Balanced(muH, d, r, j)
    {
      var inflow := Flow(r[i - 1], d[i - 1]) - muH * d[i];
      Balances(inflow, d[i]);
      var r' := r[i := Div(inflow, d[i])];
      forall j | 1 <= j < i + 1
        ensures Balanced(muH, d, r', j)
      {
        if j < i {
          assert r'[j] == r[j] && r'[j - 1] == r[j - 1];
          assert Balanced(muH, d, r, j);
        }
      }
      r, i := r', i + 1;
    }
    var r0 := r;
    r := r[N_AGE - 1 := 0.0];
    assert r[0] == r0[0];
    forall j | 1 <= j < N_AGE - 1
      ensures Balanced(muH, d, r, j)
    {
      assert r[j] == r0[j] && r[j - 1] == r0[j - 1];
      assert Balanced(muH, d, r0, j);
    }
  }

  // ---------------------------------------------------------------------
  // Normalised biting rates

  /** The sum over bins of share times biting rate. */
  function WeightedSum(d: seq<real>, b: seq<real>): real
    requires |d| == |b|
  {
    if d == [] then 0.0 else WeightedSum(d[..|d| - 1], b[..|b| - 1]) + d[|d| - 1] * b[|b| - 1]
  }

  /** Every rate multiplied by c. */
  function Scaled(b: seq<real>, c: real): (r: seq<real>)
    ensures |r| == |b|
  {
    seq(|b|, i requires 0 <= i < |b| => b[i] * c)
  }

  lemma {:induction false} WeightedSumScaled(d: seq<real>, b: seq<real>, c: real)
    requires |d| == |b|
    ensures WeightedSum(d, Scaled(b, c)) == c * WeightedSum(d, b)
  {
    if d != [] {
      var n := |d| - 1;
      WeightedSumScaled(d[..n], b[..n], c);
      forall i | 0 <= i < n ensures Scaled(b, c)[..n][i] == Scaled(b[..n], c)[i] {
        assert b[..n][i] == b[i];
      }
      assert Scaled(b, c)[..n] == Scaled(b[..n], c);
      assert d[n] * (b[n] * c) == c * (d[n] * b[n]);
    }
  }

  /** The age-dependent biting rates scaled by omega_age, one over the
      population's mean rate, so that the mean rate is 1 (unless it was 0). */
  function NormalisedBites(d: seq<real>, bite: seq<real>): (r: seq<real>)
    requires |d| == |bite|
    ensures |r| == |bite|
    ensures WeightedSum(d, bite) != 0.0 ==> WeightedSum(d, r) == 1.0
  {
    var r := Scaled(bite, Div(1.0, WeightedSum(d, bite)));
    WeightedSumScaled(d, bite, Div(1.0, WeightedSum(d, bite)));
    r
  }

  // ---------------------------------------------------------------------
  // The bin nearest to a 20-year-old

  function Mid(bounds: seq<real>, i: nat): real
    requires i + 1 < |bounds|
  {
    0.5 * (bounds[i] + bounds[i + 1])
  }

  /** The squared distance of bin i's midpoint from age a. */
  function MidDist(bounds: seq<real>, i: nat, a: real): (r: real)
    requires i + 1 < |bounds|
    ensures r >= 0.0
  {
    (Mid(bounds, i) - a) * (Mid(bounds, i) - a)
  }

  /** Bin k is the first bin whose midpoint minimises the squared distance
      from age a. */
  ghost predicate FirstNearest(bounds: seq<real>, a: real, k: nat)
    requires |bounds| == N_AGE + 1
  {
    k < N_AGE &&
    (forall i :: 0 <= i < N_AGE ==> MidDist(bounds, k, a) <= MidDist(bounds, i, a)) &&
    (forall i :: 0 <= i < k ==> MidDist(bounds, k, a) < MidDist(bounds, i, a))
  }

  lemma FirstNearestUnique(bounds: seq<real>, a: real, k: nat, l: nat)
    requires |bounds| == N_AGE + 1
    requires FirstNearest(bounds, a, k) && FirstNearest(bounds, a, l)
    ensures k == l
  {
    var dk, dl := MidDist(bounds, k, a), MidDist(bounds, l, a);
    assert k < l ==> dl < dk;
    assert l < k ==> dk < dl;
  }

  /** index_age_20: the age bin nearest to a 20-year-old woman, the first
      of equally near ones; the running distance starts at +infinity. */
  method IndexAge20(bounds: seq<real>) returns (index: nat)
    requires |bounds| == N_AGE + 1
    ensures FirstNearest(bounds, TWENTY_YEARS, index)
  {
    index := 0;
    var ageDiff := PosInf;
    var i := 0;
    while i < N_AGE
      invariant 0 <= i <= N_AGE
      invariant i == 0 ==> ageDiff == PosInf && index == 0
      invariant i > 0 ==> index < i && ageDiff == Fin(MidDist(bounds, index, TWENTY_YEARS))
      invariant forall j :: 0 <= j < i ==> MidDist(bounds, index, TWENTY_YEARS) <= MidDist(bounds, j, TWENTY_YEARS)
      invariant forall j :: 0 <= j < index ==> MidDist(bounds, index, TWENTY_YEARS) < MidDist(bounds, j, TWENTY_YEARS)
    {
      var diff := Mid(bounds, i) - TWENTY_YEARS;
      diff := diff * diff;
      if ageDiff.PosInf? || (ageDiff.Fin? && diff < ageDiff.v) {
        ageDiff := Fin(diff);
        index := i;
      }
      i := i + 1;
    }
  }

  // ---------------------------------------------------------------------
  // The cumulative compartment table of one cell

  predicate Nondecreasing(p: seq<real>)
  {
    forall i, j :: 0 <= i <= j < |p| ==> p[i] <= p[j]
  }

  /** yH_eq_cumsum[i][j]: the running sums of the cell's equilibrium
      proportions, taken compartment by compartment and, within a
      compartment, hypnozoite count by count. w holds the cell's
      proportions in that order: entry c*K_dim + k is compartment c with k
      batches. */
  method CumulativeTable(w: seq<real>, kDim: nat, a: array<real>)
    requires kDim >= 1 && |w| == N_H_COMP * kDim && a.Length == N_H_COMP * kDim
    modifies a
    ensures a[..] == Hazard.PrefixSums(w)
  {
    ghost var p := Hazard.PrefixSums(w);
    Hazard.PrefixSumsHead(w);
    a[0] := w[0];
    var k := 1;
    while k < kDim
      invariant 1 <= k <= kDim
      invariant forall m :: 0 <= m < k ==> a[m] == p[m]
    {
      Hazard.PrefixSumsStep(w, k);
      a[k] := a[k - 1] + w[k];
      k := k + 1;
    }
    var c, base := 1, kDim;
    while c < N_H_COMP
      invariant 1 <= c <= N_H_COMP && base == c * kDim
      invariant forall m :: 0 <= m < base ==> a[m] == p[m]
    {
      RowBounds(c, kDim);
      Hazard.PrefixSumsStep(w, base);
      a[base] := a[base - 1] + w[base];
      k := 1;
      while k < kDim
        invariant 1 <= k <= kDim
        invariant forall m :: 0 <= m < base + k ==> a[m] == p[m]
      {
        Hazard.PrefixSumsStep(w, base + k);
        a[base + k] := a[base + k - 1] + w[base + k];
        k := k + 1;
      }
      c, base := c + 1, base + kDim;
    }
    assert a[..] == p;
  }

  /** Row c of the table starts at c*K_dim and ends before (c+1)*K_dim,
      inside the table. */
  lemma RowBounds(c: nat, kDim: nat)
    requires c < N_H_COMP
    ensures c * kDim + kDim == (c + 1) * kDim <= N_H_COMP * kDim
  {
  }

  /** The table after normalisation: every entry divided by the last. */
  function Normalised(p: seq<real>): (q: seq<real>)
    requires |p| > 0
    ensures |q| == |p|
  {
    seq(|p|, k requires 0 <= k < |p| => Div(p[k], p[|p| - 1]))
  }

  /** The normalisation loop: each entry in turn is divided by the current
      last entry, which is itself divided last. */
  method Normalise(a: array<real>)
    requires a.Length > 0
    modifies a
    ensures a[..] == Normalised(old(a[..]))
  {
    ghost var p := a[..];
    var last := a.Length - 1;
    var k := 0;
    while k < a.Length
      invariant 0 <= k <= a.Length
      invariant forall m :: 0 <= m < k ==> a[m] == Div(p[m], p[last])
      invariant forall m :: k <= m < a.Length ==> a[m] == p[m]
    {
      a[k] := Div(a[k], a[last]);
      k := k + 1;
    }
    assert a[..] == Normalised(p);
  }

  /** With non-negative proportions the running sums never decrease. */
  lemma CumulativeNondecreasing(w: seq<real>)
    requires forall k :: 0 <= k < |w| ==> 0.0 <= w[k]
    ensures Nondecreasing(Hazard.PrefixSums(w))
  {
    forall i, j | 0 <= i <= j < |w|
      ensures Hazard.PrefixSums(w)[i] <= Hazard.PrefixSums(w)[j]
    {
      Hazard.PrefixSumsMonotone(w, i, j);
    }
  }

  /** After normalisation the last entry is 1 unless the total is 0, and a
      nondecreasing table with a positive total stays nondecreasing. */
  lemma NormalisedLastIsOne(p: seq<real>)
    requires |p| > 0 && p[|p| - 1] != 0.0
    ensures Normalised(p)[|p| - 1] == 1.0
  {
  }

  lemma NormalisedNondecreasing(p: seq<real>)
    requires |p| > 0 && p[|p| - 1] > 0.0 && Nondecreasing(p)
    ensures Nondecreasing(Normalised(p))
  {
    var q := Normalised(p);
    var t := p[|p| - 1];
    forall i, j | 0 <= i <= j < |p|
      ensures q[i] <= q[j]
    {
      assert q[i] == p[i] / t && q[j] == p[j] / t;
      DivMonotone(p[i], p[j], t);
    }
  }

  lemma DivMonotone(x: real, y: real, t: real)
    requires x <= y && t > 0.0
    ensures x / t <= y / t
  {
    assert y / t - x / t == (y - x) / t;
  }

  // ---------------------------------------------------------------------
  // The age and heterogeneity bin of a new individual

  /** Is x in bin i: above the lower bound and at most (ages) or below
      (heterogeneity) the upper bound? */
  predicate InBin(bounds: seq<real>, i: nat, x: real, closedAbove: bool)
    requires i + 1 < |bounds|
  {
    bounds[i] < x && (if closedAbove then x <= bounds[i + 1] else x < bounds[i + 1])
  }

  /** The last of the first n bins that holds x, or 0 when none does. */
  function LastBin(bounds: seq<real>, x: real, closedAbove: bool, n: nat): (i: nat)
    requires n < |bounds|
    ensures n == 0 ==> i == 0
    ensures n > 0 ==> i < n
    ensures (forall j :: 0 <= j < n ==> !InBin(bounds, j, x, closedAbove)) ==> i == 0
    ensures forall j :: i < j < n ==> !InBin(bounds, j, x, closedAbove)
    ensures (exists j :: 0 <= j < n && InBin(bounds, j, x, closedAbove)) ==> InBin(bounds, i, x, closedAbove)
  {
    if n == 0 then 0
    else if InBin(bounds, n - 1, x, closedAbove) then n - 1
    else LastBin(bounds, x, closedAbove, n - 1)
  }

  /** i_index and j_index: the scan keeps the last bin that holds x. */
  method BinIndex(bounds: seq<real>, x: real, closedAbove: bool) returns (index: nat)
    requires |bounds| >= 1
    ensures index == LastBin(bounds, x, closedAbove, |bounds| - 1)
  {
    index := 0;
    var i := 0;
    while i < |bounds| - 1
      invariant 0 <= i <= |bounds| - 1
      invariant (exists j :: 0 <= j < i && InBin(bounds, j, x, closedAbove)) ==> index == LastBin(bounds, x, closedAbove, i)
      invariant (forall j :: 0 <= j < i ==> !InBin(bounds, j, x, closedAbove)) ==> index == 0
    {
      if InBin(bounds, i, x, closedAbove) {
        index := i;
      }
      i := i + 1;
    }
  }

  predicate Increasing(bounds: seq<real>)
  {
    forall i, j :: 0 <= i < j < |bounds| ==> bounds[i] < bounds[j]
  }

  /** With increasing bounds the bins do not overlap, so the bin found is
      the one bin holding x whenever x lies inside the bounds. */
  lemma BinIsTheHoldingBin(bounds: seq<real>, x: real, closedAbove: bool, i: nat)
    requires Increasing(bounds) && i + 1 < |bounds| && InBin(bounds, i, x, closedAbove)
    ensures LastBin(bounds, x, closedAbove, |bounds| - 1) == i
  {
  }

  // ---------------------------------------------------------------------
  // The initial compartment and hypnozoite count

  /** The position of draw u in the table: the first entry not below u, or
      the table length when u exceeds every entry. */
  function Slot(cs: seq<real>, u: real): (m: nat)
    ensures m <= |cs|
    ensures forall j :: 0 <= j < m ==> cs[j] < u
    ensures m < |cs| ==> u <= cs[m]
  {
    if cs == [] then 0
    else if u <= cs[0] then 0
    else 1 + Slot(cs[1..], u)
  }

  /** The compartment of table position m (K_dim positions per
      compartment), the positions beyond the table counting as P. */
  function SlotComp(m: nat, kDim: nat): (c: Comp)
  {
    if m < kDim then S
    else if m < 2 * kDim then IPCR
    else if m < 3 * kDim then ILM
    else if m < 4 * kDim then ID
    else if m < 5 * kDim then T
    else P
  }

  /** The hypnozoite count of table position m; K_max beyond the table. */
  function SlotHyp(m: nat, kDim: nat): (h: int)
    requires kDim >= 1
    ensures m < N_H_COMP * kDim ==> 0 <= h < kDim
    ensures m >= N_H_COMP * kDim ==> h == kDim - 1
  {
    if m < kDim then m
    else if m < 2 * kDim then m - kDim
    else if m < 3 * kDim then m - 2 * kDim
    else if m < 4 * kDim then m - 3 * kDim
    else if m < 5 * kDim then m - 4 * kDim
    else if m < 6 * kDim then m - 5 * kDim
    else kDim - 1
  }

  /** What the scan over position m does when the draw lands there. */
  predicate Hits(cs: seq<real>, m: nat, u: real)
    requires m < |cs|
  {
    (m == 0 || cs[m - 1] < u) && u <= cs[m]
  }

  lemma HitIsSlot(cs: seq<real>, m: nat, u: real)
    requires Nondecreasing(cs) && m < |cs|
    ensures Hits(cs, m, u) <==> m == Slot(cs, u)
  {
  }

  function SetComp(f: Flags, c: Comp): (g: Flags)
    ensures forall d :: Holds(g, d) <==> Holds(f, d) || d == c
  {
    match c
    case S => f.(s := true)
    case IPCR => f.(ipcr := true)
    case ILM => f.(ilm := true)
    case ID => f.(id := true)
    case T => f.(t := true)
    case P => f.(p := true)
  }

  const NO_FLAGS: Flags := Flags(false, false, false, false, false, false)

  /** The state of the scans after positions below m, for a nondecreasing
      table: the flags and count of the draw's slot once it is passed, and
      nothing set before. */
  ghost predicate ScannedTo(cs: seq<real>, u: real, kDim: nat, m: nat, f: Flags, hyp: int)
    requires kDim >= 1
  {
    if Slot(cs, u) < m then f == FlagsOf(SlotComp(Slot(cs, u), kDim)) && hyp == SlotHyp(Slot(cs, u), kDim)
    else f == NO_FLAGS && hyp == 0
  }

  /** The initial state of an individual drawn from the normalised cumulative
      table cs of its cell with the uniform draw u: the scans over the S
      positions, over the other compartments' positions, and the case
      beyond the table (P with K_max batches). With a nondecreasing table
      exactly one compartment is set, the one whose position holds u, and
      the count lies in [0, K_max]. */
  method InitialState(cs: seq<real>, kMax: nat, u: real) returns (f: Flags, hyp: int)
    requires |cs| == N_H_COMP * (kMax + 1)
    ensures Nondecreasing(cs) ==>
      f == FlagsOf(SlotComp(Slot(cs, u), kMax + 1)) && hyp == SlotHyp(Slot(cs, u), kMax + 1)
    ensures Nondecreasing(cs) ==> ExactlyOne(f) && 0 <= hyp <= kMax
  {
    var kDim := kMax + 1;
    f, hyp := NO_FLAGS, 0;
    if u <= cs[0] {
      f := f.(s := true);
      hyp := 0;
    }
    if Nondecreasing(cs) { HitIsSlot(cs, 0, u); }
    var k := 1;
    while k < kDim
      invariant 1 <= k <= kDim
      invariant Nondecreasing(cs) ==> ScannedTo(cs, u, kDim, k, f, hyp)
    {
      f, hyp := ScanPosition(cs, u, kDim, 0, k, k, f, hyp);
      k := k + 1;
    }
    var c, base := 1, kDim;
    while c < N_H_COMP
      invariant 1 <= c <= N_H_COMP && base == c * kDim
      invariant Nondecreasing(cs) ==> ScannedTo(cs, u, kDim, base, f, hyp)
    {
      RowBounds(c, kDim);
      k := 0;
      while k < kDim
        invariant 0 <= k <= kDim
        invariant Nondecreasing(cs) ==> ScannedTo(cs, u, kDim, base + k, f, hyp)
      {
        f, hyp := ScanPosition(cs, u, kDim, c, k, base + k, f, hyp);
        k := k + 1;
      }
      c, base := c + 1, base + kDim;
    }
    if u > cs[N_H_COMP * kDim - 1] {
      f := f.(p := true);
      hyp := kMax;
    }
  }

  /** One step of the scans: position m = c*K_dim + k (m >= 1) sets
      compartment c's flag and count k when the draw lands there. Over a
      nondecreasing table the scan state advances past m. */
  method ScanPosition(cs: seq<real>, u: real, kDim: nat, c: nat, k: nat, m: nat, f: Flags, hyp: int)
    returns (f': Flags, hyp': int)
    requires c < N_H_COMP && k < kDim && m == c * kDim + k && 1 <= m < |cs|
    ensures Hits(cs, m, u) ==> f' == SetComp(f, IndexComp(c)) && hyp' == k
    ensures !Hits(cs, m, u) ==> f' == f && hyp' == hyp
    ensures Nondecreasing(cs) && ScannedTo(cs, u, kDim, m, f, hyp) ==> ScannedTo(cs, u, kDim, m + 1, f', hyp')
  {
    f', hyp' := f, hyp;
    if cs[m - 1] < u && u <= cs[m] {
      f' := SetComp(f, IndexComp(c));
      hyp' := k;
    }
    if Nondecreasing(cs) {
      HitIsSlot(cs, m, u);
      SlotOfCompartment(m, c, k, kDim);
    }
  }

  /** Compartment number c of the table (0 for S, ..., 5 for P). */
  function IndexComp(c: nat): (r: Comp)
  {
    if c == 0 then S else if c == 1 then IPCR else if c == 2 then ILM
    else if c == 3 then ID else if c == 4 then T else P
  }

  lemma SlotOfCompartment(m: nat, c: nat, k: nat, kDim: nat)
    requires c < N_H_COMP && k < kDim && m == c * kDim + k
    ensures SlotComp(m, kDim) == IndexComp(c) && SlotHyp(m, kDim) == k
  {
  }
}
