/** The population of the SimTime-expiry variant (model/white/Population.cpp):
    the death and birth pass of human_step, the choice of a maternal donor
    for each newborn, and the summary counters. Individuals are objects of
    WhiteIndividual.Individual held in a sequence, as the program holds them
    in a vector. */
module WhitePopulation {
  import opened Common
  import opened Compartments
  import opened Params
  import opened Detect
  import opened Dynamics
  import opened WhiteIndividual

  /** The difference the donor search starts from (1e10). */
  const HET_DIF_START: real := 10000000000.0

  /** The age limits of the under-5 and under-10 summaries, in days. */
  const U5_AGE: real := 1825.0
  const U10_AGE: real := 3650.0

  /** The length of a prevalence row: denominator, PCR, LM and clinical
      prevalence, hypnozoite positives and batches, and five incidence
      counts. */
  const N_PREV: nat := 11

  /** The number of human compartments. */
  const N_H_COMP: nat := 6

  function Abs(x: real): (r: real)
    ensures r >= 0.0 && (r == x || r == -x)
  {
    if x >= 0.0 then x else -x
  }

  // ---------------------------------------------------------------------
  // Deaths

  /** The individuals the death pass keeps: those whose death draw failed
      and whose age does not exceed age_max, in their original order. */
  function Survivors(ps: seq<Individual>, dies: seq<bool>, ageMax: real): (r: seq<Individual>)
    requires |dies| == |ps|
    reads ps
    ensures |r| <= |ps|
  {
    if ps == [] then []
    else
      var k := |ps| - 1;
      Survivors(ps[..k], dies[..k], ageMax) + (if !dies[k] && ps[k].age <= ageMax then [ps[k]] else [])
  }

  /** Every survivor was in the list before and is at most age_max old;
      nobody is removed when no death draw succeeds and nobody is too old. */
  lemma {:induction false} SurvivorsYoung(ps: seq<Individual>, dies: seq<bool>, ageMax: real)
    requires |dies| == |ps|
    ensures forall x :: x in Survivors(ps, dies, ageMax) ==> x in ps && x.age <= ageMax
    ensures (forall i :: 0 <= i < |ps| ==> !dies[i] && ps[i].age <= ageMax) ==> Survivors(ps, dies, ageMax) == ps
  {
    if ps != [] {
      var k := |ps| - 1;
      SurvivorsYoung(ps[..k], dies[..k], ageMax);
      assert ps[..k] + [ps[k]] == ps;
    }
  }

  // ---------------------------------------------------------------------
  // Rejection sampling

  /** A sequence of draws of which some is at most max, so that a rejection
      loop over it ends. */
  predicate Drawable(draws: seq<real>, max: real)
  {
    exists i :: 0 <= i < |draws| && draws[i] <= max
  }

  /** The index of the first draw that a rejection loop accepts. */
  function FirstAtMost(draws: seq<real>, max: real): (i: nat)
    requires Drawable(draws, max)
    ensures i < |draws| && draws[i] <= max
    ensures forall j :: 0 <= j < i ==> draws[j] > max
  {
    if draws[0] <= max then 0
    else
      assert Drawable(draws[1..], max) by {
        var j :| 0 <= j < |draws| && draws[j] <= max;
        assert draws[1..][j - 1] == draws[j];
      }
      1 + FirstAtMost(draws[1..], max)
  }

  /** do { x = draw } while (x > max): the first accepted draw. */
  method DrawAtMost(draws: seq<real>, max: real) returns (x: real)
    requires Drawable(draws, max)
    ensures x <= max
    ensures x == draws[FirstAtMost(draws, max)]
  {
    var i := 0;
    x := draws[0];
    while x > max
      invariant 0 <= i < |draws| && x == draws[i]
      invariant forall j :: 0 <= j < i ==> draws[j] > max
      decreases |draws| - i
    {
      ghost var w :| 0 <= w < |draws| && draws[w] <= max;
      assert w > i;
      i := i + 1;
      x := draws[i];
    }
  }

  // ---------------------------------------------------------------------
  // Maternal donor search

  /** What the donor search reads of one individual. */
  datatype Candidate = Candidate(pregAge: bool, zeta: real)

  function Candidates(ps: seq<Individual>): (cs: seq<Candidate>)
    reads ps
    ensures |cs| == |ps|
    ensures forall i :: 0 <= i < |ps| ==> cs[i] == Candidate(ps[i].pregAge, ps[i].zetaHet)
  {
    seq(|ps|, i reads ps requires 0 <= i < |ps| => Candidate(ps[i].pregAge, ps[i].zetaHet))
  }

  /** The state of the donor search: the index chosen so far and the
      difference it is compared against. */
  datatype Search = Search(best: Option<nat>, track: real)

  /** The donor search of the birth loop as the program writes it: a
      candidate is taken when |zeta - zeta_j| is below the tracked value,
      but the value then stored is the squared difference. */
  function SearchAsWritten(cs: seq<Candidate>, zeta: real): (s: Search)
    ensures s.best.Some? ==> s.best.value < |cs| && cs[s.best.value].pregAge
  {
    if cs == [] then Search(None, HET_DIF_START)
    else
      var k := |cs| - 1;
      var s0 := SearchAsWritten(cs[..k], zeta);
      if cs[k].pregAge && Abs(zeta - cs[k].zeta) < s0.track
      then Search(Some(k), (zeta - cs[k].zeta) * (zeta - cs[k].zeta))
      else s0
  }

  /** The donor search as intended: the tracked value is the absolute
      difference of the donor chosen so far. */
  function ClosestSearch(cs: seq<Candidate>, zeta: real): (s: Search)
    ensures s.best.Some? ==>
      s.best.value < |cs| && cs[s.best.value].pregAge && s.track == Abs(zeta - cs[s.best.value].zeta)
    ensures s.best.None? ==> s.track == HET_DIF_START
  {
    if cs == [] then Search(None, HET_DIF_START)
    else
      var k := |cs| - 1;
      var s0 := ClosestSearch(cs[..k], zeta);
      if cs[k].pregAge && Abs(zeta - cs[k].zeta) < s0.track
      then Search(Some(k), Abs(zeta - cs[k].zeta))
      else s0
  }

  /** The donor for a newborn of heterogeneity zeta, if any. */
  function Closest(cs: seq<Candidate>, zeta: real): (r: Option<nat>)
    ensures r.Some? ==> r.value < |cs|
  {
    ClosestSearch(cs, zeta).best
  }

  /** The chosen donor is a woman of child-bearing age whose heterogeneity
      is nearest to zeta, the first such in the list; there is no donor
      only when no such woman is nearer than 1e10. */
  lemma {:induction false} ClosestIsFirstNearest(cs: seq<Candidate>, zeta: real)
    ensures Closest(cs, zeta).Some? ==>
      var j := Closest(cs, zeta).value;
      cs[j].pregAge && Abs(zeta - cs[j].zeta) < HET_DIF_START &&
      (forall i :: 0 <= i < |cs| && cs[i].pregAge ==> Abs(zeta - cs[j].zeta) <= Abs(zeta - cs[i].zeta)) &&
      (forall i :: 0 <= i < j && cs[i].pregAge ==> Abs(zeta - cs[j].zeta) < Abs(zeta - cs[i].zeta))
    ensures Closest(cs, zeta).None? ==>
      forall i :: 0 <= i < |cs| && cs[i].pregAge ==> Abs(zeta - cs[i].zeta) >= HET_DIF_START
  {
    if cs != [] {
      var k := |cs| - 1;
      ClosestIsFirstNearest(cs[..k], zeta);
      assert forall i :: 0 <= i < k ==> cs[..k][i] == cs[i];
    }
  }

  /** Individuals who are not of child-bearing age, such as the newborns
      already added, never change the choice of donor. */
  lemma {:induction false} ClosestIgnoresNonDonors(cs: seq<Candidate>, extra: seq<Candidate>, zeta: real)
    requires forall i :: 0 <= i < |extra| ==> !extra[i].pregAge
    ensures ClosestSearch(cs + extra, zeta) == ClosestSearch(cs, zeta)
  {
    if extra == [] {
      assert cs + extra == cs;
    } else {
      var k := |extra| - 1;
      assert forall i :: 0 <= i < k ==> extra[..k][i] == extra[i];
      ClosestIgnoresNonDonors(cs, extra[..k], zeta);
      var all := cs + extra;
      assert all[..|all| - 1] == cs + extra[..k];
      assert all[|all| - 1] == extra[k] && !extra[k].pregAge;
      assert ClosestSearch(all, zeta) == ClosestSearch(all[..|all| - 1], zeta);
    }
  }

  /** The search as written misses a nearer donor: with zeta = 0.1 and
      donors at 0.6 and 0.4, the first sets the tracked value to 0.25, so
      0.4 (difference 0.3) is rejected although it is nearer. */
  lemma DonorSearchMissesNearer()
    ensures var cs := [Candidate(true, 0.6), Candidate(true, 0.4)];
      SearchAsWritten(cs, 0.1).best == Some(0) &&
      Closest(cs, 0.1) == Some(1) &&
      Abs(0.1 - cs[1].zeta) < Abs(0.1 - cs[0].zeta)
  {
    var cs := [Candidate(true, 0.6), Candidate(true, 0.4)];
    assert cs[..1] == [Candidate(true, 0.6)] && cs[..1][..0] == [];
    assert SearchAsWritten(cs[..1], 0.1) == Search(Some(0), 0.25);
    assert ClosestSearch(cs[..1], 0.1) == Search(Some(0), 0.5);
  }

  /** The maternal immunity given to a newborn: P_mat times the donor's
      level, or 0 without a donor. */
  function MatShare(pMat: real, a: real): (r: real)
    ensures pMat == 0.0 || a == 0.0 ==> r == 0.0
  {
    pMat * a
  }

  function DonorLevel(pMat: real, ps: seq<Individual>, zeta: real, clin: bool): (r: real)
    reads ps
    ensures Closest(Candidates(ps), zeta).None? ==> r == 0.0
    ensures Closest(Candidates(ps), zeta).Some? ==>
      var j := Closest(Candidates(ps), zeta).value;
      ps[j].pregAge && r == MatShare(pMat, if clin then ps[j].aClinMat else ps[j].aParMat)
  {
    match Closest(Candidates(ps), zeta)
    case None => 0.0
    case Some(j) => MatShare(pMat, if clin then ps[j].aClinMat else ps[j].aParMat)
  }

  /** The choice of donor does not show in human_step: ager runs before the
      births and leaves every woman of child-bearing age (older than 18
      years) with no maternal immunity, so the newborn receives 0 from the
      search as written and from the corrected one alike. */
  lemma DonorChoiceMasked(pMat: real, ps: seq<Individual>, zeta: real, clin: bool)
    requires forall i :: 0 <= i < |ps| && ps[i].pregAge ==> ps[i].aParMat == 0.0 && ps[i].aClinMat == 0.0
    ensures DonorLevel(pMat, ps, zeta, clin) == 0.0
    ensures SearchAsWritten(Candidates(ps), zeta).best.Some? ==>
      var j := SearchAsWritten(Candidates(ps), zeta).best.value;
      MatShare(pMat, if clin then ps[j].aClinMat else ps[j].aParMat) == 0.0
  {
  }

  // ---------------------------------------------------------------------
  // Births

  /** The draws for one newborn: the log-normal draws of the heterogeneity
      rejection loop, and the constructor's draws (gender, G6PD, CYP2D6,
      access scores). */
  datatype Newborn = Newborn(zetaDraws: seq<real>, male: bool, g6pd: bool, cyp: bool, zz: seq<real>)

  predicate NewbornDrawable(theta: Params, nb: Newborn)
  {
    |nb.zz| == N_INT && Drawable(nb.zetaDraws, theta.hetMax)
  }

  /** A newborn as the birth loop leaves it, with maternal immunity taken
      from the individuals ps present before the births. */
  ghost predicate NewbornOk(theta: Params, x: Individual, nb: Newborn, ps: seq<Individual>)
    requires NewbornDrawable(theta, nb)
    reads x, ps
  {
    x.age == 0.0 && x.comp == Some(S) && !x.pregAge &&
    x.zetaHet == nb.zetaDraws[FirstAtMost(nb.zetaDraws, theta.hetMax)] &&
    x.zetaHet <= theta.hetMax &&
    x.gender == (if nb.male then Male else Female) &&
    x.g6pdDeficient == nb.g6pd && x.cyp2d6Low == nb.cyp &&
    x.aParMat == DonorLevel(theta.pMat, ps, x.zetaHet, false) &&
    x.aClinMat == DonorLevel(theta.pMat, ps, x.zetaHet, true)
  }

  // ---------------------------------------------------------------------
  // Summary

  /** What the summary reads of one individual. */
  datatype View = View(comp: Option<Comp>, hyp: int, iNew: Bits, actTreat: bool, pqTreat: bool,
                       age: real, llin: bool, irs: bool, pregnant: bool,
                       pqOvertreat: bool, pqOvertreat9m: bool, aPar: real, aClin: real)

  function ViewOf(p: Individual): (v: View)
    reads p
  {
    View(p.comp, p.hyp, p.iNew, p.actTreat, p.pqTreat, p.age, p.llin, p.irs, p.pregnant,
         p.pqOvertreat, p.pqOvertreat9m, p.aPar, p.aClin)
  }

  function Views(ps: seq<Individual>): (vs: seq<View>)
    reads ps
    ensures |vs| == |ps|
    ensures forall i :: 0 <= i < |ps| ==> vs[i] == ViewOf(ps[i])
  {
    seq(|ps|, i reads ps requires 0 <= i < |ps| => ViewOf(ps[i]))
  }

  /** 1 when v is in compartment c. */
  function In(v: View, c: Comp): (r: int)
    ensures r == 1 <==> v.comp == Some(c)
    ensures 0 <= r <= 1
  {
    B2I(v.comp == Some(c))
  }

  function Zeros(n: nat): (z: seq<int>)
    ensures |z| == n && forall i :: 0 <= i < n ==> z[i] == 0
  {
    seq(n, i => 0)
  }

  function Add(a: seq<int>, b: seq<int>): (r: seq<int>)
    requires |a| == |b|
    ensures |r| == |a| && forall i :: 0 <= i < |a| ==> r[i] == a[i] + b[i]
  {
    seq(|a|, i requires 0 <= i < |a| => a[i] + b[i])
  }

  /** One individual's contribution to yH. */
  function CompRow(v: View): (r: seq<int>)
    ensures |r| == N_H_COMP
  {
    [In(v, S), In(v, IPCR), In(v, ILM), In(v, ID), In(v, T), In(v, P)]
  }

  /** One individual's contribution to a prevalence row. */
  function PrevRow(v: View): (r: seq<int>)
    ensures |r| == N_PREV
  {
    [1,
     In(v, IPCR) + In(v, ILM) + In(v, ID) + In(v, T),
     In(v, ILM) + In(v, ID) + In(v, T),
     In(v, ID) + In(v, T),
     if v.hyp > 0 then 1 else 0,
     if v.hyp > 0 then v.hyp else 0,
     B2I(InfectedNew(v.iNew, I_DETECT_PCR)),
     B2I(InfectedNew(v.iNew, I_DETECT_LM)),
     B2I(InfectedNew(v.iNew, I_DETECT_D)),
     B2I(v.actTreat),
     B2I(v.pqTreat)]
  }

  /** The age band of a prevalence row: everyone (None) or those younger
      than a limit. */
  predicate InBand(v: View, band: Option<real>)
  {
    band.None? || v.age < band.value
  }

  function CompCounts(vs: seq<View>): (r: seq<int>)
    ensures |r| == N_H_COMP
  {
    if vs == [] then Zeros(N_H_COMP)
    else Add(CompCounts(vs[..|vs| - 1]), CompRow(vs[|vs| - 1]))
  }

  function PrevCounts(vs: seq<View>, band: Option<real>): (r: seq<int>)
    ensures |r| == N_PREV
  {
    if vs == [] then Zeros(N_PREV)
    else if InBand(vs[|vs| - 1], band) then Add(PrevCounts(vs[..|vs| - 1], band), PrevRow(vs[|vs| - 1]))
    else PrevCounts(vs[..|vs| - 1], band)
  }

  /** The coverage and treatment totals of the summary. */
  datatype Tally = LLIN | IRS | ACT | PQ | Pregnant | Overtreat | Overtreat9m

  function Tallied(v: View, t: Tally): (b: bool)
  {
    match t
    case LLIN => v.llin
    case IRS => v.irs
    case ACT => v.actTreat
    case PQ => v.pqTreat
    case Pregnant => v.pregnant
    case Overtreat => v.pqOvertreat
    case Overtreat9m => v.pqOvertreat9m
  }

  function TallyCount(vs: seq<View>, t: Tally): (r: int)
  {
    if vs == [] then 0 else TallyCount(vs[..|vs| - 1], t) + B2I(Tallied(vs[|vs| - 1], t))
  }

  function ParSum(vs: seq<View>): real
  {
    if vs == [] then 0.0 else ParSum(vs[..|vs| - 1]) + vs[|vs| - 1].aPar
  }

  function ClinSum(vs: seq<View>): real
  {
    if vs == [] then 0.0 else ClinSum(vs[..|vs| - 1]) + vs[|vs| - 1].aClin
  }

  /** sum / n in double arithmetic: NaN for an empty population. */
  function Mean(sum: real, n: nat): (m: Double)
    ensures n == 0 ==> m == NaN
    ensures n > 0 ==> m.Fin? && m.v * n as real == sum
  {
    if n == 0 then NaN else Fin(sum / n as real)
  }

  /** The number of individuals in compartment c, counted directly. */
  function NumIn(vs: seq<View>, c: Comp): (r: nat)
    ensures r <= |vs|
  {
    if vs == [] then 0 else NumIn(vs[..|vs| - 1], c) + (if vs[|vs| - 1].comp == Some(c) then 1 else 0)
  }

  function CompIndex(c: Comp): (i: nat)
    ensures i < N_H_COMP
  {
    match c
    case S => 0
    case IPCR => 1
    case ILM => 2
    case ID => 3
    case T => 4
    case P => 5
  }

  function NumWithComp(vs: seq<View>): (r: nat)
    ensures r <= |vs|
  {
    if vs == [] then 0 else NumWithComp(vs[..|vs| - 1]) + (if vs[|vs| - 1].comp.Some? then 1 else 0)
  }

  /** yH[c] is the number of individuals whose compartment-c indicator is
      set. */
  lemma {:induction false} CompCountsCount(vs: seq<View>)
    ensures forall c: Comp :: CompCounts(vs)[CompIndex(c)] == NumIn(vs, c)
  {
    if vs != [] {
      CompCountsCount(vs[..|vs| - 1]);
    }
  }

  function RowSum6(r: seq<int>): int
    requires |r| == N_H_COMP
  {
    r[0] + r[1] + r[2] + r[3] + r[4] + r[5]
  }

  /** The six entries of yH add up to the number of individuals in a
      compartment. */
  lemma {:induction false} CompCountsTotal(vs: seq<View>)
    ensures RowSum6(CompCounts(vs)) == NumWithComp(vs)
  {
    if vs != [] {
      CompCountsTotal(vs[..|vs| - 1]);
      var v := vs[|vs| - 1];
      match v.comp
      case None =>
      case Some(c) => assert RowSum6(CompRow(v)) == 1 by { match c case S => case IPCR => case ILM => case ID => case T => case P => }
    }
  }

  lemma CompCountsStep(vs: seq<View>, n: nat)
    requires n < |vs|
    ensures CompCounts(vs[..n + 1]) == Add(CompCounts(vs[..n]), CompRow(vs[n]))
  {
    assert vs[..n + 1][..n] == vs[..n];
  }

  lemma PrevCountsStep(vs: seq<View>, n: nat, band: Option<real>)
    requires n < |vs|
    ensures PrevCounts(vs[..n + 1], band) ==
      if InBand(vs[n], band) then Add(PrevCounts(vs[..n], band), PrevRow(vs[n])) else PrevCounts(vs[..n], band)
  {
    assert vs[..n + 1][..n] == vs[..n];
  }

  lemma TallyCountStep(vs: seq<View>, n: nat)
    requires n < |vs|
    ensures forall t :: TallyCount(vs[..n + 1], t) == TallyCount(vs[..n], t) + B2I(Tallied(vs[n], t))
  {
    assert vs[..n + 1][..n] == vs[..n];
  }

  lemma SumsStep(vs: seq<View>, n: nat)
    requires n < |vs|
    ensures ParSum(vs[..n + 1]) == ParSum(vs[..n]) + vs[n].aPar
    ensures ClinSum(vs[..n + 1]) == ClinSum(vs[..n]) + vs[n].aClin
  {
    assert vs[..n + 1][..n] == vs[..n];
  }

  lemma SurvivorsStep(ps: seq<Individual>, dies: seq<bool>, i: nat, ageMax: real)
    requires |dies| == |ps| && i < |ps|
    ensures Survivors(ps[..i + 1], dies[..i + 1], ageMax) ==
      Survivors(ps[..i], dies[..i], ageMax) + (if !dies[i] && ps[i].age <= ageMax then [ps[i]] else [])
  {
    assert ps[..i + 1][..i] == ps[..i] && dies[..i + 1][..i] == dies[..i];
  }

  /** What the death pass keeps of the first i individuals, counted by index. */
  ghost function Kept(ps: seq<Individual>, dies: seq<bool>, ageMax: real, i: nat): (r: seq<Individual>)
    requires |dies| == |ps| && i <= |ps|
    reads ps
    ensures |r| <= i
  {
    if i == 0 then []
    else Kept(ps, dies, ageMax, i - 1) + (if !dies[i - 1] && ps[i - 1].age <= ageMax then [ps[i - 1]] else [])
  }

  /** Counting by index agrees with the survivors of the prefix. */
  lemma {:induction false} KeptPrefix(ps: seq<Individual>, dies: seq<bool>, ageMax: real, i: nat)
    requires |dies| == |ps| && i <= |ps|
    ensures Kept(ps, dies, ageMax, i) == Survivors(ps[..i], dies[..i], ageMax)
    decreases i
  {
    if i > 0 {
      KeptPrefix(ps, dies, ageMax, i - 1);
      SurvivorsStep(ps, dies, i - 1, ageMax);
    }
  }

  /** One visit of the death pass, given whether individual i goes: the
      survivors of the first i + 1 individuals, and the list after keeping
      or erasing individual i. */
  lemma DeathStep(ps: seq<Individual>, dies: seq<bool>, ageMax: real, i: nat,
                  kept: seq<Individual>, folk: seq<Individual>, gone: bool)
    requires |dies| == |ps| && i < |ps|
    requires folk == kept + ps[i..]
    ensures |kept| < |folk| && folk[|kept|] == ps[i]
    ensures gone ==> folk[..|kept|] + folk[|kept| + 1..] == kept + ps[i + 1..]
    ensures !gone ==> folk == (kept + [ps[i]]) + ps[i + 1..]
  {
    Erase(kept, ps[i..]);
    assert ps[i..][1..] == ps[i + 1..];
  }

  /** The death loop of human_step over a list: a visited individual is
      erased when its death draw succeeds or, failing that, when it is older
      than age_max; the index advances only past the kept ones. */
  method Cull(ps: seq<Individual>, dies: seq<bool>, ageMax: real) returns (folk: seq<Individual>, nDead: nat)
    requires |dies| == |ps|
    ensures folk == Survivors(ps, dies, ageMax)
    ensures nDead + |folk| == |ps|
  {
    folk := ps;
    var n := 0;
    nDead := 0;
    ghost var i := 0;
    ghost var kept: seq<Individual> := [];
    while n < |folk|
      invariant i == n + nDead <= |ps|
      invariant kept == Kept(ps, dies, ageMax, i) && |kept| == n
      invariant folk == kept + ps[i..]
      decreases |folk| - n
    {
      // The age test is reached only when the death draw fails.
      var gone := dies[n + nDead] || folk[n].age > ageMax;
      DeathStep(ps, dies, ageMax, i, kept, folk, gone);
      if gone {
        folk := folk[..n] + folk[n + 1..];
        nDead := nDead + 1;
      } else {
        kept := kept + [folk[n]];
        n := n + 1;
      }
      i := i + 1;
    }
    KeptPrefix(ps, dies, ageMax, i);
    assert ps[..i] == ps && dies[..i] == dies;
  }

  /** Every entry of a prevalence row is a count, so never negative. */
  lemma PrevRowNonNegative(v: View)
    ensures forall i :: 0 <= i < N_PREV ==> PrevRow(v)[i] >= 0
  {
  }

  /** The nesting of the prevalence counts: clinical <= LM <= PCR <= the
      denominator, hypnozoite positives <= the denominator and <= the
      number of batches. */
  lemma {:induction false} PrevCountsNested(vs: seq<View>, band: Option<real>)
    ensures var r := PrevCounts(vs, band);
      0 <= r[3] <= r[2] <= r[1] <= r[0] && 0 <= r[4] <= r[0] && r[4] <= r[5]
  {
    if vs != [] {
      PrevCountsNested(vs[..|vs| - 1], band);
    }
  }

  /** The denominator of the whole-population row is the population size. */
  lemma {:induction false} PrevCountsDenominator(vs: seq<View>)
    ensures PrevCounts(vs, None)[0] == |vs|
  {
    if vs != [] {
      PrevCountsDenominator(vs[..|vs| - 1]);
    }
  }

  /** A narrower age band never counts more: each under-5 entry is at most
      the under-10 entry, which is at most the whole-population entry. */
  lemma {:induction false} PrevCountsBandMonotone(vs: seq<View>, narrow: Option<real>, wide: Option<real>)
    requires wide.None? || (narrow.Some? && narrow.value <= wide.value)
    ensures forall i :: 0 <= i < N_PREV ==> PrevCounts(vs, narrow)[i] <= PrevCounts(vs, wide)[i]
  {
    if vs != [] {
      PrevCountsBandMonotone(vs[..|vs| - 1], narrow, wide);
      PrevRowNonNegative(vs[|vs| - 1]);
    }
  }

  /** A total counts at most everyone. */
  lemma {:induction false} TallyCountBounds(vs: seq<View>, t: Tally)
    ensures 0 <= TallyCount(vs, t) <= |vs|
  {
    if vs != [] {
      TallyCountBounds(vs[..|vs| - 1], t);
    }
  }

  class Population {
    var people: seq<Individual>
    const nPop: nat

    // summary outputs
    var yH: seq<int>
    var prevAll: seq<int>
    var prevU5: seq<int>
    var prevU10: seq<int>
    var llinCovT: int
    var irsCovT: int
    var actTreatT: int
    var pqTreatT: int
    var pregnantT: int
    var pqOvertreatT: int
    var pqOvertreat9mT: int
    var aParMeanT: Double
    var aClinMeanT: Double

    /** An empty population of intended size n. */
    constructor (n: nat)
      ensures nPop == n && people == []
    {
      nPop := n;
      people := [];
      yH, prevAll, prevU5, prevU10 := [], [], [], [];
      llinCovT, irsCovT, actTreatT, pqTreatT, pregnantT, pqOvertreatT, pqOvertreat9mT := 0, 0, 0, 0, 0, 0, 0;
      aParMeanT, aClinMeanT := NaN, NaN;
    }

    /** The death pass of human_step: walking through the list, an
        individual is removed when its death draw succeeds or, failing
        that, when it is older than age_max; dies holds one draw per
        individual visited. Returns N_dead. */
    method Deaths(theta: Params, dies: seq<bool>) returns (nDead: nat)
      requires |dies| == |people|
      modifies this`people
      ensures people == Survivors(old(people), dies, theta.ageMax)
      ensures nDead + |people| == |old(people)|
    {
      people, nDead := Cull(people, dies, theta.ageMax);
    }

    /** The birth loop of human_step: N_dead newborns, each made by
        MakeNewborn, appended in turn. */
    method Births(theta: Params, unset: int, nDead: nat, born: seq<Newborn>)
      requires WellFormed(theta)
      requires |born| == nDead
      requires forall n :: 0 <= n < |born| ==> NewbornDrawable(theta, born[n])
      modifies this`people
      ensures |people| == |old(people)| + nDead
      ensures people[..|old(people)|] == old(people)
      ensures forall j :: |old(people)| <= j < |people| ==>
        fresh(people[j]) && NewbornOk(theta, people[j], born[j - |old(people)|], old(people))
    {
      var ps := people;
      var folk := ps;
      var n := 0;
      while n < nDead
        invariant 0 <= n <= nDead
        invariant |folk| == |ps| + n && folk[..|ps|] == ps
        invariant forall j :: |ps| <= j < |folk| ==>
          fresh(folk[j]) && NewbornOk(theta, folk[j], born[j - |ps|], ps)
      {
        var hh := MakeNewborn(theta, unset, born[n], folk, ps);
        Append(folk, hh, |ps|);
        folk := folk + [hh];
        n := n + 1;
      }
      people := folk;
    }

    /** The compartment counts and prevalence rows of the individuals vs. */
    ghost predicate PrevalenceOf(vs: seq<View>)
      reads this`yH, this`prevAll, this`prevU5, this`prevU10
    {
      yH == CompCounts(vs) && prevAll == PrevCounts(vs, None) &&
      prevU5 == PrevCounts(vs, Some(U5_AGE)) && prevU10 == PrevCounts(vs, Some(U10_AGE))
    }

    /** The coverage and treatment totals of the individuals vs. */
    ghost predicate TalliesOf(vs: seq<View>)
      reads this`llinCovT, this`irsCovT, this`actTreatT, this`pqTreatT, this`pregnantT
      reads this`pqOvertreatT, this`pqOvertreat9mT
    {
      llinCovT == TallyCount(vs, LLIN) && irsCovT == TallyCount(vs, IRS) &&
      actTreatT == TallyCount(vs, ACT) && pqTreatT == TallyCount(vs, PQ) &&
      pregnantT == TallyCount(vs, Pregnant) && pqOvertreatT == TallyCount(vs, Overtreat) &&
      pqOvertreat9mT == TallyCount(vs, Overtreat9m)
    }

    /** The mean immunity levels of the individuals vs. */
    ghost predicate MeansOf(vs: seq<View>)
      reads this`aParMeanT, this`aClinMeanT
    {
      aParMeanT == Mean(ParSum(vs), |vs|) && aClinMeanT == Mean(ClinSum(vs), |vs|)
    }

    /** The summary: compartment counts, the prevalence and incidence rows
        for everyone, the under-5s and the under-10s, the coverage and
        treatment totals, and the mean immunity levels, over the first
        N_pop individuals. */
    method Summary()
      requires nPop <= |people|
      modifies this`yH, this`prevAll, this`prevU5, this`prevU10
      modifies this`llinCovT, this`irsCovT, this`actTreatT, this`pqTreatT, this`pregnantT
      modifies this`pqOvertreatT, this`pqOvertreat9mT, this`aParMeanT, this`aClinMeanT
      ensures PrevalenceOf(old(Views(people[..nPop])))
      ensures TalliesOf(old(Views(people[..nPop])))
      ensures MeansOf(old(Views(people[..nPop])))
    {
      var vs := Views(people[..nPop]);
      SetPrevalence(vs);
      SetTallies(vs);
      SetMeans(vs);
    }

    method SetPrevalence(vs: seq<View>)
      modifies this`yH, this`prevAll, this`prevU5, this`prevU10
      ensures PrevalenceOf(vs)
    {
      yH, prevAll, prevU5, prevU10 := Prevalence(vs);
    }

    method SetTallies(vs: seq<View>)
      modifies this`llinCovT, this`irsCovT, this`actTreatT, this`pqTreatT, this`pregnantT
      modifies this`pqOvertreatT, this`pqOvertreat9mT
      ensures TalliesOf(vs)
    {
      var llinT, irsT, actT, pqT, pregT, overT, over9mT := Tallies(vs);
      llinCovT, irsCovT, actTreatT, pqTreatT, pregnantT, pqOvertreatT, pqOvertreat9mT :=
        llinT, irsT, actT, pqT, pregT, overT, over9mT;
    }

    method SetMeans(vs: seq<View>)
      modifies this`aParMeanT, this`aClinMeanT
      ensures MeansOf(vs)
    {
      aParMeanT, aClinMeanT := Means(vs);
    }
  }

  lemma Erase<T>(kept: seq<T>, rest: seq<T>)
    requires |rest| > 0
    ensures (kept + rest)[..|kept|] + (kept + rest)[|kept| + 1..] == kept + rest[1..]
    ensures (kept + rest)[|kept|] == rest[0]
    ensures kept + rest == (kept + [rest[0]]) + rest[1..]
  {
    assert (kept + rest)[..|kept|] == kept;
    assert (kept + rest)[|kept| + 1..] == rest[1..];
  }

  lemma Append<T>(s: seq<T>, x: T, k: nat)
    requires k <= |s|
    ensures (s + [x])[..k] == s[..k]
    ensures forall j :: 0 <= j < |s| ==> (s + [x])[j] == s[j]
    ensures (s + [x])[|s|] == x
  {
    assert (s + [x])[..k] == s[..k];
  }

  /** The donor search of the birth loop (corrected): the first woman of
      child-bearing age in folk whose heterogeneity is nearest to zeta. */
  method FindDonor(folk: seq<Individual>, zeta: real) returns (best: Option<nat>)
    ensures best == Closest(Candidates(folk), zeta)
  {
    ghost var cs := Candidates(folk);
    best := None;
    var track := HET_DIF_START;
    var j := 0;
    while j < |folk|
      invariant 0 <= j <= |folk|
      invariant ClosestSearch(cs[..j], zeta) == Search(best, track)
    {
      assert cs[..j + 1][..j] == cs[..j];
      var p := folk[j];
      if p.pregAge && Abs(zeta - p.zetaHet) < track {
        best := Some(j);
        track := Abs(zeta - p.zetaHet);
      }
      j := j + 1;
    }
    assert cs[..j] == cs;
  }

  /** One newborn of the birth loop: age 0, the first heterogeneity draw not
      above het_max, put in S, and given P_mat times the maternal immunity
      of the nearest donor in folk, the individuals ps from before the
      births followed by the newborns so far. */
  method MakeNewborn(theta: Params, unset: int, nb: Newborn, folk: seq<Individual>, ghost ps: seq<Individual>)
    returns (hh: Individual)
    requires WellFormed(theta) && NewbornDrawable(theta, nb)
    requires |ps| <= |folk| && folk[..|ps|] == ps
    requires forall j :: |ps| <= j < |folk| ==> !folk[j].pregAge
    ensures fresh(hh) && NewbornOk(theta, hh, nb, ps)
  {
    var zeta := DrawAtMost(nb.zetaDraws, theta.hetMax);
    var donor := FindDonor(folk, zeta);
    NewbornsAreNotDonors(ps, folk, zeta);
    hh := Infant(theta, unset, nb, zeta);
    if donor.Some? {
      hh.aParMat := MatShare(theta.pMat, folk[donor.value].aParMat);
      hh.aClinMat := MatShare(theta.pMat, folk[donor.value].aClinMat);
    }
  }

  /** A new individual of age 0 and heterogeneity zeta from the draws nb,
      put in S. */
  method Infant(theta: Params, unset: int, nb: Newborn, zeta: real) returns (hh: Individual)
    requires WellFormed(theta) && |nb.zz| == N_INT
    ensures fresh(hh)
    ensures hh.age == 0.0 && hh.comp == Some(S) && !hh.pregAge && hh.zetaHet == zeta
    ensures hh.gender == (if nb.male then Male else Female)
    ensures hh.g6pdDeficient == nb.g6pd && hh.cyp2d6Low == nb.cyp
    ensures hh.aParMat == 0.0 && hh.aClinMat == 0.0
  {
    hh := new Individual(theta, 0.0, zeta, nb.male, nb.g6pd, nb.cyp, nb.zz, unset);
    hh.comp := Some(S);
  }

  /** During the birth loop the list is the earlier individuals followed by
      newborns, who are not of child-bearing age, so the donor found in the
      whole list is the donor among the earlier individuals. */
  lemma NewbornsAreNotDonors(ps: seq<Individual>, folk: seq<Individual>, zeta: real)
    requires |ps| <= |folk| && folk[..|ps|] == ps
    requires forall j :: |ps| <= j < |folk| ==> !folk[j].pregAge
    ensures Closest(Candidates(folk), zeta) == Closest(Candidates(ps), zeta)
    ensures forall j :: 0 <= j < |ps| ==> folk[j] == ps[j]
  {
    var extra := Candidates(folk[|ps|..]);
    assert Candidates(folk) == Candidates(ps) + extra;
    ClosestIgnoresNonDonors(Candidates(ps), extra, zeta);
  }

  /** The compartment counts and the three prevalence rows of the summary
      over the first nPop individuals. */
  method Prevalence(vs: seq<View>) returns (y: seq<int>, all: seq<int>, u5: seq<int>, u10: seq<int>)
    ensures y == CompCounts(vs) && all == PrevCounts(vs, None)
    ensures u5 == PrevCounts(vs, Some(U5_AGE)) && u10 == PrevCounts(vs, Some(U10_AGE))
  {
    y := Zeros(N_H_COMP);
    all, u5, u10 := Zeros(N_PREV), Zeros(N_PREV), Zeros(N_PREV);
    var n := 0;
    while n < |vs|
      invariant n <= |vs|
      invariant y == CompCounts(vs[..n]) && all == PrevCounts(vs[..n], None)
      invariant u5 == PrevCounts(vs[..n], Some(U5_AGE)) && u10 == PrevCounts(vs[..n], Some(U10_AGE))
    {
      CompCountsStep(vs, n);
      PrevCountsStep(vs, n, None);
      PrevCountsStep(vs, n, Some(U5_AGE));
      PrevCountsStep(vs, n, Some(U10_AGE));
      var v := vs[n];
      y := Add(y, CompRow(v));
      all := Add(all, PrevRow(v));
      if v.age < U5_AGE {
        u5 := Add(u5, PrevRow(v));
      }
      if v.age < U10_AGE {
        u10 := Add(u10, PrevRow(v));
      }
      n := n + 1;
    }
    assert vs[..n] == vs;
  }

  /** The coverage and treatment totals of the summary. */
  method Tallies(vs: seq<View>)
    returns (llinT: int, irsT: int, actT: int, pqT: int, pregT: int, overT: int, over9mT: int)
    ensures llinT == TallyCount(vs, LLIN) && irsT == TallyCount(vs, IRS) &&
      actT == TallyCount(vs, ACT) && pqT == TallyCount(vs, PQ) &&
      pregT == TallyCount(vs, Pregnant) && overT == TallyCount(vs, Overtreat) &&
      over9mT == TallyCount(vs, Overtreat9m)
  {
    llinT, irsT, actT, pqT, pregT, overT, over9mT := 0, 0, 0, 0, 0, 0, 0;
    var n := 0;
    while n < |vs|
      invariant n <= |vs|
      invariant llinT == TallyCount(vs[..n], LLIN) && irsT == TallyCount(vs[..n], IRS)
      invariant actT == TallyCount(vs[..n], ACT) && pqT == TallyCount(vs[..n], PQ)
      invariant pregT == TallyCount(vs[..n], Pregnant)
      invariant overT == TallyCount(vs[..n], Overtreat) && over9mT == TallyCount(vs[..n], Overtreat9m)
    {
      TallyCountStep(vs, n);
      var p := vs[n];
      llinT := llinT + B2I(p.llin);
      irsT := irsT + B2I(p.irs);
      actT := actT + B2I(p.actTreat);
      pqT := pqT + B2I(p.pqTreat);
      pregT := pregT + (if p.pregnant then 1 else 0);
      overT := overT + B2I(p.pqOvertreat);
      over9mT := over9mT + B2I(p.pqOvertreat9m);
      n := n + 1;
    }
    assert vs[..n] == vs;
  }

  /** The mean immunity levels of the summary. */
  method Means(vs: seq<View>) returns (parMean: Double, clinMean: Double)
    ensures parMean == Mean(ParSum(vs), |vs|) && clinMean == Mean(ClinSum(vs), |vs|)
  {
    var aPar, aClin := 0.0, 0.0;
    var n := 0;
    while n < |vs|
      invariant n <= |vs|
      invariant aPar == ParSum(vs[..n]) && aClin == ClinSum(vs[..n])
    {
      SumsStep(vs, n);
      aPar := aPar + vs[n].aPar;
      aClin := aClin + vs[n].aClin;
      n := n + 1;
    }
    assert vs[..n] == vs;
    parMean := Mean(aPar, |vs|);
    clinMean := Mean(aClin, |vs|);
  }
}
