/** Intervention distribution of the SimTime-expiry variant
    (model/white/Intervention.cpp): the schedule built from the coverage
    matrix, the inverse normal CDF phi_inv used for correlated coverage,
    vector-control deployment, the front-line treatment policy switches and
    the per-person rules of the mass drug administration (MDA), mass screen
    and treat (MSAT) and selective screen and treat (SSAT) campaigns.

    Dates are SimDate values in whole days from the origin. A person is
    reached by a round when its draw from a normal distribution centred on
    its access score zz_int is below the round's quantile; the standard
    normal part of that draw and every Bernoulli draw are inputs. */
module WhiteIntervention {
  import opened Common
  import opened Compartments
  import opened Params
  import opened Dynamics
  import opened WhiteIndividual

  // ---------------------------------------------------------------------
  // phi_inv

  /** A quantile of the normal distribution: -infinity, +infinity or a
      finite value. */
  datatype Quantile = MinusInfinity | PlusInfinity | At(q: real)

  // The coefficients of formula 26.2.23 of Abramowitz and Stegun.
  const C0: real := 2.515517
  const C1: real := 0.802853
  const C2: real := 0.010328
  const D0: real := 1.432788
  const D1: real := 0.189269
  const D2: real := 0.001308

  /** The rational approximation t - (c0 + c1 t + c2 t^2) / (1 + d0 t + d1 t^2 + d2 t^3). */
  function Rational(tt: real): real
  {
    tt - Div((C2 * tt + C1) * tt + C0, ((D2 * tt + D1) * tt + D0) * tt + 1.0)
  }

  /** phi_inv(pp, mu, sigma): a coverage outside [0, 1] is an error, 0 and 1
      give the infinite quantiles, and the interior uses the rational
      approximation, reflected below one half. sqrt and log are parameters. */
  function PhiInv(pp: real, mu: real, sigma: real, sqrtf: real -> real, logf: real -> real):
    (r: Result<Quantile>)
    ensures r.Fail? <==> pp < 0.0 || pp > 1.0
    ensures r == Ok(MinusInfinity) <==> pp == 0.0
    ensures r == Ok(PlusInfinity) <==> pp == 1.0
    ensures (r.Ok? && r.value.At?) <==> 0.0 < pp < 1.0
  {
    if pp < 0.0 || pp > 1.0 then Fail("bad value of pp (coverage) in phi_inv")
    else if pp == 0.0 then Ok(MinusInfinity)
    else if pp == 1.0 then Ok(PlusInfinity)
    else if pp < 0.5 then Ok(At(mu + sigma * -Rational(sqrtf(-2.0 * logf(pp)))))
    else Ok(At(mu + sigma * Rational(sqrtf(-2.0 * logf(1.0 - pp)))))
  }

  /** The approximation is antisymmetric about the mean: coverage 1 - p
      lies as far above mu as coverage p lies below it. */
  lemma PhiInvAntisymmetric(pp: real, mu: real, sigma: real, sqrtf: real -> real, logf: real -> real)
    requires 0.0 < pp < 0.5
    ensures PhiInv(1.0 - pp, mu, sigma, sqrtf, logf).value.q - mu ==
            -(PhiInv(pp, mu, sigma, sqrtf, logf).value.q - mu)
  {
    assert 1.0 - (1.0 - pp) == pp;
  }

  /** A draw reaches a round when it lies below the round's quantile. */
  predicate Reached(x: real, q: Quantile)
  {
    match q
    case MinusInfinity => false
    case PlusInfinity => true
    case At(v) => x < v
  }

  /** Coverage 0 reaches nobody, coverage 1 everybody, and a finite quantile
      reaches every draw below a reached draw. */
  lemma CoverageExtremes(mu: real, sigma: real, sqrtf: real -> real, logf: real -> real)
    ensures forall x :: !Reached(x, PhiInv(0.0, mu, sigma, sqrtf, logf).value)
    ensures forall x :: Reached(x, PhiInv(1.0, mu, sigma, sqrtf, logf).value)
    ensures forall x, y, q :: x <= y && Reached(y, q) ==> Reached(x, q)
  {
  }

  /** normal(mean, sd) as mean + sd * z for a standard normal z. */
  function NormalDraw(mean: real, sd: real, z: real): real
  {
    mean + sd * z
  }

  predicate Distinct(people: seq<Individual>)
  {
    forall i, j :: 0 <= i < j < |people| ==> people[i] != people[j]
  }

  // ---------------------------------------------------------------------
  // Vector-control deployment

  /** The state of a person's net or spraying: in use, its age, and the
      per-species repellency, killing and survival. */
  datatype Cover = Cover(on: bool, age: Double, r: seq<real>, d: seq<real>, s: seq<real>)

  function NetOf(p: Individual): Cover
    reads p`llin, p`llinAge, p`rLlin, p`dLlin, p`sLlin
  {
    Cover(p.llin, p.llinAge, p.rLlin, p.dLlin, p.sLlin)
  }

  function SprayOf(p: Individual): Cover
    reads p`irs, p`irsAge, p`rIrs, p`dIrs, p`sIrs
  {
    Cover(p.irs, p.irsAge, p.rIrs, p.dIrs, p.sIrs)
  }

  /** A fresh net or spraying with initial repellency r0 and killing d0. */
  function Fresh(r0: seq<real>, d0: seq<real>): (c: Cover)
    requires |r0| == |d0|
    ensures c.on && c.age == Fin(0.0) && c.r == r0 && c.d == d0
    ensures |c.s| == |r0| && forall g :: 0 <= g < |c.s| ==> c.s[g] + c.r[g] + c.d[g] == 1.0
  {
    Cover(true, Fin(0.0), r0, d0, Survival(r0, d0))
  }

  method GiveNet(theta: Params, p: Individual)
    requires WellFormed(theta)
    modifies p`llin, p`llinAge, p`rLlin, p`dLlin, p`sLlin
    ensures NetOf(p) == Fresh(theta.rLLIN0, theta.dLLIN0)
  {
    p.llin := true;
    p.llinAge := Fin(0.0);
    p.dLlin := theta.dLLIN0;
    p.rLlin := theta.rLLIN0;
    p.sLlin := Survival(p.rLlin, p.dLlin);
  }

  method Spray(theta: Params, p: Individual)
    requires WellFormed(theta)
    modifies p`irs, p`irsAge, p`rIrs, p`dIrs, p`sIrs
    ensures SprayOf(p) == Fresh(theta.rIRS0, theta.dIRS0)
  {
    p.irs := true;
    p.irsAge := Fin(0.0);
    p.dIrs := theta.dIRS0;
    p.rIrs := theta.rIRS0;
    p.sIrs := Survival(p.rIrs, p.dIrs);
  }

  /** The people an LLIN round reaches at quantile q get a fresh net;
      nobody else changes. */
  method GiveNets(theta: Params, people: seq<Individual>, q: Quantile, sig: real, z: seq<real>)
    requires WellFormed(theta) && |z| == |people| && Distinct(people)
    requires forall i :: 0 <= i < |people| ==> |people[i].zzInt| == N_INT
    modifies people`llin, people`llinAge, people`rLlin, people`dLlin, people`sLlin
    ensures forall i :: 0 <= i < |people| ==>
      NetOf(people[i]) == (if Reached(NormalDraw(people[i].zzInt[0], sig, z[i]), q)
                           then Fresh(theta.rLLIN0, theta.dLLIN0) else old(NetOf(people[i])))
  {
    var i := 0;
    while i < |people|
      invariant 0 <= i <= |people|
      invariant forall j :: 0 <= j < i ==>
        NetOf(people[j]) == (if Reached(NormalDraw(people[j].zzInt[0], sig, z[j]), q)
                             then Fresh(theta.rLLIN0, theta.dLLIN0) else old(NetOf(people[j])))
      invariant forall j :: i <= j < |people| ==> NetOf(people[j]) == old(NetOf(people[j]))
    {
      if Reached(NormalDraw(people[i].zzInt[0], sig, z[i]), q) {
        GiveNet(theta, people[i]);
      }
      i := i + 1;
    }
  }

  /** One LLIN round at coverage `cover`: everyone whose draw around
      zz_int[0] reaches the phi_inv quantile gets a fresh net; nobody else
      changes. A coverage outside [0, 1] fails before anyone is reached. */
  method NetRound(theta: Params, people: seq<Individual>, cover: real, sig: real, z: seq<real>,
                  sqrtf: real -> real, logf: real -> real) returns (ok: bool)
    requires WellFormed(theta) && |z| == |people| && Distinct(people)
    requires forall i :: 0 <= i < |people| ==> |people[i].zzInt| == N_INT
    modifies people`llin, people`llinAge, people`rLlin, people`dLlin, people`sLlin
    ensures ok <==> 0.0 <= cover <= 1.0
    ensures forall i :: 0 <= i < |people| ==>
      NetOf(people[i]) == (if ok && Reached(NormalDraw(people[i].zzInt[0], sig, z[i]),
                                           PhiInv(cover, 0.0, sqrtf(1.0 + sig * sig), sqrtf, logf).value)
                           then Fresh(theta.rLLIN0, theta.dLLIN0) else old(NetOf(people[i])))
  {
    var qq := PhiInv(cover, 0.0, sqrtf(1.0 + sig * sig), sqrtf, logf);
    if qq.Fail? {
      return false;
    }
    ok := true;
    GiveNets(theta, people, qq.value, sig, z);
  }

  /** The people an IRS round reaches at quantile q are sprayed; nobody
      else changes. */
  method SprayAll(theta: Params, people: seq<Individual>, q: Quantile, sig: real, z: seq<real>)
    requires WellFormed(theta) && |z| == |people| && Distinct(people)
    requires forall i :: 0 <= i < |people| ==> |people[i].zzInt| == N_INT
    modifies people`irs, people`irsAge, people`rIrs, people`dIrs, people`sIrs
    ensures forall i :: 0 <= i < |people| ==>
      SprayOf(people[i]) == (if Reached(NormalDraw(people[i].zzInt[1], sig, z[i]), q)
                             then Fresh(theta.rIRS0, theta.dIRS0) else old(SprayOf(people[i])))
  {
    var i := 0;
    while i < |people|
      invariant 0 <= i <= |people|
      invariant forall j :: 0 <= j < i ==>
        SprayOf(people[j]) == (if Reached(NormalDraw(people[j].zzInt[1], sig, z[j]), q)
                               then Fresh(theta.rIRS0, theta.dIRS0) else old(SprayOf(people[j])))
      invariant forall j :: i <= j < |people| ==> SprayOf(people[j]) == old(SprayOf(people[j]))
    {
      if Reached(NormalDraw(people[i].zzInt[1], sig, z[i]), q) {
        Spray(theta, people[i]);
      }
      i := i + 1;
    }
  }

  /** One IRS round: as an LLIN round, with the draw around zz_int[1]. */
  method SprayRound(theta: Params, people: seq<Individual>, cover: real, sig: real, z: seq<real>,
                    sqrtf: real -> real, logf: real -> real) returns (ok: bool)
    requires WellFormed(theta) && |z| == |people| && Distinct(people)
    requires forall i :: 0 <= i < |people| ==> |people[i].zzInt| == N_INT
    modifies people`irs, people`irsAge, people`rIrs, people`dIrs, people`sIrs
    ensures ok <==> 0.0 <= cover <= 1.0
    ensures forall i :: 0 <= i < |people| ==>
      SprayOf(people[i]) == (if ok && Reached(NormalDraw(people[i].zzInt[1], sig, z[i]),
                                             PhiInv(cover, 0.0, sqrtf(1.0 + sig * sig), sqrtf, logf).value)
                             then Fresh(theta.rIRS0, theta.dIRS0) else old(SprayOf(people[i])))
  {
    var qq := PhiInv(cover, 0.0, sqrtf(1.0 + sig * sig), sqrtf, logf);
    if qq.Fail? {
      return false;
    }
    ok := true;
    SprayAll(theta, people, qq.value, sig, z);
  }

  // ---------------------------------------------------------------------
  // Campaigns

  /** MDA with blood-stage drugs only, MDA with primaquine, MSAT with the
      given diagnostic (1 RDT, 2 PCR) and SSAT. */
  datatype Campaign = MassBS | MassPQ | MassScreen(mode: int) | SelfScreen

  /** The draws of one reached person: the blood-stage efficacy, primaquine
      availability and efficacy draws, and the diagnostic sensitivity and
      specificity draws. */
  datatype Draws = Draws(bsEff: bool, pqAvail: bool, pqEff: bool, sens: bool, spec: bool)

  /** What a campaign reads and writes of a person. */
  datatype Snap = Snap(comp: Option<Comp>, hyp: int, actTreat: bool, pqTreat: bool,
                       pqOvertreat: bool, pqOvertreat9m: bool, pqProph: int,
                       age: real, pregnant: bool, g6pdDeficient: bool, cyp2d6Low: bool,
                       tLastBS: Double)

  function SnapOf(p: Individual): Snap
    reads p`comp, p`hyp, p`actTreat, p`pqTreat, p`pqOvertreat, p`pqOvertreat9m, p`pqProph
    reads p`age, p`pregnant, p`g6pdDeficient, p`cyp2d6Low, p`tLastBS
  {
    Snap(p.comp, p.hyp, p.actTreat, p.pqTreat, p.pqOvertreat, p.pqOvertreat9m, p.pqProph,
         p.age, p.pregnant, p.g6pdDeficient, p.cyp2d6Low, p.tLastBS)
  }

  /** Does compartment c show up on the diagnostic: RDT (mode 1) detects
      I_LM, I_D and T, PCR (mode 2) also I_PCR, other modes nothing. */
  predicate Detectable(mode: int, c: Option<Comp>)
  {
    c.Some? && ((mode == 1 && c.value in {ILM, ID, T}) || (mode == 2 && c.value in {IPCR, ILM, ID, T}))
  }

  /** The screening result: MSAT_pos for MSAT, SSAT_pos for SSAT (positive on
      hypnozoites by sensitivity, without them by failed specificity), and
      no screen (always positive) for MDA. */
  predicate Positive(kind: Campaign, s: Snap, d: Draws)
  {
    match kind
    case MassScreen(mode) => Detectable(mode, s.comp) && d.sens
    case SelfScreen => (s.hyp > 0 && d.sens) || (s.hyp == 0 && !d.spec)
    case _ => true
  }

  /** PQ_treat: primaquine is given to a positive person when available and
      no exclusion rule applies; MDA with blood-stage drugs only gives none. */
  predicate Given(kind: Campaign, rg: PQRegimen, s: Snap, d: Draws)
  {
    kind != MassBS && Positive(kind, s, d) && d.pqAvail &&
    !PQVetoed(rg.g6pdRisk, s.g6pdDeficient, rg.pregRisk, s.pregnant, s.age, rg.lowAge)
  }

  /** PQ_effective: the efficacy draw succeeds and the CYP2D6 rule does not
      apply. */
  predicate Works(rg: PQRegimen, s: Snap, d: Draws)
  {
    d.pqEff && !(rg.cyp2d6Risk == 1 && s.cyp2d6Low)
  }

  /** Blood-stage drugs are given to everyone reached, except that MSAT
      gives them only to those who screen positive. */
  predicate GetsBS(kind: Campaign, s: Snap, d: Draws)
  {
    !kind.MassScreen? || Positive(kind, s, d)
  }

  /** A reached person after the campaign's per-person rules, with `now` the
      current time and rg the campaign's regimen. */
  function Treat(kind: Campaign, rg: PQRegimen, now: int, d: Draws, s: Snap): Snap
  {
    var given := Given(kind, rg, s, d);
    Outcome(s, given, given && Works(rg, s, d), GetsBS(kind, s, d) && d.bsEff, GetsBS(kind, s, d),
            now + FromDays(rg.pqProph))
  }

  /** The effect of the decisions on a person: primaquine given, and
      clearing hypnozoites with protection until proph; blood-stage drugs
      given, and acting. */
  function Outcome(s: Snap, given: bool, cleared: bool, acts: bool, bs: bool, proph: int): Snap
  {
    Snap(if acts && s.comp.Some? then Some(BloodStageAction(s.comp.value)) else s.comp,
         if cleared then 0 else s.hyp,
         s.actTreat || bs,
         s.pqTreat || given,
         s.pqOvertreat || (given && s.hyp == 0),
         s.pqOvertreat9m || (given && Above(s.tLastBS, 270.0)),
         if cleared then proph else s.pqProph,
         s.age, s.pregnant, s.g6pdDeficient, s.cyp2d6Low, s.tLastBS)
  }

  /** Campaigns keep a person in exactly one compartment: an effective
      blood-stage drug moves S, I_PCR and I_LM to P and I_D to T, and leaves
      T and P, and a person in no compartment, as they are. */
  lemma TreatCompartment(kind: Campaign, rg: PQRegimen, now: int, d: Draws, s: Snap)
    ensures var t := Treat(kind, rg, now, d, s);
      t.comp.Some? == s.comp.Some? &&
      (s.comp.Some? && GetsBS(kind, s, d) && d.bsEff ==> t.comp == Some(BloodStageAction(s.comp.value))) &&
      (!(GetsBS(kind, s, d) && d.bsEff) ==> t.comp == s.comp)
    ensures var t := Treat(kind, rg, now, d, s);
      s.comp.Some? ==> ExactlyOne(FlagsOf(t.comp.value))
  {
  }

  /** Primaquine never reaches an excluded person (G6PD deficiency under
      the G6PD rule, pregnancy under the pregnancy rule, age below the
      lower age), never comes with MDA of blood-stage drugs only, and under
      MSAT only reaches a person who screened positive. */
  lemma PrimaquineNeverExcluded(kind: Campaign, rg: PQRegimen, now: int, d: Draws, s: Snap)
    ensures var t := Treat(kind, rg, now, d, s);
      t.pqTreat && !s.pqTreat ==>
        kind != MassBS && d.pqAvail &&
        !(rg.g6pdRisk == 1 && s.g6pdDeficient) && !(rg.pregRisk == 1 && s.pregnant) && s.age >= rg.lowAge
    ensures var t := Treat(kind, rg, now, d, s);
      kind.MassScreen? && t.pqTreat && !s.pqTreat ==> Detectable(kind.mode, s.comp)
  {
  }

  /** Hypnozoites are cleared, and protection starts, only when primaquine
      is given and works; otherwise the count and protection are kept. The
      over-treatment flags are raised only when primaquine is given. */
  lemma HypnozoitesClearedOnlyByPrimaquine(kind: Campaign, rg: PQRegimen, now: int, d: Draws, s: Snap)
    ensures var t := Treat(kind, rg, now, d, s);
      (t.hyp != s.hyp || t.pqProph != s.pqProph) ==> Given(kind, rg, s, d) && Works(rg, s, d)
    ensures var t := Treat(kind, rg, now, d, s);
      Given(kind, rg, s, d) && Works(rg, s, d) ==> t.hyp == 0 && t.pqProph == now + FromDays(rg.pqProph)
    ensures var t := Treat(kind, rg, now, d, s);
      (t.pqOvertreat && !s.pqOvertreat) || (t.pqOvertreat9m && !s.pqOvertreat9m) ==>
        t.pqTreat && Given(kind, rg, s, d)
    ensures var t := Treat(kind, rg, now, d, s);
      0 <= s.hyp ==> 0 <= t.hyp <= s.hyp
  {
  }

  /** MSAT treats only people who screen positive: by RDT only those in
      I_LM, I_D or T, by PCR also those in I_PCR. */
  lemma ScreenAndTreat(mode: int, rg: PQRegimen, now: int, d: Draws, s: Snap)
    ensures var t := Treat(MassScreen(mode), rg, now, d, s);
      (t.actTreat && !s.actTreat) || t.comp != s.comp || (t.pqTreat && !s.pqTreat) ==>
        d.sens && s.comp.Some? &&
        (mode == 1 ==> s.comp.value in {ILM, ID, T}) &&
        (mode == 2 ==> s.comp.value in {IPCR, ILM, ID, T}) &&
        (mode == 1 || mode == 2)
  {
  }

  /** The screen of a reached person: MSAT_pos or SSAT_pos, true for MDA. */
  method Screen(kind: Campaign, d: Draws, p: Individual) returns (pos: bool)
    ensures pos == Positive(kind, SnapOf(p), d)
  {
    pos := false;
    match kind {
      case MassScreen(mode) =>
        if mode == 1 && p.comp.Some? && p.comp.value in {ILM, ID, T} && d.sens {
          pos := true;
        }
        if mode == 2 && p.comp.Some? && p.comp.value in {IPCR, ILM, ID, T} && d.sens {
          pos := true;
        }
      case SelfScreen =>
        if p.hyp > 0 && d.sens {
          pos := true;
        }
        if p.hyp == 0 && !d.spec {
          pos := true;
        }
      case _ =>
        pos := true;
    }
  }

  /** PQ_treat and PQ_effective of a reached person with screen result pos:
      availability, the G6PD, pregnancy and age exclusions, then efficacy
      and the CYP2D6 rule. */
  method Primaquine(kind: Campaign, rg: PQRegimen, d: Draws, pos: bool, p: Individual)
    returns (given: bool, works: bool)
    requires pos == Positive(kind, SnapOf(p), d)
    ensures given == Given(kind, rg, SnapOf(p), d) && works == Works(rg, SnapOf(p), d)
  {
    given := false;
    if kind != MassBS && pos && d.pqAvail {
      given := true;
    }
    if rg.g6pdRisk == 1 && p.IsG6PDDeficient() {
      given := false;
    }
    if rg.pregRisk == 1 && p.pregnant {
      given := false;
    }
    if p.age < rg.lowAge {
      given := false;
    }
    works := d.pqEff;
    if rg.cyp2d6Risk == 1 && p.HasLowCYP2D6Action() {
      works := false;
    }
  }

  /** The per-person actions once the decisions are taken: the
      over-treatment checks against the hypnozoite count and the time since
      the last blood-stage treatment, the blood-stage action when bs is
      given and acts, and the primaquine action when it is given and works,
      with protection until proph. */
  method Apply(given: bool, works: bool, bs: bool, acts: bool, proph: int, p: Individual)
    modifies p`comp, p`hyp, p`actTreat, p`pqTreat, p`pqOvertreat, p`pqOvertreat9m, p`pqProph
    ensures p.comp == (if bs && acts && old(p.comp).Some? then Some(BloodStageAction(old(p.comp).value)) else old(p.comp))
    ensures p.hyp == (if given && works then 0 else old(p.hyp))
    ensures p.pqOvertreat == (old(p.pqOvertreat) || (given && old(p.hyp) == 0))
    ensures p.pqOvertreat9m == (old(p.pqOvertreat9m) || (given && Above(old(p.tLastBS), 270.0)))
    ensures p.actTreat == (old(p.actTreat) || bs)
    ensures p.pqTreat == (old(p.pqTreat) || given)
    ensures p.pqProph == (if given && works then proph else old(p.pqProph))
  {
    var over := p.pqOvertreat || (given && p.hyp == 0);
    var over9m := p.pqOvertreat9m || (given && Above(p.tLastBS, 270.0));
    var act := p.actTreat || bs;
    var comp := if bs && acts && p.comp.Some? then Some(BloodStageAction(p.comp.value)) else p.comp;
    var hyp := if given && works then 0 else p.hyp;
    var proph' := if given && works then proph else p.pqProph;
    var pqTreat := p.pqTreat || given;
    p.comp, p.hyp, p.actTreat, p.pqTreat := comp, hyp, act, pqTreat;
    p.pqOvertreat, p.pqOvertreat9m, p.pqProph := over, over9m, proph';
  }

  /** The per-person rules of one campaign in the program's order: the
      screen and the primaquine decisions, then the actions. */
  method TreatPerson(kind: Campaign, rg: PQRegimen, now: int, d: Draws, p: Individual)
    modifies p`comp, p`hyp, p`actTreat, p`pqTreat, p`pqOvertreat, p`pqOvertreat9m, p`pqProph
    ensures SnapOf(p) == Treat(kind, rg, now, d, old(SnapOf(p)))
  {
    var pos := Screen(kind, d, p);
    var given, works := Primaquine(kind, rg, d, pos, p);
    var bs := !kind.MassScreen? || pos;
    Apply(given, works, bs, d.bsEff, now + FromDays(rg.pqProph), p);
  }

  /** The people a campaign reaches at quantile q are treated by the
      per-person rules; nobody else changes. */
  method TreatAll(kind: Campaign, rg: PQRegimen, slot: nat, q: Quantile, sig: real, now: int,
                  people: seq<Individual>, z: seq<real>, draws: seq<Draws>)
    requires slot < N_INT && |z| == |people| && |draws| == |people| && Distinct(people)
    requires forall i :: 0 <= i < |people| ==> |people[i].zzInt| == N_INT
    modifies people`comp, people`hyp, people`actTreat, people`pqTreat, people`pqOvertreat
    modifies people`pqOvertreat9m, people`pqProph
    ensures forall i :: 0 <= i < |people| ==>
      SnapOf(people[i]) == (if Reached(NormalDraw(people[i].zzInt[slot], sig, z[i]), q)
                            then Treat(kind, rg, now, draws[i], old(SnapOf(people[i])))
                            else old(SnapOf(people[i])))
  {
    var i := 0;
    while i < |people|
      invariant 0 <= i <= |people|
      invariant forall j :: 0 <= j < i ==>
        SnapOf(people[j]) == (if Reached(NormalDraw(people[j].zzInt[slot], sig, z[j]), q)
                              then Treat(kind, rg, now, draws[j], old(SnapOf(people[j])))
                              else old(SnapOf(people[j])))
      invariant forall j :: i <= j < |people| ==> SnapOf(people[j]) == old(SnapOf(people[j]))
    {
      if Reached(NormalDraw(people[i].zzInt[slot], sig, z[i]), q) {
        TreatPerson(kind, rg, now, draws[i], people[i]);
      }
      i := i + 1;
    }
  }

  /** One campaign round with regimen rg at coverage rg.bsCover: everyone
      whose draw around zz_int[slot] reaches the phi_inv quantile is treated
      by the per-person rules; nobody else changes. A coverage outside
      [0, 1] fails before anyone is reached. */
  method CampaignRound(kind: Campaign, rg: PQRegimen, slot: nat, sig: real, now: int,
                       people: seq<Individual>, z: seq<real>, draws: seq<Draws>,
                       sqrtf: real -> real, logf: real -> real) returns (ok: bool)
    requires slot < N_INT && |z| == |people| && |draws| == |people| && Distinct(people)
    requires forall i :: 0 <= i < |people| ==> |people[i].zzInt| == N_INT
    modifies people`comp, people`hyp, people`actTreat, people`pqTreat, people`pqOvertreat
    modifies people`pqOvertreat9m, people`pqProph
    ensures ok <==> 0.0 <= rg.bsCover <= 1.0
    ensures forall i :: 0 <= i < |people| ==>
      SnapOf(people[i]) == (if ok && Reached(NormalDraw(people[i].zzInt[slot], sig, z[i]),
                                             PhiInv(rg.bsCover, 0.0, sqrtf(1.0 + sig * sig), sqrtf, logf).value)
                            then Treat(kind, rg, now, draws[i], old(SnapOf(people[i])))
                            else old(SnapOf(people[i])))
  {
    var qq := PhiInv(rg.bsCover, 0.0, sqrtf(1.0 + sig * sig), sqrtf, logf);
    if qq.Fail? {
      return false;
    }
    ok := true;
    TreatAll(kind, rg, slot, qq.value, sig, now, people, z, draws);
  }
}
