/** The model parameters (the `Params` structure of the P. vivax model) that
    the modelled operations read or, for the treatment-policy switches,
    update. The parameter header itself is not part of this model, so
    compile-time constants of that header (K_max, H_track, N_spec, t_step)
    appear here as fields. */
module Params {

  /** Number of campaign interventions with an access score (zz_int). */
  const N_INT: nat := 6

  /** Blood-stage drug regimen: coverage, efficacy and prophylaxis duration. */
  datatype BSRegimen = BSRegimen(bsCover: real, bsEff: real, bsProph: real)

  /** Blood-stage plus primaquine regimen with its exclusion rules. */
  datatype PQRegimen = PQRegimen(
    bsCover: real, bsEff: real, bsProph: real,
    pqAvail: real, pqEff: real, pqProph: real,
    g6pdRisk: int, cyp2d6Risk: int, pregRisk: int, lowAge: real)

  datatype Params = Params(
    // lagged exposure and hypnozoites
    hTrack: nat, ff: real, kMax: nat, gammaL: real,
    // time step: in days as a real, and as a SimTime span
    tStep: real, oneTS: int,
    // immunity
    aParDecay: real, aClinDecay: real, matDecay: real, uPar: real, uClin: real,
    pMat: real,
    // immunity-dependent progression (Hill functions)
    phiLMMin: real, phiLMMax: real, aLM50pcInv: real, kLM: real,
    phiDMin: real, phiDMax: real, aD50pcInv: real, kD: real,
    dPCRMin: real, dPCRMax: real, aPCR50pcInv: real, kPCR: real,
    // recovery rates
    rLM: real, rD: real, rT: real, rP: real,
    // front-line treatment actually in use
    treatBScover: real, treatBSeff: real, treatPQavail: real,
    // front-line treatment policies
    bsTreat: BSRegimen, bsTreatBase: BSRegimen, pqTreat: PQRegimen,
    // campaigns
    mdaBS: BSRegimen, mdaPQ: PQRegimen,
    msatPQ: PQRegimen, msatRdtPcr: int, msatSens: real,
    ssatPQ: PQRegimen, ssatSens: real, ssatSpec: real,
    // vector control, one entry per mosquito species
    nSpec: nat, rLLINNet: seq<real>, psiBed: seq<real>, psiIndoors: seq<real>,
    pPYRDecay: real, pIRSDecay: real,
    rLLIN0: seq<real>, dLLIN0: seq<real>, rIRS0: seq<real>, dIRS0: seq<real>,
    // demography
    ageMax: real, hetMax: real)

  /** Shapes the program relies on: at least one lagged slot, and one entry
      per species in every per-species parameter. */
  predicate WellFormed(theta: Params)
  {
    theta.hTrack >= 1 &&
    |theta.rLLINNet| == theta.nSpec && |theta.psiBed| == theta.nSpec &&
    |theta.psiIndoors| == theta.nSpec &&
    |theta.rLLIN0| == theta.nSpec && |theta.dLLIN0| == theta.nSpec &&
    |theta.rIRS0| == theta.nSpec && |theta.dIRS0| == theta.nSpec
  }

  /** Exclusion rules for primaquine: G6PD deficiency, pregnancy, young age. */
  function PQVetoed(g6pdRisk: int, g6pdDeficient: bool, pregRisk: int, pregnant: bool,
                    age: real, lowAge: real): (v: bool)
    ensures !v ==> !(g6pdRisk == 1 && g6pdDeficient) && !(pregRisk == 1 && pregnant) && age >= lowAge
    ensures v ==> (g6pdRisk == 1 && g6pdDeficient) || (pregRisk == 1 && pregnant) || age < lowAge
  {
    (g6pdRisk == 1 && g6pdDeficient) || (pregRisk == 1 && pregnant) || age < lowAge
  }

  /** Without the G6PD and pregnancy exclusions nobody at or above the
      low-age limit is vetoed; a veto, once it applies, is kept by a higher
      low-age limit, by a younger age and by switching an exclusion on. */
  lemma PQVetoRules(g6pdRisk: int, g6pdDeficient: bool, pregRisk: int, pregnant: bool,
                    age: real, lowAge: real, age2: real, lowAge2: real)
    ensures g6pdRisk != 1 && pregRisk != 1 && age >= lowAge ==>
      !PQVetoed(g6pdRisk, g6pdDeficient, pregRisk, pregnant, age, lowAge)
    ensures PQVetoed(g6pdRisk, g6pdDeficient, pregRisk, pregnant, age, lowAge) &&
            age2 <= age && lowAge <= lowAge2 ==>
      PQVetoed(g6pdRisk, g6pdDeficient, pregRisk, pregnant, age2, lowAge2)
    ensures PQVetoed(0, g6pdDeficient, 0, pregnant, age, lowAge) ==>
      PQVetoed(1, g6pdDeficient, 1, pregnant, age, lowAge)
  {
  }

  /** SimTime::fromDays on a real number of days: truncation toward zero. */
  function FromDays(days: real): (t: int)
    ensures days >= 0.0 ==> t as real <= days < t as real + 1.0
    ensures days < 0.0 ==> t as real - 1.0 < days <= t as real
  {
    if days >= 0.0 then days.Floor else -((-days).Floor)
  }
}
