/** One human of the P. vivax individual-based model, SimTime-expiry variant
    (model/white/Individual.cpp, model/white/Individual.hpp).

    Time is SimTime in whole days: `now` is the start of the current step
    (sim::ts0()). The outcome of state_mover is described field by field by
    the move table of Dynamics (Moved, NewBits, Treated, Infected,
    ResetsLastBS), by its functions for primaquine, hypnozoites and
    boosting, and by BoostExpiry below; Stepped collects them. */
module WhiteIndividual {
  import opened Common
  import opened Compartments
  import opened Params
  import opened Detect
  import opened Dynamics
  import Hazard

  /** The end of the refractory period after state_mover: it restarts, u
      days from now, with a boost. */
  function BoostExpiry(expiry: int, boost: bool, infected: bool, now: int, u: real): (e: int)
  {
    if infected && boost then now + FromDays(u) else expiry
  }

  /** Immune boosting in one step: a level gains exactly 1.0, and its
      refractory period restarts, only when boosting was on and an infection
      happened. */
  lemma BoostStep(a: real, boost: bool, infected: bool, expiry: int, now: int, u: real)
    ensures BoostedLevel(a, boost, infected) == a + 1.0 <==> infected && boost
    ensures BoostedLevel(a, boost, infected) == a <==> !(infected && boost)
    ensures !(infected && boost) ==> BoostExpiry(expiry, boost, infected, now, u) == expiry
    ensures u >= 0.0 && infected && boost ==> BoostExpiry(expiry, boost, infected, now, u) >= now
  {
  }

  /** The values of an individual's hypnozoite, prophylaxis, immunity and
      blood-stage clocks at the start of a step. */
  datatype Before = Before(hyp: int, pqProph: int, aPar: real, aClin: real,
                           aParBoost: bool, aClinBoost: bool, aParExpiry: int, aClinExpiry: int,
                           tLastBS: Double)

  class Individual {
    // demography
    var age: real
    var zetaHet: real
    var gender: Gender
    var g6pdDeficient: bool
    var cyp2d6Low: bool
    var pregAge: bool
    var pregnant: bool
    var pregTimer: real

    // lagged forces of infection (bites, relapses)
    var lamBiteTrack: seq<real>
    var lamRelTrack: seq<real>

    // The compartment indicators S, I_PCR, I_LM, I_D, T, P held as the one
    // compartment whose indicator is set; None while none is set, as after
    // construction.
    var comp: Option<Comp>

    // hypnozoite batches
    var hyp: int

    // events of the current step
    var iNew: Bits
    var actTreat: bool
    var pqTreat: bool
    var pqEffective: bool
    var pqOvertreat: bool
    var pqOvertreat9m: bool

    // immunity and boosting
    var aPar: real
    var aClin: real
    var aParMat: real
    var aClinMat: real
    var aParBoost: bool
    var aClinBoost: bool
    var aParExpiry: int
    var aClinExpiry: int
    var pqProph: int

    // intervention access scores
    var zzInt: seq<real>

    // vector control
    var llin: bool
    var llinAge: Double
    var rLlin: seq<real>
    var dLlin: seq<real>
    var sLlin: seq<real>
    var irs: bool
    var irsAge: Double
    var rIrs: seq<real>
    var dIrs: seq<real>
    var sIrs: seq<real>
    var tLastBS: Double
    var zVC: seq<real>
    var yVC: seq<real>
    var wVC: seq<real>

    /** The six compartment indicators: exactly one is set once the
        individual is in a compartment, none before. */
    function Flags(): (f: Compartments.Flags)
      reads this`comp
      ensures comp.Some? ==> ExactlyOne(f) && Holds(f, comp.value)
      ensures comp.None? ==> Count(f) == 0
    {
      match comp
      case None => Compartments.Flags(false, false, false, false, false, false)
      case Some(c) => FlagsOf(c)
    }

    /** Both lagged buffers hold H_track values. */
    ghost predicate TracksValid(theta: Params)
      reads this`lamBiteTrack, this`lamRelTrack
    {
      |lamBiteTrack| == theta.hTrack && |lamRelTrack| == theta.hTrack
    }

    /** Every per-species vector-control array has one entry per species. */
    ghost predicate VCValid(theta: Params)
      reads this`rLlin, this`dLlin, this`sLlin, this`rIrs, this`dIrs, this`sIrs
      reads this`zVC, this`yVC, this`wVC
    {
      |rLlin| == theta.nSpec && |dLlin| == theta.nSpec && |sLlin| == theta.nSpec &&
      |rIrs| == theta.nSpec && |dIrs| == theta.nSpec && |sIrs| == theta.nSpec &&
      |zVC| == theta.nSpec && |yVC| == theta.nSpec && |wVC| == theta.nSpec
    }

    ghost predicate Valid(theta: Params)
      reads this
    {
      WellFormed(theta) && TracksValid(theta) && VCValid(theta) && |zzInt| == N_INT && hyp >= 0
    }

    /** is_G6PD_deficient: the flag fixed at birth. */
    function IsG6PDDeficient(): (b: bool)
      reads this`g6pdDeficient
      ensures b <==> g6pdDeficient
    {
      g6pdDeficient
    }

    /** has_low_cyp2d6_action: the flag fixed at birth. */
    function HasLowCYP2D6Action(): (b: bool)
      reads this`cyp2d6Low
      ensures b <==> cyp2d6Low
    {
      cyp2d6Low
    }

    /** infected_new for this individual's events of the current step. */
    function IsInfectedNew(d: Bits): (b: bool)
      reads this`iNew
      ensures (iNew == 0 || d == 0) ==> !b
      ensures d != 0 && iNew & d == d ==> b
      ensures b ==> iNew & d != 0
    {
      InfectedNew(iNew, d)
    }

    /** A newborn or initial individual of age a and exposure heterogeneity
        zeta. male, g6pdDraw and cypDraw are the Bernoulli draws for gender
        (probability 1/2), G6PD deficiency (G6PDProbability) and low CYP2D6
        action; zz are the intervention access scores. The program leaves
        the immunity expiry dates and PQ_proph to SimTime's default, given
        here as unset. No compartment indicator is set. The initial
        repellency, killing and survival of nets and spraying are NaN in the
        program and 0 here; they are read only after a deployment has set
        them. */
    constructor (theta: Params, a: real, zeta: real, male: bool, g6pdDraw: bool,
                 cypDraw: bool, zz: seq<real>, unset: int)
      requires WellFormed(theta) && |zz| == N_INT
      ensures Valid(theta)
      ensures age == a && zetaHet == zeta
      ensures gender == (if male then Male else Female)
      ensures g6pdDeficient == g6pdDraw && cyp2d6Low == cypDraw
      ensures !pregAge && !pregnant && pregTimer == 0.0
      ensures lamBiteTrack == Const(theta.hTrack, 0.0) && lamRelTrack == Const(theta.hTrack, 0.0)
      ensures comp == None && Count(Flags()) == 0
      ensures hyp == 0 && iNew == 0
      ensures !actTreat && !pqTreat && !pqEffective && !pqOvertreat && !pqOvertreat9m
      ensures aPar == 0.0 && aClin == 0.0 && aParMat == 0.0 && aClinMat == 0.0
      ensures !aParBoost && !aClinBoost
      ensures aParExpiry == unset && aClinExpiry == unset && pqProph == unset
      ensures zzInt == zz
      ensures !llin && llinAge == NaN && !irs && irsAge == NaN && tLastBS == PosInf
      ensures wVC == Const(theta.nSpec, 1.0) && yVC == Const(theta.nSpec, 1.0)
      ensures zVC == Const(theta.nSpec, 0.0)
    {
      age, zetaHet := a, zeta;
      pregAge, pregnant, pregTimer := false, false, 0.0;
      lamBiteTrack := Const(theta.hTrack, 0.0);
      lamRelTrack := Const(theta.hTrack, 0.0);
      comp := None;
      hyp := 0;
      iNew := 0;
      actTreat, pqTreat, pqEffective, pqOvertreat, pqOvertreat9m := false, false, false, false, false;
      aPar, aClin, aParMat, aClinMat := 0.0, 0.0, 0.0, 0.0;
      aParBoost, aClinBoost := false, false;
      aParExpiry, aClinExpiry, pqProph := unset, unset, unset;
      llin, llinAge, irs, irsAge := false, NaN, false, NaN;
      tLastBS := PosInf;
      gender := if male then Male else Female;
      g6pdDeficient := g6pdDraw;
      cyp2d6Low := cypDraw;
      zzInt := zz;
      rLlin, dLlin, sLlin := Const(theta.nSpec, 0.0), Const(theta.nSpec, 0.0), Const(theta.nSpec, 0.0);
      rIrs, dIrs, sIrs := Const(theta.nSpec, 0.0), Const(theta.nSpec, 0.0), Const(theta.nSpec, 0.0);
      wVC, yVC, zVC := Const(theta.nSpec, 1.0), Const(theta.nSpec, 1.0), Const(theta.nSpec, 0.0);
    }

    /** The event indicators are all clear, as at the start of state_mover. */
    predicate EventsCleared()
      reads this`iNew, this`actTreat, this`pqTreat, this`pqEffective, this`pqOvertreat,
        this`pqOvertreat9m
    {
      iNew == 0 && !actTreat && !pqTreat && !pqEffective && !pqOvertreat && !pqOvertreat9m
    }

    /** The new state after state_mover for an individual that was in
        compartment oc (None: no indicator set), had the earlier values b and
        made move k of the competing-hazards sample; nothing moves when the
        exit draw fails or no indicator is set. Compartment, detection
        channels and treatment follow the move table; primaquine,
        hypnozoites and immunity follow PQGiven, PQWorks, HypAfter,
        BoostedLevel and BoostExpiry. */
    ghost predicate Stepped(theta: Params, now: int, oc: Option<Comp>, k: nat, d: MoveDraws, b: Before)
      reads this
    {
      var ex := oc.Some? && d.exits;
      var c := if oc.Some? then oc.value else S;
      var inf := Infected(c, ex, k);
      var given := PQGiven(theta.pqTreat, c, ex, k, d.pqAvail, g6pdDeficient, pregnant, age);
      var works := PQWorks(theta.pqTreat, c, ex, k, d.pqAvail, d.pqEff, cyp2d6Low);
      comp == (if oc.Some? then Some(Moved(c, ex, k, d.bsEff)) else None) &&
      iNew == NewBits(c, ex, k) && actTreat == Treated(c, ex, k) &&
      pqTreat == given && pqEffective == works && !pqOvertreat && !pqOvertreat9m &&
      hyp == HypAfter(b.hyp, inf, d.bite, PQProtected(b.pqProph, now), given && works) &&
      pqProph == (if given && works then MaxInt(b.pqProph, now + theta.oneTS) else b.pqProph) &&
      aPar == BoostedLevel(b.aPar, b.aParBoost, inf) &&
      aClin == BoostedLevel(b.aClin, b.aClinBoost, inf) &&
      aParBoost == (b.aParBoost && !inf) && aClinBoost == (b.aClinBoost && !inf) &&
      aParExpiry == BoostExpiry(b.aParExpiry, b.aParBoost, inf, now, theta.uPar) &&
      aClinExpiry == BoostExpiry(b.aClinExpiry, b.aClinBoost, inf, now, theta.uClin) &&
      tLastBS == (if ResetsLastBS(c, ex, k) then Fin(0.0) else b.tLastBS)
    }

    /** The values state_mover starts from besides the compartment. */
    function Earlier(): (b: Before)
      reads this`hyp, this`pqProph, this`aPar, this`aClin, this`aParBoost, this`aClinBoost
      reads this`aParExpiry, this`aClinExpiry, this`tLastBS
    {
      Before(hyp, pqProph, aPar, aClin, aParBoost, aClinBoost, aParExpiry, aClinExpiry, tLastBS)
    }

    /** do_new_inf: a bite-borne infection adds one hypnozoite batch unless the
        individual is PQ-protected; a boost-enabled immunity gains 1 and
        starts its refractory period. */
    method DoNewInf(theta: Params, now: int, bite: bool)
      modifies this`hyp, this`aPar, this`aParExpiry, this`aParBoost
      modifies this`aClin, this`aClinExpiry, this`aClinBoost
      ensures hyp == HypAfter(old(hyp), true, bite, PQProtected(pqProph, now), false)
      ensures aPar == BoostedLevel(old(aPar), old(aParBoost), true) && !aParBoost
      ensures aClin == BoostedLevel(old(aClin), old(aClinBoost), true) && !aClinBoost
      ensures aParExpiry == BoostExpiry(old(aParExpiry), old(aParBoost), true, now, theta.uPar)
      ensures aClinExpiry == BoostExpiry(old(aClinExpiry), old(aClinBoost), true, now, theta.uClin)
    {
      if bite {
        if pqProph < now {
          hyp := hyp + 1;
        }
      }
      if aParBoost {
        aPar := aPar + 1.0;
        aParExpiry := now + FromDays(theta.uPar);
        aParBoost := false;
      }
      if aClinBoost {
        aClin := aClin + 1.0;
        aClinExpiry := now + FromDays(theta.uClin);
        aClinBoost := false;
      }
    }

    /** do_pq_admin: when primaquine is available it is given unless an
        exclusion applies; it works only if isEffective, the efficacy draw
        succeeds and the CYP2D6 rule does not apply; given and working, it
        clears all hypnozoites and protects until at least the next step.
        It is called with both indicators clear, as state_mover leaves them. */
    method DoPQAdmin(theta: Params, now: int, isEffective: bool, avail: bool, effDraw: bool)
      requires !pqTreat && !pqEffective
      modifies this`pqTreat, this`pqEffective, this`hyp, this`pqProph
      ensures var rg := theta.pqTreat;
        pqTreat == (avail && !PQVetoed(rg.g6pdRisk, g6pdDeficient, rg.pregRisk, pregnant, age, rg.lowAge))
      ensures pqEffective == (avail && effDraw && isEffective &&
                              !(theta.pqTreat.cyp2d6Risk == 1 && cyp2d6Low))
      ensures hyp == (if pqTreat && pqEffective then 0 else old(hyp))
      ensures pqProph == (if pqTreat && pqEffective then MaxInt(old(pqProph), now + theta.oneTS)
                          else old(pqProph))
    {
      if avail {
        pqTreat := true;
        if theta.pqTreat.g6pdRisk == 1 && IsG6PDDeficient() {
          pqTreat := false;
        }
        if theta.pqTreat.pregRisk == 1 && pregnant {
          pqTreat := false;
        }
        if age < theta.pqTreat.lowAge {
          pqTreat := false;
        }
        pqEffective := false;
        if effDraw {
          pqEffective := isEffective;
        }
        if theta.pqTreat.cyp2d6Risk == 1 && HasLowCYP2D6Action() {
          pqEffective := false;
        }
        if pqTreat && pqEffective {
          hyp := 0;
          pqProph := MaxInt(pqProph, now + theta.oneTS);
        }
      }
    }

    /** Competing-hazards sample of state_mover from compartment c. */
    method SampleMove(c: Comp, theta: Params, pow: (real, real) -> real,
                      lamH: real, u: real) returns (k: nat)
      ensures k == MoveOf(c, theta, pow, aPar, aParMat, aClin, aClinMat, lamH, u)
    {
      var w := Weights(c, theta, PhiLM(theta, pow, aPar, aParMat),
                       PhiD(theta, pow, aClin, aClinMat), RPCR(theta, pow, aPar, aParMat), lamH);
      k := Sample(w, u);
    }

    /** Clear the indicators for new events. */
    method ClearEvents()
      modifies this`iNew, this`actTreat, this`pqTreat, this`pqEffective
      modifies this`pqOvertreat, this`pqOvertreat9m
      ensures EventsCleared()
    {
      iNew := 0;
      actTreat := false;
      pqTreat := false;
      pqEffective := false;
      pqOvertreat := false;
      pqOvertreat9m := false;
    }

    /** state_mover: one stochastic step of the compartment model. The lagged
        buffers shift by one and the event indicators are cleared; an
        individual in a compartment then makes the move k drawn with the
        lagged force of infection, or stays when the exit draw fails, as
        Stepped describes. */
    method StateMover(theta: Params, pow: (real, real) -> real, now: int, lamBite: real,
                      d: MoveDraws)
      requires TracksValid(theta) && theta.hTrack >= 1
      modifies this`lamBiteTrack, this`lamRelTrack, this`comp
      modifies this`hyp, this`iNew, this`actTreat, this`pqTreat, this`pqEffective
      modifies this`pqOvertreat, this`pqOvertreat9m
      modifies this`aPar, this`aClin, this`aParBoost, this`aClinBoost
      modifies this`aParExpiry, this`aClinExpiry, this`pqProph, this`tLastBS
      ensures TracksValid(theta)
      ensures lamBiteTrack == Shifted(old(lamBiteTrack), lamBite)
      ensures lamRelTrack == Shifted(old(lamRelTrack), RelapseRate(old(hyp), theta.ff))
      ensures var lamH := LagAfterShift(old(lamBiteTrack), lamBite)
                        + LagAfterShift(old(lamRelTrack), RelapseRate(old(hyp), theta.ff));
        Stepped(theta, now, old(comp),
                old(if comp.Some? && d.exits
                    then MoveOf(comp.value, theta, pow, aPar, aParMat, aClin, aClinMat, lamH, d.u)
                    else 0), d,
                old(Before(hyp, pqProph, aPar, aClin, aParBoost, aClinBoost, aParExpiry, aClinExpiry,
                           tLastBS)))
    {
      ghost var oc, b := comp, Earlier();
      var lamRel := RelapseRate(hyp, theta.ff);
      // The move is drawn with the lagged force of infection that the shift
      // below brings to the front of the buffers.
      var lamHLag := LagAfterShift(lamBiteTrack, lamBite) + LagAfterShift(lamRelTrack, lamRel);
      var k := 0;
      if d.exits && comp.Some? {
        k := SampleMove(comp.value, theta, pow, lamHLag, d.u);
      }
      ShiftTracks(theta, lamBite, lamRel);
      Move(theta, now, k, d, oc, b);
    }

    /** The compartment part of state_mover: the event indicators are
        cleared, then the exit is made when the exit draw succeeded;
        otherwise nothing else changes. oc and b are the compartment and the
        earlier values on entry. */
    method Move(theta: Params, now: int, k: nat, d: MoveDraws, ghost oc: Option<Comp>, ghost b: Before)
      requires comp == oc && Earlier() == b
      requires d.exits && comp.Some? ==> k < NumMoves(comp.value)
      modifies this`comp
      modifies this`hyp, this`iNew, this`actTreat, this`pqTreat, this`pqEffective
      modifies this`pqOvertreat, this`pqOvertreat9m
      modifies this`aPar, this`aClin, this`aParBoost, this`aClinBoost
      modifies this`aParExpiry, this`aClinExpiry, this`pqProph, this`tLastBS
      ensures Stepped(theta, now, oc, k, d, b)
    {
      ClearEvents();
      if d.exits && comp.Some? {
        Exit(theta, now, k, d);
      } else {
        Stays(this, theta, now, oc, k, d, b);
      }
    }

    /** The lag buffers of state_mover: the new bite rate and the relapse
        rate lamRel enter at the back, and the fronts drop out. */
    method ShiftTracks(theta: Params, lamBite: real, lamRel: real)
      requires TracksValid(theta) && theta.hTrack >= 1
      modifies this`lamBiteTrack, this`lamRelTrack
      ensures TracksValid(theta)
      ensures lamBiteTrack == Shifted(old(lamBiteTrack), lamBite)
      ensures lamRelTrack == Shifted(old(lamRelTrack), lamRel)
    {
      lamBiteTrack := lamBiteTrack[1..] + [lamBite];
      lamRelTrack := lamRelTrack[1..] + [lamRel];
    }

    /** The exit from the current compartment once the exit draw succeeded. */
    method Exit(theta: Params, now: int, k: nat, d: MoveDraws)
      requires d.exits && comp.Some? && EventsCleared() && k < NumMoves(comp.value)
      modifies this`comp
      modifies this`hyp, this`iNew, this`actTreat, this`pqTreat, this`pqEffective
      modifies this`aPar, this`aClin, this`aParBoost, this`aClinBoost
      modifies this`aParExpiry, this`aClinExpiry, this`pqProph, this`tLastBS
      ensures Stepped(theta, now, old(comp), k, d,
        old(Before(hyp, pqProph, aPar, aClin, aParBoost, aClinBoost, aParExpiry, aClinExpiry,
                   tLastBS)))
    {
      var c := comp.value;
      ghost var b := Earlier();
      if c in {S, IPCR, ILM} {
        ExitInfectable(theta, now, k, d);
      } else {
        ExitRecovery(c, theta, now, k, d);
        RecoveryStep(this, c, theta, now, k, d, b);
      }
    }

    /** The exit from S, I_PCR or I_LM. */
    method ExitInfectable(theta: Params, now: int, k: nat, d: MoveDraws)
      requires d.exits && comp.Some? && comp.value in {S, IPCR, ILM} && EventsCleared() && k < NumMoves(comp.value)
      modifies this`comp
      modifies this`hyp, this`iNew, this`actTreat, this`pqTreat, this`pqEffective
      modifies this`aPar, this`aClin, this`aParBoost, this`aClinBoost
      modifies this`aParExpiry, this`aClinExpiry, this`pqProph, this`tLastBS
      ensures Stepped(theta, now, old(comp), k, d,
        old(Before(hyp, pqProph, aPar, aClin, aParBoost, aClinBoost, aParExpiry, aClinExpiry,
                   tLastBS)))
    {
      var c := comp.value;
      ghost var b := Earlier();
      if c == S {
        ExitS(theta, now, k, d);
        SusceptibleStep(this, theta, now, k, d, b);
      } else if c == IPCR {
        ExitIPCR(theta, now, k, d);
        InfectedStep(this, IPCR, theta, now, k, d, b);
      } else {
        ExitILM(theta, now, k, d);
        InfectedStep(this, ILM, theta, now, k, d, b);
      }
    }

    /** The S branch of state_mover after the exit draw succeeded. */
    method ExitS(theta: Params, now: int, k: nat, d: MoveDraws)
      requires d.exits && comp == Some(S) && EventsCleared() && k < NumMoves(S)
      modifies this`comp
      modifies this`hyp, this`iNew, this`actTreat, this`pqTreat, this`pqEffective
      modifies this`aPar, this`aClin, this`aParBoost, this`aClinBoost
      modifies this`aParExpiry, this`aClinExpiry, this`pqProph, this`tLastBS
      ensures comp == Some(Moved(S, true, k, d.bsEff)) && actTreat == Treated(S, true, k)
      ensures iNew == NewBits(S, true, k)
      ensures pqTreat == PQGiven(theta.pqTreat, S, true, k, d.pqAvail, g6pdDeficient, pregnant, age)
      ensures !pqEffective && pqProph == old(pqProph) && tLastBS == Fin(0.0)
      ensures hyp == HypAfter(old(hyp), true, d.bite, PQProtected(old(pqProph), now), false)
      ensures aPar == BoostedLevel(old(aPar), old(aParBoost), true)
      ensures aClin == BoostedLevel(old(aClin), old(aClinBoost), true)
      ensures aParBoost == (old(aParBoost) && !(true)) && aClinBoost == (old(aClinBoost) && !(true))
      ensures aParExpiry == BoostExpiry(old(aParExpiry), old(aParBoost), true, now, theta.uPar)
      ensures aClinExpiry == BoostExpiry(old(aClinExpiry), old(aClinBoost), true, now, theta.uClin)
    {
      DoNewInf(theta, now, d.bite);
      tLastBS := Fin(0.0);
      SusceptibleMove(theta, now, k, d);
    }

    /** The moves of state_mover out of S after do_new_inf: to I_PCR, I_LM
        or I_D, or treatment (k == 3), which moves to T only when the
        blood-stage drug works and offers primaquine that cannot work. */
    method SusceptibleMove(theta: Params, now: int, k: nat, d: MoveDraws)
      requires k < NumMoves(S)
      requires comp == Some(S) && iNew == 0 && !actTreat && !pqTreat && !pqEffective
      modifies this`comp, this`iNew, this`actTreat
      modifies this`hyp, this`pqTreat, this`pqEffective, this`pqProph
      ensures comp == Some(Moved(S, true, k, d.bsEff))
      ensures iNew == NewBits(S, true, k) && actTreat == Treated(S, true, k)
      ensures pqTreat == PQGiven(theta.pqTreat, S, true, k, d.pqAvail, g6pdDeficient, pregnant, age)
      ensures !pqEffective && hyp == old(hyp) && pqProph == old(pqProph)
    {
      if k == 0 {
        iNew := I_DETECT_PCR;
        comp := Some(IPCR);
      } else if k == 1 {
        iNew := I_DETECT_PCR | I_DETECT_LM;
        comp := Some(ILM);
      } else if k == 2 {
        iNew := I_DETECT_PCR | I_DETECT_LM | I_DETECT_D;
        comp := Some(ID);
      } else if k == 3 {
        actTreat := true;
        if d.bsEff {
          comp := Some(T);
        }
        iNew := I_DETECT_PCR | I_DETECT_LM | I_DETECT_D;
        DoPQAdmin(theta, now, false, d.pqAvail, d.pqEff);
      }
    }

    /** The I_PCR branch of state_mover after the exit draw succeeded. */
    method ExitIPCR(theta: Params, now: int, k: nat, d: MoveDraws)
      requires d.exits && comp == Some(IPCR) && EventsCleared() && k < NumMoves(IPCR)
      modifies this`comp
      modifies this`hyp, this`iNew, this`actTreat, this`pqTreat, this`pqEffective
      modifies this`aPar, this`aClin, this`aParBoost, this`aClinBoost
      modifies this`aParExpiry, this`aClinExpiry, this`pqProph, this`tLastBS
      ensures comp == Some(Moved(IPCR, true, k, d.bsEff)) && actTreat == Treated(IPCR, true, k)
      ensures iNew == NewBits(IPCR, true, k)
      ensures tLastBS == if Treated(IPCR, true, k) then Fin(0.0) else old(tLastBS)
      ensures pqTreat == PQGiven(theta.pqTreat, IPCR, true, k, d.pqAvail, g6pdDeficient, pregnant, age)
      ensures pqEffective == PQWorks(theta.pqTreat, IPCR, true, k, d.pqAvail, d.pqEff, cyp2d6Low)
      ensures hyp == HypAfter(old(hyp), k >= 1, d.bite, PQProtected(old(pqProph), now),
                              pqTreat && pqEffective)
      ensures pqProph == (if pqTreat && pqEffective then MaxInt(old(pqProph), now + theta.oneTS)
                          else old(pqProph))
      ensures aPar == BoostedLevel(old(aPar), old(aParBoost), k >= 1)
      ensures aClin == BoostedLevel(old(aClin), old(aClinBoost), k >= 1)
      ensures aParBoost == (old(aParBoost) && !(k >= 1)) && aClinBoost == (old(aClinBoost) && !(k >= 1))
      ensures aParExpiry == BoostExpiry(old(aParExpiry), old(aParBoost), k >= 1, now, theta.uPar)
      ensures aClinExpiry == BoostExpiry(old(aClinExpiry), old(aClinBoost), k >= 1, now, theta.uClin)
    {
      if k == 0 {
        comp := Some(S);
      } else {
        DoNewInf(theta, now, d.bite);
        InfectedMove(IPCR, theta, now, k, d);
      }
    }

    /** The moves of state_mover from I_PCR or I_LM after do_new_inf: the
        stay, the moves to I_LM and I_D, and treatment (k == 4 from I_PCR,
        k == 3 from I_LM) which moves to T only when the blood-stage drug
        works and then offers primaquine. */
    method InfectedMove(c: Comp, theta: Params, now: int, k: nat, d: MoveDraws)
      requires c in {IPCR, ILM} && 1 <= k < NumMoves(c)
      requires comp == Some(c) && iNew == 0 && !actTreat && !pqTreat && !pqEffective
      modifies this`comp, this`iNew, this`actTreat, this`tLastBS
      modifies this`hyp, this`pqTreat, this`pqEffective, this`pqProph
      ensures comp == Some(Moved(c, true, k, d.bsEff))
      ensures iNew == NewBits(c, true, k) && actTreat == Treated(c, true, k)
      ensures tLastBS == if Treated(c, true, k) then Fin(0.0) else old(tLastBS)
      ensures pqTreat == PQGiven(theta.pqTreat, c, true, k, d.pqAvail, g6pdDeficient, pregnant, age)
      ensures pqEffective == PQWorks(theta.pqTreat, c, true, k, d.pqAvail, d.pqEff, cyp2d6Low)
      ensures hyp == (if pqTreat && pqEffective then 0 else old(hyp))
      ensures pqProph == (if pqTreat && pqEffective then MaxInt(old(pqProph), now + theta.oneTS)
                          else old(pqProph))
    {
      var treat := if c == IPCR then 4 else 3;
      if k == 1 {
      } else if k == 2 && c == IPCR {
        iNew := I_DETECT_PCR | I_DETECT_LM;
        comp := Some(ILM);
      } else if k == treat - 1 {
        iNew := I_DETECT_PCR | I_DETECT_LM | I_DETECT_D;
        comp := Some(ID);
      } else {
        actTreat := true;
        if d.bsEff {
          comp := Some(T);
        }
        iNew := I_DETECT_PCR | I_DETECT_LM | I_DETECT_D;
        tLastBS := Fin(0.0);
        DoPQAdmin(theta, now, true, d.pqAvail, d.pqEff);
      }
    }

    /** The I_LM branch of state_mover after the exit draw succeeded. */
    method ExitILM(theta: Params, now: int, k: nat, d: MoveDraws)
      requires d.exits && comp == Some(ILM) && EventsCleared() && k < NumMoves(ILM)
      modifies this`comp
      modifies this`hyp, this`iNew, this`actTreat, this`pqTreat, this`pqEffective
      modifies this`aPar, this`aClin, this`aParBoost, this`aClinBoost
      modifies this`aParExpiry, this`aClinExpiry, this`pqProph, this`tLastBS
      ensures comp == Some(Moved(ILM, true, k, d.bsEff)) && actTreat == Treated(ILM, true, k)
      ensures iNew == NewBits(ILM, true, k)
      ensures tLastBS == if Treated(ILM, true, k) then Fin(0.0) else old(tLastBS)
      ensures pqTreat == PQGiven(theta.pqTreat, ILM, true, k, d.pqAvail, g6pdDeficient, pregnant, age)
      ensures pqEffective == PQWorks(theta.pqTreat, ILM, true, k, d.pqAvail, d.pqEff, cyp2d6Low)
      ensures hyp == HypAfter(old(hyp), k >= 1, d.bite, PQProtected(old(pqProph), now),
                              pqTreat && pqEffective)
      ensures pqProph == (if pqTreat && pqEffective then MaxInt(old(pqProph), now + theta.oneTS)
                          else old(pqProph))
      ensures aPar == BoostedLevel(old(aPar), old(aParBoost), k >= 1)
      ensures aClin == BoostedLevel(old(aClin), old(aClinBoost), k >= 1)
      ensures aParBoost == (old(aParBoost) && !(k >= 1)) && aClinBoost == (old(aClinBoost) && !(k >= 1))
      ensures aParExpiry == BoostExpiry(old(aParExpiry), old(aParBoost), k >= 1, now, theta.uPar)
      ensures aClinExpiry == BoostExpiry(old(aClinExpiry), old(aClinBoost), k >= 1, now, theta.uClin)
    {
      if k == 0 {
        comp := Some(IPCR);
      } else {
        DoNewInf(theta, now, d.bite);
        InfectedMove(ILM, theta, now, k, d);
      }
    }

    /** The I_D, T and P branches of state_mover after the exit draw
        succeeded: move 0 is recovery, move 1 a new infection. */
    method ExitRecovery(c: Comp, theta: Params, now: int, k: nat, d: MoveDraws)
      requires c in {ID, T, P}
      requires d.exits && comp == Some(c) && EventsCleared() && k < NumMoves(c)
      modifies this`comp
      modifies this`hyp, this`aPar, this`aClin, this`aParBoost, this`aClinBoost
      modifies this`aParExpiry, this`aClinExpiry
      ensures comp == Some(Moved(c, true, k, d.bsEff))
      ensures hyp == HypAfter(old(hyp), k == 1, d.bite, PQProtected(pqProph, now), false)
      ensures aPar == BoostedLevel(old(aPar), old(aParBoost), k == 1)
      ensures aClin == BoostedLevel(old(aClin), old(aClinBoost), k == 1)
      ensures aParBoost == (old(aParBoost) && !(k == 1)) && aClinBoost == (old(aClinBoost) && !(k == 1))
      ensures aParExpiry == BoostExpiry(old(aParExpiry), old(aParBoost), k == 1, now, theta.uPar)
      ensures aClinExpiry == BoostExpiry(old(aClinExpiry), old(aClinBoost), k == 1, now, theta.uClin)
    {
      if k == 0 {
        if c == ID {
          comp := Some(ILM);
        } else if c == T {
          comp := Some(P);
        } else {
          comp := Some(S);
        }
      } else if k == 1 {
        DoNewInf(theta, now, d.bite);
      }
    }

    /** ager: one step of ageing, hypnozoite loss, immune decay, the maternal
        immunity cut-off at one year, the pregnancy clock of women, the end of
        the refractory periods of immune boosting and the time since the
        last blood-stage infection. hypLoss and conceives are the Bernoulli
        draws for losing one hypnozoite batch and for conception; a trial
        whose probability is 0 fails, so hypLoss is false when no batch is
        left after the cap. */
    method Ager(theta: Params, now: int, hypLoss: bool, conceives: bool)
      requires hyp >= 0
      requires hypLoss ==> MinInt(hyp, theta.kMax) > 0
      modifies this`age, this`hyp, this`aPar, this`aClin, this`aParMat, this`aClinMat
      modifies this`pregAge, this`pregnant, this`pregTimer
      modifies this`aParBoost, this`aClinBoost, this`tLastBS
      ensures age == old(age) + theta.tStep
      ensures hyp == MinInt(old(hyp), theta.kMax) - (if hypLoss then 1 else 0)
      ensures 0 <= hyp <= theta.kMax
      ensures aPar == Faded(old(aPar), theta.aParDecay) && aClin == Faded(old(aClin), theta.aClinDecay)
      ensures age < 365.0 ==> aParMat == Faded(old(aParMat), theta.matDecay) &&
                              aClinMat == Faded(old(aClinMat), theta.matDecay)
      ensures age >= 365.0 ==> aParMat == 0.0 && aClinMat == 0.0
      ensures gender == Female ==>
        pregAge == (18.0 * 365.0 < age < 40.0 * 365.0) &&
        (pregnant, pregTimer) == PregnancyStep(old(pregnant), old(pregTimer), pregAge, conceives)
      ensures gender == Female && pregnant ==> pregTimer <= 270.0
      ensures gender == Male ==>
        pregAge == old(pregAge) && pregnant == old(pregnant) && pregTimer == old(pregTimer)
      ensures gender == Female && pregAge ==> aParMat == 0.0 && aClinMat == 0.0
      ensures aParBoost == (old(aParBoost) || aParExpiry < now)
      ensures aClinBoost == (old(aClinBoost) || aClinExpiry < now)
      ensures tLastBS == if comp == Some(S) then Plus(old(tLastBS), 1.0) else old(tLastBS)
      ensures g6pdDeficient == old(g6pdDeficient) && cyp2d6Low == old(cyp2d6Low)
    {
      Grow(theta, hypLoss);
      Clocks(now, conceives);
    }

    /** The first part of ager: ageing, hypnozoite loss and immune decay. */
    method Grow(theta: Params, hypLoss: bool)
      requires hyp >= 0
      requires hypLoss ==> MinInt(hyp, theta.kMax) > 0
      modifies this`age, this`hyp, this`aPar, this`aClin, this`aParMat, this`aClinMat
      ensures age == old(age) + theta.tStep
      ensures hyp == MinInt(old(hyp), theta.kMax) - (if hypLoss then 1 else 0)
      ensures 0 <= hyp <= theta.kMax
      ensures aPar == Faded(old(aPar), theta.aParDecay) && aClin == Faded(old(aClin), theta.aClinDecay)
      ensures age < 365.0 ==> aParMat == Faded(old(aParMat), theta.matDecay) &&
                              aClinMat == Faded(old(aClinMat), theta.matDecay)
      ensures age >= 365.0 ==> aParMat == 0.0 && aClinMat == 0.0
    {
      age := age + theta.tStep;
      LoseHypnozoites(theta, hypLoss);
      DecayImmunity(theta);
    }

    /** The second part of ager: the pregnancy clock of women, the end of the
        refractory periods and the time since the last blood-stage
        infection. */
    method Clocks(now: int, conceives: bool)
      modifies this`pregAge, this`pregnant, this`pregTimer
      modifies this`aParBoost, this`aClinBoost, this`tLastBS
      ensures gender == Female ==>
        pregAge == (18.0 * 365.0 < age < 40.0 * 365.0) &&
        (pregnant, pregTimer) == PregnancyStep(old(pregnant), old(pregTimer), pregAge, conceives)
      ensures gender == Female && pregnant ==> pregTimer <= 270.0
      ensures gender == Male ==>
        pregAge == old(pregAge) && pregnant == old(pregnant) && pregTimer == old(pregTimer)
      ensures aParBoost == (old(aParBoost) || aParExpiry < now)
      ensures aClinBoost == (old(aClinBoost) || aClinExpiry < now)
      ensures tLastBS == if comp == Some(S) then Plus(old(tLastBS), 1.0) else old(tLastBS)
    {
      if gender == Female {
        PregnancyClock(conceives);
      }
      EndRefractory(now);
      if comp == Some(S) {
        tLastBS := Plus(tLastBS, 1.0);
      }
    }

    /** Hypnozoite part of ager: cap at K_max, then lose one batch. */
    method LoseHypnozoites(theta: Params, hypLoss: bool)
      requires hyp >= 0 && (hypLoss ==> MinInt(hyp, theta.kMax) > 0)
      modifies this`hyp
      ensures hyp == MinInt(old(hyp), theta.kMax) - (if hypLoss then 1 else 0)
      ensures 0 <= hyp <= theta.kMax
    {
      if hyp > theta.kMax {
        hyp := theta.kMax;
      }
      if hypLoss {
        hyp := hyp - 1;
      }
    }

    /** Immune decay of ager; maternal immunity is dropped from one year of
        age on. */
    method DecayImmunity(theta: Params)
      modifies this`aPar, this`aClin, this`aParMat, this`aClinMat
      ensures aPar == Faded(old(aPar), theta.aParDecay) && aClin == Faded(old(aClin), theta.aClinDecay)
      ensures age < 365.0 ==> aParMat == Faded(old(aParMat), theta.matDecay) &&
                              aClinMat == Faded(old(aClinMat), theta.matDecay)
      ensures age >= 365.0 ==> aParMat == 0.0 && aClinMat == 0.0
    {
      aPar := Faded(aPar, theta.aParDecay);
      aClin := Faded(aClin, theta.aClinDecay);
      if age < 365.0 {
        aParMat := Faded(aParMat, theta.matDecay);
        aClinMat := Faded(aClinMat, theta.matDecay);
      } else {
        aParMat := 0.0;
        aClinMat := 0.0;
      }
    }

    /** Pregnancy part of ager for a woman: child-bearing age is (18, 40)
        years; a pregnancy lasts until the timer passes 270 days. */
    method PregnancyClock(conceives: bool)
      modifies this`pregAge, this`pregnant, this`pregTimer
      ensures pregAge == (18.0 * 365.0 < age < 40.0 * 365.0)
      ensures (pregnant, pregTimer) == PregnancyStep(old(pregnant), old(pregTimer), pregAge, conceives)
      ensures pregnant ==> pregTimer <= 270.0
    {
      if 18.0 * 365.0 < age && age < 40.0 * 365.0 {
        pregAge := true;
      } else {
        pregAge := false;
      }
      if pregnant {
        pregTimer := pregTimer + 1.0;
      }
      if !pregnant {
        if pregAge {
          if conceives {
            pregnant := true;
            pregTimer := 0.0;
          }
        }
      }
      if pregnant {
        if pregTimer > 270.0 {
          pregnant := false;
          pregTimer := 0.0;
        }
      }
    }

    /** Switches for the refractory period of immune boosting: boosting is
        enabled again once its expiry date has passed. */
    method EndRefractory(now: int)
      modifies this`aParBoost, this`aClinBoost
      ensures aParBoost == (old(aParBoost) || aParExpiry < now)
      ensures aClinBoost == (old(aClinBoost) || aClinExpiry < now)
    {
      if !aParBoost {
        if aParExpiry < now {
          aParBoost := true;
        }
      }
      if !aClinBoost {
        if aClinExpiry < now {
          aClinBoost := true;
        }
      }
    }

    /** intervention_updater: nets are lost with a Bernoulli draw (lossDraw),
        IRS ends once the spraying is more than three years old, and the
        per-species vector-control effects (w, y, z) are recomputed for the
        four combinations of net and IRS. */
    method InterventionUpdater(theta: Params, lossDraw: bool)
      requires WellFormed(theta) && VCValid(theta)
      modifies this`llin, this`irs, this`llinAge, this`irsAge
      modifies this`rLlin, this`dLlin, this`sLlin, this`rIrs, this`dIrs, this`sIrs
      modifies this`wVC, this`yVC, this`zVC
      ensures VCValid(theta)
      ensures g6pdDeficient == old(g6pdDeficient) && cyp2d6Low == old(cyp2d6Low)
      ensures llin == (old(llin) && !lossDraw)
      ensures irs == (old(irs) && !Above(old(irsAge), 1095.0))
      ensures llin ==> llinAge == Plus(old(llinAge), theta.tStep) &&
                       (rLlin, dLlin) == DecayLLIN(theta, old(rLlin), old(dLlin)) &&
                       sLlin == Survival(rLlin, dLlin)
      ensures !llin ==> llinAge == old(llinAge) && rLlin == old(rLlin) && dLlin == old(dLlin) &&
                        sLlin == old(sLlin)
      ensures irs ==> irsAge == Plus(old(irsAge), theta.tStep) &&
                      rIrs == Scale(old(rIrs), theta.pIRSDecay) &&
                      dIrs == Scale(old(dIrs), theta.pIRSDecay) && sIrs == Survival(rIrs, dIrs)
      ensures !irs ==> irsAge == old(irsAge) && rIrs == old(rIrs) && dIrs == old(dIrs) &&
                       sIrs == old(sIrs)
      ensures llin && !irs ==> (wVC, yVC, zVC) == VCNetOnly(theta, sLlin, rLlin)
      ensures !llin && irs ==> (wVC, yVC, zVC) == VCSprayOnly(theta, sIrs, rIrs)
      ensures llin && irs ==> (wVC, yVC, zVC) == VCBoth(theta, sLlin, rLlin, sIrs, rIrs)
      ensures !llin && !irs ==> wVC == Const(theta.nSpec, 1.0) && yVC == Const(theta.nSpec, 1.0) &&
                                zVC == Const(theta.nSpec, 0.0)
    {
      if llin {
        if lossDraw {
          llin := false;
        }
      }
      if Above(irsAge, 1095.0) {
        irs := false;
      }
      if llin {
        AgeNet(theta);
      }
      if irs {
        AgeSpray(theta);
      }
      SetVC(theta);
    }

    /** The per-species effects of the current net and spraying. */
    method SetVC(theta: Params)
      requires WellFormed(theta)
      requires |sLlin| == theta.nSpec && |rLlin| == theta.nSpec
      requires |sIrs| == theta.nSpec && |rIrs| == theta.nSpec
      modifies this`wVC, this`yVC, this`zVC
      ensures |wVC| == theta.nSpec && |yVC| == theta.nSpec && |zVC| == theta.nSpec
      ensures llin && !irs ==> (wVC, yVC, zVC) == VCNetOnly(theta, sLlin, rLlin)
      ensures !llin && irs ==> (wVC, yVC, zVC) == VCSprayOnly(theta, sIrs, rIrs)
      ensures llin && irs ==> (wVC, yVC, zVC) == VCBoth(theta, sLlin, rLlin, sIrs, rIrs)
      ensures !llin && !irs ==> wVC == Const(theta.nSpec, 1.0) && yVC == Const(theta.nSpec, 1.0) &&
                                zVC == Const(theta.nSpec, 0.0)
    {
      var wyz;
      if llin && !irs {
        wyz := VCNetOnly(theta, sLlin, rLlin);
      } else if !llin && irs {
        wyz := VCSprayOnly(theta, sIrs, rIrs);
      } else if llin && irs {
        wyz := VCBoth(theta, sLlin, rLlin, sIrs, rIrs);
      } else {
        wyz := (Const(theta.nSpec, 1.0), Const(theta.nSpec, 1.0), Const(theta.nSpec, 0.0));
      }
      wVC, yVC, zVC := wyz.0, wyz.1, wyz.2;
    }

    /** One step of a net's age and of the decay of its repellency and
        killing towards the resting values. */
    method AgeNet(theta: Params)
      requires WellFormed(theta) && |rLlin| == theta.nSpec && |dLlin| == theta.nSpec
      modifies this`llinAge, this`rLlin, this`dLlin, this`sLlin
      ensures llinAge == Plus(old(llinAge), theta.tStep)
      ensures (rLlin, dLlin) == DecayLLIN(theta, old(rLlin), old(dLlin))
      ensures sLlin == Survival(rLlin, dLlin)
      ensures |rLlin| == |dLlin| == |sLlin| == theta.nSpec
    {
      llinAge := Plus(llinAge, theta.tStep);
      var rd := DecayLLIN(theta, rLlin, dLlin);
      rLlin, dLlin := rd.0, rd.1;
      sLlin := Survival(rLlin, dLlin);
    }

    /** One step of the age of the spraying and of the decay of its
        repellency and killing. */
    method AgeSpray(theta: Params)
      requires |rIrs| == theta.nSpec && |dIrs| == theta.nSpec
      modifies this`irsAge, this`rIrs, this`dIrs, this`sIrs
      ensures irsAge == Plus(old(irsAge), theta.tStep)
      ensures rIrs == Scale(old(rIrs), theta.pIRSDecay) && dIrs == Scale(old(dIrs), theta.pIRSDecay)
      ensures sIrs == Survival(rIrs, dIrs)
      ensures |rIrs| == |dIrs| == |sIrs| == theta.nSpec
    {
      irsAge := Plus(irsAge, theta.tStep);
      rIrs := Scale(rIrs, theta.pIRSDecay);
      dIrs := Scale(dIrs, theta.pIRSDecay);
      sIrs := Survival(rIrs, dIrs);
    }
  }

  /** Without an exit, or without a compartment, state_mover changes
      nothing but the cleared event indicators. */
  lemma Stays(ind: Individual, theta: Params, now: int, oc: Option<Comp>, k: nat, d: MoveDraws,
              b: Before)
    requires ind.EventsCleared() && ind.comp == oc && ind.Earlier() == b
    requires !(oc.Some? && d.exits)
    ensures ind.Stepped(theta, now, oc, k, d, b)
  {
  }

  /** The S branch ends in the state Stepped describes for a move out of S. */
  lemma SusceptibleStep(ind: Individual, theta: Params, now: int, k: nat, d: MoveDraws, b: Before)
    requires d.exits && k < NumMoves(S) && !ind.pqOvertreat && !ind.pqOvertreat9m
    requires ind.comp == Some(Moved(S, true, k, d.bsEff)) && ind.actTreat == Treated(S, true, k)
    requires ind.iNew == NewBits(S, true, k)
    requires ind.pqTreat ==
             PQGiven(theta.pqTreat, S, true, k, d.pqAvail, ind.g6pdDeficient, ind.pregnant, ind.age)
    requires !ind.pqEffective && ind.pqProph == b.pqProph && ind.tLastBS == Fin(0.0)
    requires ind.hyp == HypAfter(b.hyp, true, d.bite, PQProtected(b.pqProph, now), false)
    requires ind.aPar == BoostedLevel(b.aPar, b.aParBoost, true)
    requires ind.aClin == BoostedLevel(b.aClin, b.aClinBoost, true)
    requires ind.aParBoost == (b.aParBoost && !(true)) && ind.aClinBoost == (b.aClinBoost && !(true))
    requires ind.aParExpiry == BoostExpiry(b.aParExpiry, b.aParBoost, true, now, theta.uPar)
    requires ind.aClinExpiry == BoostExpiry(b.aClinExpiry, b.aClinBoost, true, now, theta.uClin)
    ensures ind.Stepped(theta, now, Some(S), k, d, b)
  {
  }

  /** The I_PCR and I_LM branches end in the state Stepped describes. */
  lemma InfectedStep(ind: Individual, c: Comp, theta: Params, now: int, k: nat, d: MoveDraws,
                     b: Before)
    requires c in {IPCR, ILM} && d.exits && k < NumMoves(c) && !ind.pqOvertreat && !ind.pqOvertreat9m
    requires ind.comp == Some(Moved(c, true, k, d.bsEff)) && ind.actTreat == Treated(c, true, k)
    requires ind.iNew == NewBits(c, true, k)
    requires ind.tLastBS == if Treated(c, true, k) then Fin(0.0) else b.tLastBS
    requires ind.pqTreat ==
             PQGiven(theta.pqTreat, c, true, k, d.pqAvail, ind.g6pdDeficient, ind.pregnant, ind.age)
    requires ind.pqEffective == PQWorks(theta.pqTreat, c, true, k, d.pqAvail, d.pqEff, ind.cyp2d6Low)
    requires ind.hyp == HypAfter(b.hyp, k >= 1, d.bite, PQProtected(b.pqProph, now),
                                 ind.pqTreat && ind.pqEffective)
    requires ind.pqProph == (if ind.pqTreat && ind.pqEffective then MaxInt(b.pqProph, now + theta.oneTS)
                             else b.pqProph)
    requires ind.aPar == BoostedLevel(b.aPar, b.aParBoost, k >= 1)
    requires ind.aClin == BoostedLevel(b.aClin, b.aClinBoost, k >= 1)
    requires ind.aParBoost == (b.aParBoost && !(k >= 1)) && ind.aClinBoost == (b.aClinBoost && !(k >= 1))
    requires ind.aParExpiry == BoostExpiry(b.aParExpiry, b.aParBoost, k >= 1, now, theta.uPar)
    requires ind.aClinExpiry == BoostExpiry(b.aClinExpiry, b.aClinBoost, k >= 1, now, theta.uClin)
    ensures ind.Stepped(theta, now, Some(c), k, d, b)
  {
  }

  /** The I_D, T and P branches end in the state Stepped describes. */
  lemma RecoveryStep(ind: Individual, c: Comp, theta: Params, now: int, k: nat, d: MoveDraws,
                     b: Before)
    requires c in {ID, T, P} && d.exits && k < NumMoves(c) && ind.EventsCleared()
    requires ind.comp == Some(Moved(c, true, k, d.bsEff))
    requires ind.pqProph == b.pqProph && ind.tLastBS == b.tLastBS
    requires ind.hyp == HypAfter(b.hyp, k == 1, d.bite, PQProtected(b.pqProph, now), false)
    requires ind.aPar == BoostedLevel(b.aPar, b.aParBoost, k == 1)
    requires ind.aClin == BoostedLevel(b.aClin, b.aClinBoost, k == 1)
    requires ind.aParBoost == (b.aParBoost && !(k == 1)) && ind.aClinBoost == (b.aClinBoost && !(k == 1))
    requires ind.aParExpiry == BoostExpiry(b.aParExpiry, b.aParBoost, k == 1, now, theta.uPar)
    requires ind.aClinExpiry == BoostExpiry(b.aClinExpiry, b.aClinBoost, k == 1, now, theta.uClin)
    ensures ind.Stepped(theta, now, Some(c), k, d, b)
  {
  }
}
