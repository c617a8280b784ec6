/** One human of the P. vivax individual-based model, countdown-timer variant
    (model/Pv_mod/Individual.cpp).

    The compartments, the competing-hazards sample and the move table are
    those of Dynamics. This variant differs from WhiteIndividual in its
    clocks: the refractory periods of immune boosting and primaquine
    prophylaxis are real-valued countdown timers decremented by ager, the
    prophylaxis itself is a flag, the detection channels of a new infection
    are three booleans, and the per-species vector-control values are
    fixed-size arrays updated one species at a time. */
module PvIndividual {
  import opened Common
  import opened Compartments
  import opened Params
  import opened Detect
  import opened Dynamics

  /** A refractory timer after state_mover: a boost restarts it at u. */
  function BoostTimer(timer: real, boost: bool, infected: bool, u: real): (t: real)
  {
    if infected && boost then u else timer
  }

  /** A refractory switch of ager: while the boost is off its timer runs down
      by one step, and the boost comes back once the timer is negative. */
  function Refractory(boost: bool, timer: real, tStep: real): (r: (bool, real))
  {
    if boost then (boost, timer)
    else (timer - tStep < 0.0, timer - tStep)
  }

  /** The prophylaxis switch of ager: while protected, the timer runs down
      and protection ends once it is negative. */
  function ProphylaxisClock(proph: bool, timer: real, tStep: real): (r: (bool, real))
  {
    if !proph then (proph, timer)
    else (!(timer - tStep < 0.0), timer - tStep)
  }

  /** A boost resets the refractory timer to exactly u and nothing else
      does; the switch of ager only lowers the timer, and it turns the boost
      back on exactly when the lowered timer is negative. */
  lemma TimerRules(timer: real, boost: bool, infected: bool, u: real, tStep: real)
    ensures BoostTimer(timer, boost, infected, u) == (if infected && boost then u else timer)
    ensures tStep >= 0.0 ==> Refractory(boost, timer, tStep).1 <= timer
    ensures !boost ==> (Refractory(boost, timer, tStep).0 <==> timer - tStep < 0.0)
    ensures boost ==> Refractory(boost, timer, tStep) == (true, timer)
  {
  }

  /** The prophylaxis timer is only ever lowered: with the initial value -1
      and a non-negative step it stays negative, so any protection granted
      by state_mover ends at the next call of ager. */
  lemma ProphylaxisEndsAtNextAger(proph: bool, timer: real, tStep: real)
    requires timer < 0.0 && tStep >= 0.0
    ensures !ProphylaxisClock(proph, timer, tStep).0
    ensures ProphylaxisClock(proph, timer, tStep).1 < 0.0
  {
  }

  /** Three different arrays. */
  predicate Distinct3(a: array<real>, b: array<real>, c: array<real>)
  {
    a != b && a != c && b != c
  }

  /** Each of a, b, c is different from each of d, e, f. */
  predicate Apart3(a: array<real>, b: array<real>, c: array<real>,
                   d: array<real>, e: array<real>, f: array<real>)
  {
    a != d && a != e && a != f && b != d && b != e && b != f && c != d && c != e && c != f
  }

  /** Six different arrays. */
  predicate Distinct6(a: array<real>, b: array<real>, c: array<real>,
                      d: array<real>, e: array<real>, f: array<real>)
  {
    Distinct3(a, b, c) && Distinct3(d, e, f) && Apart3(a, b, c, d, e, f)
  }

  /** The species loop of intervention_updater for a net without IRS. */
  method NetOnlyLoop(theta: Params, rL: array<real>, dL: array<real>, sL: array<real>,
                     w: array<real>, y: array<real>, z: array<real>)
    requires WellFormed(theta) && Distinct6(rL, dL, sL, w, y, z)
    requires rL.Length == dL.Length == sL.Length == w.Length == y.Length == z.Length == theta.nSpec
    modifies rL, dL, sL, w, y, z
    ensures (rL[..], dL[..]) == DecayLLIN(theta, old(rL[..]), old(dL[..]))
    ensures sL[..] == Survival(rL[..], dL[..])
    ensures (w[..], y[..], z[..]) == VCNetOnly(theta, sL[..], rL[..])
  {
    var n, b, p := theta.nSpec, theta.psiBed, theta.pPYRDecay;
    for g := 0 to n
      invariant forall i :: 0 <= i < g ==>
        rL[i] == Toward(theta.rLLINNet[i], old(rL[i]), p) && dL[i] == Faded(old(dL[i]), p) &&
        sL[i] == 1.0 - rL[i] - dL[i] &&
        w[i] == NetW(b[i], sL[i]) && y[i] == w[i] && z[i] == NetZ(b[i], rL[i])
      invariant forall i :: g <= i < n ==> rL[i] == old(rL[i]) && dL[i] == old(dL[i])
    {
      var r, d := Toward(theta.rLLINNet[g], rL[g], p), Faded(dL[g], p);
      var sg := 1.0 - r - d;
      rL[g], dL[g], sL[g] := r, d, sg;
      w[g], y[g], z[g] := NetW(b[g], sg), NetW(b[g], sg), NetZ(b[g], r);
    }
    ghost var rd := DecayLLIN(theta, old(rL[..]), old(dL[..]));
    assert rL[..] == rd.0 && dL[..] == rd.1;
    ghost var vc := VCNetOnly(theta, sL[..], rL[..]);
    assert w[..] == vc.0 && y[..] == vc.1 && z[..] == vc.2;
  }

  /** The species loop of intervention_updater for IRS without a net. */
  method SprayOnlyLoop(theta: Params, rI: array<real>, dI: array<real>, sI: array<real>,
                       w: array<real>, y: array<real>, z: array<real>)
    requires WellFormed(theta) && Distinct6(rI, dI, sI, w, y, z)
    requires rI.Length == dI.Length == sI.Length == w.Length == y.Length == z.Length == theta.nSpec
    modifies rI, dI, sI, w, y, z
    ensures rI[..] == Scale(old(rI[..]), theta.pIRSDecay) && dI[..] == Scale(old(dI[..]), theta.pIRSDecay)
    ensures sI[..] == Survival(rI[..], dI[..])
    ensures (w[..], y[..], z[..]) == VCSprayOnly(theta, sI[..], rI[..])
  {
    var n, ins, p := theta.nSpec, theta.psiIndoors, theta.pIRSDecay;
    for g := 0 to n
      invariant forall i :: 0 <= i < g ==>
        rI[i] == Faded(old(rI[i]), p) && dI[i] == Faded(old(dI[i]), p) &&
        sI[i] == 1.0 - rI[i] - dI[i] &&
        w[i] == SprayW(ins[i], rI[i], sI[i]) && y[i] == SprayY(ins[i], rI[i]) &&
        z[i] == SprayZ(ins[i], rI[i])
      invariant forall i :: g <= i < n ==> rI[i] == old(rI[i]) && dI[i] == old(dI[i])
    {
      var r, d := Faded(rI[g], p), Faded(dI[g], p);
      var sg := 1.0 - r - d;
      rI[g], dI[g], sI[g] := r, d, sg;
      w[g], y[g], z[g] := SprayW(ins[g], r, sg), SprayY(ins[g], r), SprayZ(ins[g], r);
    }
    ghost var vc := VCSprayOnly(theta, sI[..], rI[..]);
    assert w[..] == vc.0 && y[..] == vc.1 && z[..] == vc.2;
  }

  /** The species loop of intervention_updater for a net and IRS. */
  method BothLoop(theta: Params, rL: array<real>, dL: array<real>, sL: array<real>,
                  rI: array<real>, dI: array<real>, sI: array<real>,
                  w: array<real>, y: array<real>, z: array<real>)
    requires WellFormed(theta) && Distinct6(rL, dL, sL, w, y, z) && Distinct6(rI, dI, sI, w, y, z)
    requires Apart3(rL, dL, sL, rI, dI, sI)
    requires rL.Length == dL.Length == sL.Length == theta.nSpec
    requires rI.Length == dI.Length == sI.Length == theta.nSpec
    requires w.Length == y.Length == z.Length == theta.nSpec
    modifies rL, dL, sL, rI, dI, sI, w, y, z
    ensures (rL[..], dL[..]) == DecayLLIN(theta, old(rL[..]), old(dL[..]))
    ensures sL[..] == Survival(rL[..], dL[..])
    ensures rI[..] == Scale(old(rI[..]), theta.pIRSDecay) && dI[..] == Scale(old(dI[..]), theta.pIRSDecay)
    ensures sI[..] == Survival(rI[..], dI[..])
    ensures (w[..], y[..], z[..]) == VCBoth(theta, sL[..], rL[..], sI[..], rI[..])
  {
    var n, b, ins := theta.nSpec, theta.psiBed, theta.psiIndoors;
    var pL, pI := theta.pPYRDecay, theta.pIRSDecay;
    for g := 0 to n
      invariant forall i :: 0 <= i < g ==>
        rL[i] == Toward(theta.rLLINNet[i], old(rL[i]), pL) && dL[i] == Faded(old(dL[i]), pL) &&
        sL[i] == 1.0 - rL[i] - dL[i] &&
        rI[i] == Faded(old(rI[i]), pI) && dI[i] == Faded(old(dI[i]), pI) &&
        sI[i] == 1.0 - rI[i] - dI[i] &&
        w[i] == BothW(b[i], ins[i], rI[i], sL[i], sI[i]) &&
        y[i] == BothY(b[i], ins[i], rI[i], sL[i]) && z[i] == BothZ(b[i], ins[i], rI[i], rL[i])
      invariant forall i :: g <= i < n ==>
        rL[i] == old(rL[i]) && dL[i] == old(dL[i]) && rI[i] == old(rI[i]) && dI[i] == old(dI[i])
    {
      var r1, d1 := Toward(theta.rLLINNet[g], rL[g], pL), Faded(dL[g], pL);
      var s1 := 1.0 - r1 - d1;
      var r2, d2 := Faded(rI[g], pI), Faded(dI[g], pI);
      var s2 := 1.0 - r2 - d2;
      rL[g], dL[g], sL[g] := r1, d1, s1;
      rI[g], dI[g], sI[g] := r2, d2, s2;
      w[g], y[g], z[g] := BothW(b[g], ins[g], r2, s1, s2), BothY(b[g], ins[g], r2, s1),
                          BothZ(b[g], ins[g], r2, r1);
    }
    ghost var rd := DecayLLIN(theta, old(rL[..]), old(dL[..]));
    assert rL[..] == rd.0 && dL[..] == rd.1;
    ghost var vc := VCBoth(theta, sL[..], rL[..], sI[..], rI[..]);
    assert w[..] == vc.0 && y[..] == vc.1 && z[..] == vc.2;
  }

  /** The species loop without any vector control: (1, 1, 0) everywhere. */
  method NeitherLoop(w: array<real>, y: array<real>, z: array<real>)
    requires Distinct3(w, y, z) && w.Length == y.Length == z.Length
    modifies w, y, z
    ensures w[..] == Const(w.Length, 1.0) && y[..] == Const(w.Length, 1.0)
    ensures z[..] == Const(w.Length, 0.0)
  {
    for g := 0 to w.Length
      invariant forall i :: 0 <= i < g ==> w[i] == 1.0 && y[i] == 1.0 && z[i] == 0.0
    {
      w[g] := 1.0;
      y[g] := 1.0;
      z[g] := 0.0;
    }
  }

  /** The values of an individual's hypnozoite, prophylaxis, immunity and
      blood-stage clocks at the start of a step. */
  datatype Before = Before(hyp: int, pqProph: bool, aPar: real, aClin: real,
                           aParBoost: bool, aClinBoost: bool, aParTimer: real, aClinTimer: real,
                           tLastBS: Double)

  class Person {
    // demography
    var age: real
    var zetaHet: real
    var gender: Gender
    var g6pdDeficient: bool
    var cyp2d6Low: bool
    var pregAge: bool
    var pregnant: bool
    var pregTimer: real

    // lagged forces of infection (bites, relapses)
    var lamBiteTrack: seq<real>
    var lamRelTrack: seq<real>

    // the compartment whose indicator is set; None before the first one is
    var comp: Option<Comp>

    var hyp: int

    // events of the current step
    var iPCRNew: bool
    var iLMNew: bool
    var iDNew: bool
    var actTreat: bool
    var pqTreat: bool
    var pqEffective: bool
    var pqOvertreat: bool
    var pqOvertreat9m: bool

    // immunity, boosting and prophylaxis
    var aPar: real
    var aClin: real
    var aParMat: real
    var aClinMat: real
    var aParBoost: bool
    var aClinBoost: bool
    var aParTimer: real
    var aClinTimer: real
    var pqProph: bool
    var pqProphTimer: real

    // intervention access scores
    var zzInt: array<real>

    // vector control
    var llin: bool
    var llinAge: Double
    var irs: bool
    var irsAge: Double
    var tLastBS: Double
    var rLlin: array<real>
    var dLlin: array<real>
    var sLlin: array<real>
    var rIrs: array<real>
    var dIrs: array<real>
    var sIrs: array<real>
    var wVC: array<real>
    var yVC: array<real>
    var zVC: array<real>

    /** The per-species arrays: one entry per species, all different. */
    predicate ArraysValid(theta: Params)
      reads this
    {
      Distinct6(rLlin, dLlin, sLlin, wVC, yVC, zVC) && Distinct6(rIrs, dIrs, sIrs, wVC, yVC, zVC) &&
      Apart3(rLlin, dLlin, sLlin, rIrs, dIrs, sIrs) &&
      rLlin.Length == theta.nSpec && dLlin.Length == theta.nSpec && sLlin.Length == theta.nSpec &&
      rIrs.Length == theta.nSpec && dIrs.Length == theta.nSpec && sIrs.Length == theta.nSpec &&
      wVC.Length == theta.nSpec && yVC.Length == theta.nSpec && zVC.Length == theta.nSpec
    }

    /** Both lagged buffers hold H_track values. */
    ghost predicate TracksValid(theta: Params)
      reads this`lamBiteTrack, this`lamRelTrack
    {
      |lamBiteTrack| == theta.hTrack && |lamRelTrack| == theta.hTrack
    }

    /** A newborn or initial individual of age a and exposure heterogeneity
        zeta. male, g6pdDraw and cypDraw are the Bernoulli draws for gender,
        G6PD deficiency and low CYP2D6 action; zz are the intervention access
        scores. The initial repellency, killing and survival of nets and
        spraying are NaN in the program and 0 here; they are read only after
        a deployment has set them. */
    constructor (theta: Params, a: real, zeta: real, male: bool, g6pdDraw: bool,
                 cypDraw: bool, zz: seq<real>)
      requires WellFormed(theta) && |zz| == N_INT
      ensures ArraysValid(theta) && TracksValid(theta)
      ensures age == a && zetaHet == zeta
      ensures gender == (if male then Male else Female)
      ensures g6pdDeficient == g6pdDraw && cyp2d6Low == cypDraw
      ensures !pregAge && !pregnant && pregTimer == 0.0
      ensures lamBiteTrack == Const(theta.hTrack, 0.0) && lamRelTrack == Const(theta.hTrack, 0.0)
      ensures comp == None && hyp == 0
      ensures !iPCRNew && !iLMNew && !iDNew
      ensures !actTreat && !pqTreat && !pqEffective && !pqOvertreat && !pqOvertreat9m
      ensures aPar == 0.0 && aClin == 0.0 && aParMat == 0.0 && aClinMat == 0.0
      ensures !aParBoost && !aClinBoost && aParTimer == -1.0 && aClinTimer == -1.0
      ensures !pqProph && pqProphTimer == -1.0
      ensures zzInt[..] == zz
      ensures !llin && llinAge == NaN && !irs && irsAge == NaN && tLastBS == PosInf
      ensures wVC[..] == Const(theta.nSpec, 1.0) && yVC[..] == Const(theta.nSpec, 1.0)
      ensures zVC[..] == Const(theta.nSpec, 0.0)
    {
      age, zetaHet := a, zeta;
      pregAge, pregnant, pregTimer := false, false, 0.0;
      lamBiteTrack := Const(theta.hTrack, 0.0);
      lamRelTrack := Const(theta.hTrack, 0.0);
      comp := None;
      hyp := 0;
      iPCRNew, iLMNew, iDNew := false, false, false;
      actTreat, pqTreat, pqEffective, pqOvertreat, pqOvertreat9m := false, false, false, false, false;
      aPar, aClin, aParMat, aClinMat := 0.0, 0.0, 0.0, 0.0;
      aParBoost, aClinBoost := false, false;
      aParTimer, aClinTimer := -1.0, -1.0;
      pqProph, pqProphTimer := false, -1.0;
      llin, llinAge, irs, irsAge := false, NaN, false, NaN;
      tLastBS := PosInf;
      gender := if male then Male else Female;
      g6pdDeficient := g6pdDraw;
      cyp2d6Low := cypDraw;
      var n := theta.nSpec;
      zzInt := new real[N_INT](k requires 0 <= k < N_INT => zz[k]);
      // born with no interventions
      rLlin, dLlin, sLlin := new real[n](_ => 0.0), new real[n](_ => 0.0), new real[n](_ => 0.0);
      rIrs, dIrs, sIrs := new real[n](_ => 0.0), new real[n](_ => 0.0), new real[n](_ => 0.0);
      wVC, yVC, zVC := new real[n](_ => 1.0), new real[n](_ => 1.0), new real[n](_ => 0.0);
    }

    /** The event indicators are all clear, as at the start of state_mover. */
    predicate EventsCleared()
      reads this`iPCRNew, this`iLMNew, this`iDNew, this`actTreat, this`pqTreat,
        this`pqEffective, this`pqOvertreat, this`pqOvertreat9m
    {
      !iPCRNew && !iLMNew && !iDNew && !actTreat && !pqTreat && !pqEffective &&
      !pqOvertreat && !pqOvertreat9m
    }

    /** The new state after state_mover for an individual that was in
        compartment oc (None: no indicator set), made move k of the
        competing-hazards sample and had the earlier values b. The three
        detection indicators follow NewDepth; a new hypnozoite
        batch needs PQ_proph clear; primaquine that is given and works
        clears the batches and sets PQ_proph. */
    ghost predicate Stepped(theta: Params, oc: Option<Comp>, k: nat, d: MoveDraws, b: Before)
      reads this
    {
      var ex := oc.Some? && d.exits;
      var c := if oc.Some? then oc.value else S;
      var inf := Infected(c, ex, k);
      var given := PQGiven(theta.pqTreat, c, ex, k, d.pqAvail, g6pdDeficient, pregnant, age);
      var works := PQWorks(theta.pqTreat, c, ex, k, d.pqAvail, d.pqEff, cyp2d6Low);
      comp == (if oc.Some? then Some(Moved(c, ex, k, d.bsEff)) else None) &&
      iPCRNew == (NewDepth(c, ex, k) >= 1) && iLMNew == (NewDepth(c, ex, k) >= 2) &&
      iDNew == (NewDepth(c, ex, k) >= 3) &&
      actTreat == Treated(c, ex, k) &&
      pqTreat == given && pqEffective == works && !pqOvertreat && !pqOvertreat9m &&
      hyp == HypAfter(b.hyp, inf, d.bite, b.pqProph, given && works) &&
      pqProph == (b.pqProph || (given && works)) &&
      aPar == BoostedLevel(b.aPar, b.aParBoost, inf) &&
      aClin == BoostedLevel(b.aClin, b.aClinBoost, inf) &&
      aParBoost == (b.aParBoost && !inf) && aClinBoost == (b.aClinBoost && !inf) &&
      aParTimer == BoostTimer(b.aParTimer, b.aParBoost, inf, theta.uPar) &&
      aClinTimer == BoostTimer(b.aClinTimer, b.aClinBoost, inf, theta.uClin) &&
      tLastBS == (if ResetsLastBS(c, ex, k) then Fin(0.0) else b.tLastBS)
    }

    /** The values state_mover starts from besides the compartment. */
    function Earlier(): (b: Before)
      reads this`hyp, this`pqProph, this`aPar, this`aClin, this`aParBoost, this`aClinBoost
      reads this`aParTimer, this`aClinTimer, this`tLastBS
    {
      Before(hyp, pqProph, aPar, aClin, aParBoost, aClinBoost, aParTimer, aClinTimer, tLastBS)
    }

    /** The new-infection block that every infecting move repeats: a bite
        adds one hypnozoite batch unless PQ_proph is set, and an enabled
        boost adds 1 to the immunity level and restarts its timer. */
    method NewInf(theta: Params, bite: bool)
      modifies this`hyp, this`aPar, this`aParTimer, this`aParBoost
      modifies this`aClin, this`aClinTimer, this`aClinBoost
      ensures hyp == HypAfter(old(hyp), true, bite, pqProph, false)
      ensures aPar == BoostedLevel(old(aPar), old(aParBoost), true) && !aParBoost
      ensures aClin == BoostedLevel(old(aClin), old(aClinBoost), true) && !aClinBoost
      ensures aParTimer == BoostTimer(old(aParTimer), old(aParBoost), true, theta.uPar)
      ensures aClinTimer == BoostTimer(old(aClinTimer), old(aClinBoost), true, theta.uClin)
    {
      if bite {
        if !pqProph {
          hyp := hyp + 1;
        }
      }
      if aParBoost {
        aPar := aPar + 1.0;
        aParTimer := theta.uPar;
        aParBoost := false;
      }
      if aClinBoost {
        aClin := aClin + 1.0;
        aClinTimer := theta.uClin;
        aClinBoost := false;
      }
    }

    /** The primaquine block of a treatment move: with primaquine available
        it is given unless an exclusion applies, and it works when the
        efficacy draw succeeds (only isEffective moves can count it) and the
        CYP2D6 rule does not apply; given and working, it clears the
        hypnozoites and sets PQ_proph. Called with both indicators clear. */
    method AdminPQ(theta: Params, isEffective: bool, avail: bool, effDraw: bool)
      requires !pqTreat && !pqEffective
      modifies this`pqTreat, this`pqEffective, this`hyp, this`pqProph
      ensures var rg := theta.pqTreat;
        pqTreat == (avail && !PQVetoed(rg.g6pdRisk, g6pdDeficient, rg.pregRisk, pregnant, age, rg.lowAge))
      ensures pqEffective == (avail && effDraw && isEffective &&
                              !(theta.pqTreat.cyp2d6Risk == 1 && cyp2d6Low))
      ensures hyp == (if pqTreat && pqEffective then 0 else old(hyp))
      ensures pqProph == (old(pqProph) || (pqTreat && pqEffective))
    {
      if avail {
        pqTreat := true;
        if theta.pqTreat.g6pdRisk == 1 && g6pdDeficient {
          pqTreat := false;
        }
        if theta.pqTreat.pregRisk == 1 && pregnant {
          pqTreat := false;
        }
        if age < theta.pqTreat.lowAge {
          pqTreat := false;
        }
        pqEffective := false;
        if effDraw {
          pqEffective := isEffective;
        }
        if theta.pqTreat.cyp2d6Risk == 1 && cyp2d6Low {
          pqEffective := false;
        }
        if pqTreat && pqEffective {
          hyp := 0;
          pqProph := true;
        }
      }
    }

    /** Competing-hazards sample of state_mover from compartment c. */
    method SampleMove(c: Comp, theta: Params, pow: (real, real) -> real,
                      lamH: real, u: real) returns (k: nat)
      ensures k == MoveOf(c, theta, pow, aPar, aParMat, aClin, aClinMat, lamH, u)
    {
      var w := Weights(c, theta, PhiLM(theta, pow, aPar, aParMat),
                       PhiD(theta, pow, aClin, aClinMat), RPCR(theta, pow, aPar, aParMat), lamH);
      k := Sample(w, u);
    }

    /** Clear the indicators for new events. */
    method ClearEvents()
      modifies this`iPCRNew, this`iLMNew, this`iDNew, this`actTreat, this`pqTreat
      modifies this`pqEffective, this`pqOvertreat, this`pqOvertreat9m
      ensures EventsCleared()
    {
      iPCRNew, iLMNew, iDNew := false, false, false;
      actTreat := false;
      pqTreat := false;
      pqEffective := false;
      pqOvertreat := false;
      pqOvertreat9m := false;
    }

    /** state_mover: the lagged buffers shift by one and the event
        indicators are cleared; an individual in a compartment then makes
        the move k drawn with the lagged force of infection, or stays when
        the exit draw fails, as Stepped describes. */
    method StateMover(theta: Params, pow: (real, real) -> real, lamBite: real, d: MoveDraws)
      returns (k: nat)
      requires TracksValid(theta) && theta.hTrack >= 1
      modifies this`lamBiteTrack, this`lamRelTrack, this`comp, this`hyp
      modifies this`iPCRNew, this`iLMNew, this`iDNew, this`actTreat, this`pqTreat
      modifies this`pqEffective, this`pqOvertreat, this`pqOvertreat9m
      modifies this`aPar, this`aClin, this`aParBoost, this`aClinBoost
      modifies this`aParTimer, this`aClinTimer, this`pqProph, this`tLastBS
      ensures TracksValid(theta)
      ensures lamBiteTrack == Shifted(old(lamBiteTrack), lamBite)
      ensures lamRelTrack == Shifted(old(lamRelTrack), RelapseRate(old(hyp), theta.ff))
      ensures var lamH := LagAfterShift(old(lamBiteTrack), lamBite)
                        + LagAfterShift(old(lamRelTrack), RelapseRate(old(hyp), theta.ff));
        k == old(if comp.Some? && d.exits
                 then MoveOf(comp.value, theta, pow, aPar, aParMat, aClin, aClinMat, lamH, d.u)
                 else 0)
      ensures Stepped(theta, old(comp), k, d,
                old(Before(hyp, pqProph, aPar, aClin, aParBoost, aClinBoost, aParTimer, aClinTimer,
                           tLastBS)))
    {
      ghost var oc, b := comp, Earlier();
      var lamRel := RelapseRate(hyp, theta.ff);
      // The move is drawn with the lagged force of infection that the shift
      // below brings to the front of the buffers.
      var lamHLag := LagAfterShift(lamBiteTrack, lamBite) + LagAfterShift(lamRelTrack, lamRel);
      k := 0;
      if d.exits && comp.Some? {
        k := SampleMove(comp.value, theta, pow, lamHLag, d.u);
      }
      ShiftTracks(theta, lamBite, lamRel);
      Move(theta, k, d, oc, b);
    }

    /** The compartment part of state_mover once the event indicators are
        cleared: the exit when the exit draw succeeded, otherwise no change. */
    method Move(theta: Params, k: nat, d: MoveDraws, ghost oc: Option<Comp>, ghost b: Before)
      requires comp == oc && Earlier() == b
      requires (d.exits && comp.Some? ==> k < NumMoves(comp.value))
      modifies this`comp, this`hyp
      modifies this`iPCRNew, this`iLMNew, this`iDNew, this`actTreat, this`pqTreat, this`pqEffective
      modifies this`aPar, this`aClin, this`aParBoost, this`aClinBoost
      modifies this`aParTimer, this`aClinTimer, this`pqProph, this`tLastBS
      modifies this`pqOvertreat, this`pqOvertreat9m
      ensures Stepped(theta, oc, k, d, b)
    {
      ClearEvents();
      if d.exits && comp.Some? {
        Exit(theta, k, d);
      } else {
        Stays(this, theta, oc, k, d, b);
      }
    }

    /** The lag buffers of state_mover: the new bite rate and the relapse
        rate lamRel enter at the back, and the fronts drop out. */
    method ShiftTracks(theta: Params, lamBite: real, lamRel: real)
      requires TracksValid(theta) && theta.hTrack >= 1
      modifies this`lamBiteTrack, this`lamRelTrack
      ensures TracksValid(theta)
      ensures lamBiteTrack == Shifted(old(lamBiteTrack), lamBite)
      ensures lamRelTrack == Shifted(old(lamRelTrack), lamRel)
    {
      lamBiteTrack := lamBiteTrack[1..] + [lamBite];
      lamRelTrack := lamRelTrack[1..] + [lamRel];
    }

    /** The exit from the current compartment once the exit draw succeeded. */
    method Exit(theta: Params, k: nat, d: MoveDraws)
      requires d.exits && comp.Some? && EventsCleared() && k < NumMoves(comp.value)
      modifies this`comp, this`hyp
      modifies this`iPCRNew, this`iLMNew, this`iDNew, this`actTreat, this`pqTreat, this`pqEffective
      modifies this`aPar, this`aClin, this`aParBoost, this`aClinBoost
      modifies this`aParTimer, this`aClinTimer, this`pqProph, this`tLastBS
      ensures Stepped(theta, old(comp), k, d,
        old(Before(hyp, pqProph, aPar, aClin, aParBoost, aClinBoost, aParTimer, aClinTimer,
                   tLastBS)))
    {
      var c := comp.value;
      ghost var b := Earlier();
      if c in {S, IPCR, ILM} {
        ExitInfectable(theta, k, d);
      } else {
        ExitRecovery(c, theta, k, d);
        RecoveryStep(this, c, theta, k, d, b);
      }
    }

    /** The exit from S, I_PCR or I_LM. */
    method ExitInfectable(theta: Params, k: nat, d: MoveDraws)
      requires d.exits && comp.Some? && comp.value in {S, IPCR, ILM} && EventsCleared() && k < NumMoves(comp.value)
      modifies this`comp, this`hyp
      modifies this`iPCRNew, this`iLMNew, this`iDNew, this`actTreat, this`pqTreat, this`pqEffective
      modifies this`aPar, this`aClin, this`aParBoost, this`aClinBoost
      modifies this`aParTimer, this`aClinTimer, this`pqProph, this`tLastBS
      ensures Stepped(theta, old(comp), k, d,
        old(Before(hyp, pqProph, aPar, aClin, aParBoost, aClinBoost, aParTimer, aClinTimer,
                   tLastBS)))
    {
      var c := comp.value;
      ghost var b := Earlier();
      if c == S {
        ExitS(theta, k, d);
        SusceptibleStep(this, theta, k, d, b);
      } else if c == IPCR {
        ExitIPCR(theta, k, d);
        InfectedStep(this, IPCR, theta, k, d, b);
      } else {
        ExitILM(theta, k, d);
        InfectedStep(this, ILM, theta, k, d, b);
      }
    }

    /** The S block of state_mover after the exit draw succeeded: every move
        is a new infection and resets the time since the last blood-stage
        infection. */
    method ExitS(theta: Params, k: nat, d: MoveDraws)
      requires d.exits && comp == Some(S) && EventsCleared() && k < NumMoves(S)
      modifies this`comp, this`hyp
      modifies this`iPCRNew, this`iLMNew, this`iDNew, this`actTreat, this`pqTreat, this`pqEffective
      modifies this`aPar, this`aClin, this`aParBoost, this`aClinBoost
      modifies this`aParTimer, this`aClinTimer, this`pqProph, this`tLastBS
      ensures comp == Some(Moved(S, true, k, d.bsEff)) && actTreat == Treated(S, true, k)
      ensures iPCRNew && iLMNew == (k >= 1) && iDNew == (k >= 2)
      ensures pqTreat == PQGiven(theta.pqTreat, S, true, k, d.pqAvail, g6pdDeficient, pregnant, age)
      ensures !pqEffective && pqProph == old(pqProph) && tLastBS == Fin(0.0)
      ensures hyp == HypAfter(old(hyp), true, d.bite, old(pqProph), false)
      ensures aPar == BoostedLevel(old(aPar), old(aParBoost), true)
      ensures aClin == BoostedLevel(old(aClin), old(aClinBoost), true)
      ensures aParBoost == (old(aParBoost) && !(true)) && aClinBoost == (old(aClinBoost) && !(true))
      ensures aParTimer == BoostTimer(old(aParTimer), old(aParBoost), true, theta.uPar)
      ensures aClinTimer == BoostTimer(old(aClinTimer), old(aClinBoost), true, theta.uClin)
    {
      NewInf(theta, d.bite);
      tLastBS := Fin(0.0);
      SusceptibleMove(theta, k, d);
    }

    /** The moves out of S after the new-infection block: to I_PCR, I_LM or
        I_D, or treatment (k == 3), which moves to T only when the
        blood-stage drug works; its primaquine never counts as effective. */
    method SusceptibleMove(theta: Params, k: nat, d: MoveDraws)
      requires k < NumMoves(S) && comp == Some(S)
      requires !iPCRNew && !iLMNew && !iDNew && !actTreat && !pqTreat && !pqEffective
      modifies this`comp, this`iPCRNew, this`iLMNew, this`iDNew, this`actTreat
      modifies this`hyp, this`pqTreat, this`pqEffective, this`pqProph
      ensures comp == Some(Moved(S, true, k, d.bsEff)) && actTreat == Treated(S, true, k)
      ensures iPCRNew && iLMNew == (k >= 1) && iDNew == (k >= 2)
      ensures pqTreat == PQGiven(theta.pqTreat, S, true, k, d.pqAvail, g6pdDeficient, pregnant, age)
      ensures !pqEffective && hyp == old(hyp) && pqProph == old(pqProph)
    {
      if k == 0 {
        iPCRNew := true;
        comp := Some(IPCR);
      } else if k == 1 {
        iLMNew, iPCRNew := true, true;
        comp := Some(ILM);
      } else if k == 2 {
        iPCRNew, iLMNew, iDNew := true, true, true;
        comp := Some(ID);
      } else {
        actTreat := true;
        if d.bsEff {
          comp := Some(T);
        }
        iPCRNew, iLMNew, iDNew := true, true, true;
        AdminPQ(theta, false, d.pqAvail, d.pqEff);
      }
    }

    /** The I_PCR block of state_mover after the exit draw succeeded: move 0
        is recovery to S, every other move a new infection. */
    method ExitIPCR(theta: Params, k: nat, d: MoveDraws)
      requires d.exits && comp == Some(IPCR) && EventsCleared() && k < NumMoves(IPCR)
      modifies this`comp, this`hyp
      modifies this`iPCRNew, this`iLMNew, this`iDNew, this`actTreat, this`pqTreat, this`pqEffective
      modifies this`aPar, this`aClin, this`aParBoost, this`aClinBoost
      modifies this`aParTimer, this`aClinTimer, this`pqProph, this`tLastBS
      ensures comp == Some(Moved(IPCR, true, k, d.bsEff)) && actTreat == Treated(IPCR, true, k)
      ensures iPCRNew == iLMNew == (NewDepth(IPCR, true, k) >= 2) && iDNew == (NewDepth(IPCR, true, k) == 3)
      ensures tLastBS == if Treated(IPCR, true, k) then Fin(0.0) else old(tLastBS)
      ensures pqTreat == PQGiven(theta.pqTreat, IPCR, true, k, d.pqAvail, g6pdDeficient, pregnant, age)
      ensures pqEffective == PQWorks(theta.pqTreat, IPCR, true, k, d.pqAvail, d.pqEff, cyp2d6Low)
      ensures hyp == HypAfter(old(hyp), k >= 1, d.bite, old(pqProph), pqTreat && pqEffective)
      ensures pqProph == (old(pqProph) || (pqTreat && pqEffective))
      ensures aPar == BoostedLevel(old(aPar), old(aParBoost), k >= 1)
      ensures aClin == BoostedLevel(old(aClin), old(aClinBoost), k >= 1)
      ensures aParBoost == (old(aParBoost) && !(k >= 1)) && aClinBoost == (old(aClinBoost) && !(k >= 1))
      ensures aParTimer == BoostTimer(old(aParTimer), old(aParBoost), k >= 1, theta.uPar)
      ensures aClinTimer == BoostTimer(old(aClinTimer), old(aClinBoost), k >= 1, theta.uClin)
    {
      if k == 0 {
        comp := Some(S);
      } else {
        NewInf(theta, d.bite);
        InfectedMove(IPCR, theta, k, d);
      }
    }

    /** The I_LM block of state_mover after the exit draw succeeded: move 0
        is recovery to I_PCR, every other move a new infection. */
    method ExitILM(theta: Params, k: nat, d: MoveDraws)
      requires d.exits && comp == Some(ILM) && EventsCleared() && k < NumMoves(ILM)
      modifies this`comp, this`hyp
      modifies this`iPCRNew, this`iLMNew, this`iDNew, this`actTreat, this`pqTreat, this`pqEffective
      modifies this`aPar, this`aClin, this`aParBoost, this`aClinBoost
      modifies this`aParTimer, this`aClinTimer, this`pqProph, this`tLastBS
      ensures comp == Some(Moved(ILM, true, k, d.bsEff)) && actTreat == Treated(ILM, true, k)
      ensures iPCRNew == iLMNew == (NewDepth(ILM, true, k) >= 2) && iDNew == (NewDepth(ILM, true, k) == 3)
      ensures tLastBS == if Treated(ILM, true, k) then Fin(0.0) else old(tLastBS)
      ensures pqTreat == PQGiven(theta.pqTreat, ILM, true, k, d.pqAvail, g6pdDeficient, pregnant, age)
      ensures pqEffective == PQWorks(theta.pqTreat, ILM, true, k, d.pqAvail, d.pqEff, cyp2d6Low)
      ensures hyp == HypAfter(old(hyp), k >= 1, d.bite, old(pqProph), pqTreat && pqEffective)
      ensures pqProph == (old(pqProph) || (pqTreat && pqEffective))
      ensures aPar == BoostedLevel(old(aPar), old(aParBoost), k >= 1)
      ensures aClin == BoostedLevel(old(aClin), old(aClinBoost), k >= 1)
      ensures aParBoost == (old(aParBoost) && !(k >= 1)) && aClinBoost == (old(aClinBoost) && !(k >= 1))
      ensures aParTimer == BoostTimer(old(aParTimer), old(aParBoost), k >= 1, theta.uPar)
      ensures aClinTimer == BoostTimer(old(aClinTimer), old(aClinBoost), k >= 1, theta.uClin)
    {
      if k == 0 {
        comp := Some(IPCR);
      } else {
        NewInf(theta, d.bite);
        InfectedMove(ILM, theta, k, d);
      }
    }

    /** The infecting moves out of I_PCR or I_LM after the new-infection
        block: the stay, the moves to I_LM (from I_PCR) and I_D, and
        treatment (k == 4 from I_PCR, k == 3 from I_LM), which moves to T
        only when the blood-stage drug works and offers primaquine. */
    method InfectedMove(c: Comp, theta: Params, k: nat, d: MoveDraws)
      requires c in {IPCR, ILM} && 1 <= k < NumMoves(c)
      requires comp == Some(c)
      requires !iPCRNew && !iLMNew && !iDNew && !actTreat && !pqTreat && !pqEffective
      modifies this`comp, this`iPCRNew, this`iLMNew, this`iDNew, this`actTreat, this`tLastBS
      modifies this`hyp, this`pqTreat, this`pqEffective, this`pqProph
      ensures comp == Some(Moved(c, true, k, d.bsEff)) && actTreat == Treated(c, true, k)
      ensures iPCRNew == iLMNew == (NewDepth(c, true, k) >= 2) && iDNew == (NewDepth(c, true, k) == 3)
      ensures tLastBS == if Treated(c, true, k) then Fin(0.0) else old(tLastBS)
      ensures pqTreat == PQGiven(theta.pqTreat, c, true, k, d.pqAvail, g6pdDeficient, pregnant, age)
      ensures pqEffective == PQWorks(theta.pqTreat, c, true, k, d.pqAvail, d.pqEff, cyp2d6Low)
      ensures hyp == (if pqTreat && pqEffective then 0 else old(hyp))
      ensures pqProph == (old(pqProph) || (pqTreat && pqEffective))
    {
      var treat := if c == IPCR then 4 else 3;
      if k == 1 {
      } else if k == 2 && c == IPCR {
        iPCRNew, iLMNew := true, true;
        comp := Some(ILM);
      } else if k == treat - 1 {
        iPCRNew, iLMNew, iDNew := true, true, true;
        comp := Some(ID);
      } else {
        actTreat := true;
        if d.bsEff {
          comp := Some(T);
        }
        iPCRNew, iLMNew, iDNew := true, true, true;
        tLastBS := Fin(0.0);
        AdminPQ(theta, true, d.pqAvail, d.pqEff);
      }
    }

    /** The I_D, T and P blocks of state_mover after the exit draw
        succeeded: move 0 is recovery, move 1 a new infection. */
    method ExitRecovery(c: Comp, theta: Params, k: nat, d: MoveDraws)
      requires c in {ID, T, P}
      requires d.exits && comp == Some(c) && EventsCleared() && k < NumMoves(c)
      modifies this`comp, this`hyp, this`aPar, this`aClin, this`aParBoost, this`aClinBoost
      modifies this`aParTimer, this`aClinTimer
      ensures comp == Some(Moved(c, true, k, d.bsEff))
      ensures hyp == HypAfter(old(hyp), k == 1, d.bite, pqProph, false)
      ensures aPar == BoostedLevel(old(aPar), old(aParBoost), k == 1)
      ensures aClin == BoostedLevel(old(aClin), old(aClinBoost), k == 1)
      ensures aParBoost == (old(aParBoost) && !(k == 1)) && aClinBoost == (old(aClinBoost) && !(k == 1))
      ensures aParTimer == BoostTimer(old(aParTimer), old(aParBoost), k == 1, theta.uPar)
      ensures aClinTimer == BoostTimer(old(aClinTimer), old(aClinBoost), k == 1, theta.uClin)
    {
      if k == 1 {
        NewInf(theta, d.bite);
      } else if c == ID {
        comp := Some(ILM);
      } else if c == T {
        comp := Some(P);
      } else {
        comp := Some(S);
      }
    }

    /** ager: ageing, hypnozoite loss, immune decay, the maternal immunity
        cut-off at one year, the pregnancy clock of women, the refractory
        and prophylaxis timers and the time since the last blood-stage
        infection. hypLoss and conceives are the Bernoulli draws; a trial
        whose probability is 0 fails, so hypLoss is false when no batch is
        left after the cap. */
    method Ager(theta: Params, hypLoss: bool, conceives: bool)
      requires hyp >= 0
      requires hypLoss ==> MinInt(hyp, theta.kMax) > 0
      modifies this`age, this`hyp, this`aPar, this`aClin, this`aParMat, this`aClinMat
      modifies this`pregAge, this`pregnant, this`pregTimer
      modifies this`aParBoost, this`aClinBoost, this`aParTimer, this`aClinTimer
      modifies this`pqProph, this`pqProphTimer, this`tLastBS
      ensures age == old(age) + theta.tStep
      ensures hyp == MinInt(old(hyp), theta.kMax) - (if hypLoss then 1 else 0)
      ensures 0 <= hyp <= theta.kMax
      ensures aPar == Faded(old(aPar), theta.aParDecay) && aClin == Faded(old(aClin), theta.aClinDecay)
      ensures age < 365.0 ==> aParMat == Faded(old(aParMat), theta.matDecay) &&
                              aClinMat == Faded(old(aClinMat), theta.matDecay)
      ensures age >= 365.0 ==> aParMat == 0.0 && aClinMat == 0.0
      ensures gender == Female ==>
        pregAge == (18.0 * 365.0 < age < 40.0 * 365.0) &&
        (pregnant, pregTimer) == PregnancyStep(old(pregnant), old(pregTimer), pregAge, conceives)
      ensures gender == Female && pregnant ==> pregTimer <= 270.0
      ensures gender == Male ==>
        pregAge == old(pregAge) && pregnant == old(pregnant) && pregTimer == old(pregTimer)
      ensures (aParBoost, aParTimer) == Refractory(old(aParBoost), old(aParTimer), theta.tStep)
      ensures (aClinBoost, aClinTimer) == Refractory(old(aClinBoost), old(aClinTimer), theta.tStep)
      ensures (pqProph, pqProphTimer) == ProphylaxisClock(old(pqProph), old(pqProphTimer), theta.tStep)
      ensures tLastBS == if comp == Some(S) then Plus(old(tLastBS), 1.0) else old(tLastBS)
    {
      Grow(theta, hypLoss);
      Clocks(theta, conceives);
    }

    /** The first part of ager: ageing, hypnozoite loss and immune decay. */
    method Grow(theta: Params, hypLoss: bool)
      requires hyp >= 0
      requires hypLoss ==> MinInt(hyp, theta.kMax) > 0
      modifies this`age, this`hyp, this`aPar, this`aClin, this`aParMat, this`aClinMat
      ensures age == old(age) + theta.tStep
      ensures hyp == MinInt(old(hyp), theta.kMax) - (if hypLoss then 1 else 0)
      ensures 0 <= hyp <= theta.kMax
      ensures aPar == Faded(old(aPar), theta.aParDecay) && aClin == Faded(old(aClin), theta.aClinDecay)
      ensures age < 365.0 ==> aParMat == Faded(old(aParMat), theta.matDecay) &&
                              aClinMat == Faded(old(aClinMat), theta.matDecay)
      ensures age >= 365.0 ==> aParMat == 0.0 && aClinMat == 0.0
    {
      age := age + theta.tStep;
      LoseHypnozoites(theta, hypLoss);
      DecayImmunity(theta);
    }

    /** The second part of ager: the pregnancy clock of women, the
        refractory and prophylaxis timers and the time since the last
        blood-stage infection. */
    method Clocks(theta: Params, conceives: bool)
      modifies this`pregAge, this`pregnant, this`pregTimer
      modifies this`aParBoost, this`aClinBoost, this`aParTimer, this`aClinTimer
      modifies this`pqProph, this`pqProphTimer, this`tLastBS
      ensures gender == Female ==>
        pregAge == (18.0 * 365.0 < age < 40.0 * 365.0) &&
        (pregnant, pregTimer) == PregnancyStep(old(pregnant), old(pregTimer), pregAge, conceives)
      ensures gender == Female && pregnant ==> pregTimer <= 270.0
      ensures gender == Male ==>
        pregAge == old(pregAge) && pregnant == old(pregnant) && pregTimer == old(pregTimer)
      ensures (aParBoost, aParTimer) == Refractory(old(aParBoost), old(aParTimer), theta.tStep)
      ensures (aClinBoost, aClinTimer) == Refractory(old(aClinBoost), old(aClinTimer), theta.tStep)
      ensures (pqProph, pqProphTimer) == ProphylaxisClock(old(pqProph), old(pqProphTimer), theta.tStep)
      ensures tLastBS == if comp == Some(S) then Plus(old(tLastBS), 1.0) else old(tLastBS)
    {
      if gender == Female {
        PregnancyClock(conceives);
      }
      Timers(theta);
      if comp == Some(S) {
        tLastBS := Plus(tLastBS, 1.0);
      }
    }

    /** Hypnozoite part of ager: cap at K_max, then lose one batch. */
    method LoseHypnozoites(theta: Params, hypLoss: bool)
      requires hyp >= 0 && (hypLoss ==> MinInt(hyp, theta.kMax) > 0)
      modifies this`hyp
      ensures hyp == MinInt(old(hyp), theta.kMax) - (if hypLoss then 1 else 0)
      ensures 0 <= hyp <= theta.kMax
    {
      if hyp > theta.kMax {
        hyp := theta.kMax;
      }
      if hypLoss {
        hyp := hyp - 1;
      }
    }

    /** Immune decay of ager; maternal immunity is dropped from one year of
        age on. */
    method DecayImmunity(theta: Params)
      modifies this`aPar, this`aClin, this`aParMat, this`aClinMat
      ensures aPar == Faded(old(aPar), theta.aParDecay) && aClin == Faded(old(aClin), theta.aClinDecay)
      ensures age < 365.0 ==> aParMat == Faded(old(aParMat), theta.matDecay) &&
                              aClinMat == Faded(old(aClinMat), theta.matDecay)
      ensures age >= 365.0 ==> aParMat == 0.0 && aClinMat == 0.0
    {
      aPar := Faded(aPar, theta.aParDecay);
      aClin := Faded(aClin, theta.aClinDecay);
      if age < 365.0 {
        aParMat := Faded(aParMat, theta.matDecay);
        aClinMat := Faded(aClinMat, theta.matDecay);
      } else {
        aParMat := 0.0;
        aClinMat := 0.0;
      }
    }

    /** Pregnancy part of ager for a woman: child-bearing age is (18, 40)
        years; a pregnancy lasts until the timer passes 270 days. */
    method PregnancyClock(conceives: bool)
      modifies this`pregAge, this`pregnant, this`pregTimer
      ensures pregAge == (18.0 * 365.0 < age < 40.0 * 365.0)
      ensures (pregnant, pregTimer) == PregnancyStep(old(pregnant), old(pregTimer), pregAge, conceives)
      ensures pregnant ==> pregTimer <= 270.0
    {
      if 18.0 * 365.0 < age && age < 40.0 * 365.0 {
        pregAge := true;
      } else {
        pregAge := false;
      }
      if pregnant {
        pregTimer := pregTimer + 1.0;
      }
      if !pregnant {
        if pregAge {
          if conceives {
            pregnant := true;
            pregTimer := 0.0;
          }
        }
      }
      if pregnant {
        if pregTimer > 270.0 {
          pregnant := false;
          pregTimer := 0.0;
        }
      }
    }

    /** The refractory switches of immune boosting and the switch of
        primaquine prophylaxis: each running timer is lowered by one step
        and its switch flips once the timer is negative. */
    method Timers(theta: Params)
      modifies this`aParBoost, this`aClinBoost, this`aParTimer, this`aClinTimer
      modifies this`pqProph, this`pqProphTimer
      ensures (aParBoost, aParTimer) == Refractory(old(aParBoost), old(aParTimer), theta.tStep)
      ensures (aClinBoost, aClinTimer) == Refractory(old(aClinBoost), old(aClinTimer), theta.tStep)
      ensures (pqProph, pqProphTimer) == ProphylaxisClock(old(pqProph), old(pqProphTimer), theta.tStep)
    {
      if !aParBoost {
        aParTimer := aParTimer - theta.tStep;
        if aParTimer < 0.0 {
          aParBoost := true;
        }
      }
      if !aClinBoost {
        aClinTimer := aClinTimer - theta.tStep;
        if aClinTimer < 0.0 {
          aClinBoost := true;
        }
      }
      if pqProph {
        pqProphTimer := pqProphTimer - theta.tStep;
        if pqProphTimer < 0.0 {
          pqProph := false;
        }
      }
    }

    /** intervention_updater: nets are lost with a Bernoulli draw (lossDraw),
        IRS ends once the spraying is more than three years old, and one loop
        over the species recomputes the decay of the net and the spraying and
        the vector-control effects (w, y, z) for the combination in place. */
    method InterventionUpdater(theta: Params, lossDraw: bool)
      requires WellFormed(theta) && ArraysValid(theta)
      modifies this`llin, this`irs, this`llinAge, this`irsAge
      modifies rLlin, dLlin, sLlin, rIrs, dIrs, sIrs, wVC, yVC, zVC
      ensures llin == (old(llin) && !lossDraw)
      ensures irs == (old(irs) && !Above(old(irsAge), 1095.0))
      ensures llin ==> llinAge == Plus(old(llinAge), theta.tStep) &&
                       (rLlin[..], dLlin[..]) == DecayLLIN(theta, old(rLlin[..]), old(dLlin[..])) &&
                       sLlin[..] == Survival(rLlin[..], dLlin[..])
      ensures !llin ==> llinAge == old(llinAge) && rLlin[..] == old(rLlin[..]) &&
                        dLlin[..] == old(dLlin[..]) && sLlin[..] == old(sLlin[..])
      ensures irs ==> irsAge == Plus(old(irsAge), theta.tStep) &&
                      rIrs[..] == Scale(old(rIrs[..]), theta.pIRSDecay) &&
                      dIrs[..] == Scale(old(dIrs[..]), theta.pIRSDecay) &&
                      sIrs[..] == Survival(rIrs[..], dIrs[..])
      ensures !irs ==> irsAge == old(irsAge) && rIrs[..] == old(rIrs[..]) &&
                       dIrs[..] == old(dIrs[..]) && sIrs[..] == old(sIrs[..])
      ensures llin && !irs ==> (wVC[..], yVC[..], zVC[..]) == VCNetOnly(theta, sLlin[..], rLlin[..])
      ensures !llin && irs ==> (wVC[..], yVC[..], zVC[..]) == VCSprayOnly(theta, sIrs[..], rIrs[..])
      ensures llin && irs ==>
        (wVC[..], yVC[..], zVC[..]) == VCBoth(theta, sLlin[..], rLlin[..], sIrs[..], rIrs[..])
      ensures !llin && !irs ==> wVC[..] == Const(theta.nSpec, 1.0) &&
                                yVC[..] == Const(theta.nSpec, 1.0) && zVC[..] == Const(theta.nSpec, 0.0)
    {
      if llin {
        if lossDraw {
          llin := false;
        }
      }
      if Above(irsAge, 1095.0) {
        irs := false;
      }
      if llin && !irs {
        llinAge := Plus(llinAge, theta.tStep);
        NetOnlyLoop(theta, rLlin, dLlin, sLlin, wVC, yVC, zVC);
      } else if !llin && irs {
        irsAge := Plus(irsAge, theta.tStep);
        SprayOnlyLoop(theta, rIrs, dIrs, sIrs, wVC, yVC, zVC);
      } else if llin && irs {
        llinAge := Plus(llinAge, theta.tStep);
        irsAge := Plus(irsAge, theta.tStep);
        BothLoop(theta, rLlin, dLlin, sLlin, rIrs, dIrs, sIrs, wVC, yVC, zVC);
      } else {
        NeitherLoop(wVC, yVC, zVC);
      }
    }
  }

  /** Without an exit, or without a compartment, state_mover changes
      nothing but the cleared event indicators. */
  lemma Stays(ind: Person, theta: Params, oc: Option<Comp>, k: nat, d: MoveDraws, b: Before)
    requires ind.EventsCleared() && ind.comp == oc && ind.Earlier() == b
    requires !(oc.Some? && d.exits)
    ensures ind.Stepped(theta, oc, k, d, b)
  {
  }

  /** The S block ends in the state Stepped describes for a move out of S. */
  lemma SusceptibleStep(ind: Person, theta: Params, k: nat, d: MoveDraws, b: Before)
    requires d.exits && k < NumMoves(S) && !ind.pqOvertreat && !ind.pqOvertreat9m
    requires ind.comp == Some(Moved(S, true, k, d.bsEff)) && ind.actTreat == Treated(S, true, k)
    requires ind.iPCRNew && ind.iLMNew == (k >= 1) && ind.iDNew == (k >= 2)
    requires ind.pqTreat ==
             PQGiven(theta.pqTreat, S, true, k, d.pqAvail, ind.g6pdDeficient, ind.pregnant, ind.age)
    requires !ind.pqEffective && ind.pqProph == b.pqProph && ind.tLastBS == Fin(0.0)
    requires ind.hyp == HypAfter(b.hyp, true, d.bite, b.pqProph, false)
    requires ind.aPar == BoostedLevel(b.aPar, b.aParBoost, true)
    requires ind.aClin == BoostedLevel(b.aClin, b.aClinBoost, true)
    requires ind.aParBoost == (b.aParBoost && !(true)) && ind.aClinBoost == (b.aClinBoost && !(true))
    requires ind.aParTimer == BoostTimer(b.aParTimer, b.aParBoost, true, theta.uPar)
    requires ind.aClinTimer == BoostTimer(b.aClinTimer, b.aClinBoost, true, theta.uClin)
    ensures ind.Stepped(theta, Some(S), k, d, b)
  {
  }

  /** The I_PCR and I_LM blocks end in the state Stepped describes. */
  lemma InfectedStep(ind: Person, c: Comp, theta: Params, k: nat, d: MoveDraws, b: Before)
    requires c in {IPCR, ILM} && d.exits && k < NumMoves(c) && !ind.pqOvertreat && !ind.pqOvertreat9m
    requires ind.comp == Some(Moved(c, true, k, d.bsEff)) && ind.actTreat == Treated(c, true, k)
    requires ind.iPCRNew == ind.iLMNew == (NewDepth(c, true, k) >= 2)
    requires ind.iDNew == (NewDepth(c, true, k) == 3)
    requires ind.tLastBS == if Treated(c, true, k) then Fin(0.0) else b.tLastBS
    requires ind.pqTreat ==
             PQGiven(theta.pqTreat, c, true, k, d.pqAvail, ind.g6pdDeficient, ind.pregnant, ind.age)
    requires ind.pqEffective == PQWorks(theta.pqTreat, c, true, k, d.pqAvail, d.pqEff, ind.cyp2d6Low)
    requires ind.hyp == HypAfter(b.hyp, k >= 1, d.bite, b.pqProph, ind.pqTreat && ind.pqEffective)
    requires ind.pqProph == (b.pqProph || (ind.pqTreat && ind.pqEffective))
    requires ind.aPar == BoostedLevel(b.aPar, b.aParBoost, k >= 1)
    requires ind.aClin == BoostedLevel(b.aClin, b.aClinBoost, k >= 1)
    requires ind.aParBoost == (b.aParBoost && !(k >= 1)) && ind.aClinBoost == (b.aClinBoost && !(k >= 1))
    requires ind.aParTimer == BoostTimer(b.aParTimer, b.aParBoost, k >= 1, theta.uPar)
    requires ind.aClinTimer == BoostTimer(b.aClinTimer, b.aClinBoost, k >= 1, theta.uClin)
    ensures ind.Stepped(theta, Some(c), k, d, b)
  {
  }

  /** The I_D, T and P blocks end in the state Stepped describes. */
  lemma RecoveryStep(ind: Person, c: Comp, theta: Params, k: nat, d: MoveDraws, b: Before)
    requires c in {ID, T, P} && d.exits && k < NumMoves(c) && ind.EventsCleared()
    requires ind.comp == Some(Moved(c, true, k, d.bsEff))
    requires ind.pqProph == b.pqProph && ind.tLastBS == b.tLastBS
    requires ind.hyp == HypAfter(b.hyp, k == 1, d.bite, b.pqProph, false)
    requires ind.aPar == BoostedLevel(b.aPar, b.aParBoost, k == 1)
    requires ind.aClin == BoostedLevel(b.aClin, b.aClinBoost, k == 1)
    requires ind.aParBoost == (b.aParBoost && !(k == 1)) && ind.aClinBoost == (b.aClinBoost && !(k == 1))
    requires ind.aParTimer == BoostTimer(b.aParTimer, b.aParBoost, k == 1, theta.uPar)
    requires ind.aClinTimer == BoostTimer(b.aClinTimer, b.aClinBoost, k == 1, theta.uClin)
    ensures ind.Stepped(theta, Some(c), k, d, b)
  {
  }
}
