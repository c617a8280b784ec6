/** Pure parts of one step of the P. vivax individual-based model that both
    the SimTime-expiry variant (model/white/Individual.cpp) and the
    countdown-timer variant (model/Pv_mod/Individual.cpp) share: the
    competing-hazard weights of each compartment, the compartment reached by
    each move, the detection channels of new infections, the lagged buffers,
    the pregnancy clock and the per-species vector-control formulas.

    Random draws are inputs: one boolean per Bernoulli trial and one uniform
    number per competing-hazards sample. `pow` is a parameter because the
    model needs no property of it. */
module Dynamics {
  import opened Common
  import opened Compartments
  import opened Params
  import opened Detect
  import Hazard

  datatype Gender = Male | Female

  /** The random outcomes one call of state_mover consumes:
      exits   - the individual leaves its compartment this step
                (the negation of the Bernoulli trial with exp(-t_step*rate))
      u       - the uniform draw of the competing-hazards sample
      bite    - the new infection comes from a bite (leaves a hypnozoite batch)
      bsEff   - the blood-stage drug works
      pqAvail - primaquine is available
      pqEff   - primaquine works */
  datatype MoveDraws = MoveDraws(exits: bool, u: real, bite: bool, bsEff: bool,
                                 pqAvail: bool, pqEff: bool)

  /** Number of competing moves out of each compartment. */
  function NumMoves(c: Comp): (n: nat)
    ensures 2 <= n <= 5
  {
    match c
    case S => 4
    case IPCR => 5
    case ILM => 4
    case ID => 2
    case T => 2
    case P => 2
  }

  /** A Hill function of immunity as used for phi_LM, phi_D and d_PCR. */
  function Hill(lo: real, hi: real, immunity: real, inv50: real, k: real,
                pow: (real, real) -> real): real
  {
    lo + Div(hi - lo, 1.0 + pow(immunity * inv50, k))
  }

  /** Probability that a new blood-stage infection becomes LM-detectable. */
  function PhiLM(theta: Params, pow: (real, real) -> real, aPar: real, aParMat: real): real
  {
    Hill(theta.phiLMMin, theta.phiLMMax, aPar + aParMat, theta.aLM50pcInv, theta.kLM, pow)
  }

  /** Probability that an LM-detectable infection becomes clinical. */
  function PhiD(theta: Params, pow: (real, real) -> real, aClin: real, aClinMat: real): real
  {
    Hill(theta.phiDMin, theta.phiDMax, aClin + aClinMat, theta.aD50pcInv, theta.kD, pow)
  }

  /** Recovery rate from PCR-detectable infection: 1 / d_PCR. */
  function RPCR(theta: Params, pow: (real, real) -> real, aPar: real, aParMat: real): real
  {
    Div(1.0, Hill(theta.dPCRMin, theta.dPCRMax, aPar + aParMat, theta.aPCR50pcInv, theta.kPCR, pow))
  }

  /** Total exit rate of compartment c given the lagged force of infection. */
  function ExitRate(c: Comp, theta: Params, rPCR: real, lamH: real): real
  {
    match c
    case S => lamH
    case IPCR => lamH + rPCR
    case ILM => lamH + theta.rLM
    case ID => lamH + theta.rD
    case T => lamH + theta.rT
    case P => lamH + theta.rP
  }

  /** The competing-hazard weights of the moves out of c, in the order the
      program lists them. */
  function Weights(c: Comp, theta: Params, phiLM: real, phiD: real, rPCR: real,
                   lamH: real): (w: seq<real>)
    ensures |w| == NumMoves(c)
  {
    var r := Div(1.0, ExitRate(c, theta, rPCR, lamH));
    match c
    case S =>
      var p := phiLM * phiD;
      [1.0 - phiLM, phiLM * (1.0 - phiD), p * (1.0 - theta.treatBScover), p * theta.treatBScover]
    case IPCR =>
      var p := lamH * phiLM;
      var q := p * phiD;
      [rPCR * r, lamH * (1.0 - phiLM) * r, p * (1.0 - phiD) * r,
       q * (1.0 - theta.treatBScover) * r, q * theta.treatBScover * r]
    case ILM =>
      var p := lamH * phiD;
      [theta.rLM * r, lamH * (1.0 - phiD) * r, p * (1.0 - theta.treatBScover) * r,
       p * theta.treatBScover * r]
    case ID => [theta.rD * r, lamH * r]
    case T => [theta.rT * r, lamH * r]
    case P => [theta.rP * r, lamH * r]
  }

  lemma Sum1(a: real)
    ensures Hazard.Sum([a]) == a
  {
    assert [a][..0] == [];
  }

  lemma Sum2(a: real, b: real)
    ensures Hazard.Sum([a, b]) == a + b
  {
    assert [a, b][..1] == [a];
    Sum1(a);
  }

  lemma Sum3(a: real, b: real, c: real)
    ensures Hazard.Sum([a, b, c]) == a + b + c
  {
    assert [a, b, c][..2] == [a, b];
    Sum2(a, b);
  }

  lemma Sum4(a: real, b: real, c: real, d: real)
    ensures Hazard.Sum([a, b, c, d]) == a + b + c + d
  {
    assert [a, b, c, d][..3] == [a, b, c];
    Sum3(a, b, c);
  }

  lemma Sum5(a: real, b: real, c: real, d: real, e: real)
    ensures Hazard.Sum([a, b, c, d, e]) == a + b + c + d + e
  {
    assert [a, b, c, d, e][..4] == [a, b, c, d];
    Sum4(a, b, c, d);
  }

  lemma {:induction false} SplitIPCR(rPCR: real, lamH: real, phiLM: real, phiD: real, cov: real, r: real)
    ensures rPCR * r + lamH * (1.0 - phiLM) * r + lamH * phiLM * (1.0 - phiD) * r
            + lamH * phiLM * phiD * (1.0 - cov) * r + lamH * phiLM * phiD * cov * r
            == (rPCR + lamH) * r
  {
    var q := lamH * phiLM * phiD;
    assert q * (1.0 - cov) * r + q * cov * r == q * r;
    assert lamH * phiLM * (1.0 - phiD) * r + q * r == lamH * phiLM * r;
    assert lamH * (1.0 - phiLM) * r + lamH * phiLM * r == lamH * r;
  }

  lemma {:induction false} SplitILM(rLM: real, lamH: real, phiD: real, cov: real, r: real)
    ensures rLM * r + lamH * (1.0 - phiD) * r + lamH * phiD * (1.0 - cov) * r
            + lamH * phiD * cov * r == (rLM + lamH) * r
  {
    var p := lamH * phiD;
    assert p * (1.0 - cov) * r + p * cov * r == p * r;
    assert lamH * (1.0 - phiD) * r + p * r == lamH * r;
  }

  /** CH_sample assumes its weights add to 1: they do out of S always, and
      out of every other compartment whenever the exit rate is nonzero. */
  lemma {:induction false} WeightsSumToOne(c: Comp, theta: Params, phiLM: real, phiD: real,
                                           rPCR: real, lamH: real)
    requires c != S ==> ExitRate(c, theta, rPCR, lamH) != 0.0
    ensures Hazard.Sum(Weights(c, theta, phiLM, phiD, rPCR, lamH)) == 1.0
  {
    var w := Weights(c, theta, phiLM, phiD, rPCR, lamH);
    var out := ExitRate(c, theta, rPCR, lamH);
    var r := Div(1.0, out);
    var cov := theta.treatBScover;
    match c
    case S =>
      Sum4(w[0], w[1], w[2], w[3]);
      assert w == [w[0], w[1], w[2], w[3]];
      assert w[0] + w[1] == 1.0 - phiLM * phiD;
      assert phiLM * phiD * (1.0 - cov) + phiLM * phiD * cov == phiLM * phiD;
    case IPCR =>
      Sum5(w[0], w[1], w[2], w[3], w[4]);
      assert w == [w[0], w[1], w[2], w[3], w[4]];
      SplitIPCR(rPCR, lamH, phiLM, phiD, cov, r);
    case ILM =>
      Sum4(w[0], w[1], w[2], w[3]);
      assert w == [w[0], w[1], w[2], w[3]];
      SplitILM(theta.rLM, lamH, phiD, cov, r);
    case ID =>
      Sum2(w[0], w[1]);
      assert w == [w[0], w[1]];
      assert w[0] + w[1] == out * r;
    case T =>
      Sum2(w[0], w[1]);
      assert w == [w[0], w[1]];
      assert w[0] + w[1] == out * r;
    case P =>
      Sum2(w[0], w[1]);
      assert w == [w[0], w[1]];
      assert w[0] + w[1] == out * r;
  }

  /** Competing-hazards sample over a sequence of weights: CH_sample on a
      fresh array holding them. */
  method Sample(w: seq<real>, u: real) returns (k: nat)
    requires |w| > 0
    ensures k == Hazard.FirstHit(Hazard.PrefixSums(w), u) && k < |w|
  {
    var a := new real[|w|](i requires 0 <= i < |w| => w[i]);
    assert a[..] == w;
    k := Hazard.CHSample(a, u);
  }

  /** Compartment after state_mover when move k of c was drawn. */
  function Moved(c: Comp, exits: bool, k: nat, bsEff: bool): (r: Comp)
  {
    if !exits then c else
    match c
    case S => if k == 0 then IPCR else if k == 1 then ILM else if k == 2 then ID
              else if k == 3 && bsEff then T else S
    case IPCR => if k == 0 then S else if k == 2 then ILM else if k == 3 then ID
                 else if k == 4 && bsEff then T else IPCR
    case ILM => if k == 0 then IPCR else if k == 2 then ID
                else if k == 3 && bsEff then T else ILM
    case ID => if k == 0 then ILM else ID
    case T => if k == 0 then P else T
    case P => if k == 0 then S else P
  }

  /** The move is the front-line treatment move (blood-stage drug given). */
  function Treated(c: Comp, exits: bool, k: nat): (b: bool)
  {
    exits && ((c == S && k == 3) || (c == IPCR && k == 4) || (c == ILM && k == 3))
  }

  /** The move brings a new infection (do_new_inf is called). */
  function Infected(c: Comp, exits: bool, k: nat): (b: bool)
  {
    exits && (c == S || (c in {IPCR, ILM} && k >= 1) || (c in {ID, T, P} && k == 1))
  }

  /** Detection channels that see the new infection of this move. */
  function NewBits(c: Comp, exits: bool, k: nat): (bits: Bits)
  {
    if !exits then 0 else
    match c
    case S => if k == 0 then I_DETECT_PCR else if k == 1 then I_DETECT_PCR | I_DETECT_LM
              else if k <= 3 then ALL_DETECT else 0
    case IPCR => if k == 2 then I_DETECT_PCR | I_DETECT_LM else if k == 3 || k == 4 then ALL_DETECT else 0
    case ILM => if k == 2 || k == 3 then ALL_DETECT else 0
    case _ => 0
  }

  /** How far the new infection of this move is seen: 0 not at all, 1 by
      PCR, 2 also by light microscopy, 3 also as clinical disease (the three
      indicators I_PCR_new, I_LM_new and I_D_new of the countdown-timer
      variant). */
  function NewDepth(c: Comp, exits: bool, k: nat): (n: nat)
    ensures n <= 3
  {
    if !exits then 0 else
    match c
    case S => if k == 0 then 1 else if k == 1 then 2 else if k <= 3 then 3 else 0
    case IPCR => if k == 2 then 2 else if k == 3 || k == 4 then 3 else 0
    case ILM => if k == 2 || k == 3 then 3 else 0
    case _ => 0
  }

  /** The three indicators and the detection bit flags record the same
      events, channel by channel. */
  lemma NewDepthMatchesBits(c: Comp, exits: bool, k: nat)
    ensures InfectedNew(NewBits(c, exits, k), I_DETECT_PCR) <==> NewDepth(c, exits, k) >= 1
    ensures InfectedNew(NewBits(c, exits, k), I_DETECT_LM) <==> NewDepth(c, exits, k) >= 2
    ensures InfectedNew(NewBits(c, exits, k), I_DETECT_D) <==> NewDepth(c, exits, k) >= 3
  {
  }

  /** The move resets the time since the last blood-stage infection. */
  function ResetsLastBS(c: Comp, exits: bool, k: nat): (b: bool)
  {
    (exits && c == S) || Treated(c, exits, k)
  }

  /** state_mover makes at most one move along the compartment graph. */
  lemma MovedAtMostOne(c: Comp, exits: bool, k: nat, bsEff: bool)
    requires k < NumMoves(c)
    ensures AtMostOneMove(c, Moved(c, exits, k, bsEff))
    ensures Moved(c, exits, k, bsEff) != c ==> exits
  {
  }

  /** The moves out of I_D, T and P: move 0 recovers one stage (I_D to
      I_LM, T to P, P to S), move 1 is a new infection that leaves the
      compartment as it is; neither is seen by a detection channel, treats
      or resets the time since the last blood-stage infection. */
  lemma RecoveryMoves(c: Comp, k: nat, bsEff: bool)
    requires c in {ID, T, P} && k < NumMoves(c)
    ensures Infected(c, true, k) <==> k == 1
    ensures !Treated(c, true, k) && !ResetsLastBS(c, true, k)
    ensures NewBits(c, true, k) == 0 && NewDepth(c, true, k) == 0
    ensures Moved(c, true, k, bsEff) == (if k == 1 then c else if c == ID then ILM else if c == T then P else S)
  {
  }

  /** Every exit from S is a new detectable infection: PCR only into I_PCR,
      PCR and LM into I_LM, all three channels into I_D or treatment, and it
      resets the time since the last blood-stage infection. */
  lemma ExitFromS(k: nat, bsEff: bool)
    requires k < NumMoves(S)
    ensures ResetsLastBS(S, true, k) && Infected(S, true, k)
    ensures Moved(S, true, k, bsEff) == IPCR ==> NewBits(S, true, k) == I_DETECT_PCR
    ensures Moved(S, true, k, bsEff) == ILM ==> NewBits(S, true, k) == I_DETECT_PCR | I_DETECT_LM
    ensures Moved(S, true, k, bsEff) in {ID, T} ==> NewBits(S, true, k) == ALL_DETECT
    ensures Treated(S, true, k) ==> NewBits(S, true, k) == ALL_DETECT
  {
  }

  /** Risk of G6PD deficiency drawn at birth: hemizygous for males; homo- or
      heterozygous for females, i.e. at least one of two alleles. */
  function G6PDProbability(g: Gender, prev: real): (p: real)
    ensures g == Male ==> p == prev
    ensures g == Female ==> p == 1.0 - (1.0 - prev) * (1.0 - prev)
  {
    if g == Male then prev else prev * prev + 2.0 * prev * (1.0 - prev)
  }

  /** Push x at the back of a lagged buffer and drop its front. */
  function Shifted(track: seq<real>, x: real): (r: seq<real>)
    requires |track| >= 1
    ensures |r| == |track| && r[|r| - 1] == x
    ensures forall i :: 0 <= i < |r| - 1 ==> r[i] == track[i + 1]
  {
    track[1..] + [x]
  }

  /** The lagged value read after the shift: the old second element, or the
      new value when the buffer has length 1. */
  function LagAfterShift(track: seq<real>, x: real): (lag: real)
    requires |track| >= 1
    ensures lag == if |track| == 1 then x else track[1]
  {
    Shifted(track, x)[0]
  }

  /** Outcome of the pregnancy part of ager for a woman:
      (pregnant, preg_timer) after the step. */
  function PregnancyStep(pregnant: bool, timer: real, pregAge: bool, conceives: bool): (r: (bool, real))
    ensures r.0 ==> r.1 <= 270.0
    ensures !pregnant && !(pregAge && conceives) ==> r == (false, timer)
    ensures pregnant && timer + 1.0 > 270.0 ==> r == (false, 0.0)
    ensures pregnant && timer + 1.0 <= 270.0 ==> r == (true, timer + 1.0)
    ensures !pregnant && pregAge && conceives ==> r == (true, 0.0)
  {
    var t1 := if pregnant then timer + 1.0 else timer;
    var (p2, t2) := if !pregnant && pregAge && conceives then (true, 0.0) else (pregnant, t1);
    if p2 && t2 > 270.0 then (false, 0.0) else (p2, t2)
  }

  /** One step of decay of x towards the resting value rest, keeping the
      fraction p of the distance. */
  function Toward(rest: real, x: real, p: real): (y: real)
  {
    rest + (x - rest) * p
  }

  /** The relapse force of infection of hyp hypnozoite batches, each
      relapsing at rate ff. */
  function RelapseRate(hyp: int, ff: real): (r: real)
    ensures hyp == 0 ==> r == 0.0
  {
    hyp as real * ff
  }

  /** One step of decay of x towards 0. */
  function Faded(x: real, p: real): (y: real)
  {
    x * p
  }

  /** Vector-control decay of a net's repellency and killing towards the
      resting values (elementwise over species). */
  function DecayLLIN(theta: Params, r: seq<real>, d: seq<real>): (rd: (seq<real>, seq<real>))
    requires |r| == theta.nSpec && |d| == theta.nSpec && |theta.rLLINNet| == theta.nSpec
    ensures |rd.0| == theta.nSpec && |rd.1| == theta.nSpec
    ensures forall g :: 0 <= g < theta.nSpec ==>
      rd.0[g] - theta.rLLINNet[g] == (r[g] - theta.rLLINNet[g]) * theta.pPYRDecay &&
      rd.1[g] == d[g] * theta.pPYRDecay
  {
    (seq(theta.nSpec, g requires 0 <= g < theta.nSpec =>
        Toward(theta.rLLINNet[g], r[g], theta.pPYRDecay)),
     seq(theta.nSpec, g requires 0 <= g < theta.nSpec => Faded(d[g], theta.pPYRDecay)))
  }

  /** Survival 1 - r - d, elementwise. */
  function Survival(r: seq<real>, d: seq<real>): (s: seq<real>)
    requires |r| == |d|
    ensures |s| == |r| && forall g :: 0 <= g < |s| ==> s[g] + r[g] + d[g] == 1.0
  {
    seq(|r|, g requires 0 <= g < |r| => 1.0 - r[g] - d[g])
  }

  function Scale(x: seq<real>, f: real): (y: seq<real>)
    ensures |y| == |x| && forall g :: 0 <= g < |x| ==> y[g] == x[g] * f
  {
    seq(|x|, g requires 0 <= g < |x| => Faded(x[g], f))
  }

  function Const(n: nat, x: real): (y: seq<real>)
    ensures |y| == n && forall g :: 0 <= g < n ==> y[g] == x
  {
    seq(n, _ => x)
  }

  /** w and z of one species under a net only (bed-time share b of the
      bites, survival s and repellency r of the net); y equals w. */
  function NetW(b: real, s: real): (w: real)
  {
    1.0 - b + b * s
  }

  function NetZ(b: real, r: real): (z: real)
  {
    b * r
  }

  /** w, y and z of one species under IRS only (indoor share i, repellency r
      and survival s of the spraying). */
  function SprayW(i: real, r: real, s: real): (w: real)
  {
    1.0 - i + i * (1.0 - r) * s
  }

  function SprayY(i: real, r: real): (y: real)
  {
    1.0 - i + i * (1.0 - r)
  }

  function SprayZ(i: real, r: real): (z: real)
  {
    i * r
  }

  /** w, y and z of one species under a net and IRS. */
  function BothW(b: real, i: real, rI: real, sL: real, sI: real): (w: real)
  {
    1.0 - i + b * (1.0 - rI) * sL * sI + (i - b) * (1.0 - rI) * sI
  }

  function BothY(b: real, i: real, rI: real, sL: real): (y: real)
  {
    1.0 - i + b * (1.0 - rI) * sL + (i - b) * (1.0 - rI)
  }

  function BothZ(b: real, i: real, rI: real, rL: real): (z: real)
  {
    b * (1.0 - rI) * rL + i * rI
  }

  /** Per-species (w, y, z) of a person under a net only. */
  function VCNetOnly(theta: Params, sL: seq<real>, rL: seq<real>): (wyz: (seq<real>, seq<real>, seq<real>))
    requires WellFormed(theta) && |sL| == theta.nSpec && |rL| == theta.nSpec
    ensures |wyz.0| == |wyz.1| == |wyz.2| == theta.nSpec
    ensures wyz.1 == wyz.0
    ensures forall g :: 0 <= g < theta.nSpec ==>
      wyz.0[g] == 1.0 - theta.psiBed[g] * (1.0 - sL[g]) && wyz.2[g] == theta.psiBed[g] * rL[g]
  {
    var n := theta.nSpec;
    var w := seq(n, g requires 0 <= g < n => NetW(theta.psiBed[g], sL[g]));
    (w, w, seq(n, g requires 0 <= g < n => NetZ(theta.psiBed[g], rL[g])))
  }

  /** Per-species (w, y, z) of a person under IRS only. */
  function VCSprayOnly(theta: Params, sI: seq<real>, rI: seq<real>): (wyz: (seq<real>, seq<real>, seq<real>))
    requires WellFormed(theta) && |sI| == theta.nSpec && |rI| == theta.nSpec
    ensures |wyz.0| == |wyz.1| == |wyz.2| == theta.nSpec
    ensures forall g :: 0 <= g < theta.nSpec ==> wyz.1[g] == 1.0 - theta.psiIndoors[g] * rI[g]
    ensures forall g :: 0 <= g < theta.nSpec ==> wyz.2[g] == theta.psiIndoors[g] * rI[g]
  {
    var n, i := theta.nSpec, theta.psiIndoors;
    (seq(n, g requires 0 <= g < n => SprayW(i[g], rI[g], sI[g])),
     seq(n, g requires 0 <= g < n => SprayY(i[g], rI[g])),
     seq(n, g requires 0 <= g < n => SprayZ(i[g], rI[g])))
  }

  /** Per-species (w, y, z) of a person under both a net and IRS. */
  function VCBoth(theta: Params, sL: seq<real>, rL: seq<real>, sI: seq<real>, rI: seq<real>):
    (wyz: (seq<real>, seq<real>, seq<real>))
    requires WellFormed(theta)
    requires |sL| == theta.nSpec && |rL| == theta.nSpec && |sI| == theta.nSpec && |rI| == theta.nSpec
    ensures |wyz.0| == |wyz.1| == |wyz.2| == theta.nSpec
    ensures forall g :: 0 <= g < theta.nSpec ==>
      wyz.2[g] == theta.psiBed[g] * (1.0 - rI[g]) * rL[g] + theta.psiIndoors[g] * rI[g]
  {
    var n, b, i := theta.nSpec, theta.psiBed, theta.psiIndoors;
    (seq(n, g requires 0 <= g < n => BothW(b[g], i[g], rI[g], sL[g], sI[g])),
     seq(n, g requires 0 <= g < n => BothY(b[g], i[g], rI[g], sL[g])),
     seq(n, g requires 0 <= g < n => BothZ(b[g], i[g], rI[g], rL[g])))
  }

  /** The two-intervention formulas agree with IRS alone when the net has no
      effect (s_LLIN = 1, r_LLIN = 0). */
  lemma VCBothWithoutNetEffect(theta: Params, sI: seq<real>, rI: seq<real>)
    requires WellFormed(theta) && |sI| == theta.nSpec && |rI| == theta.nSpec
    ensures VCBoth(theta, Const(theta.nSpec, 1.0), Const(theta.nSpec, 0.0), sI, rI)
         == VCSprayOnly(theta, sI, rI)
  {
    var n := theta.nSpec;
    var a := VCBoth(theta, Const(n, 1.0), Const(n, 0.0), sI, rI);
    var b := VCSprayOnly(theta, sI, rI);
    forall g | 0 <= g < n
      ensures a.0[g] == b.0[g] && a.1[g] == b.1[g] && a.2[g] == b.2[g]
    {
      var bd, ins := theta.psiBed[g], theta.psiIndoors[g];
      calc {
        a.0[g];
        1.0 - ins + bd * (1.0 - rI[g]) * 1.0 * sI[g] + (ins - bd) * (1.0 - rI[g]) * sI[g];
        1.0 - ins + ins * (1.0 - rI[g]) * sI[g];
      }
      calc {
        a.1[g];
        1.0 - ins + bd * (1.0 - rI[g]) * 1.0 + (ins - bd) * (1.0 - rI[g]);
        1.0 - ins + ins * (1.0 - rI[g]);
      }
    }
    assert a.0 == b.0 && a.1 == b.1 && a.2 == b.2;
  }

  /** The two-intervention formulas agree with a net alone when the spraying
      has no effect (s_IRS = 1, r_IRS = 0), whatever the indoor share. */
  lemma VCBothWithoutSprayEffect(theta: Params, sL: seq<real>, rL: seq<real>)
    requires WellFormed(theta) && |sL| == theta.nSpec && |rL| == theta.nSpec
    ensures VCBoth(theta, sL, rL, Const(theta.nSpec, 1.0), Const(theta.nSpec, 0.0))
         == VCNetOnly(theta, sL, rL)
  {
    var n := theta.nSpec;
    var a := VCBoth(theta, sL, rL, Const(n, 1.0), Const(n, 0.0));
    var b := VCNetOnly(theta, sL, rL);
    forall g | 0 <= g < n
      ensures a.0[g] == b.0[g] && a.1[g] == b.1[g] && a.2[g] == b.2[g]
    {
      var bd, ins := theta.psiBed[g], theta.psiIndoors[g];
      calc {
        a.0[g];
        1.0 - ins + bd * (1.0 - 0.0) * sL[g] * 1.0 + (ins - bd) * (1.0 - 0.0) * 1.0;
        1.0 - bd + bd * sL[g];
      }
      calc {
        a.1[g];
        1.0 - ins + bd * (1.0 - 0.0) * sL[g] + (ins - bd) * (1.0 - 0.0);
        1.0 - bd + bd * sL[g];
      }
    }
    assert a.0 == b.0 && a.1 == b.1 && a.2 == b.2;
  }

  /** Primaquine is given (PQ_treat) in this step: only on a treatment move,
      only when the availability draw succeeds, and only when no exclusion
      rule applies. */
  function PQGiven(rg: PQRegimen, c: Comp, exits: bool, k: nat, avail: bool,
                   g6pdDeficient: bool, pregnant: bool, age: real): (b: bool)
  {
    Treated(c, exits, k) && avail &&
    !PQVetoed(rg.g6pdRisk, g6pdDeficient, rg.pregRisk, pregnant, age, rg.lowAge)
  }

  /** Primaquine works (PQ_effective) in this step: on a treatment move with
      primaquine available, the efficacy draw succeeds, the move is not the
      one out of S (do_pq_admin(false) there) and the CYP2D6 rule does not
      apply. */
  function PQWorks(rg: PQRegimen, c: Comp, exits: bool, k: nat, avail: bool,
                   effDraw: bool, cyp2d6Low: bool): (b: bool)
  {
    Treated(c, exits, k) && avail && effDraw && c != S && !(rg.cyp2d6Risk == 1 && cyp2d6Low)
  }

  /** The hypnozoite count after state_mover: a new infection from a bite
      adds one batch unless the individual is PQ-protected, and primaquine
      given and working then clears them all. */
  function HypAfter(hyp: int, infected: bool, bite: bool, protected: bool, cleared: bool): (h: int)
  {
    if cleared then 0 else hyp + (if infected && bite && !protected then 1 else 0)
  }

  /** An immunity level after state_mover: a new infection boosts it by one
      when boosting is enabled. */
  function BoostedLevel(a: real, boost: bool, infected: bool): (r: real)
  {
    if infected && boost then a + 1.0 else a
  }

  /** A step changes the hypnozoite count only in three ways: one more batch
      after a bite-borne infection of an unprotected individual, all of them
      cleared by primaquine, or not at all. */
  lemma HypnozoiteStep(hyp: int, infected: bool, bite: bool, protected: bool, cleared: bool)
    requires hyp >= 0
    ensures var h := HypAfter(hyp, infected, bite, protected, cleared);
      h >= 0 && (h == 0 || hyp <= h <= hyp + 1)
    ensures var h := HypAfter(hyp, infected, bite, protected, cleared);
      h == hyp + 1 <==> !cleared && infected && bite && !protected
    ensures var h := HypAfter(hyp, infected, bite, protected, cleared);
      h < hyp ==> cleared && h == 0
  {
  }

  /** Primaquine never reaches an excluded individual and is only given on a
      treatment move; it never works on the way out of S, so a step out of S
      never removes hypnozoites. */
  lemma PrimaquineRules(rg: PQRegimen, c: Comp, exits: bool, k: nat, avail: bool, effDraw: bool,
                        g6pdDeficient: bool, pregnant: bool, age: real, cyp2d6Low: bool)
    ensures PQGiven(rg, c, exits, k, avail, g6pdDeficient, pregnant, age) ==>
      Treated(c, exits, k) && avail &&
      !(rg.g6pdRisk == 1 && g6pdDeficient) && !(rg.pregRisk == 1 && pregnant) && age >= rg.lowAge
    ensures PQWorks(rg, c, exits, k, avail, effDraw, cyp2d6Low) ==>
      c != S && Treated(c, exits, k) && !(rg.cyp2d6Risk == 1 && cyp2d6Low)
    ensures (Treated(c, exits, k) && avail && !(rg.g6pdRisk == 1 && g6pdDeficient) &&
             !(rg.pregRisk == 1 && pregnant) && age >= rg.lowAge) ==>
      PQGiven(rg, c, exits, k, avail, g6pdDeficient, pregnant, age)
  {
  }

  /** The move drawn by the competing-hazards sample of state_mover for an
      individual in compartment c with the given immunity levels and lagged
      force of infection lamH: the first move whose cumulative weight
      reaches u. */
  function MoveOf(c: Comp, theta: Params, pow: (real, real) -> real,
                  aPar: real, aParMat: real, aClin: real, aClinMat: real, lamH: real, u: real): (k: nat)
    ensures k < NumMoves(c)
  {
    Hazard.FirstHit(Hazard.PrefixSums(Weights(c, theta, PhiLM(theta, pow, aPar, aParMat),
      PhiD(theta, pow, aClin, aClinMat), RPCR(theta, pow, aPar, aParMat), lamH)), u)
  }

}
