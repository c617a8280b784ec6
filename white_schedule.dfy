/** The intervention schedule of the SimTime-expiry variant
    (model/white/Intervention.cpp): the entries taken from the coverage
    matrix, and the switches of the front-line treatment policy that
    distribute makes on the dates of those entries.

    The matrix is the in-memory table the constructor reads from the
    coverage file: one row per parameter (row 0 the year of the round,
    then the parameters of each intervention) and one column per round. */
module WhiteSchedule {
  import opened Common
  import opened Params

  /** Rows of the coverage matrix. */
  const N_ROWS: nat := 55

  // The row holding the coverage of each intervention: a column adds an
  // entry for that intervention when this cell is > -0.5.
  const ROW_LLIN: nat := 1
  const ROW_IRS: nat := 2
  const ROW_BS: nat := 4
  const ROW_PQ: nat := 8
  const ROW_MDA_BS: nat := 18
  const ROW_MDA_PQ: nat := 21
  const ROW_MSAT: nat := 31
  const ROW_SSAT: nat := 43

  /** A vector-control round: its date and coverage. */
  datatype CoverEntry = CoverEntry(date: int, cover: real)
  /** A front-line blood-stage policy, in force from `on` until `off`. */
  datatype BSEntry = BSEntry(on: int, off: int, rg: BSRegimen)
  /** A front-line primaquine policy, in force from `on` until `off`. */
  datatype PQEntry = PQEntry(on: int, off: int, rg: PQRegimen)
  /** An MDA round with blood-stage drugs only. */
  datatype MassBSEntry = MassBSEntry(date: int, rg: BSRegimen)
  /** An MDA round with blood-stage drugs and primaquine. */
  datatype MassPQEntry = MassPQEntry(date: int, rg: PQRegimen)
  /** An MSAT round: regimen, diagnostic (1 RDT, 2 PCR) and its sensitivity. */
  datatype MSATEntry = MSATEntry(date: int, rg: PQRegimen, mode: int, sens: real)
  /** An SSAT round: regimen, and the sensitivity and specificity of the screen. */
  datatype SSATEntry = SSATEntry(date: int, rg: PQRegimen, sens: real, spec: real)

  // ---------------------------------------------------------------------
  // Reading a column

  /** The matrix has N_ROWS rows of n + 1 cells each, as the reader fills them. */
  predicate Shaped(cov: seq<seq<real>>, n: nat)
  {
    |cov| == N_ROWS && forall r :: 0 <= r < N_ROWS ==> |cov[r]| == n + 1
  }

  /** Column j of the matrix (0.0 where a row is too short, which a
      shaped matrix never is for j < n). */
  function Column(cov: seq<seq<real>>, j: nat): (c: seq<real>)
  {
    seq(|cov|, r requires 0 <= r < |cov| => if j < |cov[r]| then cov[r][j] else 0.0)
  }

  /** Cell r of a column; a column always has N_ROWS cells here. */
  function Cell(c: seq<real>, r: nat): real
  {
    if r < |c| then c[r] else 0.0
  }

  /** SimDate::origin() + SimTime::fromYearsN(years), in whole days. */
  function YearsToDate(years: real): int
  {
    FromDays(years * 365.0)
  }

  /** SimTime::fromDays(days) stored as a whole number of days. */
  function Days(days: real): real
  {
    FromDays(days) as real
  }

  /** A primaquine regimen: the coverage in row cover, then from row eff
      the blood-stage efficacy and prophylaxis, primaquine availability,
      efficacy and prophylaxis, the G6PD, CYP2D6 and pregnancy rules
      (converted to int) and the lower age. */
  function RegimenAt(c: seq<real>, cover: nat, eff: nat): PQRegimen
  {
    PQRegimen(Cell(c, cover), Cell(c, eff), Days(Cell(c, eff + 1)),
              Cell(c, eff + 2), Cell(c, eff + 3), Days(Cell(c, eff + 4)),
              FromDays(Cell(c, eff + 5)), FromDays(Cell(c, eff + 6)),
              FromDays(Cell(c, eff + 7)), Cell(c, eff + 8))
  }

  function LlinOf(c: seq<real>): CoverEntry
  {
    CoverEntry(YearsToDate(Cell(c, 0)), Cell(c, ROW_LLIN))
  }

  function IrsOf(c: seq<real>): CoverEntry
  {
    CoverEntry(YearsToDate(Cell(c, 0)), Cell(c, ROW_IRS))
  }

  function BSOf(c: seq<real>): BSEntry
  {
    BSEntry(YearsToDate(Cell(c, 0)), YearsToDate(Cell(c, 3)),
            BSRegimen(Cell(c, 4), Cell(c, 5), Days(Cell(c, 6))))
  }

  function PQOf(c: seq<real>): PQEntry
  {
    PQEntry(YearsToDate(Cell(c, 0)), YearsToDate(Cell(c, 7)), RegimenAt(c, 8, 9))
  }

  function MassBSOf(c: seq<real>): MassBSEntry
  {
    MassBSEntry(YearsToDate(Cell(c, 0)), BSRegimen(Cell(c, 18), Cell(c, 19), Days(Cell(c, 20))))
  }

  function MassPQOf(c: seq<real>): MassPQEntry
  {
    MassPQEntry(YearsToDate(Cell(c, 0)), RegimenAt(c, 21, 22))
  }

  /** MSAT rows: coverage 31, diagnostic 32, sensitivity 33, then the
      regimen's remaining parameters from row 34. */
  function MSATOf(c: seq<real>): MSATEntry
  {
    MSATEntry(YearsToDate(Cell(c, 0)), RegimenAt(c, 31, 34), FromDays(Cell(c, 32)), Cell(c, 33))
  }

  /** SSAT rows: coverage 43, sensitivity 44, specificity 45, then the
      regimen's remaining parameters from row 46. */
  function SSATOf(c: seq<real>): SSATEntry
  {
    SSATEntry(YearsToDate(Cell(c, 0)), RegimenAt(c, 43, 46), Cell(c, 44), Cell(c, 45))
  }

  // ---------------------------------------------------------------------
  // Which columns give entries

  /** A column gives an entry for the intervention with coverage row key
      when its year cell and its coverage cell are both > -0.5. */
  predicate Kept(c: seq<real>, key: nat)
  {
    Cell(c, 0) > -0.5 && Cell(c, key) > -0.5
  }

  /** The first n columns that give an entry for key, in increasing order. */
  function KeptColumns(cov: seq<seq<real>>, n: nat, key: nat): (ks: seq<nat>)
  {
    if n == 0 then []
    else
      var ks := KeptColumns(cov, n - 1, key);
      if Kept(Column(cov, n - 1), key) then ks + [n - 1] else ks
  }

  /** The kept columns are exactly the columns below n whose year cell and
      coverage cell are > -0.5, each once, in increasing order. */
  lemma {:induction false} KeptColumnsSpec(cov: seq<seq<real>>, n: nat, key: nat)
    ensures var ks := KeptColumns(cov, n, key);
      (forall j: nat :: j in ks <==> j < n && Kept(Column(cov, j), key)) &&
      (forall a, b :: 0 <= a < b < |ks| ==> ks[a] < ks[b])
  {
    if n > 0 {
      KeptColumnsSpec(cov, n - 1, key);
      var ks := KeptColumns(cov, n - 1, key);
      assert forall a :: 0 <= a < |ks| ==> ks[a] in ks;
    }
  }

  /** The entries for key among the first n columns, built by f, in column
      order. */
  function Selected<T>(cov: seq<seq<real>>, n: nat, key: nat, f: seq<real> -> T): (es: seq<T>)
  {
    var ks := KeptColumns(cov, n, key);
    seq(|ks|, i requires 0 <= i < |ks| => f(Column(cov, ks[i])))
  }

  /** Taking one more column appends its entry when it is kept. */
  lemma SelectedStep<T>(cov: seq<seq<real>>, n: nat, key: nat, f: seq<real> -> T)
    ensures Selected(cov, n + 1, key, f) ==
            Selected(cov, n, key, f) + (if Kept(Column(cov, n), key) then [f(Column(cov, n))] else [])
  {
  }

  /** Every entry comes from a kept column, and every kept column gives
      exactly one entry, at the position of its rank among the kept
      columns. */
  lemma SelectedEntries<T>(cov: seq<seq<real>>, n: nat, key: nat, f: seq<real> -> T, j: nat)
    requires j < n && Kept(Column(cov, j), key)
    ensures exists i :: 0 <= i < |Selected(cov, n, key, f)| && KeptColumns(cov, n, key)[i] == j &&
                        Selected(cov, n, key, f)[i] == f(Column(cov, j))
  {
    var ks := KeptColumns(cov, n, key);
    KeptColumnsSpec(cov, n, key);
    assert j in ks;
    var i :| 0 <= i < |ks| && ks[i] == j;
    assert Selected(cov, n, key, f)[i] == f(Column(cov, j));
  }

  // ---------------------------------------------------------------------
  // Policy switches

  /** The primaquine policy restored at the end of a front-line primaquine
      period: no coverage or efficacy, 10 days of prophylaxis, every
      exclusion rule on and a lower age of 180 days. */
  const PQ_BASELINE: PQRegimen := PQRegimen(0.0, 0.0, 10.0, 0.0, 0.0, 10.0, 1, 1, 1, 180.0)

  /** Start of a front-line blood-stage policy. */
  function StartBS(theta: Params, rg: BSRegimen): Params
  {
    theta.(bsTreat := rg, treatBScover := rg.bsCover, treatBSeff := rg.bsEff,
           treatPQavail := 0.0, rP := Div(1.0, rg.bsProph))
  }

  /** Return to the baseline blood-stage treatment. */
  function EndBS(theta: Params): Params
  {
    theta.(treatBScover := theta.bsTreatBase.bsCover, treatBSeff := theta.bsTreatBase.bsEff,
           treatPQavail := 0.0, rP := Div(1.0, theta.bsTreatBase.bsProph))
  }

  /** Start of a front-line primaquine policy. */
  function StartPQ(theta: Params, rg: PQRegimen): Params
  {
    theta.(pqTreat := rg, treatBScover := rg.bsCover, treatBSeff := rg.bsEff,
           treatPQavail := rg.pqAvail, rP := Div(1.0, rg.bsProph))
  }

  /** End of a front-line primaquine policy: the baseline primaquine policy
      and the baseline blood-stage treatment. */
  function EndPQ(theta: Params): Params
  {
    EndBS(theta).(pqTreat := PQ_BASELINE)
  }

  /** The last index of s whose date is `date`, or -1 when there is none. */
  function LastOn(s: seq<int>, date: int): (m: int)
    ensures -1 <= m < |s|
    ensures m == -1 <==> forall k :: 0 <= k < |s| ==> s[k] != date
    ensures m >= 0 ==> s[m] == date && forall k :: m < k < |s| ==> s[k] != date
  {
    if |s| == 0 then -1
    else if s[|s| - 1] == date then |s| - 1
    else LastOn(s[..|s| - 1], date)
  }

  function BSOn(bs: seq<BSEntry>): (s: seq<int>)
    ensures |s| == |bs| && forall k :: 0 <= k < |bs| ==> s[k] == bs[k].on
  {
    seq(|bs|, k requires 0 <= k < |bs| => bs[k].on)
  }

  predicate BSOff(bs: seq<BSEntry>, date: int)
  {
    exists k :: 0 <= k < |bs| && bs[k].off == date
  }

  function PQOn(pq: seq<PQEntry>): (s: seq<int>)
    ensures |s| == |pq| && forall k :: 0 <= k < |pq| ==> s[k] == pq[k].on
  {
    seq(|pq|, k requires 0 <= k < |pq| => pq[k].on)
  }

  predicate PQOff(pq: seq<PQEntry>, date: int)
  {
    exists k :: 0 <= k < |pq| && pq[k].off == date
  }

  /** The policy in force after the switches of one date: the last
      blood-stage start of that date, then any blood-stage end, then the
      last primaquine start, then any primaquine end. */
  function Policy(theta: Params, date: int, bs: seq<BSEntry>, pq: seq<PQEntry>): Params
  {
    var m1 := LastOn(BSOn(bs), date);
    var t1 := if m1 >= 0 then StartBS(theta, bs[m1].rg) else theta;
    var t2 := if BSOff(bs, date) then EndBS(t1) else t1;
    var m3 := LastOn(PQOn(pq), date);
    var t3 := if m3 >= 0 then StartPQ(t2, pq[m3].rg) else t2;
    if PQOff(pq, date) then EndPQ(t3) else t3
  }

  /** The end of a primaquine policy restores the baseline regimen (every
      exclusion rule on, lower age 180 days), no primaquine availability and
      the baseline blood-stage treatment, whatever else happens that date. */
  lemma PQEndRestoresBaseline(theta: Params, date: int, bs: seq<BSEntry>, pq: seq<PQEntry>)
    requires PQOff(pq, date)
    ensures var t := Policy(theta, date, bs, pq);
      t.pqTreat == PQ_BASELINE && t.pqTreat.g6pdRisk == 1 && t.pqTreat.cyp2d6Risk == 1 &&
      t.pqTreat.pregRisk == 1 && t.pqTreat.lowAge == 180.0 && t.treatPQavail == 0.0 &&
      t.treatBScover == theta.bsTreatBase.bsCover && t.treatBSeff == theta.bsTreatBase.bsEff &&
      t.rP == Div(1.0, theta.bsTreatBase.bsProph)
  {
  }

  /** A blood-stage start (with no primaquine switch that date) puts the
      last starting regimen in force and sets treat_PQavail to 0. It leaves
      the primaquine regimen as it was: treat_PQavail is read nowhere, and
      do_pq_admin takes availability from PQ_treat_PQavail, so primaquine
      given before the start is still given after it. */
  lemma BSStartClearsTreatPQavail(theta: Params, date: int, bs: seq<BSEntry>, pq: seq<PQEntry>, m: nat)
    requires m < |bs| && bs[m].on == date && forall k :: m < k < |bs| ==> bs[k].on != date
    requires !BSOff(bs, date) && !PQOff(pq, date) && forall k :: 0 <= k < |pq| ==> pq[k].on != date
    ensures var t := Policy(theta, date, bs, pq);
      t.treatPQavail == 0.0 && t.bsTreat == bs[m].rg &&
      t.treatBScover == bs[m].rg.bsCover && t.treatBSeff == bs[m].rg.bsEff &&
      t.rP == Div(1.0, bs[m].rg.bsProph) &&
      t.pqTreat == theta.pqTreat
  {
    assert LastOn(BSOn(bs), date) == m;
  }

  /** A primaquine start with no primaquine end that date puts the last
      starting regimen in force. */
  lemma PQStartTakesEffect(theta: Params, date: int, bs: seq<BSEntry>, pq: seq<PQEntry>, m: nat)
    requires m < |pq| && pq[m].on == date && forall k :: m < k < |pq| ==> pq[k].on != date
    requires !PQOff(pq, date)
    ensures var t := Policy(theta, date, bs, pq);
      t.pqTreat == pq[m].rg && t.treatPQavail == pq[m].rg.pqAvail &&
      t.treatBScover == pq[m].rg.bsCover && t.treatBSeff == pq[m].rg.bsEff &&
      t.rP == Div(1.0, pq[m].rg.bsProph)
  {
    assert LastOn(PQOn(pq), date) == m;
  }

  /** Switching touches only the policy fields, and a date with no switch
      changes nothing. */
  lemma PolicyFrame(theta: Params, date: int, bs: seq<BSEntry>, pq: seq<PQEntry>)
    ensures Policy(theta, date, bs, pq).(bsTreat := theta.bsTreat, pqTreat := theta.pqTreat,
              treatBScover := theta.treatBScover, treatBSeff := theta.treatBSeff,
              treatPQavail := theta.treatPQavail, rP := theta.rP) == theta
    ensures (forall k :: 0 <= k < |bs| ==> bs[k].on != date && bs[k].off != date) &&
            (forall k :: 0 <= k < |pq| ==> pq[k].on != date && pq[k].off != date) ==>
            Policy(theta, date, bs, pq) == theta
  {
  }

  /** Applying the switches of a date twice is the same as once. */
  lemma PolicyIdempotent(theta: Params, date: int, bs: seq<BSEntry>, pq: seq<PQEntry>)
    ensures Policy(Policy(theta, date, bs, pq), date, bs, pq) == Policy(theta, date, bs, pq)
  {
    var m1, m3 := LastOn(BSOn(bs), date), LastOn(PQOn(pq), date);
    var t := Policy(theta, date, bs, pq);
    if PQOff(pq, date) {
      assert Policy(t, date, bs, pq) == EndPQ(t);
    } else if m3 >= 0 {
      assert Policy(t, date, bs, pq) == StartPQ(if BSOff(bs, date) then EndBS(t) else t, pq[m3].rg);
    } else if BSOff(bs, date) {
      assert Policy(t, date, bs, pq) == EndBS(if m1 >= 0 then StartBS(t, bs[m1].rg) else t);
    }
  }

  /** The blood-stage starts of one date: the last one is in force. */
  method StartBSLoop(theta: Params, date: int, bs: seq<BSEntry>) returns (theta': Params)
    ensures var l := LastOn(BSOn(bs), date);
      theta' == if l >= 0 then StartBS(theta, bs[l].rg) else theta
  {
    theta' := theta;
    var m := 0;
    while m < |bs|
      invariant 0 <= m <= |bs|
      invariant var l := LastOn(BSOn(bs)[..m], date);
        theta' == if l >= 0 then StartBS(theta, bs[l].rg) else theta
    {
      assert BSOn(bs)[..m + 1][..m] == BSOn(bs)[..m];
      if date == bs[m].on {
        theta' := StartBS(theta', bs[m].rg);
      }
      m := m + 1;
    }
    assert BSOn(bs)[..m] == BSOn(bs);
  }

  /** The blood-stage ends of one date. */
  method EndBSLoop(theta: Params, date: int, bs: seq<BSEntry>) returns (theta': Params)
    ensures theta' == if BSOff(bs, date) then EndBS(theta) else theta
  {
    theta' := theta;
    var off := false;
    var m := 0;
    while m < |bs|
      invariant 0 <= m <= |bs|
      invariant off <==> exists k :: 0 <= k < m && bs[k].off == date
      invariant theta' == if off then EndBS(theta) else theta
    {
      if date == bs[m].off {
        theta' := EndBS(theta');
        off := true;
      }
      m := m + 1;
    }
  }

  /** The primaquine starts of one date: the last one is in force. */
  method StartPQLoop(theta: Params, date: int, pq: seq<PQEntry>) returns (theta': Params)
    ensures var l := LastOn(PQOn(pq), date);
      theta' == if l >= 0 then StartPQ(theta, pq[l].rg) else theta
  {
    theta' := theta;
    var m := 0;
    while m < |pq|
      invariant 0 <= m <= |pq|
      invariant var l := LastOn(PQOn(pq)[..m], date);
        theta' == if l >= 0 then StartPQ(theta, pq[l].rg) else theta
    {
      assert PQOn(pq)[..m + 1][..m] == PQOn(pq)[..m];
      if date == pq[m].on {
        theta' := StartPQ(theta', pq[m].rg);
      }
      m := m + 1;
    }
    assert PQOn(pq)[..m] == PQOn(pq);
  }

  /** The primaquine ends of one date. */
  method EndPQLoop(theta: Params, date: int, pq: seq<PQEntry>) returns (theta': Params)
    ensures theta' == if PQOff(pq, date) then EndPQ(theta) else theta
  {
    theta' := theta;
    var off := false;
    var m := 0;
    while m < |pq|
      invariant 0 <= m <= |pq|
      invariant off <==> exists k :: 0 <= k < m && pq[k].off == date
      invariant theta' == if off then EndPQ(theta) else theta
    {
      if date == pq[m].off {
        theta' := EndPQ(theta');
        off := true;
      }
      m := m + 1;
    }
  }

  /** The front-line treatment policy switches of one date, in the
      program's order: every blood-stage start on that date, every
      blood-stage end, every primaquine start, every primaquine end. */
  method SwitchPolicies(theta: Params, date: int, bs: seq<BSEntry>, pq: seq<PQEntry>)
    returns (theta': Params)
    ensures theta' == Policy(theta, date, bs, pq)
  {
    theta' := StartBSLoop(theta, date, bs);
    theta' := EndBSLoop(theta', date, bs);
    theta' := StartPQLoop(theta', date, pq);
    theta' := EndPQLoop(theta', date, pq);
  }

  /** Column j's entry for key, built by f, is pushed when the column's
      year cell and coverage cell are > -0.5. */
  method Append<T>(acc: seq<T>, cov: seq<seq<real>>, j: nat, key: nat, f: seq<real> -> T)
    returns (acc': seq<T>)
    requires acc == Selected(cov, j, key, f)
    ensures acc' == Selected(cov, j + 1, key, f)
  {
    var c := Column(cov, j);
    SelectedStep(cov, j, key, f);
    acc' := acc;
    if Cell(c, 0) > -0.5 && Cell(c, key) > -0.5 {
      acc' := acc + [f(c)];
    }
  }

  // ---------------------------------------------------------------------
  // The schedule

  /** The schedule: one sequence of entries per intervention, in the order
      of the columns that give them. */
  class Intervention {
    var llin: seq<CoverEntry>
    var irs: seq<CoverEntry>
    var bsTreat: seq<BSEntry>
    var pqTreat: seq<PQEntry>
    var mdaBS: seq<MassBSEntry>
    var mdaPQ: seq<MassPQEntry>
    var msat: seq<MSATEntry>
    var ssat: seq<SSATEntry>

    /** The entries of the first n rounds of the coverage matrix. */
    ghost predicate Holds(cov: seq<seq<real>>, n: nat)
      reads this
    {
      llin == Selected(cov, n, ROW_LLIN, LlinOf) && irs == Selected(cov, n, ROW_IRS, IrsOf) &&
      bsTreat == Selected(cov, n, ROW_BS, BSOf) && pqTreat == Selected(cov, n, ROW_PQ, PQOf) &&
      mdaBS == Selected(cov, n, ROW_MDA_BS, MassBSOf) && mdaPQ == Selected(cov, n, ROW_MDA_PQ, MassPQOf) &&
      msat == Selected(cov, n, ROW_MSAT, MSATOf) && ssat == Selected(cov, n, ROW_SSAT, SSATOf)
    }

    /** Fills the schedule from the first nRounds columns of the matrix. */
    constructor (cov: seq<seq<real>>, nRounds: nat)
      requires Shaped(cov, nRounds)
      ensures Holds(cov, nRounds)
    {
      var l1: seq<CoverEntry>, l2: seq<CoverEntry>, l3: seq<BSEntry>, l4: seq<PQEntry> := [], [], [], [];
      var l5: seq<MassBSEntry>, l6: seq<MassPQEntry>, l7: seq<MSATEntry>, l8: seq<SSATEntry> := [], [], [], [];
      var j := 0;
      while j < nRounds
        invariant 0 <= j <= nRounds
        invariant l1 == Selected(cov, j, ROW_LLIN, LlinOf) && l2 == Selected(cov, j, ROW_IRS, IrsOf)
        invariant l3 == Selected(cov, j, ROW_BS, BSOf) && l4 == Selected(cov, j, ROW_PQ, PQOf)
        invariant l5 == Selected(cov, j, ROW_MDA_BS, MassBSOf) && l6 == Selected(cov, j, ROW_MDA_PQ, MassPQOf)
        invariant l7 == Selected(cov, j, ROW_MSAT, MSATOf) && l8 == Selected(cov, j, ROW_SSAT, SSATOf)
      {
        l1 := Append(l1, cov, j, ROW_LLIN, LlinOf);
        l2 := Append(l2, cov, j, ROW_IRS, IrsOf);
        l3 := Append(l3, cov, j, ROW_BS, BSOf);
        l4 := Append(l4, cov, j, ROW_PQ, PQOf);
        l5 := Append(l5, cov, j, ROW_MDA_BS, MassBSOf);
        l6 := Append(l6, cov, j, ROW_MDA_PQ, MassPQOf);
        l7 := Append(l7, cov, j, ROW_MSAT, MSATOf);
        l8 := Append(l8, cov, j, ROW_SSAT, SSATOf);
        j := j + 1;
      }
      llin, irs, bsTreat, pqTreat := l1, l2, l3, l4;
      mdaBS, mdaPQ, msat, ssat := l5, l6, l7, l8;
    }

    /** The policy switches of `date` for this schedule. */
    method Switch(theta: Params, date: int) returns (theta': Params)
      ensures theta' == Policy(theta, date, bsTreat, pqTreat)
    {
      theta' := SwitchPolicies(theta, date, bsTreat, pqTreat);
    }
  }
}
