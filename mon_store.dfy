/** The report store of the monitoring framework (model/mon/mon.cpp): a
    table of values indexed by measure, survey, age group, cohort set,
    species and genotype in mixed radix, the assignment of output measures
    to table slots, the guarded accumulation of reports and deployments,
    the order in which measures are written and the length check on
    reading a checkpoint.

    A store is one instance of the Store template: its type (int or
    double) and its four segregation flags are fixed when it is made. The
    values are exact reals. */
module MonStore {
  import opened Common

  /** The size_t sentinel of a survey that is not in use. */
  const NOT_USED: nat := 0xFFFF_FFFF_FFFF_FFFF

  /** Deploy::NA, the method of a measure that is not a deployment. */
  const NA: bv8 := 0

  /** An output measure requested by the scenario: its external id, the
      internal measure, the value type, the segregation flags and, for a
      deployment measure, the bit mask of deployment methods it counts. */
  datatype OutMeasure = OutMeasure(outId: int, m: nat, isDouble: bool, byAge: bool,
                                   byCohort: bool, bySpecies: bool, byGenotype: bool,
                                   deployMethod: bv8)

  /** An entry of mIndices: the measure is not stored here, or is stored at
      a slot. */
  datatype Slot = Unused | At(slot: nat)

  /** An entry of deployIndices: measure, method mask, slot. */
  datatype DeployIndex = DeployIndex(m: nat, mask: bv8, slot: nat)

  // ---------------------------------------------------------------------
  // Mixed radix

  /** The extents of the six dimensions of the table. */
  datatype Dims = Dims(nMeasures: nat, nSurveys: nat, nAgeGroups: nat, nCohortSets: nat,
                       nSpecies: nat, nGenotypes: nat)

  /** size(): the product of the six extents. */
  function Size(d: Dims): (n: nat)
    ensures n == 0 <==> d.nMeasures == 0 || d.nSurveys == 0 || d.nAgeGroups == 0 ||
                        d.nCohortSets == 0 || d.nSpecies == 0 || d.nGenotypes == 0
  {
    d.nMeasures * d.nSurveys * d.nAgeGroups * d.nCohortSets * d.nSpecies * d.nGenotypes
  }

  /** index(m, s, a, c, sp, g), with the genotype varying fastest. */
  function Index(d: Dims, m: nat, s: nat, a: nat, c: nat, sp: nat, g: nat): (i: nat)
    ensures g < d.nGenotypes ==> i % d.nGenotypes == g
    ensures i >= g
  {
    var rest := sp + d.nSpecies * (c + d.nCohortSets * (a + d.nAgeGroups * (s + d.nSurveys * m)));
    if g < d.nGenotypes then LowDigit(g, d.nGenotypes, rest); g + d.nGenotypes * rest
    else g + d.nGenotypes * rest
  }

  predicate InRange(d: Dims, m: nat, s: nat, a: nat, c: nat, sp: nat, g: nat)
  {
    m < d.nMeasures && s < d.nSurveys && a < d.nAgeGroups && c < d.nCohortSets &&
    sp < d.nSpecies && g < d.nGenotypes
  }

  /** Multiplication by a natural number is monotone. */
  lemma {:induction false} MulMonotone(a: nat, b: int, c: int)
    ensures b <= c ==> a * b <= a * c
    ensures a * (b + 1) == a * b + a
    decreases c - b
  {
    if b < c {
      MulMonotone(a, b, c - 1);
      assert a * c == a * (c - 1) + a;
    }
  }

  lemma Distrib(n: int, x: int, q: int)
    ensures n * (x - q) == n * x - n * q
  {
  }

  /** The lowest digit of a mixed-radix number is its remainder. */
  lemma LowDigit(g: nat, n: nat, x: nat)
    requires g < n
    ensures (g + n * x) % n == g
  {
    var q := (g + n * x) / n;
    var r := (g + n * x) % n;
    assert g + n * x == n * q + r;
    Distrib(n, x, q);
    assert n * (x - q) == r - g;
    if x - q >= 1 {
      MulMonotone(n, 1, x - q);
      assert false;
    } else if x - q <= -1 {
      MulMonotone(n, x - q, -1);
      assert false;
    }
  }

  /** One digit: a digit below the radix plus the radix times a number
      below b is below radix * b. */
  lemma DigitBound(x: nat, radix: nat, y: nat, b: nat)
    requires x < radix && y < b
    ensures x + radix * y < radix * b
  {
    MulMonotone(radix, y + 1, b);
    MulMonotone(radix, y, y);
  }

  /** One digit: the digit and the rest are determined by the number. */
  lemma DigitUnique(x: nat, y: int, x': nat, y': int, radix: nat)
    requires x < radix && x' < radix
    ensures x + radix * y == x' + radix * y' ==> x == x' && y == y'
  {
    MulMonotone(radix, y + 1, y');
    MulMonotone(radix, y' + 1, y);
    MulMonotone(radix, y, y);
    MulMonotone(radix, y', y');
  }

  /** Every index of an in-range tuple is below size(). */
  lemma IndexBelowSize(d: Dims, m: nat, s: nat, a: nat, c: nat, sp: nat, g: nat)
    requires InRange(d, m, s, a, c, sp, g)
    ensures Index(d, m, s, a, c, sp, g) < Size(d)
  {
    var i1 := s + d.nSurveys * m;
    DigitBound(s, d.nSurveys, m, d.nMeasures);
    var b1 := d.nSurveys * d.nMeasures;
    var i2 := a + d.nAgeGroups * i1;
    DigitBound(a, d.nAgeGroups, i1, b1);
    var b2 := d.nAgeGroups * b1;
    var i3 := c + d.nCohortSets * i2;
    DigitBound(c, d.nCohortSets, i2, b2);
    var b3 := d.nCohortSets * b2;
    var i4 := sp + d.nSpecies * i3;
    DigitBound(sp, d.nSpecies, i3, b3);
    var b4 := d.nSpecies * b3;
    DigitBound(g, d.nGenotypes, i4, b4);
    var b5 := d.nGenotypes * b4;
    assert b2 == d.nMeasures * d.nSurveys * d.nAgeGroups;
    assert b3 == d.nMeasures * d.nSurveys * d.nAgeGroups * d.nCohortSets;
    assert b4 == d.nMeasures * d.nSurveys * d.nAgeGroups * d.nCohortSets * d.nSpecies;
    assert b5 == Size(d);
  }

  /** Distinct in-range tuples have distinct indices. */
  lemma IndexInjective(d: Dims, m: nat, s: nat, a: nat, c: nat, sp: nat, g: nat,
                       m': nat, s': nat, a': nat, c': nat, sp': nat, g': nat)
    requires InRange(d, m, s, a, c, sp, g) && InRange(d, m', s', a', c', sp', g')
    ensures Index(d, m, s, a, c, sp, g) == Index(d, m', s', a', c', sp', g') ==>
            m == m' && s == s' && a == a' && c == c' && sp == sp' && g == g'
  {
    var i1, i1' := s + d.nSurveys * m, s' + d.nSurveys * m';
    var i2, i2' := a + d.nAgeGroups * i1, a' + d.nAgeGroups * i1';
    var i3, i3' := c + d.nCohortSets * i2, c' + d.nCohortSets * i2';
    var i4, i4' := sp + d.nSpecies * i3, sp' + d.nSpecies * i3';
    DigitUnique(g, i4, g', i4', d.nGenotypes);
    DigitUnique(sp, i3, sp', i3', d.nSpecies);
    DigitUnique(c, i2, c', i2', d.nCohortSets);
    DigitUnique(a, i1, a', i1', d.nAgeGroups);
    DigitUnique(s, m, s', m', d.nSurveys);
  }

  // ---------------------------------------------------------------------
  // Measure-to-slot assignment

  /** The value type (double or int) and the segregation flags of a store. */
  datatype Kind = Kind(isDouble: bool, byAge: bool, byCohort: bool, bySpecies: bool, byGenotype: bool)

  /** A requested measure is taken by a store when it is a known measure
      (below mNum, M_NUM in the program) of the store's value type with the
      store's segregation flags. */
  predicate Accepts(k: Kind, mNum: nat, o: OutMeasure)
  {
    o.m < mNum && o.isDouble == k.isDouble && o.byAge == k.byAge && o.byCohort == k.byCohort &&
    o.bySpecies == k.bySpecies && o.byGenotype == k.byGenotype
  }

  /** The requested measures a store takes, in request order. */
  function Accepted(k: Kind, mNum: nat, req: seq<OutMeasure>): (acc: seq<OutMeasure>)
    ensures forall i :: 0 <= i < |acc| ==> Accepts(k, mNum, acc[i])
    ensures |acc| <= |req|
  {
    if |req| == 0 then []
    else
      var acc := Accepted(k, mNum, req[..|req| - 1]);
      if Accepts(k, mNum, req[|req| - 1]) then acc + [req[|req| - 1]] else acc
  }

  /** A requested measure is taken exactly when it is accepted by the store. */
  lemma {:induction false} AcceptedMembers(k: Kind, mNum: nat, req: seq<OutMeasure>)
    ensures forall o :: o in Accepted(k, mNum, req) <==> o in req && Accepts(k, mNum, o)
  {
    if |req| > 0 {
      AcceptedMembers(k, mNum, req[..|req| - 1]);
      assert req == req[..|req| - 1] + [req[|req| - 1]];
    }
  }

  /** A measure may be taken twice only as two deployment measures: a
      second use of a non-deployment measure, or a non-deployment use of a
      deployment measure, is an error. */
  predicate NoClash(acc: seq<OutMeasure>)
  {
    forall i, j :: 0 <= i < j < |acc| && acc[i].m == acc[j].m ==>
      acc[i].deployMethod != NA && acc[j].deployMethod != NA
  }

  /** The deployment entries of the accepted measures: measure, method mask
      and the measure's slot, which is its rank among the accepted measures. */
  function Deploys(acc: seq<OutMeasure>): (ds: seq<DeployIndex>)
    ensures forall k :: 0 <= k < |ds| ==>
      ds[k].slot < |acc| && ds[k] == DeployIndex(acc[ds[k].slot].m, acc[ds[k].slot].deployMethod, ds[k].slot) &&
      acc[ds[k].slot].deployMethod != NA
    ensures forall k, l :: 0 <= k < l < |ds| ==> ds[k].slot < ds[l].slot
  {
    if |acc| == 0 then []
    else
      var n := |acc| - 1;
      var ds := Deploys(acc[..n]);
      if acc[n].deployMethod != NA then ds + [DeployIndex(acc[n].m, acc[n].deployMethod, n)] else ds
  }

  /** Every accepted deployment measure has its entry. */
  lemma {:induction false} DeploysComplete(acc: seq<OutMeasure>, i: nat)
    requires i < |acc| && acc[i].deployMethod != NA
    ensures DeployIndex(acc[i].m, acc[i].deployMethod, i) in Deploys(acc)
  {
    var n := |acc| - 1;
    if i < n {
      DeploysComplete(acc[..n], i);
    }
  }

  /** The requests a store takes from a prefix of the list are a prefix of
      those it takes from the whole list. */
  lemma {:induction false} AcceptedPrefix(k: Kind, mNum: nat, req: seq<OutMeasure>, i: nat)
    requires i <= |req|
    ensures Accepted(k, mNum, req[..i]) <= Accepted(k, mNum, req)
    decreases |req|
  {
    if i < |req| {
      var n := |req| - 1;
      assert req[..n][..i] == req[..i];
      AcceptedPrefix(k, mNum, req[..n], i);
    } else {
      assert req[..i] == req;
    }
  }

  /** One more request adds it to the accepted list when the store takes it. */
  lemma AcceptedStep(k: Kind, mNum: nat, req: seq<OutMeasure>, i: nat)
    requires i < |req|
    ensures Accepted(k, mNum, req[..i + 1]) ==
            Accepted(k, mNum, req[..i]) + (if Accepts(k, mNum, req[i]) then [req[i]] else [])
  {
    assert req[..i + 1][..i] == req[..i];
  }

  /** A clash among some measures is a clash among any list they begin. */
  lemma ClashPersists(p: seq<OutMeasure>, q: seq<OutMeasure>)
    requires p <= q && !NoClash(p)
    ensures !NoClash(q)
  {
    var i, j :| 0 <= i < j < |p| && p[i].m == p[j].m &&
                !(p[i].deployMethod != NA && p[j].deployMethod != NA);
    assert q[i] == p[i] && q[j] == p[j];
  }

  /** The assignment of slots to the accepted measures acc: the external
      ids by slot, the slot of each non-deployment measure (and no other
      measure has one), and the deployment entries. */
  ghost predicate Assigned(acc: seq<OutMeasure>, mNum: nat, om: seq<int>, mi: seq<Slot>, di: seq<DeployIndex>)
  {
    |om| == |acc| && (forall k :: 0 <= k < |acc| ==> om[k] == acc[k].outId) &&
    |mi| == mNum &&
    (forall k :: 0 <= k < |acc| && acc[k].deployMethod == NA ==> acc[k].m < mNum && mi[acc[k].m] == At(k)) &&
    (forall x :: 0 <= x < mNum && mi[x].At? ==>
       mi[x].slot < |acc| && acc[mi[x].slot].m == x && acc[mi[x].slot].deployMethod == NA) &&
    di == Deploys(acc)
  }

  /** The program's test for a repeated measure is exactly a clash with the
      measures accepted so far. */
  lemma ClashStep(acc: seq<OutMeasure>, o: OutMeasure, mNum: nat, om: seq<int>, mi: seq<Slot>,
                  di: seq<DeployIndex>)
    requires Assigned(acc, mNum, om, mi, di) && NoClash(acc) && o.m < mNum
    ensures (mi[o.m] != Unused || (o.deployMethod == NA && exists k :: 0 <= k < |di| && di[k].m == o.m))
            <==> !NoClash(acc + [o])
  {
    var acc' := acc + [o];
    if mi[o.m] != Unused {
      var k := mi[o.m].slot;
      assert acc'[k].m == acc'[|acc|].m && acc'[k].deployMethod == NA;
    }
    if o.deployMethod == NA && exists k :: 0 <= k < |di| && di[k].m == o.m {
      var k :| 0 <= k < |di| && di[k].m == o.m;
      var s := di[k].slot;
      assert acc'[s].m == acc'[|acc|].m;
    }
    if !NoClash(acc') {
      var i, j :| 0 <= i < j < |acc'| && acc'[i].m == acc'[j].m &&
                  !(acc'[i].deployMethod != NA && acc'[j].deployMethod != NA);
      assert j == |acc|;
      if acc[i].deployMethod == NA {
        assert mi[o.m] == At(i);
      } else {
        DeploysComplete(acc, i);
        var e := DeployIndex(acc[i].m, acc[i].deployMethod, i);
        var k :| 0 <= k < |di| && di[k] == e;
        assert di[k].m == o.m;
      }
    }
  }

  /** Accepting one more measure gives it the next slot. */
  lemma AssignStep(acc: seq<OutMeasure>, o: OutMeasure, mNum: nat, om: seq<int>, mi: seq<Slot>,
                   di: seq<DeployIndex>)
    requires Assigned(acc, mNum, om, mi, di) && NoClash(acc + [o]) && o.m < mNum
    ensures o.deployMethod == NA ==> Assigned(acc + [o], mNum, om + [o.outId], mi[o.m := At(|om|)], di)
    ensures o.deployMethod != NA ==>
      Assigned(acc + [o], mNum, om + [o.outId], mi, di + [DeployIndex(o.m, o.deployMethod, |om|)])
  {
    var acc' := acc + [o];
    assert acc'[..|acc|] == acc;
    if o.deployMethod == NA {
      var mi' := mi[o.m := At(|om|)];
      forall x | 0 <= x < mNum && mi'[x].At?
        ensures mi'[x].slot < |acc'| && acc'[mi'[x].slot].m == x && acc'[mi'[x].slot].deployMethod == NA
      {
        if x != o.m {
          assert mi'[x] == mi[x];
        }
      }
      forall k | 0 <= k < |acc'| && acc'[k].deployMethod == NA
        ensures acc'[k].m < mNum && mi'[acc'[k].m] == At(k)
      {
        if k < |acc| {
          assert acc'[k].m != acc'[|acc|].m;
        }
      }
    }
  }

  /** The slot tables built so far: external ids by slot, mIndices and
      deployIndices. */
  datatype Slots = Slots(om: seq<int>, mi: seq<Slot>, di: seq<DeployIndex>)

  /** The program's test for a repeated measure. */
  predicate Repeated(s: Slots, o: OutMeasure)
    requires o.m < |s.mi|
  {
    s.mi[o.m] != Unused || (o.deployMethod == NA && exists k :: 0 <= k < |s.di| && s.di[k].m == o.m)
  }

  /** Gives o the next slot. */
  function Put(s: Slots, o: OutMeasure): Slots
    requires o.m < |s.mi|
  {
    if o.deployMethod == NA then Slots(s.om + [o.outId], s.mi[o.m := At(|s.om|)], s.di)
    else Slots(s.om + [o.outId], s.mi, s.di + [DeployIndex(o.m, o.deployMethod, |s.om|)])
  }

  /** The tables after the loop over req, or None when it stops at a
      repeated measure. */
  function SlotsAfter(kind: Kind, mNum: nat, req: seq<OutMeasure>): (r: Option<Slots>)
    ensures r.Some? ==> |r.value.mi| == mNum
  {
    if |req| == 0 then Some(Slots([], seq(mNum, _ => Unused), []))
    else
      var n := |req| - 1;
      var o := req[n];
      match SlotsAfter(kind, mNum, req[..n])
      case None => None
      case Some(s) =>
        if !Accepts(kind, mNum, o) then Some(s)
        else if Repeated(s, o) then None
        else Some(Put(s, o))
  }

  /** ClashStep and AssignStep stated on the slot tables. */
  lemma PutStep(acc: seq<OutMeasure>, o: OutMeasure, mNum: nat, s: Slots)
    requires Assigned(acc, mNum, s.om, s.mi, s.di) && NoClash(acc) && o.m < mNum
    ensures Repeated(s, o) <==> !NoClash(acc + [o])
    ensures !Repeated(s, o) ==> var t := Put(s, o); Assigned(acc + [o], mNum, t.om, t.mi, t.di)
  {
    ClashStep(acc, o, mNum, s.om, s.mi, s.di);
    if !Repeated(s, o) {
      AssignStep(acc, o, mNum, s.om, s.mi, s.di);
    }
  }

  /** The loop's statement about the requests req. */
  ghost predicate SlotsFaithful(kind: Kind, mNum: nat, req: seq<OutMeasure>)
  {
    var r := SlotsAfter(kind, mNum, req);
    (r.Some? <==> NoClash(Accepted(kind, mNum, req))) &&
    (r.Some? ==> Assigned(Accepted(kind, mNum, req), mNum, r.value.om, r.value.mi, r.value.di))
  }

  /** A request the store does not take leaves both sides unchanged. */
  lemma SkipStep(kind: Kind, mNum: nat, req: seq<OutMeasure>)
    requires |req| > 0 && SlotsFaithful(kind, mNum, req[..|req| - 1])
    requires !Accepts(kind, mNum, req[|req| - 1])
    ensures SlotsFaithful(kind, mNum, req)
  {
    var n := |req| - 1;
    AcceptedStep(kind, mNum, req, n);
    assert req[..n + 1] == req;
    assert Accepted(kind, mNum, req) == Accepted(kind, mNum, req[..n]);
    assert SlotsAfter(kind, mNum, req) == SlotsAfter(kind, mNum, req[..n]);
  }

  /** A request the store takes extends the accepted list by one. */
  lemma TakeStep(kind: Kind, mNum: nat, req: seq<OutMeasure>)
    requires |req| > 0 && SlotsFaithful(kind, mNum, req[..|req| - 1])
    requires Accepts(kind, mNum, req[|req| - 1])
    ensures SlotsFaithful(kind, mNum, req)
  {
    var n := |req| - 1;
    var o := req[n];
    AcceptedStep(kind, mNum, req, n);
    assert req[..n + 1] == req;
    var acc := Accepted(kind, mNum, req[..n]);
    assert Accepted(kind, mNum, req) == acc + [o];
    var r := SlotsAfter(kind, mNum, req[..n]);
    if r.None? {
      assert SlotsAfter(kind, mNum, req).None?;
      ClashPersists(acc, acc + [o]);
    } else {
      var s := r.value;
      PutStep(acc, o, mNum, s);
      if Repeated(s, o) {
        assert SlotsAfter(kind, mNum, req).None?;
      } else {
        assert SlotsAfter(kind, mNum, req) == Some(Put(s, o));
      }
    }
  }

  /** No measure and no slot: the empty assignment. */
  lemma AssignedNothing(mNum: nat)
    ensures Assigned([], mNum, [], seq(mNum, _ => Unused), [])
  {
    var mi: seq<Slot> := seq(mNum, _ => Unused);
    assert forall x :: 0 <= x < mNum ==> !mi[x].At?;
  }

  /** Before the loop nothing is assigned. */
  lemma SlotsBase(kind: Kind, mNum: nat, req: seq<OutMeasure>)
    requires |req| == 0
    ensures SlotsFaithful(kind, mNum, req)
  {
    AssignedNothing(mNum);
    assert NoClash([]);
    assert Accepted(kind, mNum, req) == [];
    assert SlotsAfter(kind, mNum, req) == Some(Slots([], seq(mNum, _ => Unused), []));
  }

  /** The loop stops exactly when the accepted measures clash, and
      otherwise gives each accepted measure its rank as slot. */
  lemma {:induction false} SlotsAfterSpec(kind: Kind, mNum: nat, req: seq<OutMeasure>)
    ensures SlotsFaithful(kind, mNum, req)
  {
    if |req| == 0 {
      SlotsBase(kind, mNum, req);
    } else {
      var n := |req| - 1;
      SlotsAfterSpec(kind, mNum, req[..n]);
      if Accepts(kind, mNum, req[n]) {
        TakeStep(kind, mNum, req);
      } else {
        SkipStep(kind, mNum, req);
      }
    }
  }

  /** The loop of init over the requested measures: each measure the
      store takes gets the next slot, as a non-deployment measure in mi or as
      a deployment entry in di; a repeated measure stops the loop with ok
      false. */
  method AssignSlots(kind: Kind, required: seq<OutMeasure>, mNum: nat)
    returns (ok: bool, om: seq<int>, mi: seq<Slot>, di: seq<DeployIndex>)
    ensures ok <==> NoClash(Accepted(kind, mNum, required))
    ensures ok ==> Assigned(Accepted(kind, mNum, required), mNum, om, mi, di)
  {
    mi := seq(mNum, _ => Unused);
    om, di := [], [];
    var i := 0;
    while i < |required|
      invariant 0 <= i <= |required|
      invariant SlotsAfter(kind, mNum, required[..i]) == Some(Slots(om, mi, di))
    {
      var o := required[i];
      assert required[..i + 1][..i] == required[..i];
      if Accepts(kind, mNum, o) {
        if mi[o.m] != Unused || (o.deployMethod == NA && exists k :: 0 <= k < |di| && di[k].m == o.m) {
          SlotsAfterSpec(kind, mNum, required[..i + 1]);
          AcceptedPrefix(kind, mNum, required, i + 1);
          ClashPersists(Accepted(kind, mNum, required[..i + 1]), Accepted(kind, mNum, required));
          return false, om, mi, di;
        }
        var newInd := |om|;
        if o.deployMethod == NA {
          mi := mi[o.m := At(newInd)];
        } else {
          di := di + [DeployIndex(o.m, o.deployMethod, newInd)];
        }
        om := om + [o.outId];
      }
      i := i + 1;
    }
    assert required[..i] == required;
    SlotsAfterSpec(kind, mNum, required);
    ok := true;
  }

  /** The slots an assignment gives are the slots of stored measures, and
      deployment entries have distinct slots. */
  lemma AssignedValid(acc: seq<OutMeasure>, mNum: nat, om: seq<int>, mi: seq<Slot>, di: seq<DeployIndex>)
    requires Assigned(acc, mNum, om, mi, di)
    ensures forall x :: 0 <= x < |mi| && mi[x].At? ==> mi[x].slot < |om|
    ensures forall k :: 0 <= k < |di| ==> di[k].slot < |om|
    ensures forall k, l :: 0 <= k < l < |di| ==> di[k].slot != di[l].slot
  {
  }

  // ---------------------------------------------------------------------
  // Deployments

  /** A deployment entry counts a deployment of the measure by a method
      when the measure matches and the method is in the entry's mask. */
  predicate Fires(e: DeployIndex, measure: nat, deployMethod: bv8)
  {
    e.m == measure && e.mask & deployMethod != 0
  }

  /** The cell a deployment entry adds to: its slot, with species and
      genotype 0. */
  function DeployCell(d: Dims, e: DeployIndex, survey: nat, age: nat, cohort: nat): nat
  {
    Index(d, e.slot, survey, age, cohort, 0, 0)
  }

  /** Entries with distinct slots add to distinct cells. */
  lemma CellsDistinct(d: Dims, e: DeployIndex, e': DeployIndex, survey: nat, age: nat, cohort: nat)
    requires InRange(d, e.slot, survey, age, cohort, 0, 0) && InRange(d, e'.slot, survey, age, cohort, 0, 0)
    requires e.slot != e'.slot
    ensures DeployCell(d, e, survey, age, cohort) != DeployCell(d, e', survey, age, cohort)
  {
    IndexInjective(d, e.slot, survey, age, cohort, 0, 0, e'.slot, survey, age, cohort, 0, 0);
  }

  /** No firing entry among the first k adds to cell x. */
  predicate Untouched(d: Dims, ds: seq<DeployIndex>, k: nat, measure: nat, deployMethod: bv8,
                      survey: nat, age: nat, cohort: nat, x: nat)
  {
    forall j :: 0 <= j < k && j < |ds| && Fires(ds[j], measure, deployMethod) ==>
      DeployCell(d, ds[j], survey, age, cohort) != x
  }

  /** After the first k entries: each firing one has added val to its cell
      of r', and every other cell of r' is that of r. */
  predicate DeployedUpTo(r: seq<real>, r': seq<real>, d: Dims, ds: seq<DeployIndex>, k: nat, measure: nat,
                         deployMethod: bv8, survey: nat, age: nat, cohort: nat, val: real)
  {
    k <= |ds| && |r'| == |r| &&
    (forall j :: 0 <= j < k && Fires(ds[j], measure, deployMethod) ==>
       DeployCell(d, ds[j], survey, age, cohort) < |r| &&
       r'[DeployCell(d, ds[j], survey, age, cohort)] == r[DeployCell(d, ds[j], survey, age, cohort)] + val) &&
    (forall x :: 0 <= x < |r| && Untouched(d, ds, k, measure, deployMethod, survey, age, cohort, x) ==>
       r'[x] == r[x])
  }

  /** One entry of the loop of deploy. */
  method DeployStep(r: seq<real>, r': seq<real>, d: Dims, ds: seq<DeployIndex>, k: nat, measure: nat,
                    deployMethod: bv8, survey: nat, age: nat, cohort: nat, val: real) returns (r'': seq<real>)
    requires |r| == Size(d) && d.nSpecies == 1 && d.nGenotypes == 1
    requires survey < d.nSurveys && age < d.nAgeGroups && cohort < d.nCohortSets
    requires forall k :: 0 <= k < |ds| ==> ds[k].slot < d.nMeasures
    requires forall k, l :: 0 <= k < l < |ds| ==> ds[k].slot != ds[l].slot
    requires k < |ds| && DeployedUpTo(r, r', d, ds, k, measure, deployMethod, survey, age, cohort, val)
    ensures DeployedUpTo(r, r'', d, ds, k + 1, measure, deployMethod, survey, age, cohort, val)
  {
    var e := ds[k];
    r'' := r';
    if e.mask & deployMethod != 0 && e.m == measure {
      IndexBelowSize(d, e.slot, survey, age, cohort, 0, 0);
      var y := DeployCell(d, e, survey, age, cohort);
      forall j | 0 <= j < k
        ensures DeployCell(d, ds[j], survey, age, cohort) != y
      {
        CellsDistinct(d, ds[j], e, survey, age, cohort);
      }
      r'' := r'[y := r'[y] + val];
      forall x | 0 <= x < |r| && Untouched(d, ds, k + 1, measure, deployMethod, survey, age, cohort, x)
        ensures r''[x] == r[x]
      {
        assert x != y;
        assert Untouched(d, ds, k, measure, deployMethod, survey, age, cohort, x);
      }
    } else {
      forall x | 0 <= x < |r| && Untouched(d, ds, k + 1, measure, deployMethod, survey, age, cohort, x)
        ensures Untouched(d, ds, k, measure, deployMethod, survey, age, cohort, x)
      {
      }
    }
  }

  /** The loop of deploy over the entries of the measure: each entry whose
      mask holds the method adds val to its cell, and no other cell
      changes. */
  method DeployLoop(r: seq<real>, d: Dims, ds: seq<DeployIndex>, measure: nat, deployMethod: bv8,
                    survey: nat, age: nat, cohort: nat, val: real) returns (r': seq<real>)
    requires |r| == Size(d) && d.nSpecies == 1 && d.nGenotypes == 1
    requires survey < d.nSurveys && age < d.nAgeGroups && cohort < d.nCohortSets
    requires forall k :: 0 <= k < |ds| ==> ds[k].slot < d.nMeasures
    requires forall k, l :: 0 <= k < l < |ds| ==> ds[k].slot != ds[l].slot
    ensures |r'| == |r|
    ensures forall k :: 0 <= k < |ds| && Fires(ds[k], measure, deployMethod) ==>
      DeployCell(d, ds[k], survey, age, cohort) < |r| &&
      r'[DeployCell(d, ds[k], survey, age, cohort)] == r[DeployCell(d, ds[k], survey, age, cohort)] + val
    ensures forall x :: 0 <= x < |r| && Untouched(d, ds, |ds|, measure, deployMethod, survey, age, cohort, x) ==>
      r'[x] == r[x]
  {
    r' := r;
    var k := 0;
    while k < |ds|
      invariant 0 <= k <= |ds|
      invariant DeployedUpTo(r, r', d, ds, k, measure, deployMethod, survey, age, cohort, val)
    {
      r' := DeployStep(r, r', d, ds, k, measure, deployMethod, survey, age, cohort, val);
      k := k + 1;
    }
  }

  // ---------------------------------------------------------------------
  // Write order

  /** An entry of the ordered map of write(): external id and slot. */
  datatype Ordered = Ordered(outId: int, slot: nat)

  /** The entries are in strictly increasing order of external id. */
  predicate SortedIds(order: seq<Ordered>)
  {
    forall i, j :: 0 <= i < j < |order| ==> order[i].outId < order[j].outId
  }

  /** The slot the ordered map holds for an external id. */
  function Lookup(order: seq<Ordered>, id: int): Option<nat>
  {
    if |order| == 0 then None
    else if order[0].outId == id then Some(order[0].slot)
    else Lookup(order[1..], id)
  }

  /** measuresOrdered[id] = slot, on the ordered map. */
  function MapPut(order: seq<Ordered>, id: int, slot: nat): seq<Ordered>
  {
    if |order| == 0 then [Ordered(id, slot)]
    else if order[0].outId == id then [Ordered(id, slot)] + order[1..]
    else if id < order[0].outId then [Ordered(id, slot)] + order
    else [order[0]] + MapPut(order[1..], id, slot)
  }

  /** An assignment to the ordered map adds only the new entry. */
  lemma {:induction false} MapPutMembers(order: seq<Ordered>, id: int, slot: nat)
    ensures forall e :: e in MapPut(order, id, slot) ==> e == Ordered(id, slot) || e in order
  {
    if |order| > 0 && order[0].outId != id && id > order[0].outId {
      MapPutMembers(order[1..], id, slot);
    }
  }

  /** An assignment to the ordered map keeps the order. */
  lemma {:induction false} MapPutSorted(order: seq<Ordered>, id: int, slot: nat)
    requires SortedIds(order)
    ensures SortedIds(MapPut(order, id, slot))
  {
    if |order| > 0 && order[0].outId != id && id > order[0].outId {
      var rest := MapPut(order[1..], id, slot);
      MapPutSorted(order[1..], id, slot);
      MapPutMembers(order[1..], id, slot);
      var r := [order[0]] + rest;
      forall j | 0 < j < |r|
        ensures order[0].outId < r[j].outId
      {
        assert r[j] in rest;
      }
      forall i, j | 0 <= i < j < |r|
        ensures r[i].outId < r[j].outId
      {
        if i > 0 {
          assert r[i] == rest[i - 1] && r[j] == rest[j - 1];
        }
      }
    }
  }

  /** An assignment to the ordered map sets the slot of that one id. */
  lemma {:induction false} MapPutLookup(order: seq<Ordered>, id: int, slot: nat, k: int)
    ensures Lookup(MapPut(order, id, slot), k) == if k == id then Some(slot) else Lookup(order, k)
  {
    if |order| > 0 && order[0].outId != id && id > order[0].outId {
      MapPutLookup(order[1..], id, slot, k);
      assert ([order[0]] + MapPut(order[1..], id, slot))[1..] == MapPut(order[1..], id, slot);
    } else if |order| > 0 && order[0].outId != id {
      assert ([Ordered(id, slot)] + order)[1..] == order;
    } else if |order| > 0 {
      assert ([Ordered(id, slot)] + order[1..])[1..] == order[1..];
    }
  }

  /** The last slot holding an external id: the slot write() prints it
      from, since a later assignment to the map replaces an earlier one. */
  function LastSlot(om: seq<int>, id: int): Option<nat>
  {
    if |om| == 0 then None
    else if om[|om| - 1] == id then Some(|om| - 1)
    else LastSlot(om[..|om| - 1], id)
  }

  /** LastSlot finds exactly the last slot of the id, and finds one for
      every stored measure. */
  lemma {:induction false} LastSlotSpec(om: seq<int>, id: int)
    ensures LastSlot(om, id).None? <==> id !in om
    ensures LastSlot(om, id).Some? ==>
      var s := LastSlot(om, id).value;
      s < |om| && om[s] == id && forall s' :: s < s' < |om| ==> om[s'] != id
  {
    if |om| > 0 && om[|om| - 1] != id {
      var n := |om| - 1;
      LastSlotSpec(om[..n], id);
      assert om == om[..n] + [om[n]];
    }
  }

  /** The tables of a store with extents d: the table has size() cells,
      every slot names a stored measure and deployment entries have
      distinct slots. */
  ghost predicate TablesOk(d: Dims, mi: seq<Slot>, di: seq<DeployIndex>, reports: seq<real>)
  {
    |reports| == Size(d) &&
    (forall x :: 0 <= x < |mi| && mi[x].At? ==> mi[x].slot < d.nMeasures) &&
    (forall k :: 0 <= k < |di| ==> di[k].slot < d.nMeasures) &&
    (forall k, l :: 0 <= k < l < |di| ==> di[k].slot != di[l].slot)
  }

  /** n cells holding zero. */
  function Zeros(n: nat): (z: seq<real>)
    ensures |z| == n && forall x :: 0 <= x < n ==> z[x] == 0.0
  {
    seq(n, _ => 0.0)
  }

  /** What init computes for a store of the given kind: the extents
      (1 for a dimension the store does not segregate by; the last age
      group is not reported), the slot tables and a zero table. */
  method Tables(kind: Kind, required: seq<OutMeasure>, nSp: nat, numAgeGroups: nat, cohortSets: nat,
                genotypes: nat, surveys: nat, mNum: nat)
    returns (ok: bool, d: Dims, om: seq<int>, mi: seq<Slot>, di: seq<DeployIndex>, r: seq<real>)
    requires numAgeGroups >= 1
    ensures d.nMeasures == |om| && d.nSurveys == surveys
    ensures d.nAgeGroups == (if kind.byAge then numAgeGroups - 1 else 1)
    ensures d.nCohortSets == (if kind.byCohort then cohortSets else 1)
    ensures d.nSpecies == (if kind.bySpecies && nSp > 0 then nSp else 1)
    ensures d.nGenotypes == (if kind.byGenotype then genotypes else 1)
    ensures ok <==> NoClash(Accepted(kind, mNum, required))
    ensures ok ==> Assigned(Accepted(kind, mNum, required), mNum, om, mi, di)
    ensures ok ==> |r| == Size(d) && forall x :: 0 <= x < |r| ==> r[x] == 0.0
    ensures ok ==> TablesOk(d, mi, di, r)
  {
    var a := if kind.byAge then numAgeGroups - 1 else 1;
    var c := if kind.byCohort then cohortSets else 1;
    var sp := if kind.bySpecies && nSp > 0 then nSp else 1;
    var g := if kind.byGenotype then genotypes else 1;
    ok, om, mi, di := AssignSlots(kind, required, mNum);
    d := Dims(|om|, surveys, a, c, sp, g);
    r := Zeros(Size(d));
    if ok {
      AssignedValid(Accepted(kind, mNum, required), mNum, om, mi, di);
    }
  }

  // ---------------------------------------------------------------------
  // The store

  class Store {
    const kind: Kind
    /** External id of the measure stored at each slot. */
    var outMeasures: seq<int>
    /** Slot of each non-deployment measure. */
    var mIndices: seq<Slot>
    /** Deployment measures, in insertion order. */
    var deployIndices: seq<DeployIndex>
    var nAgeGroups: nat
    var nCohortSets: nat
    var nSpecies: nat
    var nGenotypes: nat
    /** impl::nSurveys, the number of surveys. */
    var nSurveys: nat
    var reports: seq<real>

    function Dimensions(): Dims
      reads this
    {
      Dims(|outMeasures|, nSurveys, nAgeGroups, nCohortSets, nSpecies, nGenotypes)
    }

    /** The table has size() cells and every slot names a stored measure;
        deployment entries have distinct slots. */
    ghost predicate Valid()
      reads this
    {
      TablesOk(Dimensions(), mIndices, deployIndices, reports)
    }

    /** A store of the given kind before init. */
    constructor (kind: Kind)
      ensures this.kind == kind && outMeasures == [] && mIndices == [] && deployIndices == []
      ensures reports == [] && Valid()
    {
      this.kind := kind;
      outMeasures, mIndices, deployIndices, reports := [], [], [], [];
      nAgeGroups, nCohortSets, nSpecies, nGenotypes, nSurveys := 0, 0, 0, 0, 0;
    }

    /** init(required, nSp), with the age groups (AgeGroup::numGroups()),
        cohort sets, genotypes, surveys and the number of known measures
        (M_NUM) as parameters. `ok` is false where the program throws on a
        repeated measure. */
    method Init(required: seq<OutMeasure>, nSp: nat, numAgeGroups: nat, cohortSets: nat,
                genotypes: nat, surveys: nat, mNum: nat) returns (ok: bool)
      requires numAgeGroups >= 1 && deployIndices == []
      modifies this
      ensures nAgeGroups == (if kind.byAge then numAgeGroups - 1 else 1)
      ensures nCohortSets == (if kind.byCohort then cohortSets else 1)
      ensures nSpecies == (if kind.bySpecies && nSp > 0 then nSp else 1)
      ensures nGenotypes == (if kind.byGenotype then genotypes else 1)
      ensures nSurveys == surveys
      ensures ok <==> NoClash(Accepted(kind, mNum, required))
      ensures ok ==> Assigned(Accepted(kind, mNum, required), mNum, outMeasures, mIndices, deployIndices)
      ensures ok ==> |reports| == Size(Dimensions()) && forall x :: 0 <= x < |reports| ==> reports[x] == 0.0
      ensures ok ==> Valid()
    {
      var d, om, mi, di, r;
      ok, d, om, mi, di, r := Tables(kind, required, nSp, numAgeGroups, cohortSets, genotypes, surveys, mNum);
      nAgeGroups, nCohortSets, nSpecies, nGenotypes, nSurveys := d.nAgeGroups, d.nCohortSets, d.nSpecies, d.nGenotypes, d.nSurveys;
      outMeasures, mIndices, deployIndices := om, mi, di;
      if ok {
        reports := r;
      }
    }

    /** The cell of a tuple in this store's table. */
    function Cell(m: nat, s: nat, a: nat, c: nat, sp: nat, g: nat): nat
      reads this
    {
      Index(Dimensions(), m, s, a, c, sp, g)
    }

    /** add(): one in-range cell gains val. */
    method Add(val: real, mIndex: nat, survey: nat, ageIndex: nat, cohortSet: nat, species: nat, genotype: nat)
      requires Valid() && InRange(Dimensions(), mIndex, survey, ageIndex, cohortSet, species, genotype)
      modifies this`reports
      ensures Valid()
      ensures var x := Cell(mIndex, survey, ageIndex, cohortSet, species, genotype);
        x < |old(reports)| && reports == old(reports)[x := old(reports)[x] + val]
    {
      IndexBelowSize(Dimensions(), mIndex, survey, ageIndex, cohortSet, species, genotype);
      var x := Index(Dimensions(), mIndex, survey, ageIndex, cohortSet, species, genotype);
      reports := reports[x := reports[x] + val];
    }

    /** A report is stored: it is made during a survey, for a reported age
        group, of a measure this store holds. */
    predicate Stores(measure: nat, survey: nat, ageIndex: nat)
      reads this
    {
      survey != NOT_USED && ageIndex != nAgeGroups && measure < |mIndices| && mIndices[measure].At?
    }

    /** report(): a report outside the surveys, for the last age group or
        of a measure this store does not hold changes nothing; any other
        adds val to the one cell of its slot and tuple. */
    method Report(val: real, measure: nat, survey: nat, ageIndex: nat, cohortSet: nat, species: nat,
                  genotype: nat)
      requires Valid()
      requires survey != NOT_USED && ageIndex != nAgeGroups ==>
        measure < |mIndices| && ageIndex < nAgeGroups && cohortSet < nCohortSets &&
        species < nSpecies && genotype < nGenotypes && (mIndices[measure].At? ==> survey < nSurveys)
      modifies this`reports
      ensures Valid()
      ensures !Stores(measure, survey, ageIndex) ==> reports == old(reports)
      ensures Stores(measure, survey, ageIndex) ==>
        var x := Cell(mIndices[measure].slot, survey, ageIndex, cohortSet, species, genotype);
        x < |old(reports)| && reports == old(reports)[x := old(reports)[x] + val]
    {
      if survey == NOT_USED || ageIndex == nAgeGroups {
        return;
      }
      if mIndices[measure] == Unused {
        return;
      }
      Add(val, mIndices[measure].slot, survey, ageIndex, cohortSet, species, genotype);
    }

    /** deploy(): outside the surveys or for the last age group nothing
        changes; otherwise every deployment entry of the measure whose mask
        holds the method adds val to the cell of its slot, and no other cell
        changes. */
    method Deploy(val: real, measure: nat, survey: nat, ageIndex: nat, cohortSet: nat, deployMethod: bv8)
      requires Valid()
      requires survey != NOT_USED && ageIndex != nAgeGroups ==>
        measure < |mIndices| && mIndices[measure] == Unused && nSpecies == 1 && nGenotypes == 1 &&
        ageIndex < nAgeGroups && cohortSet < nCohortSets && survey < nSurveys
      modifies this`reports
      ensures Valid()
      ensures survey == NOT_USED || ageIndex == nAgeGroups ==> reports == old(reports)
      ensures survey != NOT_USED && ageIndex != nAgeGroups ==>
        forall k :: 0 <= k < |deployIndices| && Fires(deployIndices[k], measure, deployMethod) ==>
          var x := DeployCell(Dimensions(), deployIndices[k], survey, ageIndex, cohortSet);
          x < |old(reports)| && reports[x] == old(reports)[x] + val
      ensures survey != NOT_USED && ageIndex != nAgeGroups ==>
        forall x ::
          0 <= x < |reports| &&
          Untouched(Dimensions(), deployIndices, |deployIndices|, measure, deployMethod, survey, ageIndex, cohortSet, x)
          ==> reports[x] == old(reports)[x]
    {
      if survey == NOT_USED || ageIndex == nAgeGroups {
        return;
      }
      reports := DeployLoop(reports, Dimensions(), deployIndices, measure, deployMethod, survey, ageIndex,
                            cohortSet, val);
    }

    /** write(): the slots in the order they are written, by increasing
        external id; where two slots share an id the map keeps the later. */
    method Write() returns (order: seq<Ordered>)
      ensures SortedIds(order)
      ensures forall id :: Lookup(order, id) == LastSlot(outMeasures, id)
    {
      order := [];
      var m := 0;
      while m < |outMeasures|
        invariant 0 <= m <= |outMeasures|
        invariant SortedIds(order)
        invariant forall id :: Lookup(order, id) == LastSlot(outMeasures[..m], id)
      {
        MapPutSorted(order, outMeasures[m], m);
        forall id
          ensures Lookup(MapPut(order, outMeasures[m], m), id) == LastSlot(outMeasures[..m + 1], id)
        {
          MapPutLookup(order, outMeasures[m], m, id);
          assert outMeasures[..m + 1][..m] == outMeasures[..m];
        }
        order := MapPut(order, outMeasures[m], m);
        m := m + 1;
      }
      assert outMeasures[..m] == outMeasures;
    }

    /** checkpoint(ostream&): the length of the table, then its cells. */
    method Checkpoint() returns (l: nat, data: seq<real>)
      ensures Valid() ==> l == Size(Dimensions())
      ensures l == |data| && data == reports
    {
      l, data := |reports|, reports;
    }

    /** checkpoint(istream&): a length that is not size() is an error (ok
        false, nothing read); otherwise the table is read from the stream. */
    method Restore(l: nat, stream: seq<real>) returns (ok: bool)
      requires l == Size(Dimensions()) ==> |stream| >= l
      modifies this`reports
      ensures ok <==> l == Size(Dimensions())
      ensures ok ==> reports == stream[..l]
      ensures !ok ==> reports == old(reports)
      ensures old(Valid()) ==> Valid()
    {
      if l != Size(Dimensions()) {
        return false;
      }
      reports := stream[..l];
      ok := true;
    }
  }
}
