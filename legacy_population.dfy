/** The population of the original OpenMalaria human model
    (model/Population.cpp): the per-step pass that removes dead humans and
    out-migrates those above the target age structure, the births that
    refill it, the birth counter, the initial population, the checkpoint
    length check and the continuous demography and median outputs.

    Times are whole time steps. A human is its date of birth and its
    cumulative exposure Y; the human's own update (Human::update) and the
    target age structure (AgeStructure::targetCumPop) are parameters. */
module LegacyPopulation {
  import opened Common

  /** A human: date of birth (time step) and cumulative exposure Y
      (getCumulative_Y of its within-host model). */
  datatype Human = Human(dob: int, cumY: real)

  /** The human born at dob: a new within-host model has no exposure. */
  function Newborn(dob: int): (h: Human)
    ensures h.dob == dob && h.cumY == 0.0
  {
    Human(dob, 0.0)
  }

  /** What Human::update reports: whether the human died, and the human
      after its update. */
  datatype Outcome = Outcome(dead: bool, human: Human)

  /** The inputs of one update: Human::update (given whether the human will
      live past the vector initialisation), targetCumPop(age, targetPop),
      the step ts1, sim::maxHumanAge() in steps and firstVecInitTS. */
  datatype UpdateEnv = UpdateEnv(step: (Human, bool) -> Outcome, target: (int, int) -> int,
                                 ts1: int, maxHumanAge: int, firstVecInit: int)

  /** A human updated in the pass: it is fully updated only when it can
      live until the vector initialisation. */
  function Stepped(e: UpdateEnv, h: Human): Outcome
  {
    e.step(h, h.dob + e.maxHumanAge >= e.firstVecInit)
  }

  // ---------------------------------------------------------------------
  // The update pass

  /** The humans the pass over ps keeps, in order: a dead human is removed,
      and a survivor is out-migrated when keeping it would make the count
      so far exceed the target cumulative population for its age. */
  function Kept(e: UpdateEnv, targetPop: int, ps: seq<Human>): seq<Human>
  {
    if |ps| == 0 then []
    else
      var n := |ps| - 1;
      var k := Kept(e, targetPop, ps[..n]);
      var o := Stepped(e, ps[n]);
      if o.dead then k
      else if |k| + 1 > e.target(e.ts1 - o.human.dob, targetPop) then k
      else k + [o.human]
  }

  /** For each kept human, the position in ps of the human it was. */
  function KeptFrom(e: UpdateEnv, targetPop: int, ps: seq<Human>): seq<nat>
  {
    if |ps| == 0 then []
    else
      var n := |ps| - 1;
      var k := Kept(e, targetPop, ps[..n]);
      var o := Stepped(e, ps[n]);
      if o.dead || |k| + 1 > e.target(e.ts1 - o.human.dob, targetPop) then KeptFrom(e, targetPop, ps[..n])
      else KeptFrom(e, targetPop, ps[..n]) + [n]
  }

  /** The pass keeps the relative order of the humans it keeps (removal is
      erasure from a list), keeps only survivors, and every kept human is
      within the target cumulative population for its age. */
  lemma {:induction false} KeptSpec(e: UpdateEnv, targetPop: int, ps: seq<Human>)
    ensures var k, idx := Kept(e, targetPop, ps), KeptFrom(e, targetPop, ps);
      |idx| == |k| <= |ps| &&
      (forall j :: 0 <= j < |idx| ==> idx[j] < |ps|) &&
      (forall i, j :: 0 <= i < j < |idx| ==> idx[i] < idx[j]) &&
      (forall j :: 0 <= j < |k| ==> !Stepped(e, ps[idx[j]]).dead && k[j] == Stepped(e, ps[idx[j]]).human) &&
      (forall j :: 0 <= j < |k| ==> j + 1 <= e.target(e.ts1 - k[j].dob, targetPop))
  {
    if |ps| > 0 {
      var n := |ps| - 1;
      KeptSpec(e, targetPop, ps[..n]);
      var k, idx := Kept(e, targetPop, ps[..n]), KeptFrom(e, targetPop, ps[..n]);
      assert forall j :: 0 <= j < |idx| ==> ps[..n][idx[j]] == ps[idx[j]];
    }
  }

  // ---------------------------------------------------------------------
  // The initial population

  /** The humans createInitialHumans makes for the ages from maxSteps - 1
      down to a: for each age, newborns dated that many steps before zero
      until the count reaches the target cumulative population of the
      age. */
  function Initial(target: (int, int) -> int, popSize: int, a: int, maxSteps: nat): seq<Human>
    decreases maxSteps - a
  {
    if a >= maxSteps then []
    else
      var prev := Initial(target, popSize, a + 1, maxSteps);
      prev + seq(MaxInt(0, target(a, popSize) - |prev|), _ => Newborn(-a))
  }

  /** After the ages from maxSteps - 1 down to a, the count is at least the
      target of each of them, and is one of those targets or 0; the humans
      run from the oldest to the youngest, each aged between a and
      maxSteps - 1 steps. */
  lemma {:induction false} InitialSpec(target: (int, int) -> int, popSize: int, a: int, maxSteps: nat)
    requires 0 <= a
    ensures var ps := Initial(target, popSize, a, maxSteps);
      (forall b :: a <= b < maxSteps ==> |ps| >= target(b, popSize)) &&
      (|ps| == 0 || exists b :: a <= b < maxSteps && |ps| == target(b, popSize)) &&
      (forall i, j :: 0 <= i < j < |ps| ==> ps[i].dob <= ps[j].dob) &&
      (forall i :: 0 <= i < |ps| ==> -(maxSteps as int) < ps[i].dob <= -a && ps[i] == Newborn(ps[i].dob))
    decreases maxSteps - a
  {
    if a < maxSteps {
      InitialSpec(target, popSize, a + 1, maxSteps);
      var prev := Initial(target, popSize, a + 1, maxSteps);
      var ps := Initial(target, popSize, a, maxSteps);
      assert forall i :: 0 <= i < |prev| ==> ps[i] == prev[i];
      if |ps| > |prev| {
        assert |ps| == target(a, popSize);
      }
    }
  }

  // ---------------------------------------------------------------------
  // Demography output

  /** The upper age bounds, in years, of the demography output. */
  const DEMOG_BOUNDS: seq<real> := [1.0, 5.0, 10.0, 15.0, 25.0]

  /** Age in years at now, with daysPerStep days per step. */
  function AgeYears(h: Human, now: int, daysPerStep: nat): real
  {
    ((now - h.dob) * daysPerStep) as real / 365.0
  }

  /** The number of humans at the end of ps, counted from the youngest,
      before the first one aged ubound years or more. */
  function YoungRun(ps: seq<Human>, now: int, daysPerStep: nat, ubound: real): nat
  {
    if |ps| == 0 || AgeYears(ps[|ps| - 1], now, daysPerStep) >= ubound then 0
    else 1 + YoungRun(ps[..|ps| - 1], now, daysPerStep, ubound)
  }

  /** The last c humans are all younger than ubound. */
  predicate YoungTail(ps: seq<Human>, now: int, daysPerStep: nat, ubound: real, c: nat)
  {
    c <= |ps| && forall j :: |ps| - c <= j < |ps| ==> AgeYears(ps[j], now, daysPerStep) < ubound
  }

  /** YoungRun is the longest tail of humans younger than ubound: the
      human before it, if any, is not. */
  lemma {:induction false} YoungRunSpec(ps: seq<Human>, now: int, daysPerStep: nat, ubound: real)
    ensures var r := YoungRun(ps, now, daysPerStep, ubound);
      YoungTail(ps, now, daysPerStep, ubound, r) &&
      (r < |ps| ==> AgeYears(ps[|ps| - r - 1], now, daysPerStep) >= ubound)
  {
    if |ps| > 0 && AgeYears(ps[|ps| - 1], now, daysPerStep) < ubound {
      var n := |ps| - 1;
      YoungRunSpec(ps[..n], now, daysPerStep, ubound);
      var r := YoungRun(ps[..n], now, daysPerStep, ubound);
      assert forall j :: n - r <= j < n ==> ps[..n][j] == ps[j];
      if r < n {
        assert ps[..n][n - r - 1] == ps[n - r - 1];
      }
    }
  }

  /** Any tail of younger humans is at most the run. */
  lemma {:induction false} YoungRunLongest(ps: seq<Human>, now: int, daysPerStep: nat, ubound: real, c: nat)
    requires YoungTail(ps, now, daysPerStep, ubound, c)
    ensures c <= YoungRun(ps, now, daysPerStep, ubound)
  {
    if c > 0 {
      var n := |ps| - 1;
      assert AgeYears(ps[n], now, daysPerStep) < ubound;
      assert forall j :: n - (c - 1) <= j < n ==> ps[..n][j] == ps[j];
      YoungRunLongest(ps[..n], now, daysPerStep, ubound, c - 1);
    }
  }

  /** A larger bound has a run at least as long: the demography counts are
      nondecreasing across the age bounds. */
  lemma YoungRunMonotone(ps: seq<Human>, now: int, daysPerStep: nat, b: real, b': real)
    requires b <= b'
    ensures YoungRun(ps, now, daysPerStep, b) <= YoungRun(ps, now, daysPerStep, b')
  {
    YoungRunSpec(ps, now, daysPerStep, b);
    YoungRunLongest(ps, now, daysPerStep, b', YoungRun(ps, now, daysPerStep, b));
  }

  /** The number of humans in ps younger than ubound. */
  function CountYounger(ps: seq<Human>, now: int, daysPerStep: nat, ubound: real): nat
  {
    if |ps| == 0 then 0
    else CountYounger(ps[..|ps| - 1], now, daysPerStep, ubound) +
         (if AgeYears(ps[|ps| - 1], now, daysPerStep) < ubound then 1 else 0)
  }

  /** The humans run from the oldest to the youngest. */
  predicate OldestFirst(ps: seq<Human>)
  {
    forall i, j :: 0 <= i < j < |ps| ==> ps[i].dob <= ps[j].dob
  }

  /** When the humans run from the oldest to the youngest, as births are
      appended, the run is the number of humans younger than the bound. */
  lemma {:induction false} YoungRunCounts(ps: seq<Human>, now: int, daysPerStep: nat, ubound: real)
    requires OldestFirst(ps)
    ensures YoungRun(ps, now, daysPerStep, ubound) == CountYounger(ps, now, daysPerStep, ubound)
  {
    if |ps| > 0 {
      var n := |ps| - 1;
      var ps' := ps[..n];
      assert OldestFirst(ps');
      if AgeYears(ps[n], now, daysPerStep) < ubound {
        YoungRunCounts(ps', now, daysPerStep, ubound);
      } else {
        forall j | 0 <= j <= n
          ensures AgeYears(ps[j], now, daysPerStep) >= ubound
        {
          assert ps[j].dob <= ps[n].dob;
          MulMonotoneNat(daysPerStep, now - ps[n].dob, now - ps[j].dob);
        }
        NoneYounger(ps, now, daysPerStep, ubound);
      }
    }
  }

  /** Multiplication by a natural number is monotone. */
  lemma {:induction false} MulMonotoneNat(a: nat, b: int, c: int)
    ensures b <= c ==> b * a <= c * a
    decreases c - b
  {
    if b < c {
      MulMonotoneNat(a, b, c - 1);
    }
  }

  /** No human younger than the bound: the count is 0. */
  lemma {:induction false} NoneYounger(ps: seq<Human>, now: int, daysPerStep: nat, ubound: real)
    requires forall j :: 0 <= j < |ps| ==> AgeYears(ps[j], now, daysPerStep) >= ubound
    ensures CountYounger(ps, now, daysPerStep, ubound) == 0
  {
    if |ps| > 0 {
      var n := |ps| - 1;
      assert forall j :: 0 <= j < n ==> ps[..n][j] == ps[j];
      NoneYounger(ps[..n], now, daysPerStep, ubound);
    }
  }

  // ---------------------------------------------------------------------
  // Median

  /** The cumulative exposures of the humans, in population order. */
  function Exposures(ps: seq<Human>): (ys: seq<real>)
    ensures |ys| == |ps| && forall i :: 0 <= i < |ps| ==> ys[i] == ps[i].cumY
  {
    seq(|ps|, i requires 0 <= i < |ps| => ps[i].cumY)
  }

  predicate SortedUp(s: seq<real>)
  {
    forall i, j :: 0 <= i < j < |s| ==> s[i] <= s[j]
  }

  /** y inserted into a sorted list before the first larger element. */
  function Insert(y: real, s: seq<real>): (r: seq<real>)
    ensures |r| == |s| + 1
  {
    if |s| == 0 || y <= s[0] then [y] + s else [s[0]] + Insert(y, s[1..])
  }

  /** The list sorted into nondecreasing order (std::sort). */
  function Sort(s: seq<real>): (r: seq<real>)
    ensures |r| == |s|
  {
    if |s| == 0 then [] else Insert(s[0], Sort(s[1..]))
  }

  /** Insertion adds exactly y. */
  lemma {:induction false} InsertElements(y: real, s: seq<real>)
    ensures multiset(Insert(y, s)) == multiset(s) + multiset{y}
  {
    if |s| > 0 && y > s[0] {
      InsertElements(y, s[1..]);
      assert s == [s[0]] + s[1..];
    }
  }

  /** Insertion keeps a list sorted. */
  lemma {:induction false} InsertSorted(y: real, s: seq<real>)
    requires SortedUp(s)
    ensures SortedUp(Insert(y, s))
  {
    if |s| > 0 && y > s[0] {
      InsertSorted(y, s[1..]);
      InsertElements(y, s[1..]);
      var t := Insert(y, s[1..]);
      forall j | 0 <= j < |t|
        ensures s[0] <= t[j]
      {
        assert t[j] in multiset(t);
        if t[j] != y {
          assert t[j] in s[1..];
        }
      }
      var r := [s[0]] + t;
      forall i, j | 0 <= i < j < |r|
        ensures r[i] <= r[j]
      {
        if i > 0 {
          assert r[i] == t[i - 1] && r[j] == t[j - 1];
        }
      }
    }
  }

  /** Insertion keeps a list sorted and adds exactly y. */
  lemma InsertSpec(y: real, s: seq<real>)
    requires SortedUp(s)
    ensures SortedUp(Insert(y, s)) && multiset(Insert(y, s)) == multiset(s) + multiset{y}
  {
    InsertElements(y, s);
    InsertSorted(y, s);
  }

  /** Sort gives a sorted permutation of its input. */
  lemma {:induction false} SortSpec(s: seq<real>)
    ensures SortedUp(Sort(s)) && multiset(Sort(s)) == multiset(s)
  {
    if |s| > 0 {
      SortSpec(s[1..]);
      InsertSpec(s[0], Sort(s[1..]));
      assert s == [s[0]] + s[1..];
    }
  }

  /** The number of elements of s at most x, and at least x. */
  function CountLe(s: seq<real>, x: real): nat
  {
    if |s| == 0 then 0 else (if s[0] <= x then 1 else 0) + CountLe(s[1..], x)
  }

  function CountGe(s: seq<real>, x: real): nat
  {
    if |s| == 0 then 0 else (if s[0] >= x then 1 else 0) + CountGe(s[1..], x)
  }

  /** The counts depend only on the elements, not their order. */
  lemma {:induction false} CountsOfInsert(y: real, s: seq<real>, x: real)
    ensures CountLe(Insert(y, s), x) == CountLe(s, x) + (if y <= x then 1 else 0)
    ensures CountGe(Insert(y, s), x) == CountGe(s, x) + (if y >= x then 1 else 0)
  {
    if |s| > 0 && y > s[0] {
      CountsOfInsert(y, s[1..], x);
      assert ([s[0]] + Insert(y, s[1..]))[1..] == Insert(y, s[1..]);
    } else {
      assert ([y] + s)[1..] == s;
    }
  }

  lemma {:induction false} CountsOfSort(s: seq<real>, x: real)
    ensures CountLe(Sort(s), x) == CountLe(s, x) && CountGe(Sort(s), x) == CountGe(s, x)
  {
    if |s| > 0 {
      CountsOfSort(s[1..], x);
      CountsOfInsert(s[0], Sort(s[1..]), x);
    }
  }

  /** In a sorted list, at least k + 1 elements are at most s[k] ... */
  lemma {:induction false} CountLeSorted(s: seq<real>, k: nat, x: real)
    requires SortedUp(s) && k < |s| && s[k] <= x
    ensures CountLe(s, x) >= k + 1
  {
    if k > 0 {
      assert SortedUp(s[1..]);
      assert s[1..][k - 1] == s[k];
      CountLeSorted(s[1..], k - 1, x);
    } else {
      assert s[0] <= x;
    }
  }

  /** ... and at least |s| - k are at least s[k]. */
  lemma {:induction false} CountGeSorted(s: seq<real>, k: nat, x: real)
    requires SortedUp(s) && k < |s| && x <= s[k]
    ensures CountGe(s, x) >= |s| - k
  {
    if k > 0 {
      assert SortedUp(s[1..]);
      assert s[1..][k - 1] == s[k];
      CountGeSorted(s[1..], k - 1, x);
    } else {
      AllGe(s, x);
    }
  }

  lemma {:induction false} AllGe(s: seq<real>, x: real)
    requires SortedUp(s) && (|s| > 0 ==> x <= s[0])
    ensures CountGe(s, x) == |s|
  {
    if |s| > 0 {
      assert SortedUp(s[1..]);
      if |s| > 1 {
        assert s[0] <= s[1];
      }
      AllGe(s[1..], x);
    }
  }

  /** The median of n values taken from a sorted list: the middle element
      for odd n, the mean of the two middle elements for even n. */
  function MiddleOf(s: seq<real>, n: nat): real
    requires 0 < n && n / 2 < |s|
  {
    if n % 2 == 0 then (s[n / 2 - 1] + s[n / 2]) / 2.0 else s[n / 2]
  }

  /** The middle of a sorted list has at least half (rounded up) of its
      elements at most it and at least half at least it. */
  lemma MiddleSplitsSorted(s: seq<real>)
    requires |s| > 0 && SortedUp(s)
    ensures var m := MiddleOf(s, |s|);
      CountLe(s, m) >= (|s| + 1) / 2 && CountGe(s, m) >= (|s| + 1) / 2
  {
    var n, h := |s|, |s| / 2;
    var m := MiddleOf(s, n);
    if n % 2 == 0 {
      assert (n + 1) / 2 == h && n - h == h;
      assert s[h - 1] <= m <= s[h];
      CountLeSorted(s, h - 1, m);
      CountGeSorted(s, h, m);
    } else {
      assert (n + 1) / 2 == h + 1 && n - h == h + 1;
      CountLeSorted(s, h, m);
      CountGeSorted(s, h, m);
    }
  }

  /** The median of all the values splits them: at least half (rounded up)
      are at most it and at least half are at least it. */
  lemma MedianSplits(ys: seq<real>)
    requires |ys| > 0
    ensures var m := MiddleOf(Sort(ys), |ys|);
      CountLe(ys, m) >= (|ys| + 1) / 2 && CountGe(ys, m) >= (|ys| + 1) / 2
  {
    var s := Sort(ys);
    SortSpec(ys);
    MiddleSplitsSorted(s);
    CountsOfSort(ys, MiddleOf(s, |ys|));
  }

  // ---------------------------------------------------------------------
  // The population

  class Population {
    /** The humans, oldest first: births are appended. */
    var people: seq<Human>
    /** Births since the last continuous output. */
    var recentBirths: int

    /** Population(): no humans, no births. */
    constructor ()
      ensures people == [] && recentBirths == 0
    {
      people, recentBirths := [], 0;
    }

    /** preMainSimInit: the birth counter restarts at 0; the humans stay. */
    method PreMainSimInit()
      modifies this`recentBirths
      ensures recentBirths == 0
    {
      recentBirths := 0;
    }

    /** newHuman(dob): one more human, born at dob, and one more birth. */
    method NewHuman(dob: int)
      modifies this`people, this`recentBirths
      ensures people == old(people) + [Newborn(dob)]
      ensures recentBirths == old(recentBirths) + 1
    {
      people := people + [Newborn(dob)];
      recentBirths := recentBirths + 1;
    }

    /** ctsRecentBirths(): the births since the last call, and the counter
        starts again from 0. */
    method CtsRecentBirths() returns (n: int)
      modifies this`recentBirths
      ensures n == old(recentBirths) && recentBirths == 0
    {
      n := recentBirths;
      recentBirths := 0;
    }

    /** checkpoint(istream&): the birth counter, then up to popSize humans
        while the stream lasts; ok is false where the program throws
        because the count is not popSize. */
    method ReadCheckpoint(births: int, stream: seq<Human>, popSize: nat) returns (ok: bool)
      modifies this`people, this`recentBirths
      ensures recentBirths == births
      ensures people == old(people) + stream[..MinInt(popSize, |stream|)]
      ensures ok <==> |people| == popSize
      ensures old(people) == [] ==> (ok <==> |stream| >= popSize)
    {
      var read: seq<Human> := [];
      var i := 0;
      while i < popSize && i < |stream|
        invariant 0 <= i <= MinInt(popSize, |stream|) && read == stream[..i]
      {
        read := read + [stream[i]];
        i := i + 1;
      }
      recentBirths := births;
      people := people + read;
      ok := |people| == popSize;
    }

    /** createInitialHumans(): newborns for each age from the oldest,
        maxSteps - 1 steps, to 0, until the count reaches the target for each
        age (targetCumPop(age, popSize)); afterwards the count is at least
        every age's target. */
    method CreateInitialHumans(target: (int, int) -> int, maxSteps: nat, popSize: int)
      modifies this`people, this`recentBirths
      ensures people == old(people) + Initial(target, popSize, 0, maxSteps)
      ensures recentBirths == old(recentBirths) + |Initial(target, popSize, 0, maxSteps)|
    {
      var born: seq<Human> := [];
      var a: int := maxSteps - 1;
      while a >= 0
        invariant -1 <= a < maxSteps
        invariant born == Initial(target, popSize, a + 1, maxSteps)
        decreases a
      {
        var targetPop := target(a, popSize);
        ghost var prev := born;
        while |born| < targetPop
          invariant prev <= born && |born| <= MaxInt(|prev|, targetPop)
          invariant forall i :: |prev| <= i < |born| ==> born[i] == Newborn(-a)
          decreases targetPop - |born|
        {
          born := born + [Newborn(-a)];
        }
        assert born == prev + seq(MaxInt(0, targetPop - |prev|), _ => Newborn(-a));
        a := a - 1;
      }
      people := people + born;
      recentBirths := recentBirths + |born|;
    }

    /** update(): the pass over the humans keeps, in order, those Kept
        selects, then newborns dated ts1 bring the count up to targetPop;
        each newborn is a birth. */
    method Update(e: UpdateEnv, targetPop: int)
      modifies this`people, this`recentBirths
      ensures var k := Kept(e, targetPop, old(people));
        people == k + seq(MaxInt(0, targetPop - |k|), _ => Newborn(e.ts1)) &&
        recentBirths == old(recentBirths) + MaxInt(0, targetPop - |k|)
      ensures |people| == MaxInt(|Kept(e, targetPop, old(people))|, targetPop)
    {
      var ps := people;
      var kept: seq<Human> := [];
      var cumPop := 0;
      var i := 0;
      while i < |ps|
        invariant 0 <= i <= |ps|
        invariant kept == Kept(e, targetPop, ps[..i]) && cumPop == |kept|
      {
        assert ps[..i + 1][..i] == ps[..i];
        var o := e.step(ps[i], ps[i].dob + e.maxHumanAge >= e.firstVecInit);
        if !o.dead {
          cumPop := cumPop + 1;
          if cumPop > e.target(e.ts1 - o.human.dob, targetPop) {
            cumPop := cumPop - 1;
          } else {
            kept := kept + [o.human];
          }
        }
        i := i + 1;
      }
      assert ps[..i] == ps;
      ghost var k := kept;
      var born := 0;
      while cumPop < targetPop
        invariant cumPop == |k| + born && born == MaxInt(0, cumPop - |k|)
        invariant born <= MaxInt(0, targetPop - |k|)
        invariant kept == k + seq(born, _ => Newborn(e.ts1))
        decreases targetPop - cumPop
      {
        kept := kept + [Newborn(e.ts1)];
        born := born + 1;
        cumPop := cumPop + 1;
      }
      people := kept;
      recentBirths := recentBirths + born;
    }

    /** ctsHostDemography(): for each age bound, the number of humans
        counted from the youngest before the first one that old; when the
        humans run from the oldest, that is the number younger than the
        bound. */
    method HostDemography(now: int, daysPerStep: nat) returns (counts: seq<int>)
      ensures |counts| == |DEMOG_BOUNDS|
      ensures forall k :: 0 <= k < |counts| ==> counts[k] == YoungRun(people, now, daysPerStep, DEMOG_BOUNDS[k])
    {
      counts := [];
      var cumCount := 0;
      var k := 0;
      while k < |DEMOG_BOUNDS|
        invariant 0 <= k <= |DEMOG_BOUNDS| && |counts| == k
        invariant forall j :: 0 <= j < k ==> counts[j] == YoungRun(people, now, daysPerStep, DEMOG_BOUNDS[j])
        invariant k > 0 ==> cumCount == YoungRun(people, now, daysPerStep, DEMOG_BOUNDS[k - 1])
        invariant k == 0 ==> cumCount == 0
      {
        var ubound := DEMOG_BOUNDS[k];
        YoungRunSpec(people, now, daysPerStep, ubound);
        if k > 0 {
          YoungRunMonotone(people, now, daysPerStep, DEMOG_BOUNDS[k - 1], ubound);
        }
        while cumCount < |people| && AgeYears(people[|people| - 1 - cumCount], now, daysPerStep) < ubound
          invariant cumCount <= YoungRun(people, now, daysPerStep, ubound)
          decreases |people| - cumCount
        {
          cumCount := cumCount + 1;
        }
        YoungRunLongest(people, now, daysPerStep, ubound, cumCount);
        counts := counts + [cumCount];
        k := k + 1;
      }
    }

    /** ctsMedianImmunityY(): the median of the humans' cumulative
        exposures, taken at popSize (the program indexes the sorted list by
        the configured size, not the list's length). */
    method MedianImmunityY(popSize: nat) returns (x: real)
      requires 0 < popSize && popSize / 2 < |people|
      ensures x == MiddleOf(Sort(Exposures(people)), popSize)
      ensures popSize == |people| ==>
        CountLe(Exposures(people), x) >= (popSize + 1) / 2 && CountGe(Exposures(people), x) >= (popSize + 1) / 2
    {
      var list: seq<real> := [];
      var i := 0;
      while i < |people|
        invariant 0 <= i <= |people| && list == Exposures(people[..i])
      {
        list := list + [people[i].cumY];
        i := i + 1;
      }
      assert people[..i] == people;
      var s := Sort(list);
      SortSpec(list);
      assert |s| == |multiset(s)| == |list|;
      if popSize % 2 == 0 {
        var j := popSize / 2;
        x := (s[j - 1] + s[j]) / 2.0;
      } else {
        x := s[popSize / 2];
      }
      if popSize == |people| {
        MedianSplits(list);
      }
    }
  }
}
