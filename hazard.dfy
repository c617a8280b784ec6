/** The competing-hazards sampler CH_sample (model/white/Individual.cpp and
    model/Pv_mod/Individual.cpp): the weight array is overwritten with its
    running sums and the first bin whose running sum exceeds the uniform draw
    is returned, with the last bin as fallback. */
module Hazard {

  /** Sum of a sequence of weights. */
  function Sum(w: seq<real>): real
  {
    if w == [] then 0.0 else Sum(w[..|w| - 1]) + w[|w| - 1]
  }

  /** Running sums: entry k holds w[0] + ... + w[k]. */
  function PrefixSums(w: seq<real>): (p: seq<real>)
    ensures |p| == |w|
  {
    if w == [] then [] else PrefixSums(w[..|w| - 1]) + [Sum(w)]
  }

  lemma {:induction false} PrefixSumsAt(w: seq<real>, k: nat)
    requires k < |w|
    ensures PrefixSums(w)[k] == Sum(w[..k + 1])
  {
    if k < |w| - 1 {
      PrefixSumsAt(w[..|w| - 1], k);
      assert w[..|w| - 1][..k + 1] == w[..k + 1];
    } else {
      assert w[..k + 1] == w;
    }
  }

  /** The first-step recurrence that the in-place loop of CH_sample follows. */
  lemma {:induction false} PrefixSumsStep(w: seq<real>, k: nat)
    requires 0 < k < |w|
    ensures PrefixSums(w)[k] == PrefixSums(w)[k - 1] + w[k]
  {
    PrefixSumsAt(w, k);
    PrefixSumsAt(w, k - 1);
    assert w[..k + 1][..k] == w[..k];
  }

  lemma PrefixSumsHead(w: seq<real>)
    requires 0 < |w|
    ensures PrefixSums(w)[0] == w[0]
  {
    PrefixSumsAt(w, 0);
    assert w[..1][..0] == [];
  }

  /** The bin chosen by CH_sample for running sums p and uniform draw u. */
  function FirstHit(p: seq<real>, u: real): (k: nat)
    requires |p| > 0
    ensures k < |p|
    ensures forall j :: 0 <= j < k ==> p[j] <= u
    ensures (exists j :: 0 <= j < |p| && u < p[j]) ==> u < p[k]
    ensures (forall j :: 0 <= j < |p| ==> p[j] <= u) ==> k == |p| - 1
  {
    FirstHitFrom(p, u, 0)
  }

  function FirstHitFrom(p: seq<real>, u: real, i: nat): (k: nat)
    requires i <= |p| && |p| > 0
    requires forall j :: 0 <= j < i ==> p[j] <= u
    ensures i <= k < |p| || (i == |p| && k == |p| - 1)
    ensures forall j :: 0 <= j < k ==> p[j] <= u
    ensures (exists j :: i <= j < |p| && u < p[j]) ==> u < p[k]
    ensures (forall j :: i <= j < |p| ==> p[j] <= u) ==> k == |p| - 1
    decreases |p| - i
  {
    if i == |p| then |p| - 1
    else if u < p[i] then i
    else FirstHitFrom(p, u, i + 1)
  }

  /** CH_sample: rewrites the weights with their running sums and returns the
      chosen bin. No bin is chosen twice and the result is always < num. */
  method CHSample(w: array<real>, u: real) returns (k: nat)
    requires w.Length > 0
    modifies w
    ensures w[..] == PrefixSums(old(w[..]))
    ensures k == FirstHit(w[..], u) && k < w.Length
  {
    ghost var w0 := w[..];
    PrefixSumsHead(w0);
    var i := 1;
    while i < w.Length
      invariant 1 <= i <= w.Length
      invariant forall j :: 0 <= j < i ==> w[j] == PrefixSums(w0)[j]
      invariant forall j :: i <= j < w.Length ==> w[j] == w0[j]
    {
      PrefixSumsStep(w0, i);
      w[i] := w[i] + w[i - 1];
      i := i + 1;
    }
    assert w[..] == PrefixSums(w0);
    k := 0;
    while k < w.Length
      invariant 0 <= k <= w.Length
      invariant forall j :: 0 <= j < k ==> w[j] <= u
      invariant FirstHitFrom(w[..], u, k) == FirstHit(w[..], u)
    {
      if u < w[k] {
        return;
      }
      k := k + 1;
    }
    k := w.Length - 1;
  }

  /** With nonnegative weights the running sums never decrease. */
  lemma {:induction false} PrefixSumsMonotone(w: seq<real>, i: nat, j: nat)
    requires forall k :: 0 <= k < |w| ==> 0.0 <= w[k]
    requires i <= j < |w|
    ensures PrefixSums(w)[i] <= PrefixSums(w)[j]
  {
    if i < j {
      PrefixSumsMonotone(w, i, j - 1);
      PrefixSumsStep(w, j);
    }
  }

  /** A bin of zero weight is never drawn, except as the fallback when the
      draw lies at or above the total. */
  lemma ZeroWeightNotChosen(w: seq<real>, u: real, k: nat)
    requires k < |w| && w[k] == 0.0
    requires k == 0 ==> 0.0 <= u
    requires u < PrefixSums(w)[|w| - 1]
    ensures FirstHit(PrefixSums(w), u) != k
  {
    var p := PrefixSums(w);
    assert u < p[|w| - 1];
    if FirstHit(p, u) == k {
      if k == 0 { PrefixSumsHead(w); } else { PrefixSumsStep(w, k); }
    }
  }

  /** The chosen bin is the one whose interval [p[k-1], p[k]) holds u, when
      u lies in [0, total). */
  lemma ChosenInterval(w: seq<real>, u: real)
    requires |w| > 0
    requires forall k :: 0 <= k < |w| ==> 0.0 <= w[k]
    requires 0.0 <= u < PrefixSums(w)[|w| - 1]
    ensures var k := FirstHit(PrefixSums(w), u);
      (k == 0 || PrefixSums(w)[k - 1] <= u) && u < PrefixSums(w)[k]
  {
  }
}
