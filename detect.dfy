/** Detection bit flags for new infections and the PQ-protection convention
    (model/white/Individual.hpp). */
module Detect {

  /** uint32_t in the program. */
  type Bits = bv32

  const I_DETECT_PCR: Bits := 1
  const I_DETECT_LM: Bits := 2
  const I_DETECT_D: Bits := 4

  /** The detection channels that see every new clinical or treated case. */
  const ALL_DETECT: Bits := I_DETECT_PCR | I_DETECT_LM | I_DETECT_D

  predicate SingleBit(x: Bits)
  {
    x != 0 && x & (x - 1) == 0
  }

  lemma DetectFlagsDistinctBits()
    ensures SingleBit(I_DETECT_PCR) && SingleBit(I_DETECT_LM) && SingleBit(I_DETECT_D)
    ensures I_DETECT_PCR & I_DETECT_LM == 0 && I_DETECT_PCR & I_DETECT_D == 0
    ensures I_DETECT_LM & I_DETECT_D == 0
    ensures ALL_DETECT == 7
  {
  }

  /** infected_new: was a new infection seen by any of the channels in d? */
  function InfectedNew(iNew: Bits, d: Bits): (r: bool)
    ensures (iNew == 0 || d == 0) ==> !r
    ensures d != 0 && iNew & d == d ==> r
  {
    iNew & d != 0
  }

  /** infected_new distributes over a union of detection channels. */
  lemma InfectedNewUnion(iNew: Bits, a: Bits, b: Bits)
    ensures InfectedNew(iNew, a | b) == (InfectedNew(iNew, a) || InfectedNew(iNew, b))
  {
    assert iNew & (a | b) == (iNew & a) | (iNew & b);
  }

  /** An individual is protected by primaquine prophylaxis while its
      protection date is not before the current time step. */
  function PQProtected(pqProph: int, now: int): (r: bool)
    ensures r <==> !(pqProph < now)
  {
    pqProph >= now
  }

  /** Protection lasts: an individual protected now was protected at every
      earlier step, and a later protection date protects at least as long. */
  lemma PQProtectedLasts(pqProph: int, later: int, now: int, earlier: int)
    requires PQProtected(pqProph, now) && earlier <= now && pqProph <= later
    ensures PQProtected(pqProph, earlier) && PQProtected(later, now)
  {
  }
}
