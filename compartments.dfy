/** The six infection compartments of the P. vivax individual-based model and
    the moves between them. An individual stores one boolean flag per
    compartment (S, I_PCR, I_LM, I_D, T, P); exactly one of them is set. */
module Compartments {

  /** S susceptible, IPCR PCR-detectable, ILM light-microscopy detectable,
      ID clinical disease, T under treatment, P treatment prophylaxis. */
  datatype Comp = S | IPCR | ILM | ID | T | P

  /** The six compartment flags of one individual. */
  datatype Flags = Flags(s: bool, ipcr: bool, ilm: bool, id: bool, t: bool, p: bool)

  function Count(f: Flags): (n: nat)
    ensures n <= 6
  {
    (if f.s then 1 else 0) + (if f.ipcr then 1 else 0) + (if f.ilm then 1 else 0)
    + (if f.id then 1 else 0) + (if f.t then 1 else 0) + (if f.p then 1 else 0)
  }

  /** Exactly one flag is set: f is one of the six one-flag patterns. */
  predicate ExactlyOne(f: Flags)
  {
    f == Flags(true, false, false, false, false, false) ||
    f == Flags(false, true, false, false, false, false) ||
    f == Flags(false, false, true, false, false, false) ||
    f == Flags(false, false, false, true, false, false) ||
    f == Flags(false, false, false, false, true, false) ||
    f == Flags(false, false, false, false, false, true)
  }

  /** The six patterns are exactly the flag sets with one flag counted. */
  lemma ExactlyOneIsCountOne(f: Flags)
    ensures ExactlyOne(f) <==> Count(f) == 1
  {
  }

  /** The flag that stands for compartment c. */
  function Holds(f: Flags, c: Comp): (b: bool)
  {
    match c
    case S => f.s
    case IPCR => f.ipcr
    case ILM => f.ilm
    case ID => f.id
    case T => f.t
    case P => f.p
  }

  /** Only c's flag set. */
  function FlagsOf(c: Comp): (f: Flags)
    ensures ExactlyOne(f)
    ensures forall d: Comp :: Holds(f, d) <==> d == c
  {
    Flags(c == S, c == IPCR, c == ILM, c == ID, c == T, c == P)
  }

  /** The compartment whose flag is set. */
  function CompOf(f: Flags): (c: Comp)
    requires ExactlyOne(f)
    ensures Holds(f, c)
    ensures FlagsOf(c) == f
  {
    if f.s then S else if f.ipcr then IPCR else if f.ilm then ILM
    else if f.id then ID else if f.t then T else P
  }

  lemma CompOfFlagsOf(c: Comp)
    ensures CompOf(FlagsOf(c)) == c
  {
  }

  /** The moves that state_mover can make in one call: the edges of the
      compartment graph. */
  predicate Edge(from: Comp, to: Comp)
  {
    match from
    case S => to in {IPCR, ILM, ID, T}
    case IPCR => to in {S, ILM, ID, T}
    case ILM => to in {IPCR, ID, T}
    case ID => to == ILM
    case T => to == P
    case P => to == S
  }

  /** At most one move: either no change or one edge. */
  predicate AtMostOneMove(from: Comp, to: Comp)
  {
    from == to || Edge(from, to)
  }

  /** The effect of an effective blood-stage drug given by a campaign
      (MDA, MSAT, SSAT): blood-stage infections are cleared into prophylaxis,
      clinical cases go to treatment, T and P are left as they are. */
  function BloodStageAction(c: Comp): (r: Comp)
    ensures c in {S, IPCR, ILM} ==> r == P
    ensures c == ID ==> r == T
    ensures c in {T, P} ==> r == c
  {
    match c
    case S => P
    case IPCR => P
    case ILM => P
    case ID => T
    case T => T
    case P => P
  }
}
