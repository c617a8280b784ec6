# P. vivax individual-based model: a verified Dafny model of its control logic

This project models the discrete, sequential control logic of the
*Plasmodium vivax* individual-based transmission model. It then proves the
invariants that logic keeps. The repository is a C++ OpenMalaria code base.
The core modelled here is:

- **One individual, in two variants.**
  - The SimTime-expiry variant (`model/white/Individual.cpp`,
    `model/white/Individual.hpp`) is class `WhiteIndividual.Individual`.
  - The countdown-timer variant (`model/Pv_mod/Individual.cpp`) is class
    `PvIndividual.Person`.
  - Each class has:
    - `StateMover`, one stochastic step through the six exclusive
      compartments S, I_PCR, I_LM, I_D, T, P;
    - `Ager`, for ageing, hypnozoite loss, immune decay, the maternal
      immunity cutoff, pregnancy and the refractory switches;
    - `InterventionUpdater`, the four LLIN/IRS cases;
    - the constructor defaults.
  - The competing-hazards sampler `CH_sample` is `Hazard.CHSample`, a
    method over an array.
  - The move table the two variants share is in `Dynamics`. It covers the
    moves, the detection channels, the primaquine gating, the hypnozoite
    count and immune boosting.
- **The population of the white variant** (`model/white/Population.cpp`).
  - The death/birth pass of `human_step` is `WhitePopulation.Population`.
  - It includes maternal-donor selection and the `summary` counters.
  - The discrete parts of `equi_pop_setup` are in `WhiteEquilibrium`:
    - age demography and ageing rates;
    - the bin nearest to 20 years;
    - the cumulative compartment table and its normalisation;
    - the age/heterogeneity bin scans;
    - the initial compartment and Hyp drawn from the table.
- **Intervention distribution** (`model/white/Intervention.cpp`).
  - `WhiteIntervention` covers `phi_inv`, the LLIN/IRS rounds and the
    per-person rules of MDA, MDA with primaquine, MSAT and SSAT.
  - `WhiteSchedule` covers the schedule built from an in-memory coverage
    matrix (the > -0.5 sentinel) and the front-line treatment policy
    switches.
- **The legacy monitoring store** (`model/mon/mon.cpp`), as
  `MonStore.Store`. It covers:
  - the mixed-radix report table;
  - measure-to-slot assignment in `init`;
  - guarded `report`;
  - the deploy-mask filter;
  - the write order;
  - the checkpoint length check.
- **The legacy population list** (`model/Population.cpp`), as
  `LegacyPopulation.Population`. It covers:
  - removal and refill to the target size in `update`;
  - the birth counter;
  - the initial population;
  - the host demography counts;
  - the median immunity.

**Randomness, maths functions and I/O**

- Random draws are explicit inputs: a real `u` for each `CH_sample` call and
  a boolean for each `bernoulli`/`gen_bool`.
- `exp`, `pow`, `log` and `sqrt` are function-typed parameters with no
  properties assumed.
- `Human::update` and `AgeStructure::targetCumPop` of the legacy population
  are function parameters too.
- File reading and writing are left out. The coverage matrix, the
  checkpoint streams and the report output are values.

**How the model is built**

- Real division by a value that may be zero goes through `Common.Div`,
  which gives 0 there.
- The NaN and infinity fields the source uses (LLIN_age, IRS_age, T_last_BS)
  are the datatype `Common.Double`. NaN compares false and +inf compares
  true, as in IEEE arithmetic.
- The compartment is one field `comp: Option<Comp>`.
  - `None` is the state the constructor leaves, with no indicator set.
  - `Compartments.ExactlyOneIsCountOne` and `FlagsOf`/`CompOf` tie it to
    the six booleans of the source.

## Model

| member | source | states |
|---|---|---|
| Compartments.ExactlyOneIsCountOne | model/white/Individual.hpp:129-134 | exactly one of the six compartment indicators is set iff the count of set indicators is 1 |
| Compartments.FlagsOf | model/white/Individual.hpp:129-134 | the six indicators of a compartment: exactly one is set, and it is that compartment's |
| Compartments.CompOf | model/white/Individual.hpp:129-134 | from six indicators of which exactly one is set, the compartment it denotes; FlagsOf gives the indicators back |
| Compartments.CompOfFlagsOf | model/white/Individual.hpp:129-134 | compartment to indicators to compartment is the identity |
| Compartments.BloodStageAction | model/white/Intervention.cpp:445-448 | an effective blood-stage drug moves S, I_PCR and I_LM to P and I_D to T, and leaves T and P where they are |
| Detect.DetectFlagsDistinctBits | model/white/Individual.hpp:83-85 | I_DETECT_PCR, I_DETECT_LM and I_DETECT_D are single bits, pairwise disjoint, together 7 |
| Detect.InfectedNew | model/white/Individual.hpp:90-92 | nothing is reported with no event bits or an empty mask; a nonempty mask wholly inside the event bits is reported |
| Detect.InfectedNewUnion | model/white/Individual.hpp:90-92 | infected_new(a or b) is infected_new(a) or infected_new(b) |
| Detect.PQProtected | model/white/Individual.hpp:173 | protected iff PQ_proph >= ts0, the complement of the `PQ_proph < ts0` test of do_new_inf (model/white/Individual.cpp:150) |
| Detect.PQProtectedLasts | model/white/Individual.hpp:173 | protection now implies protection at every earlier step, and a later PQ_proph date protects whenever an earlier one does |
| Params.PQVetoRules | model/white/Individual.cpp:189-216 | with both risk flags off nobody at or above PQ_treat_low_age is vetoed; a veto is kept by a younger age, a higher low-age limit, and switching the G6PD and pregnancy exclusions on |
| Params.FromDays | model/white/Intervention.cpp:196 | a span in days as whole days, truncated toward zero |
| Hazard.PrefixSumsAt | model/white/Individual.cpp:859-862 | entry k of the accumulated weights is the sum of the first k+1 weights |
| Hazard.FirstHit | model/white/Individual.cpp:864-872 | the first index whose prefix sum exceeds u; every earlier one is at most u; num-1 when none exceeds u; always < num |
| Hazard.CHSample | model/white/Individual.cpp:857-873 | CH_sample overwrites the array with its prefix sums and returns FirstHit of them, which is below num; the loop invariants carry the proof |
| Hazard.PrefixSumsMonotone | model/white/Individual.cpp:859-862 | with non-negative weights the accumulated weights never decrease |
| Hazard.ZeroWeightNotChosen | model/white/Individual.cpp:857-873 | a move of weight 0 is never drawn when u lies below the total (and u >= 0 for the first move) |
| Hazard.ChosenInterval | model/Pv_mod/Individual.cpp:1347-1363 | with weights >= 0 and 0 <= u < total, the drawn move k has prefix(k-1) <= u < prefix(k), as in both variants' CH_sample |
| Dynamics.NumMoves | model/white/Individual.cpp:247-640 | the number of competing moves out of each compartment is between 2 and 5 (4, 5, 4, 2, 2, 2 in the source) |
| Dynamics.Weights | model/white/Individual.cpp:259-264 | the weight vector of each compartment has exactly NumMoves entries |
| Dynamics.WeightsSumToOne | model/white/Individual.cpp:347-354 | the competing-hazard weights of every compartment add to 1 (out of S always, elsewhere when the exit rate is nonzero), as CH_sample assumes |
| Dynamics.Sample | model/white/Individual.cpp:265 | sampling a sequence of weights returns the first move its prefix sums pass, below the number of moves |
| Dynamics.MoveOf | model/white/Individual.cpp:247-640 | the move drawn from compartment c is below NumMoves(c) |
| Dynamics.NewDepth | model/white/Individual.cpp:270-316 | the depth of detection of a new infection is at most 3 (PCR, LM, clinical) |
| Dynamics.NewDepthMatchesBits | model/white/Individual.cpp:270-316 | the PCR, LM and D event bits of a move agree with the depth of detection of its new infection (the Pv_mod booleans) |
| Dynamics.MovedAtMostOne | model/white/Individual.cpp:247-640 | state_mover moves at most one edge of the compartment graph, and moves only when the exit draw succeeded |
| Dynamics.RecoveryMoves | model/white/Individual.cpp:524-640 | out of I_D, T and P: move 1 is a reinfection that stays put; move 0 recovers I_D to I_LM, T to P and P to S; no treatment, no event bits |
| Dynamics.ExitFromS | model/white/Individual.cpp:270-316 | every exit from S is a new infection that resets T_last_BS; I_new is PCR into I_PCR, PCR or LM into I_LM, and all three into I_D or T |
| Dynamics.G6PDProbability | model/white/Individual.cpp:70-81 | G6PD deficiency has probability prev for men and 1-(1-prev)^2 for women |
| Dynamics.Shifted | model/white/Individual.cpp:131-139 | a lagged buffer keeps its length; its last entry is the new value and every other entry moves one place forward |
| Dynamics.LagAfterShift | model/white/Individual.cpp:131-145 | the lag read after the shift is the old second element, or the new value when the buffer has length 1 |
| Dynamics.PregnancyStep | model/white/Individual.cpp:701-731 | a pregnancy lasts while the timer stays within 270 days and ends with it reset to 0; a woman of child-bearing age who conceives starts at 0; after the step pregnant implies timer <= 270 |
| Dynamics.RelapseRate | model/white/Individual.cpp:138 | no hypnozoites give no relapse force of infection |
| Dynamics.DecayLLIN | model/white/Individual.cpp:799-800 | per species, repellency decays toward r_LLIN_net and killing decays by P_PYR_decay; one entry per species |
| Dynamics.Survival | model/white/Individual.cpp:801 | per species, s + r + d == 1 |
| Dynamics.VCNetOnly | model/white/Individual.cpp:795-806 | under a net only, y_VC == w_VC, w == 1 - PSI_bed + PSI_bed*s and z == PSI_bed*r for every species |
| Dynamics.VCSprayOnly | model/white/Individual.cpp:808-819 | under IRS only, y == 1 - PSI_indoors*r_IRS and z == PSI_indoors*r_IRS for every species, one entry per species |
| Dynamics.VCBoth | model/white/Individual.cpp:821-837 | under a net and IRS, z == PSI_bed*(1 - r_IRS)*r_LLIN + PSI_indoors*r_IRS for every species, one entry per species |
| Dynamics.VCBothWithoutNetEffect | model/white/Individual.cpp:808-837 | the combined w, y and z with a net of no effect (s_LLIN = 1, r_LLIN = 0) are exactly the IRS-only ones |
| Dynamics.VCBothWithoutSprayEffect | model/white/Individual.cpp:795-837 | the combined w, y and z with spraying of no effect (s_IRS = 1, r_IRS = 0) are exactly the net-only ones, whatever the indoor share |
| Dynamics.HypnozoiteStep | model/white/Individual.cpp:147-169 | Hyp stays >= 0; it rises by exactly 1 iff a bite-borne infection reaches an unprotected individual and primaquine does not clear; it falls only when cleared, and then to 0 |
| Dynamics.PrimaquineRules | model/white/Individual.cpp:183-238 | primaquine is given iff on a treatment move with the availability draw and no veto; it works only off S, on a treatment move, and without the CYP2D6 exclusion |
| WhiteIndividual.BoostStep | model/white/Individual.cpp:152-166 | a level gains exactly 1.0 iff boosting was on and an infection happened; otherwise it and its expiry are unchanged; a restart expires no earlier than now |
| WhiteIndividual.Individual.Flags | model/white/Individual.hpp:129-134 | with a compartment exactly one indicator is set and it is that one; with none, no indicator is set |
| WhiteIndividual.Individual.IsG6PDDeficient | model/white/Individual.hpp:75-77 | is_G6PD_deficient is the G6PD flag drawn at birth; its reads frame is that one field and it changes nothing, and no operation of the individual writes the flag (none has it in its modifies frame; Ager and InterventionUpdater also state it unchanged) |
| WhiteIndividual.Individual.HasLowCYP2D6Action | model/white/Individual.hpp:79-81 | has_low_cyp2d6_action is the CYP2D6 flag drawn at birth; it reads that one field only, changes nothing, and no operation of the individual writes the flag |
| WhiteIndividual.Individual.IsInfectedNew | model/white/Individual.hpp:90-92 | infected_new(d): false with no event bits or an empty mask, true when the mask is non-empty and wholly inside I_new, and true only when I_new and d share a bit |
| WhiteIndividual.Individual.constructor | model/white/Individual.cpp:49-110 | every compartment flag false, Hyp 0, both lag buffers H_track zeros, immunity 0, no boosts, no events, NaN ages, T_last_BS +inf, w_VC = y_VC = 1 and z_VC = 0 per species; the birth draws become the fixed flags |
| WhiteIndividual.Individual.DoNewInf | model/white/Individual.cpp:147-169 | do_new_inf: Hyp rises by 1 iff a bite and not PQ-protected; each immunity gains 1.0 and restarts its refractory expiry iff its boost flag was set, which is then cleared |
| WhiteIndividual.Individual.DoPQAdmin | model/white/Individual.cpp:183-238 | do_pq_admin: PQ_treat iff available and not vetoed; PQ_effective iff also the efficacy draw, the isEffective argument and no CYP2D6 exclusion; Hyp cleared and PQ_proph extended iff both |
| WhiteIndividual.Individual.SampleMove | model/white/Individual.cpp:253-265 | the competing-hazards draw of a compartment is MoveOf of the individual's immunity and the lagged force of infection |
| WhiteIndividual.Individual.ClearEvents | model/white/Individual.cpp:175-181 | I_new, ACT_treat, PQ_treat, PQ_effective and both overtreatment flags are cleared |
| WhiteIndividual.Individual.StateMover | model/white/Individual.cpp:129-640 | both buffers shift by one and keep length H_track; the new state is Stepped for the move MoveOf draws from the lagged force of infection read after the shift |
| WhiteIndividual.Individual.Move | model/white/Individual.cpp:175-640 | after clearing the events, the compartment part ends in the Stepped state |
| WhiteIndividual.Individual.ShiftTracks | model/white/Individual.cpp:131-139 | both lagged buffers are Shifted by the new bite rate and relapse rate and keep length H_track |
| WhiteIndividual.Individual.Exit | model/white/Individual.cpp:247-640 | an exit from any compartment ends in the Stepped state |
| WhiteIndividual.Individual.ExitInfectable | model/white/Individual.cpp:247-515 | an exit from S, I_PCR or I_LM ends in the Stepped state |
| WhiteIndividual.Individual.ExitS | model/white/Individual.cpp:267-325 | the S branch: compartment and I_new by the move table; T_last_BS = 0; primaquine never effective (do_pq_admin(false)), so PQ_proph is unchanged and Hyp only gains a batch |
| WhiteIndividual.Individual.SusceptibleMove | model/white/Individual.cpp:274-322 | the moves out of S after do_new_inf: to I_PCR, I_LM, I_D, or T with ACT and primaquine that can never clear Hyp |
| WhiteIndividual.Individual.ExitIPCR | model/white/Individual.cpp:357-426 | the I_PCR branch: move 0 recovers; the others are new infections; treatment resets T_last_BS and clears Hyp iff primaquine is given and works |
| WhiteIndividual.Individual.InfectedMove | model/white/Individual.cpp:364-426 | the infecting moves out of I_PCR or I_LM: compartment, events and treatment by the move table; Hyp 0 iff PQ given and effective |
| WhiteIndividual.Individual.ExitILM | model/white/Individual.cpp:456-515 | the I_LM branch, stated field by field like ExitIPCR |
| WhiteIndividual.Individual.ExitRecovery | model/white/Individual.cpp:524-640 | the I_D, T and P branches: the compartment by the move table; move 1 is a reinfection via do_new_inf with its boosts |
| WhiteIndividual.Individual.Ager | model/white/Individual.cpp:654-762 | age += t_step; Hyp capped at K_max then lowered by the loss draw, so 0 <= Hyp <= K_max; decay; maternal immunity 0 from age 365; women: child-bearing window and PregnancyStep, pregnant implies timer <= 270; men: pregnancy fields unchanged; a woman of child-bearing age has no maternal immunity afterwards; boosts re-enabled once the expiry is past; T_last_BS + 1 only in S; the G6PD and CYP2D6 flags unchanged |
| WhiteIndividual.Individual.Grow | model/white/Individual.cpp:660-695 | the ageing, hypnozoite and immune-decay part of ager, with the same bounds as Ager |
| WhiteIndividual.Individual.Clocks | model/white/Individual.cpp:701-760 | the pregnancy, refractory and T_last_BS part of ager |
| WhiteIndividual.Individual.LoseHypnozoites | model/white/Individual.cpp:665-673 | Hyp becomes min(Hyp, K_max) less one on a loss draw, and stays in [0, K_max] |
| WhiteIndividual.Individual.DecayImmunity | model/white/Individual.cpp:678-695 | each immunity level decays by its factor; maternal immunity decays before age 365 and is exactly 0 from then on |
| WhiteIndividual.Individual.PregnancyClock | model/white/Individual.cpp:701-731 | preg_age iff 18 < age in years < 40; pregnancy by PregnancyStep; pregnant implies timer <= 270 |
| WhiteIndividual.Individual.EndRefractory | model/white/Individual.cpp:737-750 | boosting is re-enabled once its expiry date is before now, and stays enabled once on |
| WhiteIndividual.Individual.InterventionUpdater | model/white/Individual.cpp:772-847 | a net is kept iff it was held and the loss draw failed, and never switched on; IRS ends once IRS_age > 1095; a held net ages and decays; spraying in force ages and decays; w, y, z by the four exclusive cases, (1, 1, 0) with neither; the G6PD and CYP2D6 flags unchanged |
| WhiteIndividual.Individual.SetVC | model/white/Individual.cpp:795-846 | w, y, z are VCNetOnly, VCSprayOnly, VCBoth or (1, 1, 0) according to the two switches |
| WhiteIndividual.Individual.AgeNet | model/white/Individual.cpp:797-801 | LLIN_age += t_step; repellency and killing decay by DecayLLIN; s = 1 - r - d |
| WhiteIndividual.Individual.AgeSpray | model/white/Individual.cpp:810-814 | IRS_age += t_step; r and d scaled by P_IRS_decay; s = 1 - r - d |
| WhiteIndividual.Stays | model/white/Individual.cpp:247-640 | with no exit, or no compartment set, state_mover leaves everything but the cleared events as it was |
| WhiteIndividual.SusceptibleStep | model/white/Individual.cpp:247-325 | the state the S branch leaves is the Stepped state of a move out of S |
| WhiteIndividual.InfectedStep | model/white/Individual.cpp:333-515 | the state the I_PCR and I_LM branches leave is the Stepped state |
| WhiteIndividual.RecoveryStep | model/white/Individual.cpp:524-640 | the state the I_D, T and P branches leave is the Stepped state |
| PvIndividual.TimerRules | model/Pv_mod/Individual.cpp:1196-1214 | a boost resets the refractory timer to exactly u; while the boost is off the timer only decreases, and the boost returns iff it goes below 0; with the boost on nothing changes |
| PvIndividual.ProphylaxisEndsAtNextAger | model/Pv_mod/Individual.cpp:1220-1228 | PQ_proph_timer is set nowhere, so from its initial -1 protection ends at the very next ager |
| PvIndividual.NetOnlyLoop | model/Pv_mod/Individual.cpp:1272-1286 | the species loop for a net only: the arrays become DecayLLIN, Survival and VCNetOnly of the old arrays |
| PvIndividual.SprayOnlyLoop | model/Pv_mod/Individual.cpp:1288-1302 | the species loop for IRS only: the arrays become Scale, Survival and VCSprayOnly of the old arrays |
| PvIndividual.BothLoop | model/Pv_mod/Individual.cpp:1304-1324 | the species loop for a net and IRS: the arrays become DecayLLIN, Scale, Survival and VCBoth of the old arrays |
| PvIndividual.NeitherLoop | model/Pv_mod/Individual.cpp:1326-1335 | with no vector control, w = y = 1 and z = 0 for every species |
| PvIndividual.Person.constructor | model/Pv_mod/Individual.cpp:47-113 | every compartment flag false, Hyp 0, both lag buffers H_track zeros, immunity 0, no boosts, all timers -1, no prophylaxis, NaN ages, T_last_BS +inf, w_VC = y_VC = 1, z_VC = 0 per species, all arrays distinct |
| PvIndividual.Person.NewInf | model/Pv_mod/Individual.cpp:194-214 | a bite adds a hypnozoite batch iff PQ_proph == 0; each boost adds exactly 1.0, resets its timer to u and clears itself |
| PvIndividual.Person.AdminPQ | model/Pv_mod/Individual.cpp:370-403 | PQ_treat iff available and not vetoed; PQ_effective iff also effective and no CYP2D6 exclusion; Hyp cleared and PQ_proph set iff both |
| PvIndividual.Person.SampleMove | model/Pv_mod/Individual.cpp:173-188 | the competing-hazards draw is MoveOf of the person's immunity and lagged force of infection |
| PvIndividual.Person.ClearEvents | model/Pv_mod/Individual.cpp:152-161 | the event indicators are all cleared |
| PvIndividual.Person.StateMover | model/Pv_mod/Individual.cpp:130-1099 | buffers shift and keep length H_track; the move drawn is MoveOf after the shift; the new state is Stepped for that move |
| PvIndividual.Person.Move | model/Pv_mod/Individual.cpp:152-1099 | after clearing the events, the compartment blocks end in the Stepped state |
| PvIndividual.Person.ShiftTracks | model/Pv_mod/Individual.cpp:132-143 | both lagged buffers are Shifted and keep length H_track |
| PvIndividual.Person.Exit | model/Pv_mod/Individual.cpp:169-1099 | an exit from any compartment ends in the Stepped state |
| PvIndividual.Person.ExitInfectable | model/Pv_mod/Individual.cpp:169-897 | an exit from S, I_PCR or I_LM ends in the Stepped state |
| PvIndividual.Person.ExitS | model/Pv_mod/Individual.cpp:169-417 | the S block: I_PCR_new always, I_LM_new from move 1, I_D_new from move 2; T_last_BS = 0; PQ_effective forced to 0 even when the efficacy draw succeeds, so Hyp only gains a batch |
| PvIndividual.Person.SusceptibleMove | model/Pv_mod/Individual.cpp:190-412 | the four moves out of S after the new-infection block |
| PvIndividual.Person.ExitIPCR | model/Pv_mod/Individual.cpp:419-675 | the I_PCR block: treatment resets T_last_BS; PQ_treat && PQ_effective sets Hyp = 0 and PQ_proph |
| PvIndividual.Person.ExitILM | model/Pv_mod/Individual.cpp:677-897 | the I_LM block, stated field by field like ExitIPCR |
| PvIndividual.Person.InfectedMove | model/Pv_mod/Individual.cpp:455-670 | the infecting moves out of I_PCR or I_LM; Hyp 0 iff PQ given and effective |
| PvIndividual.Person.ExitRecovery | model/Pv_mod/Individual.cpp:899-1099 | the I_D, T and P blocks: compartment by the move table; move 1 adds a batch only when PQ_proph == 0, with its boosts |
| PvIndividual.Person.Ager | model/Pv_mod/Individual.cpp:1113-1237 | age += t_step; 0 <= Hyp <= K_max after the cap and loss; maternal immunity 0 from 365; pregnancy as PregnancyStep; refractory timers and prophylaxis by TimerRules; T_last_BS + 1 only in S |
| PvIndividual.Person.Grow | model/Pv_mod/Individual.cpp:1118-1154 | the ageing, hypnozoite and immune-decay part of ager |
| PvIndividual.Person.Clocks | model/Pv_mod/Individual.cpp:1161-1237 | the pregnancy, timer and T_last_BS part of ager |
| PvIndividual.Person.LoseHypnozoites | model/Pv_mod/Individual.cpp:1124-1132 | Hyp becomes min(Hyp, K_max) less one on a loss draw, and stays in [0, K_max] |
| PvIndividual.Person.DecayImmunity | model/Pv_mod/Individual.cpp:1138-1154 | immunity decays; maternal immunity exactly 0 from age 365 |
| PvIndividual.Person.PregnancyClock | model/Pv_mod/Individual.cpp:1161-1190 | preg_age iff 18 < age in years < 40; pregnancy by PregnancyStep; pregnant implies timer <= 270 |
| PvIndividual.Person.Timers | model/Pv_mod/Individual.cpp:1196-1228 | the refractory timers fall by t_step only while the boost is off, and the boost returns once below 0; PQ_proph clears once its timer is below 0 |
| PvIndividual.Person.InterventionUpdater | model/Pv_mod/Individual.cpp:1249-1337 | net kept iff held and not lost, never switched on; IRS ends once IRS_age > 1095; the four exclusive species loops; (1, 1, 0) per species with neither |
| PvIndividual.Stays | model/Pv_mod/Individual.cpp:169-1099 | with no exit, or no compartment set, only the cleared events change |
| PvIndividual.SusceptibleStep | model/Pv_mod/Individual.cpp:169-417 | the state the S block leaves is the Stepped state |
| PvIndividual.InfectedStep | model/Pv_mod/Individual.cpp:419-897 | the state the I_PCR and I_LM blocks leave is the Stepped state |
| PvIndividual.RecoveryStep | model/Pv_mod/Individual.cpp:899-1099 | the state the I_D, T and P blocks leave is the Stepped state |
| WhitePopulation.Survivors | model/white/Population.cpp:63-88 | the death pass keeps at most as many individuals as there were |
| WhitePopulation.SurvivorsYoung | model/white/Population.cpp:63-88 | every survivor was there before and has age <= age_max; with no death draw and nobody too old everyone survives, in order |
| WhitePopulation.FirstAtMost | model/white/Population.cpp:97-101 | the first draw not above het_max; every earlier draw is above it |
| WhitePopulation.DrawAtMost | model/white/Population.cpp:97-101 | the rejection loop returns the first draw <= het_max, so zeta <= het_max |
| WhitePopulation.SearchAsWritten | model/white/Population.cpp:113-124 | the search as written picks only women of child-bearing age (it tracks the squared difference) |
| WhitePopulation.DonorSearchMissesNearer | model/white/Population.cpp:113-124 | for zeta 0.1 and donors at 0.6 then 0.4 the search as written keeps the farther donor, while the nearer one is the closest |
| WhitePopulation.ClosestSearch | model/white/Population.cpp:113-124 | the corrected search tracks the absolute difference of the donor it holds, or 1e10 with none |
| WhitePopulation.Closest | model/white/Population.cpp:113-124 | the corrected donor, an index in range when there is one |
| WhitePopulation.ClosestIsFirstNearest | model/white/Population.cpp:113-124 | the donor is a woman of child-bearing age within 1e10 and nearest among them, the first such; with none, no candidate is within 1e10 |
| WhitePopulation.ClosestIgnoresNonDonors | model/white/Population.cpp:113-124 | appending individuals not of child-bearing age, such as the newborns already pushed, does not change the search |
| WhitePopulation.MatShare | model/white/Population.cpp:121-122 | P_mat times the donor's level is 0 when either is 0 |
| WhitePopulation.DonorLevel | model/white/Population.cpp:108-127 | a newborn's maternal immunity is P_mat times the donor's level, or stays 0 when there is no donor |
| WhitePopulation.DonorChoiceMasked | model/white/Population.cpp:113-127 | when every individual of child-bearing age has no maternal immunity, as ager leaves them before the births, the newborn's maternal immunity is 0 from the corrected search and from the search as written |
| WhitePopulation.In | model/white/Population.cpp:238-243 | the indicator of compartment c is 1 iff the individual is in c, else 0 |
| WhitePopulation.CompCounts | model/white/Population.cpp:238-243 | yH has one entry per compartment |
| WhitePopulation.PrevCounts | model/white/Population.cpp:253-274 | a prevalence row has eleven entries |
| WhitePopulation.Mean | model/white/Population.cpp:382-383 | sum / n: NaN for an empty population, else the value whose n-fold is the sum |
| WhitePopulation.CompCountsCount | model/white/Population.cpp:238-243 | yH[c] is the number of individuals in compartment c |
| WhitePopulation.CompCountsTotal | model/white/Population.cpp:238-243 | the six yH entries add up to the number of individuals with a compartment |
| WhitePopulation.PrevRowNonNegative | model/white/Population.cpp:253-274 | every entry of one individual's prevalence contribution is >= 0 |
| WhitePopulation.PrevCountsNested | model/white/Population.cpp:253-263 | 0 <= clinical <= LM <= PCR <= denominator, and hypnozoite-positive <= denominator and <= batches |
| WhitePopulation.PrevCountsDenominator | model/white/Population.cpp:253 | prev_all[0] is the population size |
| WhitePopulation.PrevCountsBandMonotone | model/white/Population.cpp:284-340 | a narrower age band counts no more in any entry: U5 <= U10 <= all |
| WhitePopulation.TallyCountBounds | model/white/Population.cpp:358-364 | each coverage and treatment total is between 0 and the population size |
| WhitePopulation.Population.constructor | model/white/Population.cpp:30-35 | a population of intended size N_pop with no individuals yet; the people are added by the equilibrium setup |
| WhitePopulation.Population.Deaths | model/white/Population.cpp:61-88 | the death pass leaves Survivors and N_dead + survivors == people before |
| WhitePopulation.Population.Births | model/white/Population.cpp:94-134 | N_dead newborns are appended after the unchanged survivors, so the size returns to its value at entry; each newborn is NewbornOk (age 0, S, zeta <= het_max, maternal immunity from the corrected donor among the survivors) |
| WhitePopulation.Population.Summary | model/white/Population.cpp:224-384 | yH, prev_all, prev_U5, prev_U10, the totals and the means are those of the first N_pop individuals |
| WhitePopulation.Population.SetPrevalence | model/white/Population.cpp:224-342 | the compartment counts and prevalence rows are stored |
| WhitePopulation.Population.SetTallies | model/white/Population.cpp:348-364 | the totals are stored |
| WhitePopulation.Population.SetMeans | model/white/Population.cpp:374-383 | the mean immunity levels are stored |
| WhitePopulation.FindDonor | model/white/Population.cpp:113-124 | the corrected donor loop returns Closest |
| WhitePopulation.MakeNewborn | model/white/Population.cpp:96-130 | one newborn of the birth loop is NewbornOk with respect to the people before the births |
| WhitePopulation.Infant | model/white/Population.cpp:103-105 | a new individual of age 0 in S, not of child-bearing age, with the drawn zeta and birth flags and no maternal immunity yet |
| WhitePopulation.NewbornsAreNotDonors | model/white/Population.cpp:113-124 | searching the list with the newborns already pushed finds the same donor as among the survivors |
| WhitePopulation.Prevalence | model/white/Population.cpp:233-342 | the summary loop computes CompCounts and PrevCounts for everyone, under 5 and under 10 |
| WhitePopulation.Tallies | model/white/Population.cpp:348-364 | the totals loop computes every TallyCount |
| WhitePopulation.Means | model/white/Population.cpp:374-383 | the means loop computes Mean of the immunity sums |
| WhiteEquilibrium.SharesTelescope | model/white/Population.cpp:608-611 | the exponential bin shares of the first n bins add to survival at the first bound less survival at bound n |
| WhiteEquilibrium.AgeDemography | model/white/Population.cpp:608-613 | age_demog has N_age entries, the bin shares for all but the last, and sums to exactly 1; the last is survival past its bound when survival at 0 is 1 |
| WhiteEquilibrium.AgeingRates | model/white/Population.cpp:620-627 | r_age[N_age-1] == 0; the ageing flow r*d out of bin 0 is mu(1 - d0), and each later flow is the previous flow less the bin's deaths mu*d; an empty bin gets rate 0 |
| WhiteEquilibrium.Scaled | model/white/Population.cpp:646-647 | scaling keeps the number of rates |
| WhiteEquilibrium.WeightedSumScaled | model/white/Population.cpp:646-647 | the demography-weighted sum of scaled rates is the scale times the sum |
| WhiteEquilibrium.NormalisedBites | model/white/Population.cpp:646-647 | after scaling by omega_age the demography-weighted biting rates sum to 1 |
| WhiteEquilibrium.MidDist | model/white/Population.cpp:659-660 | the squared distance of a midpoint is non-negative |
| WhiteEquilibrium.FirstNearestUnique | model/white/Population.cpp:653-665 | at most one bin is the first nearest |
| WhiteEquilibrium.IndexAge20 | model/white/Population.cpp:653-665 | index_age_20 is the first bin whose midpoint minimises (mid - 20*365)^2 |
| WhiteEquilibrium.CumulativeTable | model/white/Population.cpp:1197-1218 | the table is the running sums of the cell's equilibrium proportions, row by row |
| WhiteEquilibrium.Normalised | model/white/Population.cpp:1221-1230 | normalisation keeps the table length |
| WhiteEquilibrium.Normalise | model/white/Population.cpp:1221-1230 | the in-place loop divides each entry by the current last entry, so the table becomes Normalised |
| WhiteEquilibrium.CumulativeNondecreasing | model/white/Population.cpp:1197-1218 | with non-negative proportions the running sums never decrease |
| WhiteEquilibrium.NormalisedLastIsOne | model/white/Population.cpp:1221-1230 | after normalisation the last entry is 1 when the total is nonzero |
| WhiteEquilibrium.NormalisedNondecreasing | model/white/Population.cpp:1221-1230 | normalising a nondecreasing table with a positive total keeps it nondecreasing |
| WhiteEquilibrium.LastBin | model/white/Population.cpp:1270-1289 | the last bin that holds x, or 0 when none does |
| WhiteEquilibrium.BinIndex | model/white/Population.cpp:1270-1289 | the i_index and j_index scans return LastBin |
| WhiteEquilibrium.BinIsTheHoldingBin | model/white/Population.cpp:1270-1289 | with increasing bounds the scan finds the one bin holding x |
| WhiteEquilibrium.Slot | model/white/Population.cpp:1312-1350 | the first table position not below the draw: all before are below it |
| WhiteEquilibrium.SlotHyp | model/white/Population.cpp:1320-1350 | the Hyp of a table position is below K_dim, and K_max beyond the table |
| WhiteEquilibrium.HitIsSlot | model/white/Population.cpp:1320-1344 | on a nondecreasing table the draw lands at position m iff m is Slot |
| WhiteEquilibrium.SetComp | model/white/Population.cpp:1335-1339 | setting an indicator adds exactly that compartment |
| WhiteEquilibrium.InitialState | model/white/Population.cpp:1312-1350 | on a nondecreasing table the scans set the indicators of the compartment of Slot and its Hyp, so exactly one compartment and 0 <= Hyp <= K_max |
| WhiteEquilibrium.ScanPosition | model/white/Population.cpp:1329-1344 | one scan position sets compartment c and Hyp k iff the draw lands there, and keeps the scan invariant |
| WhiteEquilibrium.SlotOfCompartment | model/white/Population.cpp:1329-1344 | position c*K_dim + k is compartment c with Hyp k |
| WhiteIntervention.PhiInv | model/white/Intervention.cpp:966-1000 | phi_inv fails iff pp < 0 or pp > 1, is -inf iff pp == 0, +inf iff pp == 1, and finite iff 0 < pp < 1 |
| WhiteIntervention.PhiInvAntisymmetric | model/white/Intervention.cpp:982-998 | phi_inv(1 - p) - mu == -(phi_inv(p) - mu) for 0 < p < 0.5 |
| WhiteIntervention.CoverageExtremes | model/white/Intervention.cpp:966-979 | at coverage 0 nobody's draw reaches the quantile, at coverage 1 everybody's does; a lower draw reaches whatever a higher one does |
| WhiteIntervention.Fresh | model/white/Intervention.cpp:294-304 | a fresh net or spraying is on, of age 0, at the initial r and d, with s + r + d == 1 per species |
| WhiteIntervention.GiveNet | model/white/Intervention.cpp:294-304 | LLIN deployment sets LLIN=1, LLIN_age=0, r and d to their initial values and s = 1 - r - d |
| WhiteIntervention.Spray | model/white/Intervention.cpp:319-329 | IRS deployment sets IRS=1, IRS_age=0, r and d to their initial values and s = 1 - r - d |
| WhiteIntervention.NetRound | model/white/Intervention.cpp:287-308 | a round fails iff coverage is outside [0, 1]; a person gets a fresh net iff their draw reaches the phi_inv quantile; everyone else is unchanged |
| WhiteIntervention.SprayRound | model/white/Intervention.cpp:312-333 | as NetRound, for IRS |
| WhiteIntervention.TreatCompartment | model/white/Intervention.cpp:438-592 | a campaign moves a person only by BloodStageAction on an effective blood-stage action, so exactly one compartment stays set |
| WhiteIntervention.PrimaquineNeverExcluded | model/white/Intervention.cpp:497-532 | a campaign gives primaquine only with the availability draw and never to an excluded person (G6PD, pregnancy, age); in MSAT/SSAT only to a screened-positive one |
| WhiteIntervention.HypnozoitesClearedOnlyByPrimaquine | model/white/Intervention.cpp:535-590 | Hyp and PQ_proph change only when primaquine is given and works, and then Hyp = 0 and PQ_proph = now + PQ_proph; overtreatment flags are set only when PQ_treat; Hyp never rises |
| WhiteIntervention.ScreenAndTreat | model/white/Intervention.cpp:622-676 | MSAT acts only on a positive: mode 1 (RDT) only for I_LM, I_D or T, mode 2 (PCR) also I_PCR |
| WhiteIntervention.Screen | model/white/Intervention.cpp:622-652 | the screening result is Positive of the person and the draws |
| WhiteIntervention.Primaquine | model/white/Intervention.cpp:493-549 | PQ given and PQ effective are Given and Works of the person and the draws |
| WhiteIntervention.Apply | model/white/Intervention.cpp:551-590 | the compartment moves by BloodStageAction on an acting drug; ACT_treat and PQ_treat are raised by what is given; Hyp 0 and PQ_proph set iff given and works; PQ_overtreat is raised by primaquine given with Hyp 0, PQ_overtreat_9m by primaquine given more than 270 days after the last blood-stage infection |
| WhiteIntervention.TreatPerson | model/white/Intervention.cpp:477-590 | a treated person ends in Treat of their state before |
| WhiteIntervention.CampaignRound | model/white/Intervention.cpp:459-592 | a campaign round fails iff coverage is outside [0, 1]; a person is treated, by Treat, iff their draw reaches the quantile; everyone else is unchanged |
| WhiteSchedule.KeptColumnsSpec | model/white/Intervention.cpp:126-136 | the kept rounds are exactly those with a year cell > -0.5 and a key cell > -0.5, in increasing order |
| WhiteSchedule.SelectedStep | model/white/Intervention.cpp:126-258 | one more round appends its entry iff it is kept |
| WhiteSchedule.SelectedEntries | model/white/Intervention.cpp:126-258 | every kept round has its entry, at the position of the round among the kept ones |
| WhiteSchedule.LastOn | model/white/Intervention.cpp:337-349 | the last round starting on the date, or -1 when none does |
| WhiteSchedule.PQEndRestoresBaseline | model/white/Intervention.cpp:400-420 | on the end of front-line primaquine the risk flags are 1, low_age 180, treat_PQavail 0, and blood-stage treatment returns to baseline |
| WhiteSchedule.BSStartClearsTreatPQavail | model/white/Intervention.cpp:337-349 | on a date only a blood-stage round starts, the last such round sets cover, efficacy and r_P, and treat_PQavail becomes 0; the primaquine regimen (PQ_treat_*) is unchanged, so primaquine stays available: treat_PQavail is read nowhere, and do_pq_admin reads PQ_treat_PQavail (model/white/Individual.cpp:189) |
| WhiteSchedule.PQStartTakesEffect | model/white/Intervention.cpp:373-396 | the start of front-line primaquine takes the last starting round's regimen |
| WhiteSchedule.PolicyFrame | model/white/Intervention.cpp:337-420 | the switches change nothing but the treatment fields, and nothing at all on a date no round starts or ends |
| WhiteSchedule.PolicyIdempotent | model/white/Intervention.cpp:337-420 | switching twice on the same date is switching once |
| WhiteSchedule.StartBSLoop | model/white/Intervention.cpp:337-353 | the start loop applies the last blood-stage round starting on the date |
| WhiteSchedule.EndBSLoop | model/white/Intervention.cpp:357-369 | the end loop restores baseline blood-stage treatment iff a round ends on the date |
| WhiteSchedule.StartPQLoop | model/white/Intervention.cpp:373-396 | the start loop applies the last primaquine round starting on the date |
| WhiteSchedule.EndPQLoop | model/white/Intervention.cpp:400-420 | the end loop restores the primaquine baseline iff a round ends on the date |
| WhiteSchedule.SwitchPolicies | model/white/Intervention.cpp:337-420 | the four loops in source order compute Policy |
| WhiteSchedule.Append | model/white/Intervention.cpp:126-258 | one round of the extraction loop extends each list by its kept entry |
| WhiteSchedule.Intervention.constructor | model/white/Intervention.cpp:126-258 | every schedule list holds exactly the entries of the kept rounds, so the parallel lists of each intervention have equal length |
| WhiteSchedule.Intervention.Switch | model/white/Intervention.cpp:337-420 | the policy switches of distribute compute Policy on the stored schedule |
| MonStore.IndexBelowSize | model/mon/mon.cpp:75-82 | with all components in range the index is below size() |
| MonStore.IndexInjective | model/mon/mon.cpp:78-82 | distinct in-range tuples have distinct indices |
| MonStore.Size | model/mon/mon.cpp:75-76 | size() is 0 iff some dimension has extent 0 |
| MonStore.Index | model/mon/mon.cpp:78-81 | the genotype is the lowest digit: index mod nGenotypes is the genotype when it is in range, and the index is at least the genotype |
| MonStore.Accepted | model/mon/mon.cpp:166-170 | the measures init accepts, in order |
| MonStore.AcceptedMembers | model/mon/mon.cpp:166-170 | an accepted measure was required, is of this store's kind and has a measure number in range |
| MonStore.Deploys | model/mon/mon.cpp:172-178 | the deploy list holds, in increasing slot order, one entry per accepted measure with a deploy method, carrying its measure number, mask and slot |
| MonStore.DeploysComplete | model/mon/mon.cpp:172-178 | every accepted deployment measure has its deploy entry |
| MonStore.AcceptedPrefix | model/mon/mon.cpp:166-180 | the measures accepted from a prefix are a prefix of those accepted from all |
| MonStore.ClashPersists | model/mon/mon.cpp:171 | a repeated measure in a prefix is still a repeat in the whole |
| MonStore.ClashStep | model/mon/mon.cpp:171 | one more measure is a clash iff its measure number already has a slot |
| MonStore.AssignStep | model/mon/mon.cpp:172-180 | a new measure takes the next slot and keeps the assignment consistent |
| MonStore.SlotsAfter | model/mon/mon.cpp:166-180 | the fold of init over the required measures, with one slot entry per measure number |
| MonStore.PutStep | model/mon/mon.cpp:171-180 | one step of the fold fails iff the measure repeats, and otherwise extends the assignment |
| MonStore.SlotsAfterSpec | model/mon/mon.cpp:166-180 | the fold succeeds iff no accepted measure repeats, and then it is the consecutive assignment of slots |
| MonStore.AssignSlots | model/mon/mon.cpp:166-180 | init's loop fails (throws) iff an accepted measure repeats; otherwise each accepted measure gets the next consecutive slot |
| MonStore.AssignedValid | model/mon/mon.cpp:166-180 | every assigned slot is below the number of slots, and deploy entries have distinct slots |
| MonStore.CellsDistinct | model/mon/mon.cpp:218-222 | deploy entries with distinct slots address distinct cells |
| MonStore.DeployStep | model/mon/mon.cpp:216-225 | one deploy entry adds to its cell iff it fires |
| MonStore.DeployLoop | model/mon/mon.cpp:209-227 | deploy adds val exactly to the cells of the entries for the measure whose mask meets the method, and nothing else changes |
| MonStore.MapPutMembers | model/mon/mon.cpp:239-242 | the sorted map after an insert holds the old entries and the new one |
| MonStore.MapPutSorted | model/mon/mon.cpp:239-242 | inserting keeps the map sorted by external id |
| MonStore.MapPutLookup | model/mon/mon.cpp:239-242 | after an insert the id maps to the new slot and every other id as before |
| MonStore.LastSlotSpec | model/mon/mon.cpp:240-242 | LastSlot is an index holding the id with no later one |
| MonStore.Tables | model/mon/mon.cpp:139-184 | non-segregated dimensions have size 1; ok iff no accepted measure repeats; the consecutive assignment; reports all zeros of length size() |
| MonStore.Store.constructor | model/mon/mon.cpp:53-76 | an empty store of the given kind |
| MonStore.Store.Init | model/mon/mon.cpp:139-184 | init stores the dimensions and the slot assignment; it fails iff a measure repeats; on success reports are size() zeros |
| MonStore.Store.Add | model/mon/mon.cpp:84-103 | add adds val to exactly the cell of the index and nothing else |
| MonStore.Store.Report | model/mon/mon.cpp:188-205 | report does nothing when survey is NOT_USED, ageIndex is nAgeGroups or the measure is unmapped; otherwise val goes to exactly one cell |
| MonStore.Store.Deploy | model/mon/mon.cpp:209-227 | deploy adds only to the mapped deploy slots of the measure whose mask meets the method |
| MonStore.Store.Write | model/mon/mon.cpp:238-248 | the write order is sorted by external id, and each id maps to its last slot |
| MonStore.Store.Checkpoint | model/mon/mon.cpp:250-256 | the checkpoint is the length and the reports |
| MonStore.Store.Restore | model/mon/mon.cpp:257-269 | reading fails iff the stored length differs from size(), leaving the store unchanged; otherwise reports are the data read, and validity is kept |
| LegacyPopulation.KeptSpec | model/Population.cpp:195-226 | the kept humans are the non-dead updated humans, in order (strictly increasing positions), none beyond its age's target count |
| LegacyPopulation.InitialSpec | model/Population.cpp:147-168 | the initial population reaches every age's target, equals one of them or is empty, has nondecreasing birth dates within range, and is all newborns |
| LegacyPopulation.YoungRunSpec | model/Population.cpp:244-254 | the count is a run of humans below the age bound from the back of the list, stopped by one at or above it |
| LegacyPopulation.YoungRunLongest | model/Population.cpp:244-254 | the count is the longest such run |
| LegacyPopulation.YoungRunMonotone | model/Population.cpp:244-254 | the cumulative demography counts are nondecreasing across the age bounds |
| LegacyPopulation.YoungRunCounts | model/Population.cpp:244-254 | in a list ordered oldest first the count is the number of humans younger than the bound |
| LegacyPopulation.NoneYounger | model/Population.cpp:244-254 | with nobody younger than the bound the count is 0 |
| LegacyPopulation.InsertElements | model/Population.cpp:291 | insertion adds exactly the inserted value to the multiset of values |
| LegacyPopulation.InsertSpec | model/Population.cpp:291 | inserting into a sorted list keeps it sorted and adds the element |
| LegacyPopulation.SortSpec | model/Population.cpp:291 | the sorted list is sorted and a permutation of the input |
| LegacyPopulation.CountsOfSort | model/Population.cpp:291 | sorting keeps the counts of elements at most and at least x |
| LegacyPopulation.MedianSplits | model/Population.cpp:283-298 | the median has at least half (rounded up) of the values at most it and at least half at least it |
| LegacyPopulation.Population.constructor | model/Population.cpp:80 | an empty list and no recent births |
| LegacyPopulation.Population.PreMainSimInit | model/Population.cpp:140-145 | recentBirths restarts at 0 and nothing else of the population changes |
| LegacyPopulation.Population.NewHuman | model/Population.cpp:173-177 | one human is appended and recentBirths rises by exactly 1 |
| LegacyPopulation.Population.CtsRecentBirths | model/Population.cpp:255-258 | reports recentBirths and resets it to 0 |
| LegacyPopulation.Population.ReadCheckpoint | model/Population.cpp:118-129 | appends the first min(s_populationSize, stream length) humans of the stream and restores recentBirths; succeeds iff the list then holds s_populationSize humans, which from an empty list is iff the stream holds that many |
| LegacyPopulation.Population.CreateInitialHumans | model/Population.cpp:147-168 | appends Initial, one birth each |
| LegacyPopulation.Population.Update | model/Population.cpp:179-235 | the list becomes the Kept humans in order followed by newborns up to the target, so its size is max(kept, targetPop), with one birth counted per newborn |
| LegacyPopulation.Population.HostDemography | model/Population.cpp:244-254 | one cumulative count per age bound, each the young run from the back of the list |
| LegacyPopulation.Population.MedianImmunityY | model/Population.cpp:283-298 | the middle element of the sorted exposures for odd n, the mean of the two middle ones for even n, which splits the population |

## Left out

- File input: `Intervention::Intervention`'s reading of the coverage file,
  the parameter files and the report or checkpoint streams are not
  modelled. The coverage matrix and the streams are values.
- Random number generation: draws are inputs. The model does not describe
  the order in which the source consumes them.
- Floating point: reals are exact.
  - `exp`, `pow`, `log` and `sqrt` are uninterpreted.
  - Rounding, NaN from 0/0 and infinity from 1/0 are not modelled: a
    division by zero gives 0 (`Common.Div`).
  - Only the NaN ages and the +inf of T_last_BS are modelled, as datatype
    values.
- SimTime is whole days, so `SimTime::fromDays` is modelled as truncation
  toward zero (`Params.FromDays`). The SimTime code is not part of this
  model.
- Params.hpp is not part of this model. `K_max`, `H_track`, `N_spec`,
  `t_step` and the rest are fields of `Params.Params` with no fixed values.
- The `human_step` loops that call `ager`, `state_mover` and
  `intervention_updater` for each individual, and the lambda and
  transmission updates around them, are not modelled. Each per-individual
  operation is modelled on its own.
- The equilibrium solves of `equi_pop_setup` are omitted: `MM_ij`, the
  matrix inversions, the immunity equilibria and `gauher` (Gauss-Hermite
  heterogeneity bins). Only the discrete parts are modelled.
- `Intervention::distribute`'s outer loops over dates and rounds are not
  modelled, nor its copies of the round's values into the campaign fields
  of theta (`MDA_BS_BScover` and the rest). Each campaign round takes the
  round's regimen as a value.
- Console output (`cout`) in `distribute` is not modelled.
- WhitePopulation.Population.Births: models the corrected donor search
  (Closest, tracking the absolute difference), not the search as written
  (SearchAsWritten, see Findings); FindDonor and MakeNewborn do the same.
  DonorChoiceMasked shows that the two give the same maternal immunity
  when ager has run first, as in `human_step`.
- WhiteIndividual.Individual.constructor: PQ_proph, A_par_expiry and
  A_clin_expiry are not in the source's initialiser list. The model sets
  them to a given `unset` date.
- PvIndividual.Person: PQ_proph_timer is assigned nowhere in the source,
  so it stays at -1. The model keeps it, and ProphylaxisEndsAtNextAger
  states the result.
- MonStore: the NOT_ACCEPTED debugging path is not modelled.
- MonStore: `writeM`, `addMeasures` and the stream formatting are not
  modelled.
- WhitePopulation.PrevCounts: the summary reads `I_PCR_new`, `I_LM_new`
  and `I_D_new` (model/white/Population.cpp:270-272, 303-305, 336-338), which
  the white Individual does not declare; the model takes them as
  infected_new(I_DETECT_PCR), infected_new(I_DETECT_LM) and
  infected_new(I_DETECT_D) of the `I_new` bitmask.
- MonStore: overflow of `size_t` in `size()` and `index()` is not modelled.
- MonStore: report cells are unbounded. For an integer store, `reports[...] += val` in `add` can overflow in the program; the model's cells do not wrap.
- MonStore: the debug-only range checks of `add` become preconditions.
- MonStore.Store.Init requires the deploy list to be empty. A second
  `init` of the source would keep the earlier deploy entries; the model
  assumes `init` runs once.
- MonStore: the state of a store after a throw is not modelled.
- MonStore.Store.Deploy requires one species and one genotype, as the
  source's deploy writes species 0 and genotype 0 only.
- Deploy::Method values are not part of this model. A mask of 0
  (`NA`) is taken to mean "not a deployment".
- LegacyPopulation: `NeonatalMortality::update` and `streamValidate` are
  not modelled.
- LegacyPopulation.Population.PreMainSimInit: the calls into the
  infection incidence, infant mortality and genotype modules are not
  modelled; those modules are not part of this model.
- LegacyPopulation: `ctsHosts`, `ctsPatentHosts`, `ctsImmunityh`,
  `ctsImmunityY`, `ctsMeanAgeAvailEffect`, the ITN, IRS and GVI coverage
  reports and the checkpoint write are not modelled.
- LegacyPopulation.Population.ReadCheckpoint: end of file is taken to be
  the end of the data. The stream's eof flag, set only after a failed
  read, is not modelled.
- LegacyPopulation.Newborn: a new human's cumulative exposure is taken
  to be 0. The within-host constructor is not part of this model.
- LegacyPopulation.Sort: `std::sort` is modelled as an insertion sort. The
  result is the same sorted permutation.
- LegacyPopulation.Population.MedianImmunityY: the median is stated as the
  middle of the sorted first s_populationSize exposures, as the source
  computes it. The split property is proved only when the list holds
  exactly s_populationSize humans, the case the source assumes.
- WhiteIntervention.PhiInvAntisymmetric: the rational approximation is
  stated only for its symmetry. Its error bound of 4.5e-4 is not proved.

## Findings

| source | as written | input that shows it | evidently intended | confidence | as-written member | corrected member |
|---|---|---|---|---|---|---|
| model/white/Population.cpp:119-124 | the donor search compares the absolute difference abs(zeta - zeta_j) with a tracked value that it then sets to the squared difference | zeta = 0.1, two women of child-bearing age with zeta 0.6 then 0.4: the first sets the tracked value to 0.25; then abs(0.1 - 0.4) = 0.3 < 0.25 fails, so the farther donor is kept. The model reads `abs` as the absolute value of a double; the unqualified call with only `<cmath>` included (model/white/Population.cpp:17-20) could instead resolve to the integer overload and truncate, and the search would still not find the nearest donor | the newborn takes maternal immunity from the nearest woman of child-bearing age, tracking the same measure it compares; in `human_step` the difference does not show, since ager runs first and leaves every woman of child-bearing age with maternal immunity 0 (WhiteIndividual.Individual.Ager, WhitePopulation.DonorChoiceMasked) | not executed | WhitePopulation.DonorSearchMissesNearer | WhitePopulation.ClosestIsFirstNearest |
