/** The cutoff tables of jitterentropy-health.c. */
module Cutoffs {

  /** An entry per oversampling rate; rates past the table use its last entry. */
  function Lookup(table: seq<nat>, osr: nat): nat
    requires |table| > 0 && osr > 0
  {
    if osr >= |table| then table[|table| - 1] else table[osr - 1]
  }

  function LagGlobalCutoff(osr: nat): nat
    requires osr > 0
  {
    Lookup([66443, 93504, 104761, 110875, 114707, 117330, 119237, 120686, 121823, 122739,
            123493, 124124, 124660, 125120, 125520, 125871, 126181, 126457, 126704, 126926], osr)
  }

  function LagLocalCutoff(osr: nat): nat
    requires osr > 0
  {
    Lookup([38, 75, 111, 146, 181, 215, 250, 284, 318, 351, 385, 419, 452, 485, 518, 551, 584, 617, 650, 683], osr)
  }

  function AptCutoff(osr: nat, ntg1: bool): nat
    requires osr > 0
  {
    if ntg1 then Lookup([17, 71, 136, 191, 236, 272, 301, 325, 345, 361, 375, 388, 398, 407, 415], osr)
    else Lookup([325, 422, 459, 477, 488, 494, 499, 502, 505, 507, 508, 509, 510, 511, 512], osr)
  }

  function AptPermanentCutoff(osr: nat, ntg1: bool): nat
    requires osr > 0
  {
    if ntg1 then Lookup([26, 92, 162, 221, 267, 303, 332, 355, 375, 390, 404, 415, 425, 433, 440], osr)
    else Lookup([355, 447, 479, 494, 502, 507, 510, 512, 512, 512, 512, 512, 512, 512, 512], osr)
  }

  /** In NTG.1 mode the cutoffs of the repetition count test are divided by eight, rounding up. */
  function RctCutoff(osr: nat, ntg1: bool): nat {
    if ntg1 then (30 * osr + 7) / 8 else 30 * osr
  }

  function RctPermanentCutoff(osr: nat, ntg1: bool): nat {
    if ntg1 then (60 * osr + 7) / 8 else 60 * osr
  }

  lemma RctPermanentInRange(osr: nat, ntg1: bool)
    requires 0 < osr <= 20
    ensures 0 < RctPermanentCutoff(osr, ntg1) <= 1200
  {
  }

  function RctMemCutoff(osr: nat, ntg1: bool): nat
    requires osr > 0
  {
    if ntg1 then Lookup([4, 46, 134, 255, 399, 560, 733, 856, 963, 1070,
                         1177, 1284, 1391, 1498, 1605, 1712, 1819, 1926, 2033, 2140], osr)
    else Lookup([107, 214, 321, 428, 535, 642, 749, 856, 963, 1070,
                 1177, 1284, 1391, 1498, 1605, 1712, 1819, 1926, 2033, 2140], osr)
  }

  function RctMemPermanentCutoff(osr: nat, ntg1: bool): nat
    requires osr > 0
  {
    if ntg1 then Lookup([5, 50, 142, 265, 410, 572, 746, 857, 964, 1071,
                         1178, 1285, 1392, 1499, 1606, 1713, 1820, 1927, 2034, 2141], osr)
    else Lookup([108, 215, 322, 429, 536, 643, 750, 857, 964, 1071,
                 1178, 1285, 1392, 1499, 1606, 1713, 1820, 1927, 2034, 2141], osr)
  }

  /** Iterations of the collection loop: the block size in bits, in FIPS mode with the safety factor, times the
      oversampling rate, rounded up to a multiple of three, kept in 16 bits. */
  function LoopIterations(osr: nat, fips: bool): nat {
    ((if fips then 321 * osr else 256 * osr) + 2) / 3 * 3 % 0x1_0000
  }

  /** A rate within a table takes its own entry, and a higher one the last. */
  lemma LookupIs(table: seq<nat>, osr: nat)
    requires |table| > 0 && osr > 0
    ensures osr <= |table| ==> Lookup(table, osr) == table[osr - 1]
    ensures osr >= |table| ==> Lookup(table, osr) == table[|table| - 1]
  {
  }

  /** The cutoffs of the lag test rise with every rate of their tables, and stay below the window they count in. */
  lemma LagCutoffsRise(osr: nat)
    requires 0 < osr < 20
    ensures LagLocalCutoff(osr) < LagLocalCutoff(osr + 1) <= LagLocalCutoff(20)
    ensures LagGlobalCutoff(osr) < LagGlobalCutoff(osr + 1) <= LagGlobalCutoff(20) < 0x2_0000
    ensures 2 * LagGlobalCutoff(osr) > 0x2_0000
  {
  }

  /** Those of the adaptive proportion test rise too, the permanent ones until they reach the whole window. */
  lemma AptCutoffsRise(osr: nat, ntg1: bool)
    requires 0 < osr < 15
    ensures AptCutoff(osr, ntg1) < AptCutoff(osr + 1, ntg1)
    ensures AptPermanentCutoff(osr, ntg1) < AptPermanentCutoff(osr + 1, ntg1) || AptPermanentCutoff(osr, ntg1) == 512
    ensures AptCutoff(osr, true) < AptCutoff(osr, false) && AptPermanentCutoff(osr, true) < AptPermanentCutoff(osr, false)
  {
  }

  /** The cutoffs of the repetition count test: 30 and 60 for every unit of the rate, an eighth of that, rounded up,
      in NTG.1 mode. */
  lemma RctCutoffsAre(osr: nat)
    requires osr > 0
    ensures RctCutoff(osr, false) == 30 * osr && RctPermanentCutoff(osr, false) == 60 * osr
    ensures 8 * RctCutoff(osr, true) >= 30 * osr > 8 * (RctCutoff(osr, true) - 1)
    ensures 8 * RctPermanentCutoff(osr, true) >= 60 * osr > 8 * (RctPermanentCutoff(osr, true) - 1)
  {
  }

  /** In NTG.1 mode the cutoffs of the test with memory are lower than in common mode up to rate 7, and the same from
      there on. */
  lemma RctMemCutoffsOfModes(osr: nat)
    requires 0 < osr <= 20
    ensures if osr <= 7 then RctMemPermanentCutoff(osr, true) < RctMemPermanentCutoff(osr, false)
            else RctMemCutoff(osr, true) == RctMemCutoff(osr, false)
                 && RctMemPermanentCutoff(osr, true) == RctMemPermanentCutoff(osr, false)
    ensures osr <= 7 ==> RctMemCutoff(osr, true) < RctMemCutoff(osr, false)
    ensures osr < 20 ==> RctMemPermanentCutoff(osr, true) < RctMemPermanentCutoff(osr + 1, true)
  {
  }

  /** Every intermittent cutoff of the tables is below or at its permanent cutoff, and an adaptive proportion
      cutoff is one that a window can reach but a single delta cannot. */
  lemma AptCutoffsOrdered(osr: nat, ntg1: bool)
    requires osr > 0
    ensures 2 <= AptCutoff(osr, ntg1) <= AptPermanentCutoff(osr, ntg1) <= 512
  {
  }

  lemma RctMemCutoffsOrdered(osr: nat, ntg1: bool)
    requires osr > 0
    ensures 0 < RctMemCutoff(osr, ntg1) < RctMemPermanentCutoff(osr, ntg1) < 0x1_0000
  {
    if ntg1 {
      Ntg1CutoffsOrdered(osr);
    } else {
      CommonCutoffs(osr);
    }
  }

  lemma Ntg1CutoffsOrdered(osr: nat)
    requires osr > 0
    ensures 0 < RctMemCutoff(osr, true) < RctMemPermanentCutoff(osr, true) < 0x1_0000
  {
  }

  lemma CommonCutoffs(osr: nat)
    requires osr > 0
    ensures RctMemCutoff(osr, false) == 107 * if osr < 20 then osr else 20
    ensures RctMemPermanentCutoff(osr, false) == RctMemCutoff(osr, false) + 1
  {
  }

  lemma Iterations(osr: nat, fips: bool)
    requires 0 < osr <= 20
    ensures LoopIterations(osr, fips) == if fips then 321 * osr else (256 * osr + 2) / 3 * 3
    ensures LoopIterations(osr, fips) % 3 == 0 && 256 <= LoopIterations(osr, fips) < 0x1_0000
    ensures LoopIterations(osr, fips) / 3 <= if fips then 107 * osr else 86 * osr
  {
    assert (321 * osr + 2) / 3 == 107 * osr;
  }

  /** Outside NTG.1 mode the permanent cutoff is one above what a window can count, in FIPS mode, and without
      FIPS mode not even the intermittent cutoff is in reach. */
  lemma RctMemWindow(osr: nat, fips: bool)
    requires 0 < osr <= 20
    ensures LoopIterations(osr, fips) / 3 < RctMemPermanentCutoff(osr, false)
    ensures !fips ==> LoopIterations(osr, fips) / 3 < RctMemCutoff(osr, false)
  {
    hide RctMemCutoff, RctMemPermanentCutoff, LoopIterations;
    CommonCutoffs(osr);
    Iterations(osr, fips);
  }

  /** The cutoffs of the test with memory rise with the oversampling rate, up to the highest one. */
  lemma RctMemCutoffRises(osr: nat, higher: nat, ntg1: bool)
    requires 0 < osr < higher <= 20
    ensures RctMemCutoff(osr, ntg1) < RctMemCutoff(higher, ntg1)
    ensures 3 * RctMemCutoff(osr, ntg1) <= 321 * osr
  {
    if !ntg1 {
      hide RctMemCutoff;
      CommonCutoffs(osr);
      CommonCutoffs(higher);
    }
  }
}
