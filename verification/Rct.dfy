/** The repetition count test of jitterentropy-health.c on the results of the stuck test (section 4.4.1 of
    NIST SP 800-90B). */
module Rct {
  import opened Basics
  import opened Apt

  /** The number of stuck results at the end of a history, on top of a starting count that the first result
      that is not stuck takes away. */
  function StuckRun(start: nat, results: seq<bool>): nat {
    if results == [] then start
    else if results[|results| - 1] then StuckRun(start, results[..|results| - 1]) + 1
    else 0
  }

  class RctTest {
    var count: nat
    const cutoff: nat
    const cutoffPermanent: nat

    /** The results since the count was last set, and what it was set to. */
    ghost var results: seq<bool>
    ghost var start: nat

    ghost predicate Valid()
      reads this
    {
      count == StuckRun(start, results) % UINT32
    }

    constructor (cutoff: nat, cutoffPermanent: nat)
      ensures Valid() && results == [] && count == start == 0
      ensures this.cutoff == cutoff && this.cutoffPermanent == cutoffPermanent
    {
      count, results, start := 0, [], 0;
      this.cutoff, this.cutoffPermanent := cutoff, cutoffPermanent;
    }

    /** Set the count: 0 when the tests are initialized, the intermittent cutoff when a collector is replaced. */
    method Restart(count: nat)
      requires count < UINT32
      modifies this`count, this`results, this`start
      ensures Valid() && results == [] && this.count == start == count
    {
      this.count, results, start := count, [], count;
    }

    /** The alarm the next result raises. */
    ghost function NextAlarm(stuck: bool): Alarm
      reads this
    {
      if stuck then Verdict((count + 1) % UINT32, cutoff, cutoffPermanent) else NoAlarm
    }

    /** jent_rct_insert; the 32-bit count wraps. */
    method Insert(stuck: bool) returns (alarm: Alarm)
      requires Valid()
      modifies this`count, this`results
      ensures Valid() && results == old(results) + [stuck]
      ensures count == if stuck then (old(count) + 1) % UINT32 else 0
      ensures alarm == old(NextAlarm(stuck))
    {
      alarm := NoAlarm;
      results := results + [stuck];
      assert results[..|results| - 1] == old(results);
      if stuck {
        count := (count + 1) % UINT32;
        alarm := Verdict(count, cutoff, cutoffPermanent);
      } else {
        count := 0;
      }
    }
  }

  /** k results in a row, ending at position i, are stuck. */
  predicate StuckFor(results: seq<bool>, i: nat, k: nat)
    requires k <= i + 1 <= |results|
  {
    forall j | i + 1 - k <= j <= i :: results[j]
  }

  /** The run counts exactly the stuck results back to the last one that is not stuck. */
  lemma {:induction false} StuckRunCounts(results: seq<bool>)
    ensures var n := StuckRun(0, results);
            && n <= |results|
            && (forall j | |results| - n <= j < |results| :: results[j])
            && (n < |results| ==> !results[|results| - n - 1])
  {
    if results != [] && results[|results| - 1] {
      StuckRunCounts(results[..|results| - 1]);
    }
  }

  /** From a fresh count, a run reaches a cutoff somewhere iff that many consecutive results are stuck. */
  lemma RunReachesCutoff(results: seq<bool>, cutoff: nat)
    requires cutoff > 0
    ensures (exists n :: 0 <= n <= |results| && StuckRun(0, results[..n]) >= cutoff)
       <==> (exists i :: cutoff <= i + 1 <= |results| && StuckFor(results, i, cutoff))
  {
    forall n | 0 <= n <= |results| && StuckRun(0, results[..n]) >= cutoff
      ensures cutoff <= n && StuckFor(results, n - 1, cutoff)
    {
      StuckRunCounts(results[..n]);
    }
    forall i | cutoff <= i + 1 <= |results| && StuckFor(results, i, cutoff)
      ensures StuckRun(0, results[..i + 1]) >= cutoff
    {
      StuckRunCounts(results[..i + 1]);
      assert results[..i + 1][i] == results[i];
    }
  }

  /** A fresh test raises an alarm on a stream iff as many consecutive results as the cutoff are stuck somewhere, and
      the permanent one iff as many as the permanent cutoff are, however long the stream and however often the 32-bit
      count wraps. */
  method RctOverStream(results: seq<bool>, cutoff: nat, cutoffPermanent: nat) returns (failed: bool, forGood: bool)
    requires 0 < cutoff <= cutoffPermanent && cutoff < UINT32
    ensures failed <==> exists i :: cutoff <= i + 1 <= |results| && StuckFor(results, i, cutoff)
    ensures cutoffPermanent < UINT32 ==>
              (forGood <==> exists i :: cutoffPermanent <= i + 1 <= |results| && StuckFor(results, i, cutoffPermanent))
  {
    hide StuckRun;
    var test := new RctTest(cutoff, cutoffPermanent);
    failed, forGood := false, false;
    RunStep(results, 0);
    for n := 0 to |results|
      invariant fresh(test) && test.Valid() && test.cutoff == cutoff && test.cutoffPermanent == cutoffPermanent
      invariant test.start == 0 && test.results == results[..n]
      invariant failed <==> exists m :: 0 <= m <= n && StuckRun(0, results[..m]) >= cutoff
      invariant cutoffPermanent < UINT32 ==>
                  (forGood <==> exists m :: 0 <= m <= n && StuckRun(0, results[..m]) >= cutoffPermanent)
    {
      ghost var before := StuckRun(0, results[..n]);
      RunStep(results, n);
      Wraps(before);
      Wraps(before + 1);
      var alarm := test.Insert(results[n]);
      assert alarm != NoAlarm ==> StuckRun(0, results[..n + 1]) >= cutoff;
      assert StuckRun(0, results[..n + 1]) >= cutoff ==> alarm != NoAlarm || before >= cutoff;
      assert alarm == Permanent ==> StuckRun(0, results[..n + 1]) >= cutoffPermanent;
      assert UINT32 > cutoffPermanent && StuckRun(0, results[..n + 1]) >= cutoffPermanent ==>
          alarm == Permanent || before >= cutoffPermanent;
      failed, forGood := failed || alarm != NoAlarm, forGood || alarm == Permanent;
    }
    RunReachesCutoff(results, cutoff);
    RunReachesCutoff(results, cutoffPermanent);
  }

  lemma RunStep(results: seq<bool>, n: nat)
    requires n <= |results|
    ensures n == 0 ==> StuckRun(0, results[..n]) == 0
    ensures n < |results| ==>
              StuckRun(0, results[..n + 1]) == if results[n] then StuckRun(0, results[..n]) + 1 else 0
  {
    if n < |results| {
      assert results[..n + 1][..n] == results[..n];
    }
  }

  lemma Wraps(run: nat)
    ensures run % UINT32 <= run && (run < UINT32 ==> run % UINT32 == run)
    ensures (run % UINT32 + 1) % UINT32 == (run + 1) % UINT32
  {
  }

  // ---------------------------------------------------------------- the batch test

  /** The k samples up to position i are equal. */
  predicate EqualFor(samples: seq<Word>, i: nat, k: nat)
    requires k <= i + 1 <= |samples|
  {
    forall j | i + 1 - k <= j <= i :: samples[j] == samples[i]
  }

  /** entropy_stats_rct for a given cutoff: the longest run of equal samples, and whether it stays below the
      cutoff. */
  method RctBatch(samples: seq<Word>, cutoff: nat) returns (maxRun: nat, passed: bool)
    ensures forall i: nat, k: nat | k <= i + 1 <= |samples| && EqualFor(samples, i, k) :: k <= maxRun
    ensures samples != [] ==> exists i: nat :: maxRun <= i + 1 <= |samples| && EqualFor(samples, i, maxRun)
    ensures cutoff > 0 ==> (passed <==> !exists i: nat :: cutoff <= i + 1 <= |samples| && EqualFor(samples, i, cutoff))
  {
    if samples == [] {
      return 0, true;
    }
    var run := 1;
    maxRun := 1;
    ghost var longest: nat := 0;
    for n := 1 to |samples|
      invariant 1 <= run <= n && EqualFor(samples, n - 1, run)
      invariant run < n ==> samples[n - 1 - run] != samples[n - 1]
      invariant run <= maxRun <= longest + 1 <= n && EqualFor(samples, longest, maxRun)
      invariant forall i: nat, k: nat | k <= i + 1 <= n && EqualFor(samples, i, k) :: k <= maxRun
    {
      if samples[n] == samples[n - 1] {
        run := run + 1;
        if run > maxRun {
          maxRun, longest := run, n;
        }
      } else {
        run := 1;
      }
      RunAt(samples, n, run);
    }
    passed := maxRun < cutoff;
    if maxRun >= cutoff > 0 {
      assert EqualFor(samples, longest, cutoff);
    }
  }

  /** No run that ends at a position is longer than the one that starts after the last different sample. */
  lemma RunAt(samples: seq<Word>, n: nat, run: nat)
    requires 0 < run <= n + 1 <= |samples| && EqualFor(samples, n, run)
    requires run <= n ==> samples[n - run] != samples[n]
    ensures forall k: nat | k <= n + 1 && EqualFor(samples, n, k) :: k <= run
  {
    forall k: nat | run < k <= n + 1 ensures !EqualFor(samples, n, k) {
      assert samples[n - run] != samples[n];
    }
  }
}
