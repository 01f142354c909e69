/** The adaptive proportion test of section 4.4.2 of NIST SP 800-90B, twice: incrementally inside the collector
    (jitterentropy-health.c) and as a batch tally over samples (app/entropy_stats.c). */
module Apt {
  import opened Basics
  import CritBinom

  const APT_WINDOW: nat := 512

  /** How often x occurs in w. */
  function Tally(w: seq<Word>, x: Word): nat {
    if w == [] then 0 else Tally(w[..|w| - 1], x) + if w[|w| - 1] == x then 1 else 0
  }

  /** Where x occurs in w. */
  function Positions(w: seq<Word>, x: Word): set<nat> {
    set i: nat | i < |w| && w[i] == x
  }

  lemma {:induction false} TallyIsCount(w: seq<Word>, x: Word)
    ensures Tally(w, x) == multiset(w)[x] == |Positions(w, x)|
  {
    if w != [] {
      var v, n := w[..|w| - 1], |w| - 1;
      TallyIsCount(v, x);
      assert w == v + [w[n]];
      assert Positions(w, x) == if w[n] == x then Positions(v, x) + {n} else Positions(v, x);
    }
  }

  datatype Alarm = NoAlarm | Intermittent | Permanent

  /** The verdict on a count that has just gone up. */
  function Verdict(count: nat, cutoff: nat, permanent: nat): Alarm {
    if count >= permanent then Permanent else if count == cutoff then Intermittent else NoAlarm
  }

  /** The fields of the test. */
  datatype AptState = AptState(baseSet: bool, base: Word, count: nat, observations: nat)

  const APT_START := AptState(false, 0, 0, 0)

  /** The fields after a delta: it opens a window, or counts in the one that is open. */
  function AptNext(s: AptState, delta: Word): AptState {
    if !s.baseSet then AptState(true, delta, 1, 1)
    else AptState(s.observations + 1 < APT_WINDOW, s.base, if delta == s.base then s.count + 1 else s.count,
                  s.observations + 1)
  }

  /** The alarm that a delta raises. */
  function AptAlarm(s: AptState, delta: Word, cutoff: nat, permanent: nat): Alarm {
    if s.baseSet && delta == s.base then Verdict(s.count + 1, cutoff, permanent) else NoAlarm
  }

  class AptTest {
    var base: Word
    var baseSet: bool
    var count: nat
    var observations: nat
    const cutoff: nat
    const cutoffPermanent: nat

    /** The deltas of the current window.  A window taken over from another collector starts with a count and
        a number of observations instead. */
    ghost var window: seq<Word>
    ghost var carriedCount: nat
    ghost var carriedObservations: nat

    ghost predicate Valid()
      reads this`base, this`baseSet, this`count, this`observations
      reads this`window, this`carriedCount, this`carriedObservations
    {
      baseSet ==>
        && count == carriedCount + Tally(window, base)
        && observations == carriedObservations + |window|
        && (carriedObservations == 0 ==> 0 < |window| < APT_WINDOW && window[0] == base && carriedCount == 0)
    }

    constructor (cutoff: nat, cutoffPermanent: nat)
      ensures Valid() && State() == APT_START
      ensures this.cutoff == cutoff && this.cutoffPermanent == cutoffPermanent
    {
      base, baseSet, count, observations := 0, false, 0, 0;
      this.cutoff, this.cutoffPermanent := cutoff, cutoffPermanent;
      window, carriedCount, carriedObservations := [], 0, 0;
    }

    function State(): AptState
      reads this`base, this`baseSet, this`count, this`observations
    {
      AptState(baseSet, base, count, observations)
    }

    /** jent_apt_duplicate: take over the window of a replaced collector with the count at the intermittent
        cutoff of this one.  The stale observations of a window that has just ended are taken over too. */
    method Duplicate(other: AptTest)
      requires Valid() && other != this
      modifies this`base, this`baseSet, this`count, this`observations
      modifies this`window, this`carriedCount, this`carriedObservations
      ensures Valid()
      ensures if other.observations > 0
              then baseSet && base == other.base && count == cutoff && observations == other.observations
              else baseSet == old(baseSet) && base == old(base) && count == old(count)
                   && observations == old(observations)
    {
      if other.observations > 0 {
        base, baseSet, count, observations := other.base, true, cutoff, other.observations;
        window, carriedCount, carriedObservations := [], cutoff, other.observations;
      }
    }

    /** The alarm the next delta raises. */
    ghost function NextAlarm(delta: Word): Alarm
      reads this
    {
      if baseSet && delta == base
      then Verdict(carriedCount + Tally(window + [delta], base), cutoff, cutoffPermanent)
      else NoAlarm
    }

    /** jent_apt_insert */
    method Insert(delta: Word) returns (alarm: Alarm)
      requires Valid()
      modifies this`base, this`baseSet, this`count, this`observations
      modifies this`window, this`carriedCount, this`carriedObservations
      ensures Valid() && observations > 0
      ensures !old(baseSet) ==>
                baseSet && window == [delta] && carriedObservations == 0
      ensures old(baseSet) ==>
                && window == old(window) + [delta] && base == old(base)
                && carriedCount == old(carriedCount) && carriedObservations == old(carriedObservations)
                && baseSet == (carriedObservations + |window| < APT_WINDOW)
      ensures alarm == old(NextAlarm(delta))
      ensures State() == AptNext(old(State()), delta)
      ensures alarm == AptAlarm(old(State()), delta, cutoff, cutoffPermanent)
    {
      alarm := NoAlarm;
      if !baseSet {
        base, baseSet, count, observations := delta, true, 1, 1;
        window, carriedCount, carriedObservations := [delta], 0, 0;
        assert Tally([], delta) == 0;
        return;
      }
      window := window + [delta];
      assert window[..|window| - 1] == old(window);
      if delta == base {
        count := count + 1;
        alarm := Verdict(count, cutoff, cutoffPermanent);
      }
      observations := observations + 1;
      if observations >= APT_WINDOW {
        baseSet := false;
      }
    }
  }

  // ---------------------------------------------------------------- over a stream

  /** Where the window of position i starts. */
  function Start(i: nat): (s: nat)
    ensures s <= i < s + APT_WINDOW
  {
    i - i % APT_WINDOW
  }

  lemma StartStep(i: nat)
    ensures Start(i + 1) == if i + 1 == Start(i) + APT_WINDOW then i + 1 else Start(i)
    ensures Start(0) == 0
  {
  }

  /** The last delta of a window makes its tally reach a cutoff. */
  predicate Reaches(w: seq<Word>, cutoff: nat, permanent: nat)
    requires w != []
  {
    |w| > 1 && w[|w| - 1] == w[0] && Verdict(Tally(w, w[0]), cutoff, permanent) != NoAlarm
  }

  /** So does the delta at position i of a stream, in its window as far as it has come. */
  predicate ReachesAt(h: seq<Word>, i: nat, cutoff: nat, permanent: nat)
    requires i < |h|
  {
    Reaches(h[Start(i)..i + 1], cutoff, permanent)
  }

  /** The delta at position i is a repetition of the first one of its window that makes their number as large as the
      permanent cutoff or larger. */
  predicate ReachesForGood(h: seq<Word>, i: nat, permanent: nat)
    requires i < |h|
  {
    Start(i) < i && h[i] == h[Start(i)] && Tally(h[Start(i)..i + 1], h[i]) >= permanent
  }

  /** A fresh incremental test raises an alarm on a stream iff some delta reaches a cutoff, and the permanent one iff
      some delta reaches that. */
  method AptOverStream(h: seq<Word>, cutoff: nat, permanent: nat) returns (failed: bool, forGood: bool)
    ensures failed <==> exists i :: 0 <= i < |h| && ReachesAt(h, i, cutoff, permanent)
    ensures forGood <==> exists i :: 0 <= i < |h| && ReachesForGood(h, i, permanent)
  {
    hide Start, Tally;
    var test := new AptTest(cutoff, permanent);
    failed, forGood := false, false;
    StartStep(0);
    for i := 0 to |h|
      invariant test.Valid() && fresh(test) && test.cutoff == cutoff && test.cutoffPermanent == permanent
      invariant test.baseSet == (Start(i) != i)
      invariant test.baseSet ==> test.carriedObservations == 0 && test.window == h[Start(i)..i]
      invariant failed <==> exists j :: 0 <= j < i && ReachesAt(h, j, cutoff, permanent)
      invariant forGood <==> exists j :: 0 <= j < i && ReachesForGood(h, j, permanent)
    {
      StartStep(i);
      assert Start(i) < i ==> h[Start(i)..i] + [h[i]] == h[Start(i)..i + 1];
      assert Start(i) == i ==> [h[i]] == h[Start(i)..i + 1];
      var alarm := test.Insert(h[i]);
      assert test.window == h[Start(i)..i + 1];
      assert alarm != NoAlarm <==> ReachesAt(h, i, cutoff, permanent);
      assert alarm == Permanent <==> ReachesForGood(h, i, permanent);
      failed, forGood := failed || alarm != NoAlarm, forGood || alarm == Permanent;
    }
  }

  /** Within one window: some delta reaches a cutoff iff the whole tally does. */
  lemma {:induction false} ReachesWithin(w: seq<Word>, cutoff: nat, permanent: nat)
    requires w != [] && 2 <= cutoff <= permanent
    ensures Tally(w, w[0]) >= cutoff <==> exists n :: 0 < n <= |w| && Reaches(w[..n], cutoff, permanent)
  {
    if |w| == 1 {
      assert Tally(w, w[0]) == 1;
    } else {
      var shorter := w[..|w| - 1];
      ReachesWithin(shorter, cutoff, permanent);
      assert w[..|w|] == w;
      forall n | 0 < n <= |shorter| ensures w[..n] == shorter[..n] {}
      if Tally(w, w[0]) >= cutoff && Tally(shorter, w[0]) < cutoff {
        assert Reaches(w[..|w|], cutoff, permanent);
      }
    }
  }

  // ---------------------------------------------------------------- the batch test

  /** Where window k starts. */
  function WindowAt(k: nat, size: nat): nat {
    k * size
  }

  lemma NextWindowAt(k: nat, size: nat)
    ensures WindowAt(0, size) == 0 && WindowAt(k + 1, size) == WindowAt(k, size) + size
  {
  }

  /** Window k is complete and its first value occurs in it as often as the cutoff, or more often. */
  predicate WindowFails(h: seq<Word>, size: nat, k: nat, cutoff: nat)
    requires size > 0
  {
    var start := WindowAt(k, size);
    start + size <= |h| && Tally(h[start..start + size], h[start]) >= cutoff
  }

  /** How many of the first n windows fail. */
  function FailedWindows(h: seq<Word>, size: nat, n: nat, cutoff: nat): (f: nat)
    requires size > 0
  {
    if n == 0 then 0 else FailedWindows(h, size, n - 1, cutoff) + if WindowFails(h, size, n - 1, cutoff) then 1 else 0
  }

  lemma {:induction false} SomeWindowFails(h: seq<Word>, size: nat, n: nat, cutoff: nat)
    requires size > 0
    ensures FailedWindows(h, size, n, cutoff) > 0 <==> exists k :: 0 <= k < n && WindowFails(h, size, k, cutoff)
  {
    hide WindowFails;
    if n > 0 {
      SomeWindowFails(h, size, n - 1, cutoff);
    }
  }

  lemma WindowVerdict(h: seq<Word>, size: nat, k: nat, cutoff: nat)
    requires size > 0 && WindowAt(k, size) + size <= |h|
    ensures var w := h[WindowAt(k, size)..WindowAt(k, size) + size];
            WindowFails(h, size, k, cutoff) <==> Tally(w, w[0]) >= cutoff
  {
  }

  /** The counting loop over one window. */
  method CountFirst(w: seq<Word>) returns (count: nat)
    requires w != []
    ensures count == Tally(w, w[0])
  {
    count := 0;
    for i := 0 to |w|
      invariant count == Tally(w[..i], w[0])
    {
      assert w[..i + 1][..i] == w[..i];
      if w[i] == w[0] {
        count := count + 1;
      }
    }
    assert w[..|w|] == w;
  }

  /** entropy_stats_apt for a given cutoff: the complete windows only, none of them overlapping. */
  method AptBatch(samples: seq<Word>, windowSize: nat, cutoff: nat)
    returns (windowsTested: nat, windowsFailed: nat, passed: bool)
    ensures var size := if windowSize == 0 then APT_WINDOW else windowSize;
            && WindowAt(windowsTested, size) <= |samples| < WindowAt(windowsTested + 1, size)
            && windowsFailed == FailedWindows(samples, size, windowsTested, cutoff)
    ensures passed <==> windowsFailed == 0
  {
    var size := if windowSize == 0 then APT_WINDOW else windowSize;
    hide WindowFails, WindowAt, Tally;
    windowsTested, windowsFailed := 0, 0;
    NextWindowAt(0, size);
    if |samples| < size {
      passed := true;
      return;
    }
    var start := 0;
    while start + size <= |samples|
      invariant start == WindowAt(windowsTested, size) && start <= |samples|
      invariant windowsFailed == FailedWindows(samples, size, windowsTested, cutoff)
      decreases |samples| - start
    {
      var count := CountFirst(samples[start..start + size]);
      assert WindowFails(samples, size, windowsTested, cutoff) <==> count >= cutoff by {
        WindowVerdict(samples, size, windowsTested, cutoff);
      }
      NextWindowAt(windowsTested, size);
      windowsTested := windowsTested + 1;
      if count >= cutoff {
        windowsFailed := windowsFailed + 1;
      }
      start := start + size;
    }
    NextWindowAt(windowsTested, size);
    passed := windowsFailed == 0;
  }

  function NormalizedAlpha(alpha: real): real {
    if 0.0 < alpha < 1.0 then alpha else 1.0 / 1048576.0
  }

  /** entropy_stats_apt: a window fails when its first value occurs more often than the critical value of the
      binomial distribution allows; p is the largest probability 2^-H of a sample. */
  method AptReport(samples: seq<Word>, windowSize: nat, p: real, alpha: real)
    returns (cutoff: nat, windowsTested: nat, windowsFailed: nat, passed: bool)
    requires 0.0 <= p <= 1.0
    ensures var size := if windowSize == 0 then 512 else windowSize;
            var level := if 0.0 < alpha < 1.0 then alpha else 1.0 / 1048576.0;
            && cutoff > 0 && CritBinom.IsCritical(size, p, level, cutoff - 1)
            && WindowAt(windowsTested, size) <= |samples| < WindowAt(windowsTested + 1, size)
            && windowsFailed == FailedWindows(samples, size, windowsTested, cutoff)
    ensures passed <==> windowsFailed == 0
  {
    var critical := CritBinom.CritBinom(if windowSize == 0 then APT_WINDOW else windowSize, p, NormalizedAlpha(alpha));
    cutoff := critical + 1;
    windowsTested, windowsFailed, passed := AptBatch(samples, windowSize, cutoff);
  }

  /** On complete windows the incremental test in the collector and the batch test in the statistics engine
      agree, for every cutoff that the tables can hold. */
  lemma IncrementalIsBatch(h: seq<Word>, cutoff: nat, permanent: nat)
    requires |h| % APT_WINDOW == 0 && 2 <= cutoff <= permanent
    ensures (exists i :: 0 <= i < |h| && ReachesAt(h, i, cutoff, permanent))
       <==> FailedWindows(h, APT_WINDOW, |h| / APT_WINDOW, cutoff) > 0
  {
    hide Tally, WindowFails, Reaches, FailedWindows;
    var n := |h| / APT_WINDOW;
    SomeWindowFails(h, APT_WINDOW, n, cutoff);
    forall i | 0 <= i < |h| && ReachesAt(h, i, cutoff, permanent)
      ensures exists k :: 0 <= k < n && WindowFails(h, APT_WINDOW, k, cutoff)
    {
      InWindow(h, i / APT_WINDOW, i % APT_WINDOW, cutoff, permanent);
    }
    forall k | 0 <= k < n && WindowFails(h, APT_WINDOW, k, cutoff)
      ensures exists i :: 0 <= i < |h| && ReachesAt(h, i, cutoff, permanent)
    {
      FromWindow(h, k, cutoff, permanent);
    }
  }

  lemma StartOf(k: nat, r: nat)
    requires r < APT_WINDOW
    ensures Start(k * APT_WINDOW + r) == k * APT_WINDOW
  {
  }

  lemma InWindow(h: seq<Word>, k: nat, r: nat, cutoff: nat, permanent: nat)
    requires 2 <= cutoff <= permanent && r < APT_WINDOW && k * APT_WINDOW + APT_WINDOW <= |h|
    requires ReachesAt(h, k * APT_WINDOW + r, cutoff, permanent)
    ensures WindowFails(h, APT_WINDOW, k, cutoff)
  {
    hide Tally, Reaches, Start;
    var start := k * APT_WINDOW;
    var w := h[start..start + APT_WINDOW];
    StartOf(k, r);
    assert h[start..start + r + 1] == w[..r + 1];
    ReachesWithin(w, cutoff, permanent);
  }

  lemma FromWindow(h: seq<Word>, k: nat, cutoff: nat, permanent: nat)
    requires 2 <= cutoff <= permanent
    requires WindowFails(h, APT_WINDOW, k, cutoff)
    ensures exists i :: 0 <= i < |h| && ReachesAt(h, i, cutoff, permanent)
  {
    hide Tally, Reaches, Start;
    var start := k * APT_WINDOW;
    var w := h[start..start + APT_WINDOW];
    ReachesWithin(w, cutoff, permanent);
    var n :| 0 < n <= |w| && Reaches(w[..n], cutoff, permanent);
    var i := start + n - 1;
    StartOf(k, n - 1);
    assert h[Start(i)..i + 1] == w[..n];
    assert ReachesAt(h, i, cutoff, permanent);
  }
}
