/** A startup that never ends, on streams of every length: every third delta is stuck until a recovery fires in the
    first stage, and from there on no delta is stuck and no test raises an alarm. */
module StartupWitness {
  import opened Basics
  import opened LagPredictor
  import opened Cutoffs
  import opened Apt
  import opened Rct
  import opened DeltaStream
  import opened Collector
  import opened Ladder
  import opened Sizing

  const TURN: nat := 961

  /** Every third delta is zero and all others differ; after the turn sixteen deltas come again and again. */
  function Sample(i: nat): Word {
    if i < TURN then if i % 3 == 0 then 0 else 1000 + i
    else Turning(i % 16)
  }

  function Turning(r: nat): (d: Word)
    requires r < 16
    ensures 1000 <= d <= 1115
  {
    1000 + r + if r % 2 == 0 then 100 else 0
  }

  function Stream(n: nat): seq<Word> {
    seq(n, (i: nat) => Sample(i))
  }

  predicate Thirds(h: seq<Word>) {
    |h| <= 961 && forall i | 0 <= i < |h| :: h[i] == if i % 3 == 0 then 0 else 1000 + i
  }

  const RATE3 := Mode(3, false)

  lemma RateThree()
    ensures RctMemCutoff(3, false) == 321 && LoopIterations(3, true) == 963
    ensures LagLocalCutoff(3) == 111 && LagGlobalCutoff(3) == 104761
    ensures AptCutoff(3, false) == 459 && AptPermanentCutoff(3, false) == 479
    ensures RctCutoff(3, false) == 90 && RctPermanentCutoff(3, false) == 180
  {
  }

  lemma OnlyZerosRepeat(h: seq<Word>, i: nat)
    requires Thirds(h) && i < HISTORY < |h| && Hits(h, i)
    ensures |h| % 3 == 1
  {
  }

  /** A predictor can only be right on a zero. */
  lemma {:induction false} RunsAreShort(h: seq<Word>)
    requires Thirds(h)
    ensures SuccessRun(h) <= if |h| % 3 == 1 then 1 else 0
    ensures Successes(h) <= |h|
  {
    hide Hits, Leader;
    if |h| > HISTORY {
      var g := h[..|h| - 1];
      RunsAreShort(g);
      if Predicted(h) {
        OnlyZerosRepeat(h, Leader(g));
      }
    }
  }

  /** The fields of the adaptive proportion test: the second window has a base that does not come again. */
  function AptAfter(n: nat): AptState {
    if n == 0 then APT_START
    else if n <= APT_WINDOW then AptState(n < APT_WINDOW, 0, (n + 2) / 3, n)
    else AptState(n - APT_WINDOW < APT_WINDOW, 1000 + APT_WINDOW, 1, n - APT_WINDOW)
  }

  lemma AptAfterStep(n: nat, delta: Word)
    requires n < 961 && delta == if n % 3 == 0 then 0 else 1000 + n
    ensures AptNext(AptAfter(n), delta) == AptAfter(n + 1)
    ensures AptAlarm(AptAfter(n), delta, 459, 479) == NoAlarm
  {
  }

  lemma StuckIfZero(h: seq<Word>, delta: Word)
    requires Thirds(h) && |h| < 961 && delta == if |h| % 3 == 0 then 0 else 1000 + |h|
    ensures IsStuck(h, delta) <==> |h| % 3 == 0
  {
  }

  lemma NoLagAlarm(h: seq<Word>)
    requires Thirds(h)
    ensures !LagAlarm(h, 111, 104761)
  {
    hide SuccessRun, Successes, Predicted, Thirds;
    RunsAreShort(h);
    assert |h| <= 961 by {
      AtMost(h);
    }
  }

  lemma AtMost(h: seq<Word>)
    requires Thirds(h)
    ensures |h| <= 961
  {
  }

  /** What the tests remember after a part of the stream. */
  function TestsAfter(h: seq<Word>): Tests {
    Tests(h, AptAfter(|h|), if |h| % 3 == 1 then 1 else 0)
  }

  lemma ThirdStep(g: seq<Word>, delta: Word)
    requires Thirds(g + [delta])
    ensures Next(TestsAfter(g), delta) == TestsAfter(g + [delta])
    ensures !Alarms(RATE3, TestsAfter(g), delta)
  {
    hide IsStuck, AptAfter, AptNext, AptAlarm, LagAlarm, LagLocalCutoff, LagGlobalCutoff, AptCutoff, AptPermanentCutoff,
      RctCutoff, RctPermanentCutoff;
    var h := g + [delta];
    assert h[|g|] == delta && forall i | 0 <= i < |g| :: h[i] == g[i];
    RateThree();
    StuckIfZero(g, delta);
    AptAfterStep(|g|, delta);
    NoLagAlarm(h);
  }

  /** No test raises an alarm on the stream. */
  lemma {:induction false} ThirdsQuiet(h: seq<Word>)
    requires Thirds(h)
    ensures After(START, h) == TestsAfter(h) && Quiet(RATE3, START, h)
  {
    hide Next, Alarms, TestsAfter;
    if h == [] {
      StartTests();
    } else {
      var g, delta := h[..|h| - 1], h[|h| - 1];
      assert g + [delta] == h;
      ThirdsQuiet(g);
      ThirdStep(g, delta);
    }
  }

  lemma StartTests()
    ensures TestsAfter([]) == START
  {
  }

  /** Every third delta counts. */
  lemma {:induction false} ThirdsCount(h: seq<Word>, n: nat)
    requires Thirds(h) && n <= |h|
    ensures StuckThirds(START, h, n) == (n + 2) / 3 && Unstuck(START, h, n) <= n
  {
    hide IsStuck, After, Thirds;
    if n > 0 {
      ThirdsCount(h, n - 1);
      if (n - 1) % 3 == 0 {
        ZeroIsStuck(h, n - 1);
      }
    }
  }

  lemma ZeroIsStuck(h: seq<Word>, i: nat)
    requires Thirds(h) && i < |h| && i % 3 == 0
    ensures StuckAt(START, h, i)
  {
  }

  /** The stream brings the count of the test with memory to its cutoff before anything else happens. */
  lemma ThirdsCross(f: seq<Word>)
    requires |f| >= TURN && Thirds(f[..TURN])
    ensures Crosses(RATE3, LoopIterations(3, true), START, f, TURN)
  {
    hide IsStuck, After, Quiet, Unstuck, StuckThirds, RctMemCutoff, LoopIterations;
    RateThree();
    var h := f[..961];
    assert f[..960] == h[..960] && Thirds(h[..960]);
    ThirdsQuiet(h[..960]);
    ThirdsCount(h[..960], 960);
    ThirdsCount(h, 961);
    PrefixCounts(START, f, 960, 960);
  }

  // ---------------------------------------------------------------- after the turn

  lemma SamePhase(i: nat, j: nat)
    requires i < j
    ensures i % 16 == j % 16 <==> (j - i) % 16 == 0
  {
    assert i == 16 * (i / 16) + i % 16 && j == 16 * (j / 16) + j % 16;
    assert j - i == 16 * (j / 16 - i / 16) + (j % 16 - i % 16);
  }

  lemma OtherTurning(r: nat, k: nat)
    requires r < 16 && k < 16
    ensures Turning(r) == Turning(k) <==> r == k
  {
  }

  /** Late deltas differ unless their distance is a multiple of sixteen. */
  lemma Distinct(i: nat, j: nat)
    requires 500 <= i < j && TURN <= j
    ensures Sample(i) == Sample(j) <==> TURN <= i && (j - i) % 16 == 0
    ensures 1000 <= Sample(j) <= 1115
  {
    hide Turning;
    SamePhase(i, j);
    OtherTurning(i % 16, j % 16);
  }

  /** The lag window ends with the deltas before position n. */
  predicate Ends(w: seq<Word>, n: nat) {
    |w| <= n && forall i: nat | i < |w| :: w[i] == Sample(n - |w| + i)
  }

  lemma WindowStep(w: seq<Word>, n: nat)
    requires Ends(w, n)
    ensures Ends(w + [Sample(n)], n + 1) && Ends(NextWindow(w, Sample(n)), n + 1)
  {
    hide Sample;
  }

  lemma AgoIs(w: seq<Word>, n: nat, k: nat)
    requires Ends(w, n)
    ensures Ago(w, k) == if k < |w| then Sample(n - 1 - k) else 0
  {
    hide Sample;
  }

  /** The phase before. */
  function Before(r: nat): (k: nat)
    requires r < 16
    ensures k < 16
  {
    if r == 0 then 15 else r - 1
  }

  lemma PhaseBefore(n: nat)
    requires n > 0
    ensures (n - 1) % 16 == Before(n % 16)
  {
  }

  lemma TurningDifference(r: nat)
    requires r < 16
    ensures Turning(r) - Turning(Before(r)) != Turning(Before(r)) - Turning(Before(Before(r)))
  {
  }

  lemma SecondDifference(n: nat)
    requires TURN <= n
    ensures Sample(n) - Sample(n - 1) != Sample(n - 1) - Sample(n - 2)
    ensures Sample(n - 1) == 0 || 1000 <= Sample(n - 1) < 2000
    ensures Sample(n - 2) < 2000
  {
    if n >= TURN + 2 {
      hide Turning, Before;
      PhaseBefore(n);
      PhaseBefore(n - 1);
      TurningDifference(n % 16);
    } else {
      assert n == 961 || n == 962;
    }
  }

  lemma SameDelta(a: Word, b: Word, c: Word, d: Word)
    requires a < 2000 && b < 2000 && c < 2000 && d < 2000
    ensures Delta(a, b) == Delta(c, d) <==> b - a == d - c
  {
  }

  lemma NotStuck(w: seq<Word>, n: nat)
    requires Ends(w, n) && TURN <= n
    ensures !IsStuck(w, Sample(n))
  {
    hide Sample, Ends, Delta;
    AgoIs(w, n, 0);
    AgoIs(w, n, 1);
    Distinct(n - 1, n);
    SecondDifference(n);
    SameDelta(Ago(w, 0), Sample(n), Ago(w, 1), Ago(w, 0));
  }

  lemma NotPredicted(w: seq<Word>, n: nat)
    requires Ends(w, n) && TURN <= n
    ensures !LagAlarm(w + [Sample(n)], 111, 104761)
  {
    hide Sample, Ends, SuccessRun, Successes, Leader;
    var v: seq<Word> := w + [Sample(n)];
    if HISTORY < |v| && Predicted(v) {
      var i := Leader(v[..|v| - 1]);
      AgoIs(w, n, i);
      Distinct(n - 1 - i, n);
    }
  }

  /** The adaptive proportion test is in the window it was in at the turn, or in one that started after it. */
  predicate Counts(a: AptState, n: nat) {
    a.baseSet ==>
      && 0 < a.observations < APT_WINDOW && a.observations <= n
      && (if TURN <= n - a.observations
          then a.base == Sample(n - a.observations) && a.count == 1 + (a.observations - 1) / 16
          else a.base == 1000 + APT_WINDOW && a.count == 1)
  }

  lemma CountsStep(a: AptState, n: nat)
    requires Counts(a, n) && TURN <= n
    ensures Counts(AptNext(a, Sample(n)), n + 1)
    ensures AptAlarm(a, Sample(n), 459, 479) == NoAlarm
  {
    hide Sample;
    Distinct(n - 1, n);
    if a.baseSet && TURN <= n - a.observations {
      Distinct(n - a.observations, n);
    }
  }

  /** The tests before position n. */
  predicate Tame(t: Tests, n: nat) {
    Ends(t.window, n) && Counts(t.apt, n)
  }

  lemma TameStep(t: Tests, n: nat)
    requires Tame(t, n) && TURN <= n
    ensures !IsStuck(t.window, Sample(n)) && !Alarms(RATE3, t, Sample(n)) && Tame(Next(t, Sample(n)), n + 1)
  {
    hide IsStuck, AptNext, AptAlarm, LagAlarm, LagLocalCutoff, LagGlobalCutoff, AptCutoff, AptPermanentCutoff, Sample,
      NextWindow, Ends, Counts;
    RateThree();
    NotStuck(t.window, n);
    NotPredicted(t.window, n);
    CountsStep(t.apt, n);
    WindowStep(t.window, n);
  }

  lemma {:induction false} TameIsCalm(t: Tests, n: nat, h: seq<Word>)
    requires Tame(t, n) && TURN <= n && forall i: nat | i < |h| :: h[i] == Sample(n + i)
    ensures Calm(RATE3, t, h)
    decreases |h|
  {
    hide IsStuck, Alarms, Next, Sample, Tame;
    if h != [] {
      TameStep(t, n);
      TameIsCalm(Next(t, h[0]), n + 1, h[1..]);
    }
  }

  lemma TurnIsTame(h: seq<Word>)
    requires |h| == TURN && forall i: nat | i < TURN :: h[i] == Sample(i)
    ensures Tame(TestsAfter(h), TURN)
  {
  }

  lemma TurnIsThirds(h: seq<Word>)
    requires |h| == TURN && forall i: nat | i < TURN :: h[i] == Sample(i)
    ensures Thirds(h)
  {
  }

  /** At rate 3 in common mode the stream comes to a recovery in the first stage of startup, and is calm after it. */
  lemma StreamDerails(n: nat)
    requires n >= TURN
    ensures CrossesCalmly(RATE3, LoopIterations(3, true), START, Stream(n))
  {
    hide Sample, Thirds, After, Quiet, Crosses, LoopIterations, TestsAfter, Tame, Calm;
    var f := Stream(n);
    var h := f[..TURN];
    TurnIsThirds(h);
    ThirdsQuiet(h);
    ThirdsCross(f);
    TurnIsTame(h);
    TameIsCalm(TestsAfter(h), TURN, f[TURN..]);
    assert CalmsAt(RATE3, LoopIterations(3, true), false, START, f, TURN);
  }

  /** A new collector at rate 3 in common FIPS mode: its first round of startup comes back with a recovery and no
      failure, and does not complete the startup. */
  method RecoveryInStartup() returns (core: RandData, exhausted: bool)
    ensures core.osr == 3 && core.fips && !core.ntg1
    ensures !exhausted && core.recoveries > 0 && core.startup > MEMORY_STAGE && !core.failures.Any()
  {
    hide RandData.Valid, IsStuck, Stream, CrossesCalmly, LoopIterations, StagesCross, Calm;
    core := new RandData(3, true, false, MEMORY_STAGE);
    var clock := new Clock(Stream(MAX_PASS + 1));
    StreamDerails(MAX_PASS + 1);
    StreamLength(MAX_PASS + 1);
    CalmlyIsCrossing(RATE3, LoopIterations(3, true), START, clock.feed);
    FirstDecides(RATE3, LoopIterations(3, true), START, clock.feed);
    core.PassAtMost();
    exhausted := core.RandomData(clock);
  }

  lemma StreamLength(n: nat)
    ensures |Stream(n)| == n
  {
    hide Sample;
  }

  /** Allocating a collector in common FIPS mode at the lowest rate: on a stream of any length there is never one.
      Unless it is refused on the way in, the startup loop is still going on when the stream has been used up. */
  method StartupNeverEnds(host: Host, n: nat, flags: bv32) returns (r: Instance?, exhausted: bool)
    requires n >= TURN && host.clock.feed == Stream(n) && FipsMode(flags, host.fips) && !Has(flags, NTG1)
    modifies host, host.clock
    ensures r == null && (exhausted ==> host.clock.feed == [])
    ensures !exhausted ==>
              Contradictory(flags, host.fips) || BothTimers(Allocated(flags, host.caches))
              || host.setbacks > old(host.setbacks)
  {
    hide Stream, CrossesCalmly, LoopIterations, Has, Allocated;
    StreamDerails(n);
    ghost var recovered;
    r, exhausted, recovered := Alloc(host, MIN_OSR, flags);
  }
}
