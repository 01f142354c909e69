/** The entropy collector of jitterentropy-noise.c and jitterentropy-health.c: the health tests run on every
    measured time delta, the collection loop, and the recovery in which the repetition count test with memory
    calls the collection loop again.

    The deltas come from a clock with a finite feed.  A run that uses up the feed is one that is still going on;
    its methods return with `exhausted` set.  That a loop terminates is therefore a bound on what it consumes. */
module Collector {
  import opened Basics
  import opened LagPredictor
  import opened Cutoffs
  import opened Apt
  import opened Rct
  import opened DeltaStream

  /** The bits of health_failure; the lag test has no permanent one. */
  datatype Failures = Failures(rct: bool, apt: bool, lag: bool, rctMem: bool,
                               rctPermanent: bool, aptPermanent: bool, rctMemPermanent: bool)
  {
    predicate Any() {
      rct || apt || lag || rctMem || rctPermanent || aptPermanent || rctMemPermanent
    }

    /** Every bit that is set here is set there. */
    predicate Within(other: Failures) {
      && (rct ==> other.rct) && (apt ==> other.apt) && (lag ==> other.lag) && (rctMem ==> other.rctMem)
      && (rctPermanent ==> other.rctPermanent) && (aptPermanent ==> other.aptPermanent)
      && (rctMemPermanent ==> other.rctMemPermanent)
    }
  }

  /** The failure bits with those that the three tests on a delta raise. */
  function Raised(f: Failures, aptAlarm: Alarm, lagAlarm: bool, rctAlarm: Alarm): Failures {
    f.(rct := f.rct || rctAlarm == Intermittent, rctPermanent := f.rctPermanent || rctAlarm == Permanent,
       apt := f.apt || aptAlarm == Intermittent, aptPermanent := f.aptPermanent || aptAlarm == Permanent,
       lag := f.lag || lagAlarm)
  }

  lemma RaisedMore(f: Failures, aptAlarm: Alarm, lagAlarm: bool, rctAlarm: Alarm)
    ensures var r := Raised(f, aptAlarm, lagAlarm, rctAlarm);
            && f.Within(r) && r.rctMem == f.rctMem && r.rctMemPermanent == f.rctMemPermanent && (f.Any() ==> r.Any())
            && (rctAlarm == Permanent ==> r.rctPermanent && r.Any())
  {
  }

  /** Each test has its own bits: the alarms on the delta set those, and no bit is cleared. */
  lemma RaisedBits(f: Failures, aptAlarm: Alarm, lagAlarm: bool, rctAlarm: Alarm)
    ensures var r := Raised(f, aptAlarm, lagAlarm, rctAlarm);
            && (r.rct <==> f.rct || rctAlarm == Intermittent)
            && (r.rctPermanent <==> f.rctPermanent || rctAlarm == Permanent)
            && (r.apt <==> f.apt || aptAlarm == Intermittent)
            && (r.aptPermanent <==> f.aptPermanent || aptAlarm == Permanent)
            && (r.lag <==> f.lag || lagAlarm)
            && r.rctMem == f.rctMem && r.rctMemPermanent == f.rctMemPermanent
  {
  }

  /** The bits of the three tests are those of their alarms on the delta. */
  predicate BitsOf(m: Setting, t: Tests, delta: Word, f: Failures) {
    && (f.rct <==> RctVerdict(m, t, delta) == Intermittent) && (f.rctPermanent <==> RctVerdict(m, t, delta) == Permanent)
    && (f.apt <==> AptVerdict(m, t, delta) == Intermittent) && (f.aptPermanent <==> AptVerdict(m, t, delta) == Permanent)
    && (f.lag <==> LagVerdict(m, t, delta))
  }

  /** After no failure, one is raised iff a test raises an alarm. */
  lemma RaisedAny(f: Failures, m: Setting, t: Tests, delta: Word)
    requires !f.Any()
    ensures var r := Raised(f, AptVerdict(m, t, delta), LagVerdict(m, t, delta), RctVerdict(m, t, delta));
            && (r.Any() <==> Alarms(m, t, delta)) && !r.rctMem && !r.rctMemPermanent
            && BitsOf(m, t, delta, r) && BitsOf(m, t, delta, r.(rctMem := true))
  {
    hide AptVerdict, LagVerdict, RctVerdict;
  }

  /** The bits are sticky. */
  lemma WithinChain(a: Failures, b: Failures, c: Failures)
    requires a.Within(b) && b.Within(c)
    ensures a.Within(c) && (a.Any() ==> c.Any())
  {
  }

  lemma NotBefore(a: Failures, b: Failures)
    requires a.Within(b)
    ensures a.Any() ==> b.Any()
  {
  }

  lemma WithinItself(f: Failures)
    ensures f.Within(f)
  {
  }

  const NO_FAILURES := Failures(false, false, false, false, false, false, false)

  /** The values of startup_state; it is an unsigned enumeration and decrementing it wraps. */
  const COMPLETED: nat := 0
  const SHA3_STAGE: nat := 1
  const MEMORY_STAGE: nat := 2

  const RECOVERY_LOOPS: nat := 10

  const DATA_SIZE_BITS: nat := 256

  /** The two noise sources on their own, as startup measures them, and the two together. */
  datatype Source = MemoryAccess | HashLoop | Combined

  /** How many measurements of each source were not stuck. */
  datatype Yield = Yield(memory: nat, hash: nat, combined: nat)
  {
    function Plus(source: Source, n: nat): Yield {
      match source
      case MemoryAccess => this.(memory := memory + n)
      case HashLoop => this.(hash := hash + n)
      case Combined => this.(combined := combined + n)
    }

    predicate Covers(other: Yield) {
      memory >= other.memory && hash >= other.hash && combined >= other.combined
    }
  }

  const NO_YIELD := Yield(0, 0, 0)

  lemma YieldGrows(y: Yield, source: Source, n: nat)
    ensures y.Plus(source, n).Covers(y) && y.Covers(y) && y.Plus(source, 0) == y
  {
  }

  /** A measurement adds k after n of the same source. */
  lemma YieldStep(start: Yield, before: Yield, after: Yield, source: Source, n: nat, k: nat)
    requires before.Covers(start.Plus(source, n)) && after.Covers(before.Plus(source, k))
    ensures after.Covers(start.Plus(source, n + k)) && after.Covers(start) && after.Covers(before)
    ensures before == start.Plus(source, n) && after == before.Plus(source, k) ==> after == start.Plus(source, n + k)
  {
  }

  /** Only this source has been measured. */
  predicate OnlyFrom(source: Source, before: Yield, after: Yield) {
    && (source == MemoryAccess || after.memory == before.memory)
    && (source == HashLoop || after.hash == before.hash)
    && (source == Combined || after.combined == before.combined)
  }

  lemma OnlyChain(source: Source, a: Yield, b: Yield, c: Yield, n: nat)
    ensures OnlyFrom(source, a, b) && OnlyFrom(source, b, c) ==> OnlyFrom(source, a, c)
    ensures b.Covers(a) && c.Covers(b) ==> c.Covers(a)
    ensures b.Covers(a) && c.Covers(b.Plus(source, n)) ==> c.Covers(a.Plus(source, n))
  {
  }

  lemma PlusIsOnly(y: Yield, source: Source, n: nat)
    ensures OnlyFrom(source, y, y.Plus(source, n)) && OnlyFrom(source, y, y)
    ensures source == MemoryAccess ==> y.Plus(source, n).memory == y.memory + n
  {
  }

  /** A full pass for each source that jent_random_data measures in a startup state: during startup the memory
      access before the hash loop, afterwards the two together. */
  function Delivered(y: Yield, startup: nat, nosr: nat): Yield {
    if startup == MEMORY_STAGE then y.Plus(MemoryAccess, nosr).Plus(HashLoop, nosr)
    else y.Plus(if startup == SHA3_STAGE then HashLoop else Combined, nosr)
  }

  /** What n > 0 runs gather: the first one what the startup state asks for, the others from both sources together. */
  function Gathered(n: nat, y: Yield, startup: nat, nosr: nat): Yield
    requires n > 0
  {
    Delivered(y, startup, nosr).Plus(Combined, Paid(n - 1, nosr))
  }

  lemma GatherMore(n: nat, y: Yield, startup: nat, nosr: nat, before: Yield, stage: nat, after: Yield)
    requires n > 0 ==> before.Covers(Gathered(n, y, startup, nosr)) && stage == AfterRecovery(startup)
    requires n == 0 ==> before.Covers(y) && stage == startup
    requires after.Covers(Delivered(before, stage, nosr))
    ensures after.Covers(Gathered(n + 1, y, startup, nosr))
  {
    PaidStep(0, nosr);
    if n > 0 {
      PaidStep(n - 1, nosr);
    }
    hide Paid;
  }

  /** What a recovery gathers in its ten runs. */
  function TenRuns(y: Yield, startup: nat, nosr: nat): Yield {
    if startup == 2 then Yield(y.memory + nosr, y.hash + nosr, y.combined + 9 * nosr)
    else if startup == 1 then Yield(y.memory, y.hash + nosr, y.combined + 9 * nosr)
    else Yield(y.memory, y.hash, y.combined + 10 * nosr)
  }

  lemma TenAreGathered(y: Yield, startup: nat, nosr: nat)
    ensures Gathered(10, y, startup, nosr) == TenRuns(y, startup, nosr)
  {
  }

  class Clock {
    var feed: seq<Word>

    constructor (feed: seq<Word>)
      ensures this.feed == feed
    {
      this.feed := feed;
    }
  }

  /** startup_state-- */
  function Decrement(startup: nat): nat {
    if startup == 0 then UINT32 - 1 else startup - 1
  }

  /** A recovery started during a startup stage runs the remaining stages itself. */
  function AfterRecovery(startup: nat): nat {
    if 0 < startup <= MEMORY_STAGE then COMPLETED else startup
  }

  /** The count of the test with memory after a result: a new window starts at iteration 0, and a stuck result
      counts in every third iteration of the window. */
  function MemCounted(ctr: nat, nosr: nat, count: nat, stuck: bool): nat {
    (if ctr == 0 then 0 else count) + if stuck && ctr < nosr && ctr % 3 == 0 then 1 else 0
  }

  lemma CountedInWindow(ctr: nat, nosr: nat, count: nat, full: nat, stuck: bool)
    requires ctr <= nosr && (nosr == 0 || nosr == full) && full % 3 == 0 && full > 0
    ensures ctr == 0 ==> MemCounted(ctr, nosr, count, stuck) <= 1
    ensures 3 * count <= ctr + 2 ==>
              3 * MemCounted(ctr, nosr, count, stuck) <= if ctr < nosr then ctr + 3 else ctr + 2
    ensures ctr == 0 || 3 * count <= ctr + 2 ==> 3 * MemCounted(ctr, nosr, count, stuck) <= full
    ensures ctr <= 2 && 3 * count <= full ==> 3 * MemCounted(ctr, nosr, count, stuck) <= full
  {
    if ctr < nosr && ctr % 3 == 0 {
      assert ctr == 3 * (ctr / 3) && full == 3 * (full / 3);
    }
  }

  /** The count is at most the cutoff, and the next result cannot raise it beyond. */
  predicate CappedAt(ctr: nat, nosr: nat, count: nat, cutoff: nat) {
    count <= cutoff && (count == cutoff ==> ctr == 0 || ctr >= nosr || ctr % 3 != 0)
  }

  /** Nor can the result after that: in iteration 2 modulo 3 that needs the recovery which clears the count. */
  predicate SpacedAt(ctr: nat, nosr: nat, count: nat, cutoff: nat, nested: bool) {
    count <= cutoff && (count == cutoff ==> ctr == 0 || ctr >= nosr || ctr % 3 == 1 || (ctr % 3 == 2 && !nested))
  }

  lemma CapStep(ctr: nat, nosr: nat, count: nat, cutoff: nat, nested: bool, stuck: bool)
    requires 0 < cutoff && CappedAt(ctr, nosr, count, cutoff) && nosr % 3 == 0
    ensures var (next, after) := (MemCounted(ctr, nosr, count, stuck), if ctr < nosr then ctr + 1 else ctr);
            && next <= cutoff
            && (ctr == 0 || count < cutoff ==> SpacedAt(after, nosr, next, cutoff, nested))
            && (SpacedAt(ctr, nosr, count, cutoff, nested) && (nested || next < cutoff) ==>
                  CappedAt(after, nosr, next, cutoff))
  {
  }

  /** One iteration more. */
  lemma SpacedTick(ctr: nat, nosr: nat, count: nat, cutoff: nat)
    requires SpacedAt(ctr, nosr, count, cutoff, true)
    ensures var after := if ctr < nosr then ctr + 1 else ctr;
            SpacedAt(after, nosr, count, cutoff, false) && CappedAt(after, nosr, count, cutoff)
  {
  }

  /** A window starts. */
  lemma CapRestart(ctr: nat, nosr: nat, count: nat, cutoff: nat, next: nat)
    requires CappedAt(ctr, nosr, count, cutoff)
    ensures CappedAt(0, next, count, cutoff)
    ensures SpacedAt(0, next, count, cutoff, true) && SpacedAt(0, next, count, cutoff, false)
  {
  }

  /** A window that starts, or a count below the cutoff. */
  lemma FreeCount(ctr: nat, nosr: nat, count: nat, cutoff: nat)
    requires ctr == 0 || ctr >= nosr || count < cutoff
    requires count <= cutoff
    ensures CappedAt(ctr, nosr, count, cutoff)
    ensures SpacedAt(ctr, nosr, count, cutoff, true) && SpacedAt(ctr, nosr, count, cutoff, false)
  {
  }

  // ---------------------------------------------------------------- bounds on consumption

  /** What ctr deltas that are not stuck may have cost: fewer than `cutoff` stuck ones before each. */
  function Paid(ctr: nat, cutoff: nat): nat {
    ctr * cutoff
  }

  /** One pass of the collection loop without a recovery; the permanent failure stops a longer run of stuck deltas. */
  function BlockBound(nosr: nat, cutoff: nat): nat {
    Paid(nosr, cutoff) + cutoff
  }

  /** What a pass has consumed after ctr deltas that were not stuck and a run of stuck ones, with what a recovery
      adds. */
  predicate Spent(used: int, ctr: nat, run: nat, failed: bool, cutoff: nat, extra: nat) {
    used <= (if used == 0 then 0 else Paid(ctr, cutoff) + (if failed then cutoff else run)) + extra
  }

  /** One measurement more. */
  lemma SpentStep(used: int, ctr: nat, run: nat, stuck: bool, run1: nat, failed: bool, nosr: nat, cutoff: nat,
                  extra: nat)
    requires 0 <= used && Spent(used, ctr, run, false, cutoff, extra) && (used > 0 ==> run < cutoff)
    requires ctr < nosr && cutoff > 0
    ensures run1 == (if stuck then run + 1 else 0) ==>
              Spent(used + 1, if stuck then ctr else ctr + 1, run1, failed, cutoff, extra)
    ensures used <= BlockBound(nosr, cutoff) + extra
  {
    PaidStep(ctr, cutoff);
    PaidMonotone(ctr + 1, nosr, cutoff);
    hide Paid;
  }

  /** One measurement with a recovery in it. */
  lemma SpentRecovery(used: int, ctr: nat, run: nat, next: int, stuck: bool, run1: nat, failed: bool, nosr: nat,
                      cutoff: nat, recovery: nat)
    requires 0 <= used && ctr < nosr && (used > 0 ==> run < cutoff) && cutoff > 0
    ensures Spent(used, ctr, run, false, cutoff, 0) && used < next <= used + 1 + recovery ==>
              && Spent(next, if stuck then ctr else ctr + 1, run1, failed, cutoff, recovery + cutoff)
              && next <= BlockBound(nosr, cutoff) + recovery + cutoff
  {
    PaidStep(ctr, cutoff);
    PaidMonotone(ctr + 1, nosr, cutoff);
    hide Paid;
  }

  /** A recovery of n runs, each at most a priming measurement and two passes. */
  function RunsBound(n: nat, nosr: nat, cutoff: nat): nat {
    Paid(n, 1 + 2 * BlockBound(nosr, cutoff))
  }

  lemma PaidStep(ctr: nat, cutoff: nat)
    ensures Paid(0, cutoff) == 0
    ensures Paid(ctr + 1, cutoff) == Paid(ctr, cutoff) + cutoff
  {
  }

  lemma {:induction false} PaidMonotone(a: nat, b: nat, cutoff: nat)
    requires a <= b
    ensures Paid(a, cutoff) <= Paid(b, cutoff)
    decreases b
  {
    if a < b {
      PaidMonotone(a, b - 1, cutoff);
      PaidStep(b - 1, cutoff);
    }
  }

  lemma RunsMonotone(a: nat, b: nat, nosr: nat, cutoff: nat)
    requires a <= b
    ensures RunsBound(a, nosr, cutoff) <= RunsBound(b, nosr, cutoff)
  {
    hide Paid;
    PaidMonotone(a, b, 1 + 2 * BlockBound(nosr, cutoff));
  }

  lemma RunsStep(n: nat, nosr: nat, cutoff: nat)
    ensures RunsBound(0, nosr, cutoff) == 0
    ensures RunsBound(n + 1, nosr, cutoff) == RunsBound(n, nosr, cutoff) + 1 + 2 * BlockBound(nosr, cutoff)
  {
    PaidStep(n, 1 + 2 * BlockBound(nosr, cutoff));
  }

  /** What jent_random_data never exceeds in FIPS mode, whatever the oversampling rate. */
  const MAX_PASS: nat := 323_620_821

  lemma PassesBounded(nosr: nat, cutoff: nat)
    requires nosr <= 6420 && cutoff <= 1200
    ensures 1 + 2 * (BlockBound(nosr, cutoff) + RunsBound(RECOVERY_LOOPS, nosr, cutoff) + cutoff) <= MAX_PASS
  {
    assert BlockBound(nosr, cutoff) <= 7_705_200 by {
      PaidMonotone(nosr, 6420, cutoff);
    }
  }

  // ---------------------------------------------------------------- a pass over a stream

  /** A pass of the collection loop: the tests and the stream at its start, whether it is part of a recovery, and
      how many recoveries had fired before. */
  datatype Pass = Pass(tests: Tests, stream: seq<Word>, nested: bool, first: nat)

  /** What a pass changes in the collector. */
  datatype PassState = PassState(tests: Tests, failures: Failures, nested: bool, recoveries: nat, ctr: nat, count: nat)

  /** What else a pass starts from. */
  datatype Entry = Entry(pass: Pass, source: Source, failures: Failures, unstuck: Yield, startup: nat, calmFrom: nat)

  /** The first n deltas of the stream have been measured without an alarm or a recovery. */
  ghost predicate OnTrack(m: Setting, nosr: nat, pass: Pass, s: PassState, n: nat)
    requires n <= |pass.stream|
  {
    var (t, f) := (pass.tests, pass.stream);
    && CountsOf(nosr, t, f[..n], s) && Quiet(m, t, f[..n]) && s.nested == pass.nested
    && MemHits(t, f[..n], nosr) < RctMemCutoff(m.osr, m.ntg1) && (n > 0 ==> Unstuck(t, f, n - 1) < nosr)
  }

  /** How far a pass has come when `rest` of its stream is left: still on track with a number of results that are
      not stuck, failed, or a recovery has fired. */
  ghost predicate Followed(m: Setting, nosr: nat, pass: Pass, s: PassState, rest: seq<Word>, ctr: nat) {
    var (t, f) := (pass.tests, pass.stream);
    && pass.first <= s.recoveries
    && if s.recoveries != pass.first then !pass.nested && CrossesIn(m, nosr, t, f)
       else
         && |rest| <= |f| && f[|f| - |rest|..] == rest
         && var n := |f| - |rest|;
            if s.failures.Any()
            then && n > 0 && Stops(m, nosr, pass.nested, t, f, n) && BitsOf(m, After(t, f[..n - 1]), f[n - 1], s.failures)
                 && (if pass.nested then s.failures.rctMem <==> Crosses(m, nosr, t, f, n)
                     else !s.failures.rctMem && !Crosses(m, nosr, t, f, n))
            else ctr == Unstuck(t, f, n) && OnTrack(m, nosr, pass, s, n)
  }

  /** What a pass over a stream comes to.  A recovery fires iff, before any test fails and enough measurements are
      made, the results that are stuck at the positions divisible by three reach the cutoff of the test with memory;
      within a recovery that raises the intermittent bit instead.  Otherwise the pass fails iff one of the three
      tests raises an alarm before it is over, and if it does not, the count is that of the measured deltas.  Outside
      a recovery it says where the pass is over. */
  ghost predicate PassOutcome(m: Setting, nosr: nat, pass: Pass, s: PassState, rest: seq<Word>) {
    var (t, f) := (pass.tests, pass.stream);
    && (s.recoveries > pass.first <==> !pass.nested && CrossesIn(m, nosr, t, f))
    && (s.recoveries == pass.first ==>
          && (s.failures.rctMem <==> pass.nested && CrossesIn(m, nosr, t, f))
          && (s.failures.Any() <==> StopsIn(m, nosr, pass.nested, t, f))
          && (s.failures.Any() ==> |rest| < |f| && Named(m, t, f[..|f| - |rest|], s.failures))
          && (!s.failures.Any() ==> |rest| <= |f| && CountsOf(nosr, t, f[..|f| - |rest|], s))
          && (!pass.nested ==> PassLeft(m, nosr, t, f, rest, s.failures.Any())))
  }

  lemma OutcomeRecovers(m: Setting, nosr: nat, pass: Pass, s: PassState, rest: seq<Word>)
    ensures PassOutcome(m, nosr, pass, s, rest) ==>
              (s.recoveries > pass.first <==> !pass.nested && CrossesIn(m, nosr, pass.tests, pass.stream))
  {
    hide CrossesIn, StopsIn, CountsOf, Named, PassLeft;
  }

  /** The bits are those of the alarms on the last of the measured deltas. */
  predicate Named(m: Setting, t: Tests, measured: seq<Word>, f: Failures)
    requires measured != []
  {
    BitsOf(m, After(t, measured[..|measured| - 1]), measured[|measured| - 1], f)
  }

  /** The state is what the tests make of the measured deltas. */
  ghost predicate CountsOf(nosr: nat, t: Tests, measured: seq<Word>, s: PassState) {
    && s.tests == After(t, measured) && s.ctr == Least(|measured|, nosr)
    && (measured != [] ==> s.count == MemHits(t, measured, nosr))
  }

  lemma FollowStart(m: Setting, nosr: nat, s: PassState, rest: seq<Word>)
    requires !s.failures.Any() && s.ctr == 0
    ensures Followed(m, nosr, Pass(s.tests, rest, s.nested, s.recoveries), s, rest, 0)
  {
    hide RctMemCutoff;
    RctMemCutoffsOrdered(m.osr, m.ntg1);
    assert rest[..0] == [];
    NoHits(s.tests, nosr);
  }

  /** A pass is over when it has failed, has enough measurements, or its stream ends; or a recovery has fired. */
  lemma FollowEnd(m: Setting, nosr: nat, pass: Pass, s: PassState, rest: seq<Word>, ctr: nat)
    requires Followed(m, nosr, pass, s, rest, ctr)
    requires s.recoveries == pass.first ==> s.failures.Any() || ctr >= nosr || rest == []
    requires nosr > 0
    ensures PassOutcome(m, nosr, pass, s, rest)
  {
    hide Stops, Crosses, MemHits, Quiet, Unstuck, RctMemCutoff, After, PassLeft, BitsOf;
    var (t, f) := (pass.tests, pass.stream);
    if s.recoveries == pass.first {
      var n := |f| - |rest|;
      if !s.failures.Any() {
        QuietEnd(m, nosr, pass.nested, t, f, n);
        UnstuckStep(t, f, n);
        QuietLeaves(m, nosr, t, f, rest);
      } else {
        assert f[..n][..n - 1] == f[..n - 1];
        if !Crosses(m, nosr, t, f, n) {
          AlarmedEnd(m, nosr, pass.nested, t, f, n);
        }
        if !pass.nested {
          AlarmLeaves(m, nosr, t, f, rest);
        }
      }
    }
  }

  /** The count of the test with memory after a delta, as MemCounted gives it. */
  function CountAfter(nosr: nat, s: PassState, delta: Word): nat {
    MemCounted(s.ctr, nosr, s.count, IsStuck(s.tests.window, delta))
  }

  /** The failure bits after a delta on which no recovery fires. */
  function FailuresAfter(m: Setting, nosr: nat, s: PassState, delta: Word): Failures {
    var f := Raised(s.failures, AptVerdict(m, s.tests, delta), LagVerdict(m, s.tests, delta),
                    RctVerdict(m, s.tests, delta));
    if s.ctr >= nosr then f
    else if CountAfter(nosr, s, delta) == RctMemCutoff(m.osr, m.ntg1) then f.(rctMem := true)
    else f
  }

  /** The state of the pass after a delta on which no recovery fires. */
  function StateAfter(m: Setting, nosr: nat, s: PassState, delta: Word): PassState {
    PassState(Next(s.tests, delta), FailuresAfter(m, nosr, s, delta), s.nested, s.recoveries, Least(s.ctr + 1, nosr),
              CountAfter(nosr, s, delta))
  }

  /** Nothing has failed, and nothing will on what is left. */
  predicate Quieted(m: Setting, s: PassState, rest: seq<Word>) {
    !s.failures.Any() && Calm(m, s.tests, rest)
  }

  /** Nor on what is left after the next delta. */
  predicate Eases(m: Setting, s: PassState, feed: seq<Word>) {
    && !s.failures.Any() && feed != [] && !Alarms(m, s.tests, feed[0])
    && Calm(m, Next(s.tests, feed[0]), feed[1..])
  }

  /** What a measurement within a window does: it takes the next delta, unless there is none; a recovery fires
      exactly if the count comes to the cutoff outside of one, and raises nothing on a calm stream. */
  ghost predicate Measured(m: Setting, nosr: nat, s: PassState, s1: PassState, feed: seq<Word>, rest: seq<Word>,
                           stuck: bool, exhausted: bool) {
    && s.recoveries <= s1.recoveries
    && if feed == [] then exhausted && rest == [] && s1 == s
       else
         && (s1.recoveries > s.recoveries <==>
               !s.nested && CountAfter(nosr, s, feed[0]) == RctMemCutoff(m.osr, m.ntg1))
         && (s1.recoveries > s.recoveries && Eases(m, s, feed) ==> Quieted(m, s1, rest))
         && (s1.recoveries == s.recoveries ==>
               && !exhausted && rest == feed[1..] && stuck == IsStuck(s.tests.window, feed[0])
               && s1 == StateAfter(m, nosr, s, feed[0]))
  }

  /** What the next delta of a pass on track decides. */
  lemma TrackStep(m: Setting, nosr: nat, pass: Pass, s: PassState, n: nat)
    requires n < |pass.stream| && OnTrack(m, nosr, pass, s, n) && Unstuck(pass.tests, pass.stream, n) < nosr
    requires !s.failures.Any()
    ensures var (t, f) := (pass.tests, pass.stream);
            var (count, failures) := (CountAfter(nosr, s, f[n]), FailuresAfter(m, nosr, s, f[n]));
            && Unstuck(t, f, n + 1) == Unstuck(t, f, n) + (if IsStuck(s.tests.window, f[n]) then 0 else 1)
            && (Crosses(m, nosr, t, f, n + 1) <==> count == RctMemCutoff(m.osr, m.ntg1))
            && (pass.nested || count != RctMemCutoff(m.osr, m.ntg1) ==>
                  && (failures.Any() <==> Stops(m, nosr, pass.nested, t, f, n + 1))
                  && (failures.rctMem <==> count == RctMemCutoff(m.osr, m.ntg1)) && BitsOf(m, s.tests, f[n], failures)
                  && (!failures.Any() ==> OnTrack(m, nosr, pass, StateAfter(m, nosr, s, f[n]), n + 1)))
  {
    hide IsStuck, Next, Alarms, After, Quiet, MemHits, Unstuck, Crosses, Stops, RctMemCutoff, AptVerdict, RctVerdict,
      LagVerdict, Raised, BitsOf;
    var (t, f) := (pass.tests, pass.stream);
    RctMemCutoffsOrdered(m.osr, m.ntg1);
    OnTrackIsOpen(m, nosr, t, f, n);
    NextInPass(m, nosr, pass.nested, t, f, n);
    CountedIsHits(t, f, n, nosr, s.ctr, s.count);
    RaisedAny(s.failures, m, s.tests, f[n]);
  }

  /** A measurement takes the pass one delta on. */
  lemma FollowStep(m: Setting, nosr: nat, pass: Pass, s: PassState, s1: PassState, feed: seq<Word>, rest: seq<Word>,
                   ctr: nat, stuck: bool, exhausted: bool)
    requires Followed(m, nosr, pass, s, feed, ctr) && !s.failures.Any() && ctr < nosr
    requires Measured(m, nosr, s, s1, feed, rest, stuck, exhausted)
    ensures Followed(m, nosr, pass, s1, rest, if exhausted || stuck then ctr else ctr + 1)
  {
    hide IsStuck, Unstuck, Crosses, Stops, CrossesIn, RctMemCutoff, OnTrack, CountAfter, FailuresAfter, BitsOf, After;
    var (t, f) := (pass.tests, pass.stream);
    if s.recoveries == pass.first && feed != [] {
      var n := |f| - |feed|;
      assert f[n] == feed[0] && f[n + 1..] == feed[1..];
      OnTrackTests(m, nosr, pass, s, n);
      TrackStep(m, nosr, pass, s, n);
      if s1.recoveries > s.recoveries {
        CrossesThere(m, nosr, t, f, n + 1);
      }
    }
  }

  /** On a stream that calms down nothing fails, and from there on it stays calm. */
  ghost predicate Easing(m: Setting, nosr: nat, pass: Pass, k: nat, s: PassState, rest: seq<Word>) {
    CalmsAt(m, nosr, pass.nested, pass.tests, pass.stream, k) ==>
      && !s.failures.Any() && |rest| <= |pass.stream| && (k == 0 ==> s.recoveries == pass.first)
      && (Calm(m, s.tests, rest) || (s.recoveries == pass.first && |pass.stream| - |rest| < k))
  }

  lemma EasingStart(m: Setting, nosr: nat, pass: Pass, k: nat, s: PassState)
    requires !s.failures.Any() && s.tests == pass.tests && s.recoveries == pass.first
    ensures Easing(m, nosr, pass, k, s, pass.stream)
  {
    hide Calm, Quiet, Crosses;
    assert pass.stream[..0] == [] && pass.stream[0..] == pass.stream;
  }

  /** A calm delta neither fails nor counts. */
  lemma CalmDelta(m: Setting, nosr: nat, s: PassState, feed: seq<Word>)
    requires Quieted(m, s, feed) && feed != [] && (s.ctr == 0 || s.count < RctMemCutoff(m.osr, m.ntg1))
    ensures !IsStuck(s.tests.window, feed[0]) && CountAfter(nosr, s, feed[0]) < RctMemCutoff(m.osr, m.ntg1)
    ensures Eases(m, s, feed) && Quieted(m, StateAfter(m, nosr, s, feed[0]), feed[1..])
  {
    hide IsStuck, Alarms, Next, AptVerdict, RctVerdict, LagVerdict, Raised, RctMemCutoff;
    RctMemCutoffsOrdered(m.osr, m.ntg1);
    RaisedAny(s.failures, m, s.tests, feed[0]);
  }

  lemma EasingStep(m: Setting, nosr: nat, pass: Pass, k: nat, s: PassState, s1: PassState, feed: seq<Word>,
                   rest: seq<Word>, ctr: nat, stuck: bool, exhausted: bool)
    requires Followed(m, nosr, pass, s, feed, ctr) && !s.failures.Any() && ctr < nosr
    requires Measured(m, nosr, s, s1, feed, rest, stuck, exhausted)
    requires Easing(m, nosr, pass, k, s, feed) && |rest| <= |feed|
    requires s.ctr == 0 || s.count < RctMemCutoff(m.osr, m.ntg1)
    ensures Easing(m, nosr, pass, k, s1, rest)
  {
    hide IsStuck, Unstuck, Crosses, Stops, CrossesIn, RctMemCutoff, OnTrack, CountAfter, FailuresAfter, Calm, CalmsAt,
      Alarms, Next, After;
    var (t, f) := (pass.tests, pass.stream);
    if CalmsAt(m, nosr, pass.nested, t, f, k) && feed != [] {
      if Calm(m, s.tests, feed) {
        CalmDelta(m, nosr, s, feed);
      } else {
        var n := |f| - |feed|;
        assert f[n] == feed[0] && f[n + 1..] == feed[1..];
        CalmsStep(m, nosr, pass.nested, t, f, k, n);
        TrackStep(m, nosr, pass, s, n);
        OnTrackTests(m, nosr, pass, s, n);
        AlarmOnly(m, nosr, t, f, n + 1);
      }
    }
  }

  lemma OnTrackTests(m: Setting, nosr: nat, pass: Pass, s: PassState, n: nat)
    requires n <= |pass.stream| && OnTrack(m, nosr, pass, s, n)
    ensures s.tests == After(pass.tests, pass.stream[..n]) && s.nested == pass.nested
  {
    hide MemHits, Quiet, Unstuck, After;
  }

  lemma AlarmOnly(m: Setting, nosr: nat, t: Tests, h: seq<Word>, n: nat)
    requires 0 < n <= |h| && !Alarms(m, After(t, h[..n - 1]), h[n - 1])
    ensures !Stops(m, nosr, false, t, h, n)
  {
    hide Alarms, MemHits, Quiet, Unstuck, After;
  }

  /** A pass does not end before its stream calms down. */
  lemma EasingEnd(m: Setting, nosr: nat, pass: Pass, k: nat, s: PassState, rest: seq<Word>, ctr: nat)
    requires Followed(m, nosr, pass, s, rest, ctr) && Easing(m, nosr, pass, k, s, rest)
    requires s.recoveries == pass.first ==> s.failures.Any() || ctr >= nosr || rest == []
    ensures CalmsAt(m, nosr, pass.nested, pass.tests, pass.stream, k) ==>
              Quieted(m, s, rest) && (k == 0 ==> s.recoveries == pass.first)
  {
    hide Stops, Crosses, CrossesIn, Unstuck, Calm, CalmsAt, OnTrack, After, Alarms, Next;
    var n := |pass.stream| - |rest|;
    if CalmsAt(m, nosr, pass.nested, pass.tests, pass.stream, k) && !Calm(m, s.tests, rest) {
      CalmsStep(m, nosr, pass.nested, pass.tests, pass.stream, k, n);
    }
  }

  /** The pass follows its stream, and calms down with it. */
  ghost predicate Tracing(m: Setting, nosr: nat, entry: Entry, s: PassState, rest: seq<Word>, ctr: nat) {
    && Followed(m, nosr, entry.pass, s, rest, ctr)
    && Easing(m, nosr, entry.pass, entry.calmFrom, s, rest)
  }

  lemma TracingStep(m: Setting, nosr: nat, entry: Entry, s: PassState, s1: PassState, feed: seq<Word>, rest: seq<Word>,
                    ctr: nat, stuck: bool, exhausted: bool)
    requires Tracing(m, nosr, entry, s, feed, ctr) && !s.failures.Any() && ctr < nosr && |rest| <= |feed|
    requires Measured(m, nosr, s, s1, feed, rest, stuck, exhausted)
    requires s.ctr == 0 || s.count < RctMemCutoff(m.osr, m.ntg1)
    ensures Tracing(m, nosr, entry, s1, rest, if exhausted || stuck then ctr else ctr + 1)
  {
    hide Followed, Easing, Measured, RctMemCutoff;
    FollowStep(m, nosr, entry.pass, s, s1, feed, rest, ctr, stuck, exhausted);
    EasingStep(m, nosr, entry.pass, entry.calmFrom, s, s1, feed, rest, ctr, stuck, exhausted);
  }

  lemma OnTrackIsOpen(m: Setting, nosr: nat, t: Tests, h: seq<Word>, n: nat)
    requires n <= |h| && Quiet(m, t, h[..n]) && Unstuck(t, h, n) < nosr
    ensures Open(m, nosr, t, h, n)
  {
    hide Quiet, Unstuck;
  }

  lemma CrossesThere(m: Setting, nosr: nat, t: Tests, h: seq<Word>, n: nat)
    requires 0 < n <= |h| && Crosses(m, nosr, t, h, n)
    ensures CrossesIn(m, nosr, t, h)
  {
    hide Crosses;
  }

  class RandData {
    const fips: bool
    const ntg1: bool
    const osr: nat
    const lag: LagTest
    const apt: AptTest
    const rct: RctTest

    var memCtr: nat
    var memNosr: nat
    var memCount: nat
    var memCutoff: nat
    var memCutoffPermanent: nat
    var inRecovery: bool
    var failures: Failures
    var startup: nat

    /** How many recoveries have fired, and how many measurements of each source were not stuck. */
    ghost var recoveries: nat
    ghost var unstuck: Yield

    ghost function Footprint(): set<object> {
      {this, lag, apt, rct, lag.history, lag.scoreboard}
    }

    ghost predicate Parts()
      reads lag, apt, rct, lag.history, lag.scoreboard
    {
      lag.Valid() && apt.Valid() && rct.Valid()
    }

    /** The cutoffs of the three tests are those of the tables. */
    ghost predicate Tables() {
      && osr > 0
      && lag.localCutoff == LagLocalCutoff(osr) && lag.globalCutoff == LagGlobalCutoff(osr)
      && apt.cutoff == AptCutoff(osr, ntg1) && apt.cutoffPermanent == AptPermanentCutoff(osr, ntg1)
      && rct.cutoff == RctCutoff(osr, ntg1) && rct.cutoffPermanent == RctPermanentCutoff(osr, ntg1)
    }

    /** What the three tests remember. */
    ghost function TestsNow(): Tests
      reads lag, apt, rct
    {
      Tests(lag.window, apt.State(), rct.count)
    }

    ghost function Rate(): Setting
      requires osr > 0
    {
      Mode(osr, ntg1)
    }

    /** Everything but the count of the test with memory. */
    ghost predicate Sound()
      reads Footprint()
    {
      && 0 < osr <= 20 && (ntg1 ==> fips)
      && Parts()
      && memCutoff == RctMemCutoff(osr, ntg1) && memCutoffPermanent == RctMemPermanentCutoff(osr, ntg1)
      && Tables()
      && memCtr <= memNosr && (memNosr == 0 || memNosr == LoopIterations(osr, fips))
      && !failures.rctMemPermanent
      && (!fips ==> !failures.rctMem && recoveries == 0)
      && (fips && !failures.Any() ==> rct.count <= 1200)
    }

    ghost predicate Valid()
      reads Footprint()
    {
      && Sound()
      && (fips ==> 3 * memCount <= Nosr())
      && (Counting() || (fips && failures.Any() && memCtr <= 2))
      && CappedAt(memCtr, memNosr, memCount, memCutoff)
    }

    /** The count of the test with memory is what the iterations of its window allow, or is about to be cleared. */
    ghost predicate Counting()
      reads this
    {
      memCtr == 0 || 3 * memCount <= memCtr + 2
    }

    /** A recovery that failed may leave a stale count in iteration 1 of a window; it stays that way for no more
        than one measurement. */
    ghost predicate Ready()
      reads this
    {
      (Counting() || memCtr <= 1) && Spaced()
    }

    ghost predicate Spaced()
      reads this
    {
      SpacedAt(memCtr, memNosr, memCount, memCutoff, inRecovery)
    }

    /** A new collector: every counter zero and the cutoffs from the tables. */
    constructor (osr: nat, fips: bool, ntg1: bool, startup: nat)
      requires 0 < osr <= 20 && (ntg1 ==> fips)
      ensures Valid() && Ready() && Idle() && fresh(Footprint())
      ensures this.osr == osr && this.fips == fips && this.ntg1 == ntg1 && this.startup == startup
      ensures failures == NO_FAILURES && recoveries == 0 && unstuck == NO_YIELD && !inRecovery
      ensures TestsNow() == START
    {
      hide Lookup, LoopIterations, RctCutoff, RctPermanentCutoff, LagTest.Valid, AptTest.Valid, RctTest.Valid;
      this.osr, this.fips, this.ntg1, this.startup := osr, fips, ntg1, startup;
      lag := new LagTest(LagLocalCutoff(osr), LagGlobalCutoff(osr));
      apt := new AptTest(AptCutoff(osr, ntg1), AptPermanentCutoff(osr, ntg1));
      rct := new RctTest(RctCutoff(osr, ntg1), RctPermanentCutoff(osr, ntg1));
      memCtr, memNosr, memCount := 0, 0, 0;
      memCutoff, memCutoffPermanent := RctMemCutoff(osr, ntg1), RctMemPermanentCutoff(osr, ntg1);
      inRecovery, failures, recoveries, unstuck := false, NO_FAILURES, 0, NO_YIELD;
    }

    /** jent_health_failure */
    predicate Failing()
      reads this`failures
    {
      fips && failures.Any()
    }

    /** Between runs of the collection loop: no window of the test with memory is open, unless a failure cut the
        loop short. */
    ghost predicate Idle()
      reads this
    {
      !failures.Any() ==> memCtr == memNosr && (memCtr > 0 ==> memCount < memCutoff)
    }

    ghost function Cutoff(): nat {
      RctPermanentCutoff(osr, ntg1)
    }

    ghost function Nosr(): nat {
      LoopIterations(osr, fips)
    }

    ghost function RecoveryBound(): nat {
      RunsBound(RECOVERY_LOOPS, Nosr(), Cutoff())
    }

    /** What a recovery adds to the consumption of a pass. */
    ghost function Surcharge(recovered: bool): nat {
      if recovered then RecoveryBound() + Cutoff() else 0
    }

    /** What one pass of the collection loop may consume, given whether a recovery fires in it. */
    ghost function PassBound(recovered: bool): nat {
      BlockBound(Nosr(), Cutoff()) + Surcharge(recovered)
    }

    lemma PassAtMost()
      requires 0 < osr <= 20 && fips
      ensures 1 + 2 * PassBound(true) <= MAX_PASS
    {
      hide LoopIterations, RctPermanentCutoff, BlockBound, RunsBound;
      Iterations(osr, fips);
      RctPermanentInRange(osr, ntg1);
      PassesBounded(Nosr(), Cutoff());
    }

    /** The count of the test with memory after the next result. */
    ghost function Counted(stuck: bool): nat
      reads this
    {
      MemCounted(memCtr, memNosr, memCount, stuck)
    }

    /** The iteration after the next result. */
    ghost function Ticked(): nat
      reads this
    {
      if memCtr < memNosr then memCtr + 1 else memCtr
    }

    /** The next result brings the count to the intermittent cutoff outside a recovery: a recovery starts. */
    ghost predicate Fires(stuck: bool)
      reads this
    {
      !inRecovery && Counted(stuck) == memCutoff
    }

    /** What a pass of the collection loop leaves behind when nothing failed: its window is over, with a count
        below the cutoff, and the repetition count is below its own. */
    ghost predicate Settled()
      reads this, rct
    {
      memCtr == memNosr == Nosr() && memCount < memCutoff && rct.count < Cutoff()
    }

    lemma MemCountInWindow(stuck: bool)
      requires Valid()
      ensures Counting() ==> memCtr == 0 || 3 * Counted(stuck) <= if memCtr < memNosr then memCtr + 3 else memCtr + 2
      ensures memCtr == 0 ==> Counted(stuck) <= 1
      ensures fips ==> 3 * Counted(stuck) <= Nosr()
      ensures !fips ==> Counted(stuck) < memCutoff
      ensures Counted(stuck) <= memCutoff < memCutoffPermanent && 0 < memCutoff
      ensures memCtr == 0 || memCount < memCutoff ==> SpacedAt(Ticked(), memNosr, Counted(stuck), memCutoff, inRecovery)
      ensures Spaced() && !Fires(stuck) ==> CappedAt(Ticked(), memNosr, Counted(stuck), memCutoff)
    {
      hide Tables, LoopIterations, RctMemCutoff, RctMemPermanentCutoff, Parts, RctPermanentCutoff, MemCounted, CappedAt,
        SpacedAt;
      RctMemCutoffsOrdered(osr, ntg1);
      RctMemWindow(osr, fips);
      Iterations(osr, fips);
      CountedInWindow(memCtr, memNosr, memCount, Nosr(), stuck);
      CapStep(memCtr, memNosr, memCount, memCutoff, inRecovery, stuck);
    }

    /** The permanent bit of the test with memory is never set: the count cannot pass the intermittent cutoff. */
    lemma NoMemPermanent()
      requires Valid()
      ensures !failures.rctMemPermanent && memCount <= memCutoff < memCutoffPermanent
    {
      hide Tables, LoopIterations, RctMemCutoff, RctMemPermanentCutoff, Parts;
      RctMemCutoffsOrdered(osr, ntg1);
    }

    /** The failure bits after the three tests on a delta. */
    ghost function AfterTests(delta: Word): Failures
      requires osr > 0
      reads this, lag, apt, rct
    {
      Raised(failures, AptVerdict(Rate(), TestsNow(), delta), LagVerdict(Rate(), TestsNow(), delta),
             RctVerdict(Rate(), TestsNow(), delta))
    }

    /** The failure bits f with the verdict of the test with memory, when no recovery starts. */
    ghost function AfterMemory(f: Failures, stuck: bool): Failures
      reads this
    {
      if memCtr >= memNosr then f
      else if Counted(stuck) == memCutoff then f.(rctMem := true)
      else f
    }

    /** The counting part of jent_rct_mem_insert. */
    method Count(stuck: bool)
      requires Sound()
      modifies this`memCount
      ensures Sound() && memCount == old(Counted(stuck))
    {
      hide Tables, Parts, LoopIterations, RctMemCutoff, RctMemPermanentCutoff;
      if memCtr == 0 {
        memCount := 0;
      }
      if stuck && memCtr < memNosr && memCtr % 3 == 0 {
        memCount := memCount + 1;
      }
    }

    /** Set the failure bit of the test with memory, if the iteration is in the window. */
    method RaiseInWindow()
      requires Sound() && fips
      modifies this`failures
      ensures Sound() && old(failures).Within(failures)
      ensures memCtr < memNosr ==> failures.Any()
      ensures failures == if memCtr >= memNosr then old(failures) else old(failures).(rctMem := true)
    {
      hide Tables, Parts, LoopIterations, RctMemCutoff, RctMemPermanentCutoff;
      if memCtr < memNosr {
        failures := failures.(rctMem := true);
      }
    }

    /** The iteration count at the end of jent_rct_mem_insert. */
    method Tick()
      requires Sound()
      modifies this`memCtr
      ensures Sound() && memCtr == old(Ticked())
    {
      hide Tables, Parts, LoopIterations, RctMemCutoff, RctMemPermanentCutoff;
      if memCtr < memNosr {
        memCtr := memCtr + 1;
      }
    }

    /** jent_rct_mem_insert.  Its first branch, which raises the permanent bit, is never taken. */
    method MemInsert(clock: Clock, stuck: bool) returns (exhausted: bool)
      requires Valid() && Ready() && clock !in Footprint()
      modifies Footprint(), clock
      ensures Valid() && old(failures).Within(failures) && (exhausted ==> clock.feed == [])
      ensures |clock.feed| <= old(|clock.feed|)
      ensures !exhausted ==> inRecovery == old(inRecovery)
      ensures unstuck.Covers(old(unstuck))
      ensures !fips ==> memCount < memCutoff
      ensures !old(Fires(stuck)) ==>
                && !exhausted && clock.feed == old(clock.feed) && recoveries == old(recoveries)
                && startup == old(startup) && TestsNow() == old(TestsNow()) && memNosr == old(memNosr)
                && unstuck == old(unstuck)
                && memCount == old(Counted(stuck))
                && memCtr == old(Ticked())
                && (old(Counting()) ==> Counting())
                && (old(memCtr == 0 || memCount < memCutoff) ==> Spaced())
                && (memCount == memCutoff && old(memCtr < memNosr) ==> failures.Any())
                && failures == old(AfterMemory(failures, stuck))
      ensures old(Fires(stuck)) ==>
                && fips && recoveries == old(recoveries) + 1
                && old(|clock.feed|) - |clock.feed| <= RecoveryBound()
                && (!exhausted ==> Ready() && memNosr == Nosr() && (!failures.Any() ==> Settled()))
                && (!exhausted ==> startup == AfterRecovery(old(startup)))
                && (old(CalmNow(clock.feed)) ==> CalmNow(clock.feed))
      decreases |clock.feed|, 7
    {
      hide Tables, LoopIterations, RctMemCutoff, RctMemPermanentCutoff, RctPermanentCutoff, Parts, MemCounted, Paid,
        BlockBound, RunsBound, CappedAt, SpacedAt, RandData.CalmNow;
      MemCountInWindow(stuck);
      Count(stuck);
      exhausted := false;
      if memCount >= memCutoffPermanent {
        assert false;
      } else if memCount == memCutoff {
        if !inRecovery {
          exhausted := Recover(clock);
          if exhausted {
            return;
          }
          SpacedTick(memCtr, memNosr, memCount, memCutoff);
        } else {
          RaiseInWindow();
        }
      }
      Tick();
    }

    /** One of the runs of a recovery, after n others; y and stage are what it started from. */
    method RecoveryRun(clock: Clock, ghost n: nat, ghost y: Yield, ghost stage: nat) returns (exhausted: bool)
      requires Valid() && Counting() && Spaced() && inRecovery && fips && clock !in Footprint()
      requires unstuck.Covers(y) && startup == if n > 0 then AfterRecovery(stage) else stage
      requires n > 0 && !failures.Any() ==> unstuck.Covers(Gathered(n, y, stage, Nosr()))
      modifies Footprint(), clock
      ensures Valid() && old(failures).Within(failures) && (exhausted ==> clock.feed == [])
      ensures |clock.feed| <= old(|clock.feed|)
      ensures old(|clock.feed|) - |clock.feed| <= 1 + 2 * BlockBound(Nosr(), Cutoff())
      ensures recoveries == old(recoveries) && unstuck.Covers(y)
      ensures !exhausted ==>
                && inRecovery && Counting() && Spaced() && memNosr == Nosr() && startup == AfterRecovery(stage)
                && (!failures.Any() ==> Settled() && unstuck.Covers(Gathered(n + 1, y, stage, Nosr())))
      ensures old(CalmNow(clock.feed) && memCount < memCutoff) ==>
                CalmNow(clock.feed) && (!exhausted ==> memCount < memCutoff)
      decreases |clock.feed|, 5, 1
    {
      hide Tables, LoopIterations, RctMemCutoff, RctMemPermanentCutoff, RctPermanentCutoff, Parts, Paid, BlockBound,
        RunsBound, CappedAt, SpacedAt, RandData.CalmNow, Failures.Within, Failures.Any, Gathered, Yield.Covers,
        Delivered, RandData.Settled, RandData.Counting, RandData.Spaced, RandData.PassBound;
      exhausted := RandomData(clock);
      NotBefore(old(failures), failures);
      OnlyChain(Combined, y, old(unstuck), unstuck, 0);
      if !exhausted && !failures.Any() {
        GatherMore(n, y, stage, Nosr(), old(unstuck), old(startup), unstuck);
      }
    }

    /** The recovery in jent_rct_mem_insert. */
    method Recover(clock: Clock) returns (exhausted: bool)
      requires Sound() && clock !in Footprint() && fips && !inRecovery
      modifies Footprint(), clock
      ensures Valid() && old(failures).Within(failures) && (exhausted ==> clock.feed == [])
      ensures |clock.feed| <= old(|clock.feed|)
      ensures old(|clock.feed|) - |clock.feed| <= RecoveryBound()
      ensures recoveries == old(recoveries) + 1 && unstuck.Covers(old(unstuck))
      ensures !exhausted ==> !inRecovery && Counting() && memNosr == Nosr() && (!failures.Any() ==> Settled())
      ensures !exhausted ==> SpacedAt(memCtr, memNosr, memCount, memCutoff, true)
      ensures !exhausted ==> startup == AfterRecovery(old(startup))
      ensures old(CalmNow(clock.feed)) ==> CalmNow(clock.feed)
      ensures !exhausted && !failures.Any() ==> unstuck.Covers(TenRuns(old(unstuck), old(startup), Nosr()))
      decreases |clock.feed|, 6
    {
      hide Tables, LoopIterations, RctMemCutoff, RctMemPermanentCutoff, RctPermanentCutoff, Parts, Paid, BlockBound,
        RunsBound, CappedAt, SpacedAt, RandData.CalmNow, Failures.Within, Gathered, TenRuns, Yield.Covers, Delivered;
      WithinItself(failures);
      YieldGrows(unstuck, Combined, 0);
      RunsStep(0, Nosr(), Cutoff());
      RctMemCutoffsOrdered(osr, ntg1);
      FreeCount(memCtr, memNosr, 0, memCutoff);
      memCount := 0;
      inRecovery := true;
      recoveries := recoveries + 1;
      var i := 0;
      while i < RECOVERY_LOOPS
        invariant 0 <= i <= RECOVERY_LOOPS
        invariant Valid() && Counting() && Spaced() && inRecovery && old(failures).Within(failures)
        invariant recoveries == old(recoveries) + 1 && unstuck.Covers(old(unstuck))
        invariant |clock.feed| <= old(|clock.feed|)
        invariant old(|clock.feed|) - |clock.feed| <= RunsBound(i, Nosr(), Cutoff())
        invariant i > 0 ==> memNosr == Nosr() && (!failures.Any() ==> Settled())
        invariant startup == if i > 0 then AfterRecovery(old(startup)) else old(startup)
        invariant old(CalmNow(clock.feed)) ==> CalmNow(clock.feed) && memCount < memCutoff
        invariant i > 0 && !failures.Any() ==> unstuck.Covers(Gathered(i, old(unstuck), old(startup), Nosr()))
      {
        RunsStep(i, Nosr(), Cutoff());
        RunsMonotone(i + 1, RECOVERY_LOOPS, Nosr(), Cutoff());
        ghost var before := failures;
        exhausted := RecoveryRun(clock, i, old(unstuck), old(startup));
        WithinChain(old(failures), before, failures);
        if exhausted {
          return;
        }
        i := i + 1;
      }
      TenAreGathered(old(unstuck), old(startup), Nosr());
      exhausted := false;
      inRecovery := false;
    }

    /** jent_health_init: only the repetition count starts over; the cutoffs are those of the same tables. */
    method HealthInit()
      requires Valid()
      modifies Footprint()
      ensures Valid() && rct.count == 0
      ensures failures == old(failures) && startup == old(startup) && recoveries == old(recoveries)
      ensures unstuck == old(unstuck)
      ensures memCtr == old(memCtr) && memNosr == old(memNosr) && memCount == old(memCount)
      ensures inRecovery == old(inRecovery) && TestsNow() == old(TestsNow()).(run := 0)
    {
      hide Tables, LoopIterations, RctMemCutoff, RctMemPermanentCutoff, LagTest.Valid, AptTest.Valid, RctTest.Valid,
        CappedAt;
      rct.Restart(0);
      memCutoff, memCutoffPermanent := RctMemCutoff(osr, ntg1), RctMemPermanentCutoff(osr, ntg1);
    }

    /** The duplicate functions of the three tests on every delta. */
    method TakeOverTests(other: RandData)
      requires Parts() && other.Parts() && 30 * osr < UINT32
      requires this != other && lag != other.lag && apt != other.apt && rct != other.rct
      requires lag.history != other.lag.history && lag.scoreboard != other.lag.scoreboard
      modifies lag, apt, rct, lag.history, lag.scoreboard
      ensures Parts() && lag.window == other.lag.window && rct.count == 30 * osr
      ensures other.apt.observations > 0 ==>
                apt.baseSet && apt.base == other.apt.base && apt.count == apt.cutoff
                && apt.observations == other.apt.observations
    {
      hide LagTest.Valid, AptTest.Valid, RctTest.Valid;
      apt.Duplicate(other.apt);
      rct.Restart(30 * osr);
      lag.Duplicate(other.lag);
    }

    /** The four duplicate functions, for a collector that replaces another one: the lag test goes on, the counts
        of the others start at an intermittent cutoff. */
    method TakeOver(other: RandData)
      requires Valid() && Idle() && Ready() && other.Valid()
      requires this != other && lag != other.lag && apt != other.apt && rct != other.rct
      requires lag.history != other.lag.history && lag.scoreboard != other.lag.scoreboard
      requires fips && other.fips && ntg1 == other.ntg1 && other.osr < osr && failures == NO_FAILURES
      modifies Footprint()
      ensures Valid() && Idle() && Ready()
      ensures failures == NO_FAILURES && startup == old(startup) && inRecovery == old(inRecovery)
      ensures recoveries == old(recoveries) && memCtr == old(memCtr) && memNosr == old(memNosr)
      ensures unstuck == old(unstuck)
      ensures lag.window == other.lag.window && rct.count == 30 * osr && memCount == other.memCutoff
      ensures other.apt.observations > 0 ==>
                apt.baseSet && apt.base == other.apt.base && apt.count == apt.cutoff
                && apt.observations == other.apt.observations
    {
      hide Tables, LoopIterations, RctMemCutoff, RctMemPermanentCutoff, RctPermanentCutoff, Parts, CappedAt, SpacedAt;
      RctMemCutoffRises(other.osr, osr, ntg1);
      Iterations(osr, fips);
      FreeCount(memCtr, memNosr, other.memCutoff, memCutoff);
      TakeOverTests(other);
      memCount := other.memCutoff;
    }

    /** jent_stuck */
    method Stuck(clock: Clock, delta: Word, ghost source: Source) returns (stuck: bool, exhausted: bool)
      requires Valid() && Ready() && clock !in Footprint()
      modifies Footprint(), clock
      ensures Valid() && old(failures).Within(failures) && (exhausted ==> clock.feed == [])
      ensures |clock.feed| <= old(|clock.feed|)
      ensures !exhausted ==> inRecovery == old(inRecovery)
      ensures unstuck.Covers(old(unstuck).Plus(source, if exhausted || stuck then 0 else 1))
      ensures !fips ==> memCount < memCutoff
      ensures stuck == IsStuck(old(lag.window), delta)
      ensures !old(Fires(IsStuck(lag.window, delta))) ==>
                && !exhausted && clock.feed == old(clock.feed) && recoveries == old(recoveries)
                && startup == old(startup) && memNosr == old(memNosr)
                && unstuck == old(unstuck).Plus(source, if stuck then 0 else 1)
                && rct.count == (if stuck then (old(rct.count) + 1) % UINT32 else 0)
                && (stuck && rct.count >= Cutoff() ==> failures.rctPermanent)
                && memCount == old(Counted(IsStuck(lag.window, delta)))
                && memCtr == old(Ticked())
                && (old(Counting()) ==> Counting())
                && (old(memCtr == 0 || memCount < memCutoff) ==> Spaced())
                && (memCount == memCutoff && old(memCtr < memNosr) ==> failures.Any())
                && TestsNow() == Next(old(TestsNow()), delta)
                && failures == old(AfterMemory(AfterTests(delta), IsStuck(lag.window, delta)))
      ensures old(Fires(IsStuck(lag.window, delta))) ==>
                && fips && recoveries == old(recoveries) + 1
                && old(|clock.feed|) - |clock.feed| <= RecoveryBound()
                && (!exhausted ==> Ready() && memNosr == Nosr() && (!failures.Any() ==> Settled()))
                && (!exhausted ==> startup == AfterRecovery(old(startup)))
                && (!old(AfterTests(delta).Any()) && old(Calm(Rate(), Next(TestsNow(), delta), clock.feed)) ==>
                      CalmNow(clock.feed))
      decreases |clock.feed|, 8
    {
      hide Tables, LoopIterations, RctMemCutoff, RctMemPermanentCutoff, RctPermanentCutoff, Parts, Paid, BlockBound,
        RunsBound, IsStuck, Next, MemCounted, CappedAt, SpacedAt, AptVerdict, RctVerdict, LagVerdict, Raised,
        Yield.Plus, Yield.Covers, RandData.Settled, RandData.Nosr, Calm;
      RctMemCutoffsOrdered(osr, ntg1);
      YieldGrows(unstuck, source, 0);
      stuck := StuckTest(delta, source);
      exhausted := MemInsert(clock, stuck);
      YieldStep(old(unstuck), old(unstuck), unstuck, source, 0, if stuck then 0 else 1);
    }

    /** jent_stuck on the next delta of the clock, as each of the jent_measure_jitter functions calls it. */
    method Measure(clock: Clock, source: Source) returns (stuck: bool, exhausted: bool)
      requires Valid() && Ready() && clock !in Footprint()
      modifies Footprint(), clock
      ensures Valid() && old(failures).Within(failures) && (exhausted ==> clock.feed == [])
      ensures |clock.feed| <= old(|clock.feed|)
      ensures !exhausted ==> inRecovery == old(inRecovery)
      ensures old(clock.feed) == [] ==> exhausted && PassNow() == old(PassNow()) && unstuck == old(unstuck)
      ensures old(memNosr) == Nosr() ==>
                Measured(Rate(), Nosr(), old(PassNow()), PassNow(), old(clock.feed), clock.feed, stuck, exhausted)
      ensures unstuck.Covers(old(unstuck).Plus(source, if exhausted || stuck then 0 else 1))
      ensures old(clock.feed) != [] && !fips ==> memCount < memCutoff
      ensures old(clock.feed) != [] ==> stuck == IsStuck(old(lag.window), old(clock.feed)[0])
      ensures old(clock.feed) != [] && !old(Fires(IsStuck(lag.window, clock.feed[0]))) ==>
                && !exhausted && clock.feed == old(clock.feed)[1..] && recoveries == old(recoveries)
                && startup == old(startup) && memNosr == old(memNosr)
                && unstuck == old(unstuck).Plus(source, if stuck then 0 else 1)
                && rct.count == (if stuck then (old(rct.count) + 1) % UINT32 else 0)
                && (stuck && rct.count >= Cutoff() ==> failures.rctPermanent)
                && memCount == old(Counted(IsStuck(lag.window, clock.feed[0])))
                && memCtr == old(Ticked())
                && (old(Counting()) ==> Counting())
                && (old(memCtr == 0 || memCount < memCutoff) ==> Spaced())
                && (memCount == memCutoff && old(memCtr < memNosr) ==> failures.Any())
                && TestsNow() == Next(old(TestsNow()), old(clock.feed)[0])
                && failures == old(AfterMemory(AfterTests(clock.feed[0]), IsStuck(lag.window, clock.feed[0])))
      ensures old(clock.feed) != [] && old(Fires(IsStuck(lag.window, clock.feed[0]))) ==>
                && fips && recoveries == old(recoveries) + 1
                && old(|clock.feed|) - |clock.feed| <= 1 + RecoveryBound()
                && (!exhausted ==> |clock.feed| < old(|clock.feed|))
                && (!exhausted ==> Ready() && memNosr == Nosr() && (!failures.Any() ==> Settled()))
                && (!exhausted ==> startup == AfterRecovery(old(startup)))
      ensures old(CalmNow(clock.feed) && clock.feed != [] && (memCtr == 0 || memCount < memCutoff)) ==>
                CalmNow(clock.feed) && recoveries == old(recoveries) && memCount < memCutoff
      decreases |clock.feed|, 1, 0
    {
      hide Tables, LoopIterations, RctMemCutoff, RctMemPermanentCutoff, RctPermanentCutoff, Parts, Paid, BlockBound,
        RunsBound, IsStuck, Next, MemCounted, CappedAt, SpacedAt, AptVerdict, RctVerdict, LagVerdict, Raised,
        Yield.Plus, Yield.Covers, RandData.Settled, RandData.Nosr, Calm, Alarms;
      RctMemCutoffsOrdered(osr, ntg1);
      YieldGrows(unstuck, source, 0);
      if clock.feed == [] {
        return false, true;
      }
      NextDelta(clock.feed);
      var delta := clock.feed[0];
      clock.feed := clock.feed[1..];
      stuck, exhausted := Stuck(clock, delta, source);
    }

    /** The three derivatives of jent_stuck, from the ring buffer of the lag test. */
    method Derivatives(delta: Word) returns (stuck: bool)
      requires Parts()
      ensures stuck == IsStuck(lag.window, delta)
    {
      hide Slot;
      ghost var w := lag.window;
      RingGuess(lag.history[..], w, 0);
      RingGuess(lag.history[..], w, 1);
      var last, beforeLast := lag.history[Slot(lag.observations, 0)], lag.history[Slot(lag.observations, 1)];
      var delta2 := Delta(last, delta);
      var delta3 := Delta(Delta(beforeLast, last), delta2);
      DeltaZero(last, delta);
      DeltaZero(Delta(beforeLast, last), delta2);
      stuck := delta == 0 || delta2 == 0 || delta3 == 0;
    }

    /** The three tests that jent_stuck runs on every delta. */
    method InsertTests(delta: Word, stuck: bool) returns (aptAlarm: Alarm, lagAlarm: bool, rctAlarm: Alarm)
      requires Parts() && Tables() && stuck == IsStuck(lag.window, delta)
      modifies lag, apt, rct, lag.history, lag.scoreboard
      ensures Parts() && TestsNow() == Next(old(TestsNow()), delta)
      ensures rctAlarm == RctVerdict(Rate(), old(TestsNow()), delta)
      ensures aptAlarm == AptVerdict(Rate(), old(TestsNow()), delta)
      ensures lagAlarm == LagVerdict(Rate(), old(TestsNow()), delta)
      ensures stuck && rct.count >= RctPermanentCutoff(osr, ntg1) ==> rctAlarm == Permanent
    {
      hide LagTest.Valid, AptTest.Valid, RctTest.Valid, LagAlarm, IsStuck, AptAlarm, AptNext, AptTest.NextAlarm, Lookup;
      aptAlarm := apt.Insert(delta);
      lagAlarm := lag.Insert(delta);
      rctAlarm := rct.Insert(stuck);
    }

    /** The part of jent_stuck before the test with memory. */
    method StuckTest(delta: Word, ghost source: Source) returns (stuck: bool)
      requires Valid()
      modifies Footprint()
      ensures Valid() && old(failures).Within(failures)
      ensures stuck == IsStuck(old(lag.window), delta)
      ensures failures == old(AfterTests(delta))
      ensures !old(failures.Any()) ==> BitsOf(Rate(), old(TestsNow()), delta, failures)
      ensures TestsNow() == Next(old(TestsNow()), delta)
      ensures rct.count == if stuck then (old(rct.count) + 1) % UINT32 else 0
      ensures stuck && rct.count >= Cutoff() ==> failures.rctPermanent
      ensures memCtr == old(memCtr) && memNosr == old(memNosr) && memCount == old(memCount)
      ensures inRecovery == old(inRecovery) && startup == old(startup) && recoveries == old(recoveries)
      ensures unstuck == old(unstuck).Plus(source, if stuck then 0 else 1)
    {
      hide Tables, LoopIterations, RctMemCutoff, RctMemPermanentCutoff, RctPermanentCutoff, IsStuck, Parts, Raised,
        CappedAt, Failures.Any, Failures.Within, RctVerdict, AptVerdict, LagVerdict, NextWindow, AptNext, BitsOf;
      RctPermanentInRange(osr, ntg1);
      stuck := Derivatives(delta);
      var aptAlarm, lagAlarm, rctAlarm := InsertTests(delta, stuck);
      RaisedMore(failures, aptAlarm, lagAlarm, rctAlarm);
      if !failures.Any() {
        RaisedAny(failures, Rate(), old(TestsNow()), delta);
      }
      failures := Raised(failures, aptAlarm, lagAlarm, rctAlarm);
      unstuck := unstuck.Plus(source, if stuck then 0 else 1);
    }

    ghost function PassNow(): PassState
      reads this, lag, apt, rct
    {
      PassState(TestsNow(), failures, inRecovery, recoveries, memCtr, memCount)
    }

    /** Nothing has failed, and nothing will on the feed. */
    ghost predicate CalmNow(feed: seq<Word>)
      requires osr > 0
      reads this`failures, lag, apt, rct
    {
      !failures.Any() && Calm(Rate(), TestsNow(), feed)
    }

    ghost predicate Traced(entry: Entry, rest: seq<Word>, ctr: nat)
      requires osr > 0
      reads this, lag, apt, rct
    {
      Tracing(Rate(), Nosr(), entry, PassNow(), rest, ctr)
    }

    /** A pass starts here. */
    lemma PassStarts(entry: Entry)
      requires osr > 0 && !failures.Any() && memCtr == 0
      requires entry.pass.tests == TestsNow() && entry.pass.nested == inRecovery && entry.pass.first == recoveries
      ensures Traced(entry, entry.pass.stream, 0)
    {
      hide Followed, Easing, LoopIterations;
      FollowStart(Rate(), Nosr(), PassNow(), entry.pass.stream);
      EasingStart(Rate(), Nosr(), entry.pass, entry.calmFrom, PassNow());
    }

    lemma PassEnds(entry: Entry, rest: seq<Word>, ctr: nat)
      requires osr > 0 && Traced(entry, rest, ctr) && Nosr() > 0
      requires recoveries == entry.pass.first ==> failures.Any() || ctr >= Nosr() || rest == []
      ensures PassOutcome(Rate(), Nosr(), entry.pass, PassNow(), rest)
      ensures CalmsAt(Rate(), Nosr(), entry.pass.nested, entry.pass.tests, entry.pass.stream, entry.calmFrom) ==>
                CalmNow(rest) && (entry.calmFrom == 0 ==> recoveries == entry.pass.first)
    {
      hide Followed, PassOutcome, LoopIterations, Easing, CalmsAt;
      FollowEnd(Rate(), Nosr(), entry.pass, PassNow(), rest, ctr);
      EasingEnd(Rate(), Nosr(), entry.pass, entry.calmFrom, PassNow(), rest, ctr);
    }

    /** The next delta raises nothing, and on a calm feed it does not count either. */
    lemma NextDelta(feed: seq<Word>)
      requires osr > 0 && memCutoff == RctMemCutoff(osr, ntg1) && feed != []
      ensures Eases(Rate(), PassNow(), feed) ==> !AfterTests(feed[0]).Any()
      ensures CalmNow(feed) && (memCtr == 0 || memCount < memCutoff) ==>
                && Eases(Rate(), PassNow(), feed) && !IsStuck(lag.window, feed[0]) && Counted(false) < memCutoff
                && AfterMemory(AfterTests(feed[0]), false) == AfterTests(feed[0])
    {
      hide IsStuck, Alarms, Next, Raised, RctMemCutoff, AptVerdict, RctVerdict, LagVerdict;
      RctMemCutoffsOrdered(osr, ntg1);
      if !failures.Any() {
        RaisedAny(failures, Rate(), TestsNow(), feed[0]);
      }
    }

    /** Between passes a measurement counts nothing and starts no recovery: it fails iff a test raises an alarm. */
    lemma PrimingDelta(feed: seq<Word>)
      requires osr > 0 && memCutoff == RctMemCutoff(osr, ntg1) && feed != [] && !failures.Any()
      ensures Idle() ==>
                var stuck := IsStuck(lag.window, feed[0]);
                && Counted(stuck) < memCutoff
                && AfterMemory(AfterTests(feed[0]), stuck) == AfterTests(feed[0])
                && (AfterTests(feed[0]).Any() <==> Alarms(Rate(), TestsNow(), feed[0]))
    {
      hide IsStuck, Alarms, Next, Raised, RctMemCutoff, AptVerdict, RctVerdict, LagVerdict;
      RctMemCutoffsOrdered(osr, ntg1);
      RaisedAny(failures, Rate(), TestsNow(), feed[0]);
    }

    /** Where a pass is after ctr results that are not stuck: what it has consumed, whether a recovery has fired,
        and what is left of the window of the test with memory. */
    ghost predicate Going(entry: Entry, left: nat, ctr: nat)
      reads this, rct
    {
      var recovered := recoveries > entry.pass.first;
      && ctr <= memNosr == Nosr() && Ready() && recoveries <= entry.pass.first + 1
      && Carried(entry, left) && inRecovery == entry.pass.nested && (inRecovery ==> Counting())
      && (left == |entry.pass.stream| ==> failures == entry.failures && !recovered && unstuck == entry.unstuck)
      && unstuck.Covers(entry.unstuck.Plus(entry.source, ctr))
      && (!recovered ==> unstuck == entry.unstuck.Plus(entry.source, ctr))
      && (recovered && !failures.Any() ==> Settled())
      && (memCtr < memNosr && !Failing() ==> ctr <= memCtr)
      && (!failures.Any() ==> memCtr == 0 || memCount < memCutoff)
      && (fips && !failures.Any() && left < |entry.pass.stream| ==> rct.count < Cutoff())
      && (fips ==> Spent(|entry.pass.stream| - left, ctr, rct.count, failures.Any(), Cutoff(), Surcharge(recovered)))
      && startup == if recovered then AfterRecovery(entry.startup) else entry.startup
    }

    ghost predicate Carried(entry: Entry, left: nat)
      reads this
    {
      && entry.failures.Within(failures) && (entry.failures.Any() ==> failures.Any())
      && left <= |entry.pass.stream| && unstuck.Covers(entry.unstuck)
      && entry.pass.first <= recoveries <= entry.pass.first + 1
      && (entry.pass.nested ==> recoveries == entry.pass.first)
      && (recoveries == entry.pass.first ==> OnlyFrom(entry.source, entry.unstuck, unstuck))
    }

    /** A measurement takes the pass one delta on, with a recovery or without. */
    method MeasureInPass(clock: Clock, source: Source, ghost entry: Entry, ghost ctr: nat)
      returns (stuck: bool, exhausted: bool)
      requires Valid() && clock !in Footprint() && !Failing() && Going(entry, |clock.feed|, ctr) && ctr < memNosr
      requires source == entry.source
      requires fips ==> Traced(entry, clock.feed, ctr)
      modifies Footprint(), clock
      ensures Valid() && (exhausted ==> clock.feed == [])
      ensures fips ==> Traced(entry, clock.feed, if exhausted || stuck then ctr else ctr + 1)
      ensures |clock.feed| <= old(|clock.feed|) && (!exhausted ==> |clock.feed| < old(|clock.feed|))
      ensures if exhausted
              then Carried(entry, 0) && (fips ==> |entry.pass.stream| <= PassBound(recoveries > entry.pass.first))
              else Going(entry, |clock.feed|, if stuck then ctr else ctr + 1)
      decreases |clock.feed|, 1, 1
    {
      hide Tables, LoopIterations, RctMemCutoff, RctMemPermanentCutoff, RctPermanentCutoff, Parts, Paid, RunsBound,
        IsStuck, Next, Tracing, Measured, AfterTests, AfterMemory, CappedAt, SpacedAt, Spent, Yield.Plus, Yield.Covers,
        RandData.CalmNow, Failures.Within, OnlyFrom, BlockBound, Raised;
      RctMemCutoffsOrdered(osr, ntg1);
      RctPermanentInRange(osr, ntg1);
      Iterations(osr, fips);
      ghost var before, feed := PassNow(), clock.feed;
      ghost var used := |entry.pass.stream| - |clock.feed|;
      ghost var run := rct.count;
      ghost var yielded := unstuck;
      stuck, exhausted := Measure(clock, source);
      WithinChain(entry.failures, before.failures, failures);
      YieldStep(entry.unstuck, yielded, unstuck, source, ctr, if exhausted || stuck then 0 else 1);
      PlusIsOnly(entry.unstuck, source, if exhausted || stuck then ctr else ctr + 1);
      if fips {
        TracingStep(Rate(), Nosr(), entry, before, PassNow(), feed, clock.feed, ctr, stuck, exhausted);
        SpentStep(used, ctr, run, stuck, rct.count, failures.Any(), Nosr(), Cutoff(),
                  Surcharge(before.recoveries > entry.pass.first));
        SpentRecovery(used, ctr, run, |entry.pass.stream| - |clock.feed|, stuck, rct.count, failures.Any(), Nosr(),
                      Cutoff(), RecoveryBound());
      }
    }

    /** A window of the test with memory starts. */
    method OpenWindow()
      requires Valid()
      modifies this`memCtr, this`memNosr
      ensures Valid() && Counting() && Ready() && memCtr == 0 && memNosr == Nosr()
      ensures DATA_SIZE_BITS <= Nosr() && 0 < Cutoff()
    {
      hide Tables, LoopIterations, RctMemCutoff, RctMemPermanentCutoff, RctPermanentCutoff, Parts, CappedAt, SpacedAt;
      Iterations(osr, fips);
      RctPermanentInRange(osr, ntg1);
      CapRestart(memCtr, memNosr, memCount, memCutoff, LoopIterations(osr, fips));
      memCtr := 0;
      memNosr := LoopIterations(osr, fips);
    }

    /** jent_random_data_one.  The safety measure against a short window, which raises the permanent bit of the test
        with memory, never applies. */
    method RandomDataOne(clock: Clock, source: Source, ghost calmFrom: nat) returns (exhausted: bool)
      requires Valid() && clock !in Footprint()
      modifies Footprint(), clock
      ensures Valid() && old(failures).Within(failures) && (exhausted ==> clock.feed == [])
      ensures |clock.feed| <= old(|clock.feed|)
      ensures !exhausted ==> inRecovery == old(inRecovery) && Ready() && memNosr == Nosr()
      ensures !exhausted && old(inRecovery) ==> Counting()
      ensures old(recoveries) <= recoveries <= old(recoveries) + 1
      ensures old(inRecovery) ==> recoveries == old(recoveries)
      ensures fips ==> old(|clock.feed|) - |clock.feed| <= PassBound(recoveries > old(recoveries))
      ensures !exhausted && !failures.Any() ==> memCtr == memNosr == Nosr() && memCount < memCutoff
      ensures !exhausted && !failures.Any() && fips ==> Settled()
      ensures !exhausted && !fips ==> memCtr == memNosr == Nosr()
      ensures !exhausted ==> startup == if recoveries > old(recoveries) then AfterRecovery(old(startup)) else old(startup)
      ensures !exhausted && !old(Failing()) ==> |clock.feed| < old(|clock.feed|)
      ensures unstuck.Covers(old(unstuck))
      ensures !exhausted && !Failing() ==> unstuck.Covers(old(unstuck).Plus(source, Nosr()))
      ensures !exhausted && !Failing() && recoveries == old(recoveries) ==> unstuck == old(unstuck).Plus(source, Nosr())
      ensures recoveries == old(recoveries) ==> OnlyFrom(source, old(unstuck), unstuck)
      ensures fips && !old(failures.Any()) ==>
                PassOutcome(Rate(), Nosr(), old(Pass(TestsNow(), clock.feed, inRecovery, recoveries)), PassNow(),
                            clock.feed)
      ensures fips && old(!failures.Any() && CalmsAt(Rate(), Nosr(), inRecovery, TestsNow(), clock.feed, calmFrom)) ==>
                CalmNow(clock.feed) && (calmFrom == 0 ==> recoveries == old(recoveries))
      ensures old(Failing()) ==> recoveries == old(recoveries) && unstuck == old(unstuck)
      decreases |clock.feed|, 2
    {
      hide Tables, LoopIterations, RctMemCutoff, RctMemPermanentCutoff, RctPermanentCutoff, Parts, Paid, RunsBound,
        Fires, Counted, CappedAt, SpacedAt, Failures.Any, Failures.Within, RandData.Spaced, PassOutcome, TestsNow,
        PassNow, CrossesIn, StopsIn, RandData.Traced, CalmsAt, RandData.CalmNow;
      PaidStep(0, Cutoff());
      WithinItself(failures);
      ghost var pass := Pass(TestsNow(), clock.feed, inRecovery, recoveries);
      ghost var entry := Entry(pass, source, failures, unstuck, startup, calmFrom);
      OpenWindow();
      if memNosr < DATA_SIZE_BITS {
        assert false;
      }
      var ctr := 0;
      exhausted := false;
      if fips && !failures.Any() {
        PassStarts(entry);
      }
      while !Failing()
        invariant Valid() && Going(entry, |clock.feed|, ctr) && 0 <= ctr < memNosr
        invariant fips && !old(failures.Any()) ==> Traced(entry, clock.feed, ctr)
        invariant |clock.feed| <= old(|clock.feed|) && (old(Failing()) ==> |clock.feed| == old(|clock.feed|))
        decreases |clock.feed|
      {
        var stuck;
        stuck, exhausted := MeasureInPass(clock, source, entry, ctr);
        if exhausted {
          if fips {
            PassEnds(entry, clock.feed, ctr);
          }
          return;
        }
        if stuck {
          continue;
        }
        ctr := ctr + 1;
        if ctr >= memNosr {
          break;
        }
      }
      PaidMonotone(ctr, memNosr, Cutoff());
      if fips && !old(failures.Any()) {
        PassEnds(entry, clock.feed, ctr);
      }
    }

    /** A startup stage: one pass, the next stage, and the health tests initialized again. */
    method Stage(clock: Clock, source: Source, ghost calmFrom: nat) returns (exhausted: bool)
      requires Valid() && clock !in Footprint()
      modifies Footprint(), clock
      ensures Valid() && old(failures).Within(failures) && (exhausted ==> clock.feed == [])
      ensures |clock.feed| <= old(|clock.feed|)
      ensures !exhausted ==> inRecovery == old(inRecovery) && Idle() && Ready() && memNosr == Nosr()
      ensures !exhausted && old(inRecovery) ==> Counting()
      ensures old(recoveries) <= recoveries <= old(recoveries) + 1
      ensures old(inRecovery) ==> recoveries == old(recoveries)
      ensures fips ==> old(|clock.feed|) - |clock.feed| <= PassBound(recoveries > old(recoveries))
      ensures !exhausted && fips && !failures.Any() ==> Settled()
      ensures !exhausted ==>
                startup == Decrement(if recoveries > old(recoveries) then AfterRecovery(old(startup)) else old(startup))
      ensures !exhausted && !old(Failing()) ==> |clock.feed| < old(|clock.feed|)
      ensures unstuck.Covers(old(unstuck))
      ensures !exhausted && !Failing() ==> unstuck.Covers(old(unstuck).Plus(source, Nosr()))
      ensures !exhausted && !Failing() && recoveries == old(recoveries) ==> unstuck == old(unstuck).Plus(source, Nosr())
      ensures recoveries == old(recoveries) ==> OnlyFrom(source, old(unstuck), unstuck)
      ensures old(Failing()) ==> unstuck == old(unstuck)
      ensures fips && !old(failures.Any() || inRecovery) ==>
                && (recoveries > old(recoveries) <==> old(CrossesIn(Rate(), Nosr(), TestsNow(), clock.feed)))
                && (recoveries == old(recoveries) ==>
                      PassLeft(Rate(), Nosr(), old(TestsNow()), old(clock.feed), clock.feed, failures.Any()))
                && (recoveries == old(recoveries) && !exhausted && !failures.Any() ==>
                      var measured := old(clock.feed)[..old(|clock.feed|) - |clock.feed|];
                      TestsNow() == After(old(TestsNow()), measured).(run := 0))
      ensures fips && old(!failures.Any() && CalmsAt(Rate(), Nosr(), inRecovery, TestsNow(), clock.feed, calmFrom)) ==>
                CalmNow(clock.feed) && (calmFrom == 0 ==> recoveries == old(recoveries))
      ensures old(Failing()) ==> recoveries == old(recoveries)
      decreases |clock.feed|, 3
    {
      hide Tables, LoopIterations, RctMemCutoff, RctMemPermanentCutoff, RctPermanentCutoff, Parts, Paid, BlockBound,
        RunsBound, TestsNow, CrossesIn, StopsIn, CappedAt, SpacedAt, PassLeft, CalmsAt, Calm, MemHits;
      exhausted := RandomDataOne(clock, source, calmFrom);
      if exhausted {
        return;
      }
      startup := Decrement(startup);
      if CalmNow(clock.feed) {
        CalmAfresh(Rate(), TestsNow(), clock.feed);
      }
      HealthInit();
    }

    /** The stages of startup: one pass for each independent noise source. */
    method BothStages(clock: Clock, ghost calmFrom: nat) returns (exhausted: bool)
      requires Valid() && clock !in Footprint() && startup == MEMORY_STAGE
      modifies Footprint(), clock
      ensures Valid() && old(failures).Within(failures) && (exhausted ==> clock.feed == [])
      ensures |clock.feed| <= old(|clock.feed|)
      ensures !exhausted ==> inRecovery == old(inRecovery) && Idle() && Ready() && memNosr == Nosr()
      ensures !exhausted && old(inRecovery) ==> Counting()
      ensures old(recoveries) <= recoveries <= old(recoveries) + 2
      ensures old(inRecovery) ==> recoveries == old(recoveries)
      ensures fips && recoveries == old(recoveries) ==>
                old(|clock.feed|) - |clock.feed| <= 2 * BlockBound(Nosr(), Cutoff())
      ensures fips ==> old(|clock.feed|) - |clock.feed| <= 2 * PassBound(true)
      ensures !exhausted && fips && !failures.Any() ==> Settled()
      ensures !exhausted ==> if recoveries == old(recoveries) then startup == COMPLETED else startup > MEMORY_STAGE
      ensures !exhausted && !old(Failing()) ==> |clock.feed| < old(|clock.feed|)
      ensures unstuck.Covers(old(unstuck))
      ensures !exhausted && !Failing() ==> unstuck.Covers(Delivered(old(unstuck), MEMORY_STAGE, Nosr()))
      ensures fips && !old(failures.Any() || inRecovery) ==>
                (recoveries > old(recoveries) <==> old(StagesCross(Rate(), Nosr(), TestsNow(), clock.feed)))
      ensures fips && !old(failures.Any() || inRecovery) && !exhausted && recoveries > old(recoveries) ==>
                startup == 0x1_0000_0000 - if old(CrossesIn(Rate(), Nosr(), TestsNow(), clock.feed)) then 2 else 1
      ensures recoveries == old(recoveries) && unstuck.hash != old(unstuck).hash ==>
                unstuck.memory == old(unstuck).memory + Nosr()
      ensures fips && old(!failures.Any() && CalmsAt(Rate(), Nosr(), inRecovery, TestsNow(), clock.feed, calmFrom)) ==>
                CalmNow(clock.feed) && (calmFrom == 0 ==> recoveries == old(recoveries))
      decreases |clock.feed|, 4
    {
      hide Tables, LoopIterations, RctMemCutoff, RctMemPermanentCutoff, RctPermanentCutoff, Parts, Paid, BlockBound,
        RunsBound, TestsNow, CappedAt, SpacedAt, CrossesIn, StagesCross, PassLeft, CalmsAt, Calm, After;
      ghost var tests, feed := TestsNow(), clock.feed;
      exhausted := Stage(clock, MemoryAccess, calmFrom);
      if fips && !old(failures.Any() || inRecovery) {
        if recoveries == old(recoveries) {
          SecondDecides(Rate(), Nosr(), tests, feed, clock.feed, failures.Any());
          NothingCrosses(Rate(), Nosr(), After(tests, feed[..|feed| - |clock.feed|]).(run := 0));
        } else {
          FirstDecides(Rate(), Nosr(), tests, feed);
        }
      }
      if exhausted {
        return;
      }
      if Calm(Rate(), TestsNow(), clock.feed) {
        CalmFromStart(Rate(), Nosr(), inRecovery, TestsNow(), clock.feed);
      }
      exhausted := Stage(clock, HashLoop, 0);
    }

    /** The priming measurement in front of a pass. */
    method Prime(clock: Clock) returns (exhausted: bool)
      requires Valid() && Ready() && clock !in Footprint()
      modifies Footprint(), clock
      ensures Valid() && old(failures).Within(failures) && (old(failures.Any()) ==> failures.Any())
      ensures exhausted ==> clock.feed == []
      ensures |clock.feed| <= old(|clock.feed|) && (!exhausted ==> |clock.feed| < old(|clock.feed|))
      ensures !exhausted ==> inRecovery == old(inRecovery)
      ensures old(recoveries) <= recoveries <= old(recoveries) + 1
      ensures old(inRecovery) || old(Idle() && !failures.Any()) ==> recoveries == old(recoveries)
      ensures fips && recoveries == old(recoveries) ==> old(|clock.feed|) - |clock.feed| <= 1
      ensures fips ==> old(|clock.feed|) - |clock.feed| <= 1 + RecoveryBound()
      ensures !exhausted && !(0 < old(startup) <= MEMORY_STAGE) ==> startup == old(startup)
      ensures unstuck.Covers(old(unstuck))
      ensures recoveries == old(recoveries) ==> OnlyFrom(Combined, old(unstuck), unstuck)
      ensures old(clock.feed != [] && !failures.Any() && Idle()) ==>
                && !exhausted && clock.feed == old(clock.feed)[1..]
                && TestsNow() == Next(old(TestsNow()), old(clock.feed)[0])
                && (failures.Any() <==> old(Alarms(Rate(), TestsNow(), clock.feed[0])))
      ensures old(CalmNow(clock.feed) && memCount < memCutoff) ==> CalmNow(clock.feed) && recoveries == old(recoveries)
      decreases |clock.feed|, 3
    {
      hide Tables, LoopIterations, RctMemCutoff, RctMemPermanentCutoff, RctPermanentCutoff, Parts, Paid, BlockBound,
        RunsBound, IsStuck, AfterTests, AfterMemory, Next, TestsNow, Measured, CappedAt, SpacedAt, Calm,
        Failures.Within, Failures.Any, Alarms, OnlyFrom, Yield.Plus, Yield.Covers;
      RctMemCutoffsOrdered(osr, ntg1);
      PlusIsOnly(unstuck, Combined, 0);
      YieldGrows(unstuck, Combined, 0);
      if clock.feed != [] && !failures.Any() {
        PrimingDelta(clock.feed);
      }
      var stuck;
      stuck, exhausted := Measure(clock, Combined);
      YieldStep(old(unstuck), old(unstuck), unstuck, Combined, 0, if exhausted || stuck then 0 else 1);
      PlusIsOnly(old(unstuck), Combined, if exhausted || stuck then 0 else 1);
      WithinItself(old(failures));
      WithinChain(old(failures), old(failures), failures);
    }

    /** Outside startup: a priming measurement and one pass. */
    method PrimedPass(clock: Clock) returns (exhausted: bool)
      requires Valid() && Ready() && clock !in Footprint()
      modifies Footprint(), clock
      ensures Valid() && old(failures).Within(failures) && (exhausted ==> clock.feed == [])
      ensures |clock.feed| <= old(|clock.feed|)
      ensures !exhausted ==> inRecovery == old(inRecovery) && Idle() && Ready() && memNosr == Nosr()
      ensures !exhausted && old(inRecovery) ==> Counting()
      ensures old(recoveries) <= recoveries <= old(recoveries) + 2
      ensures old(inRecovery) ==> recoveries == old(recoveries)
      ensures old(Idle() && !failures.Any()) ==> recoveries <= old(recoveries) + 1
      ensures fips && recoveries == old(recoveries) ==>
                old(|clock.feed|) - |clock.feed| <= 1 + BlockBound(Nosr(), Cutoff())
      ensures fips ==> old(|clock.feed|) - |clock.feed| <= 1 + 2 * PassBound(true)
      ensures !exhausted && fips && !failures.Any() ==> Settled()
      ensures !exhausted && !(0 < old(startup) <= MEMORY_STAGE) ==> startup == old(startup)
      ensures !exhausted && !old(Failing()) ==> |clock.feed| < old(|clock.feed|)
      ensures unstuck.Covers(old(unstuck))
      ensures !exhausted && !Failing() ==> unstuck.Covers(old(unstuck).Plus(Combined, Nosr()))
      ensures recoveries == old(recoveries) ==> OnlyFrom(Combined, old(unstuck), unstuck)
      ensures fips && old(clock.feed != [] && !failures.Any() && !inRecovery && Idle()) ==>
                (recoveries > old(recoveries) <==>
                   old(!Alarms(Rate(), TestsNow(), clock.feed[0])
                       && CrossesIn(Rate(), Nosr(), Next(TestsNow(), clock.feed[0]), clock.feed[1..])))
      ensures fips && old(CalmNow(clock.feed) && memCount < memCutoff) ==>
                CalmNow(clock.feed) && recoveries == old(recoveries) && (!exhausted ==> memCount < memCutoff)
      decreases |clock.feed|, 4
    {
      hide Tables, LoopIterations, RctMemCutoff, RctMemPermanentCutoff, RctPermanentCutoff, Parts, Paid, BlockBound,
        RunsBound, Next, TestsNow, PassOutcome, CappedAt, SpacedAt, CalmsAt, Calm, Failures.Within, Failures.Any,
        CrossesIn, Alarms, OnlyFrom, Yield.Plus, Yield.Covers;
      YieldGrows(unstuck, Combined, 0);
      exhausted := Prime(clock);
      if exhausted {
        NothingCrosses(Rate(), Nosr(), TestsNow());
        return;
      }
      ghost var before, primed := failures, unstuck;
      if Calm(Rate(), TestsNow(), clock.feed) {
        CalmFromStart(Rate(), Nosr(), inRecovery, TestsNow(), clock.feed);
      }
      ghost var pass := Pass(TestsNow(), clock.feed, inRecovery, recoveries);
      exhausted := RandomDataOne(clock, Combined, 0);
      OutcomeRecovers(Rate(), Nosr(), pass, PassNow(), clock.feed);
      WithinChain(old(failures), before, failures);
      OnlyChain(Combined, old(unstuck), primed, unstuck, Nosr());
    }

    /** jent_random_data: during startup one pass for each independent noise source, afterwards a priming
        measurement and one pass. */
    method RandomData(clock: Clock) returns (exhausted: bool)
      requires Valid() && Ready() && clock !in Footprint()
      modifies Footprint(), clock
      ensures Valid() && old(failures).Within(failures) && (exhausted ==> clock.feed == [])
      ensures |clock.feed| <= old(|clock.feed|)
      ensures !exhausted ==> inRecovery == old(inRecovery) && Idle() && Ready() && memNosr == Nosr()
      ensures !exhausted && old(inRecovery) ==> Counting()
      ensures old(recoveries) <= recoveries <= old(recoveries) + 2
      ensures old(inRecovery) ==> recoveries == old(recoveries)
      ensures old(Idle() && !failures.Any() && !(0 < startup <= MEMORY_STAGE)) ==> recoveries <= old(recoveries) + 1
      ensures fips && recoveries == old(recoveries) ==>
                old(|clock.feed|) - |clock.feed| <= 1 + 2 * BlockBound(Nosr(), Cutoff())
      ensures fips ==> old(|clock.feed|) - |clock.feed| <= 1 + 2 * PassBound(true)
      ensures fips && old(|clock.feed|) > 1 + 2 * PassBound(true) ==> !exhausted
      ensures !exhausted && fips && !failures.Any() ==> Settled()
      ensures !exhausted && !(0 < old(startup) <= MEMORY_STAGE) ==> startup == old(startup)
      ensures !exhausted && 0 < old(startup) <= MEMORY_STAGE ==>
                if recoveries == old(recoveries) then startup == COMPLETED else startup > MEMORY_STAGE
      ensures !exhausted && !old(Failing()) ==> |clock.feed| < old(|clock.feed|)
      ensures fips && !old(failures.Any() || inRecovery) && old(startup == SHA3_STAGE) ==>
                (recoveries > old(recoveries) <==> old(CrossesIn(Rate(), Nosr(), TestsNow(), clock.feed)))
      ensures fips && !old(failures.Any() || inRecovery) && old(startup == MEMORY_STAGE) ==>
                (recoveries > old(recoveries) <==> old(StagesCross(Rate(), Nosr(), TestsNow(), clock.feed)))
      ensures fips && !old(failures.Any() || inRecovery) && !exhausted && recoveries > old(recoveries)
              && old(startup == MEMORY_STAGE) ==>
                startup == 0x1_0000_0000 - if old(CrossesIn(Rate(), Nosr(), TestsNow(), clock.feed)) then 2 else 1
      ensures recoveries == old(recoveries) && old(startup) == MEMORY_STAGE && unstuck.hash != old(unstuck).hash ==>
                unstuck.memory == old(unstuck).memory + Nosr()
      ensures recoveries == old(recoveries) && !(0 < old(startup) <= MEMORY_STAGE) ==>
                OnlyFrom(Combined, old(unstuck), unstuck)
      ensures fips && old(clock.feed != [] && !failures.Any() && !inRecovery && Idle() && !(0 < startup <= 2)) ==>
                (recoveries > old(recoveries) <==>
                   old(!Alarms(Rate(), TestsNow(), clock.feed[0])
                       && CrossesIn(Rate(), Nosr(), Next(TestsNow(), clock.feed[0]), clock.feed[1..])))
      ensures fips && old(CalmNow(clock.feed) && memCount < memCutoff) ==>
                CalmNow(clock.feed) && recoveries == old(recoveries) && (!exhausted ==> memCount < memCutoff)
      ensures fips && !old(failures.Any() || inRecovery) && old(startup == MEMORY_STAGE) ==>
                old(CrossesCalmly(Rate(), Nosr(), TestsNow(), clock.feed)) ==>
                  CalmNow(clock.feed) && (!exhausted ==> memCount < memCutoff)
      ensures unstuck.Covers(old(unstuck))
      ensures !exhausted && !Failing() ==> unstuck.Covers(Delivered(old(unstuck), old(startup), Nosr()))
      decreases |clock.feed|, 5, 0
    {
      hide Tables, LoopIterations, RctMemCutoff, RctMemPermanentCutoff, RctPermanentCutoff, Parts, Paid, BlockBound,
        RunsBound, TestsNow, CappedAt, SpacedAt, CrossesIn, StagesCross, PassLeft, CalmsAt, Calm, RandData.Cutoff,
        Alarms, Next, OnlyFrom;
      if startup == MEMORY_STAGE {
        ghost var k := CalmingPoint(Rate(), Nosr(), TestsNow(), clock.feed);
        if Calm(Rate(), TestsNow(), clock.feed) {
        CalmFromStart(Rate(), Nosr(), inRecovery, TestsNow(), clock.feed);
      }
        exhausted := BothStages(clock, k);
      } else if startup == SHA3_STAGE {
        if Calm(Rate(), TestsNow(), clock.feed) {
        CalmFromStart(Rate(), Nosr(), inRecovery, TestsNow(), clock.feed);
      }
        exhausted := Stage(clock, HashLoop, 0);
      } else {
        exhausted := PrimedPass(clock);
      }
    }
  }

  lemma DeltaZero(prev: Word, next: Word)
    ensures Delta(prev, next) == 0 <==> prev == next
  {
  }
}
