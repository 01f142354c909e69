/** Allocating, reading and replacing collectors (jitterentropy-base.c): a collector whose health tests fail is
    replaced with one of a higher oversampling rate, a larger memory and a longer hash loop, which keeps the
    identity and the totals of the first. */
module Ladder {
  import opened Basics
  import opened Collector
  import opened DeltaStream
  import opened Sizing
  import opened Apt
  import opened Cutoffs

  const MIN_OSR: nat := 3
  const MAX_OSR: nat := 20
  const UUID_LENGTH: nat := 36
  const SSIZE_MAX: nat := 0x7FFF_FFFF_FFFF_FFFF

  /** What the library gets from the platform: time deltas, cache sizes, whether the system is in FIPS mode, and
      operations that may fail. */
  class Host {
    const clock: Clock
    const caches: Caches
    const fips: bool
    var selfTestRun: bool

    /** How many power-up tests have failed, and how many reasons there have been not to get a collector: failed
        tests, failed operations, and ladders that ended at the highest rate. */
    ghost var failedTests: nat
    ghost var setbacks: nat

    /** How often a collector in use was refused a replacement. */
    ghost var refusals: nat

    constructor (clock: Clock, caches: Caches, fips: bool)
      ensures this.clock == clock && this.caches == caches && this.fips == fips && !selfTestRun
      ensures failedTests == setbacks == refusals == 0
    {
      this.clock, this.caches, this.fips, selfTestRun := clock, caches, fips, false;
      failedTests, setbacks, refusals := 0, 0, 0;
    }

    /** An allocation, or starting or probing the internal timer: it succeeds or fails. */
    method Try() returns (ok: bool)
      modifies this`setbacks
      ensures setbacks == old(setbacks) + if ok then 0 else 1
    {
      ok := *;
      setbacks := setbacks + if ok then 0 else 1;
    }

    /** jent_entropy_init_ex: the power-up test with some rate and flags passes or not. */
    method PowerUpTest(osr: nat, flags: bv32) returns (ok: bool)
      modifies this`selfTestRun, this`failedTests, this`setbacks
      ensures selfTestRun == ok && failedTests == old(failedTests) + if ok then 0 else 1
      ensures setbacks == old(setbacks) + if ok then 0 else 1
    {
      ok := *;
      selfTestRun := ok;
      if !ok {
        failedTests, setbacks := failedTests + 1, setbacks + 1;
      }
    }

    /** jent_uuid_generate */
    method NewUuid() returns (uuid: string)
      ensures |uuid| == UUID_LENGTH
    {
      uuid := *;
      if |uuid| != UUID_LENGTH {
        uuid := seq(UUID_LENGTH, _ => '0');
      }
    }
  }

  function EnsureMinimalOsr(osr: nat): nat {
    if osr < MIN_OSR then MIN_OSR else osr
  }

  predicate FipsMode(flags: bv32, fips: bool) {
    Has(flags, FORCE_FIPS) || fips || Has(flags, NTG1)
  }

  predicate BothTimers(flags: bv32) {
    Has(flags, DISABLE_INTERNAL_TIMER) && Has(flags, FORCE_INTERNAL_TIMER)
  }

  /** Flags no collector is allocated for. */
  predicate Contradictory(flags: bv32, fips: bool) {
    || BothTimers(flags)
    || (Has(flags, DISABLE_MEMORY_ACCESS) && FipsMode(flags, fips))
  }

  /** The error code of jent_read_entropy for a health failure: permanent failures first. */
  function HealthCode(f: Failures): int {
    if f.rctPermanent then -6
    else if f.aptPermanent then -7
    else if f.rctMemPermanent then -10
    else if f.rct then -2
    else if f.apt then -3
    else if f.rctMem then -9
    else -5
  }

  predicate Intermittent(code: int) {
    code == -2 || code == -3 || code == -5 || code == -9
  }

  /** Which failure a code names: of the permanent ones the repetition count, the adaptive proportion test and the
      test with memory in this order, then the intermittent ones in the same order, then the lag test. */
  predicate Names(code: int, f: Failures) {
    var permanent := f.rctPermanent || f.aptPermanent || f.rctMemPermanent;
    && (code == -6 <==> f.rctPermanent)
    && (code == -7 <==> f.aptPermanent && !f.rctPermanent)
    && (code == -10 <==> f.rctMemPermanent && !f.aptPermanent && !f.rctPermanent)
    && (code == -2 <==> !permanent && f.rct)
    && (code == -3 <==> !permanent && f.apt && !f.rct)
    && (code == -9 <==> !permanent && f.rctMem && !f.apt && !f.rct)
    && (code == -5 <==> !permanent && f.lag && !f.rctMem && !f.apt && !f.rct)
  }

  /** The intermittent codes are those of failures without a permanent bit, and a code identifies its test. */
  lemma CodesClassify(f: Failures)
    ensures f.Any() ==> (Intermittent(HealthCode(f)) <==> !(f.rctPermanent || f.aptPermanent || f.rctMemPermanent))
    ensures f.Any() ==> Names(HealthCode(f), f)
    ensures f.Any() && HealthCode(f) == -6 ==> f.rctPermanent
    ensures f.Any() && HealthCode(f) == -7 ==> f.aptPermanent
    ensures f.Any() && HealthCode(f) == -2 ==> f.rct
    ensures f.Any() && HealthCode(f) == -3 ==> f.apt
    ensures f.Any() && HealthCode(f) == -9 ==> f.rctMem
    ensures f.Any() && HealthCode(f) == -5 ==> f.lag
  {
  }

  /** A collector with its identity and accounting. */
  class Instance {
    const core: RandData
    const flags: bv32
    var maxMemSet: bool
    var uuid: string
    var reinitCount: nat
    var readInvocations: nat
    var bytesOutput: nat

    ghost function Footprint(): set<object> {
      {this} + core.Footprint()
    }

    /** A replacement has a higher rate than what it replaces, so the rate bounds how many there were. */
    ghost predicate Valid(fips: bool)
      reads Footprint()
    {
      && core.Valid() && core.Idle() && core.Ready() && !core.inRecovery
      && core.fips == FipsMode(flags, fips) && core.ntg1 == Has(flags, NTG1)
      && MIN_OSR + reinitCount <= core.osr <= MAX_OSR
      && readInvocations < UINT64 && bytesOutput < UINT64
    }

    /** In FIPS mode the memory noise source is on and sized, and a size the caller set is a size. */
    ghost predicate Sized(c: Caches)
      reads this`maxMemSet
    {
      core.fips ==> Settled(flags, c) && (maxMemSet ==> MemField(flags) != 0)
    }

    constructor (core: RandData, flags: bv32, maxMemSet: bool)
      ensures this.core == core && this.flags == flags && this.maxMemSet == maxMemSet
      ensures uuid == "" && reinitCount == readInvocations == bytesOutput == 0
    {
      this.core, this.flags, this.maxMemSet := core, flags, maxMemSet;
      uuid, reinitCount, readInvocations, bytesOutput := "", 0, 0, 0;
    }
  }

  /** jent_entropy_collector_alloc_internal */
  method AllocInternal(host: Host, osr: nat, flags: bv32) returns (r: Instance?)
    modifies host`selfTestRun, host`failedTests, host`setbacks
    ensures Contradictory(flags, host.fips) || osr > MAX_OSR ==> r == null
    ensures r != null ==> host.selfTestRun && host.failedTests == old(host.failedTests)
    ensures host.setbacks >= old(host.setbacks)
    ensures r == null && !Contradictory(flags, host.fips) && osr <= 20 ==> host.setbacks > old(host.setbacks)
    ensures r == null && host.setbacks == old(host.setbacks) && osr <= 20 ==>
              || (Has(flags, DISABLE_INTERNAL_TIMER) && Has(flags, FORCE_INTERNAL_TIMER))
              || (Has(flags, DISABLE_MEMORY_ACCESS) && (Has(flags, FORCE_FIPS) || Has(flags, NTG1) || host.fips))
    ensures Has(flags, DISABLE_INTERNAL_TIMER) && Has(flags, FORCE_INTERNAL_TIMER) ==> r == null
    ensures Has(flags, DISABLE_MEMORY_ACCESS) && (Has(flags, FORCE_FIPS) || Has(flags, NTG1) || host.fips) ==> r == null
    ensures r != null ==>
              && fresh(r) && fresh(r.core.Footprint()) && r.Valid(host.fips) && r.Sized(host.caches)
              && r.core.osr == EnsureMinimalOsr(osr) && r.flags == Allocated(flags, host.caches)
              && r.core.osr == (if osr < 3 then 3 else osr) && r.core.osr <= 20
              && r.core.fips == FipsMode(flags, host.fips) && r.core.ntg1 == Has(flags, NTG1)
              && (r.core.fips <==> Has(flags, FORCE_FIPS) || Has(flags, NTG1) || host.fips)
              && r.maxMemSet == (MemField(flags) != 0)
              && r.core.failures == NO_FAILURES && r.core.recoveries == 0 && r.core.TestsNow() == START
              && r.core.startup == (if r.core.fips then MEMORY_STAGE else COMPLETED)
              && r.uuid == "" && r.reinitCount == r.readInvocations == r.bytesOutput == 0
  {
    hide Has, MemField, Allocated, Settled, RandData.Valid, RandData.Ready, RandData.Idle;
    if Has(flags, DISABLE_INTERNAL_TIMER) && Has(flags, FORCE_INTERNAL_TIMER) {
      return null;
    }
    if Has(flags, DISABLE_MEMORY_ACCESS) && (Has(flags, NTG1) || Has(flags, FORCE_FIPS) || host.fips) {
      return null;
    }
    var rate := EnsureMinimalOsr(osr);
    if rate > MAX_OSR {
      return null;
    }
    if !host.selfTestRun {
      var tested := host.PowerUpTest(rate, flags);
      if !tested {
        return null;
      }
    }
    var ok := host.Try();
    if !ok {
      return null;
    }
    var fips := FipsMode(flags, host.fips);
    var core := new RandData(rate, fips, Has(flags, NTG1), if fips then MEMORY_STAGE else COMPLETED);
    AllocatedMode(flags, host.caches);
    if fips {
      AllocatedSettled(flags, host.caches);
      FieldStaysSet(flags, false, host.caches);
    }
    r := new Instance(core, Allocated(flags, host.caches), MemField(flags) != 0);
  }

  /** Sizing the flags does not change the mode. */
  lemma AllocatedMode(flags: bv32, c: Caches)
    ensures Has(Allocated(flags, c), NTG1) == Has(flags, NTG1)
    ensures Has(Allocated(flags, c), FORCE_FIPS) == Has(flags, FORCE_FIPS)
  {
    hide UpdateMemsize, UpdateHashloop, MemField, HashField, OtherBits, Has, DefaultField, Min, Plus, TimerOff;
    var timer := if Has(flags, NTG1) then TimerOff(flags) else flags;
    TimerOffOnly(flags);
    UpdateMemsizeFields(timer, 0, c);
    var sized := if Has(timer, DISABLE_MEMORY_ACCESS) then timer else UpdateMemsize(timer, 0, c);
    UpdateHashloopFields(sized, 0);
    SameFlag(timer, sized);
    SameFlag(sized, UpdateHashloop(sized, 0));
  }

  /** The rate and the flags of the replacement: one step up, and further until the power-up test passes. */
  method NextStep(host: Host, ec: Instance) returns (ok: bool, osr: nat, flags: bv32)
    modifies host`selfTestRun, host`failedTests, host`setbacks
    ensures host.setbacks >= old(host.setbacks) && (!ok ==> host.setbacks > old(host.setbacks))
    ensures ok ==> host.selfTestRun && osr == ec.core.osr + 1 + (host.failedTests - old(host.failedTests))
    ensures !ok ==> ec.core.osr + (host.failedTests - old(host.failedTests)) == MAX_OSR || ec.core.osr > MAX_OSR
    ensures ok ==> ec.core.osr < osr <= MAX_OSR && flags == Enlarged(ec.flags, ec.maxMemSet, host.caches)
    ensures ec.core.osr >= MAX_OSR ==> !ok
  {
    hide UpdateMemsize, UpdateHashloop;
    osr := ec.core.osr + 1;
    flags := ec.flags;
    if osr > MAX_OSR {
      host.setbacks := host.setbacks + 1;
      return false, osr, flags;
    }
    if !ec.maxMemSet {
      flags := UpdateMemsize(flags, 1, host.caches);
    }
    flags := UpdateHashloop(flags, 1);
    ok := host.PowerUpTest(osr, flags);
    while !ok
      invariant ec.core.osr < osr <= MAX_OSR
      invariant host.selfTestRun == ok
      invariant host.setbacks >= old(host.setbacks) && (!ok ==> host.setbacks > old(host.setbacks))
      invariant osr + (if ok then 0 else 1) == ec.core.osr + 1 + (host.failedTests - old(host.failedTests))
      decreases MAX_OSR - osr
    {
      osr := osr + 1;
      if osr > MAX_OSR {
        return;
      }
      ok := host.PowerUpTest(osr, flags);
    }
  }

  /** The count that a replacement starts its repetition count test with is one a stuck measurement raises no alarm
      at, but in NTG.1 mode, where the cutoffs are divided and the count is not, the permanent one. */
  lemma DuplicatedCount(osr: nat, ntg1: bool)
    requires 0 < osr <= 20
    ensures Verdict(30 * osr + 1, RctCutoff(osr, ntg1), RctPermanentCutoff(osr, ntg1))
         == if ntg1 then Permanent else NoAlarm
  {
  }

  /** What the replacement takes over: the state of the health tests, the identity and the totals. */
  method TakeOver(r: Instance, ec: Instance, fips: bool)
    requires r.Valid(fips) && ec.Valid(fips) && r != ec && r.core.Footprint() !! ec.core.Footprint()
    requires r.core.fips && ec.core.fips && r.core.ntg1 == ec.core.ntg1 && ec.core.osr < r.core.osr
    requires r.core.failures == NO_FAILURES
    modifies r.Footprint()
    ensures r.Valid(fips) && r.core.failures == NO_FAILURES && r.core.startup == old(r.core.startup)
    ensures r.core.recoveries == old(r.core.recoveries)
    ensures r.maxMemSet == ec.maxMemSet && r.uuid == ec.uuid && r.reinitCount == ec.reinitCount + 1
    ensures r.readInvocations == ec.readInvocations && r.bytesOutput == ec.bytesOutput
    ensures r.core.memCtr == old(r.core.memCtr) && r.core.lag.window == ec.core.lag.window
    ensures r.core.rct.count == 30 * r.core.osr
  {
    hide Has, RandData.Valid, RandData.Ready, RandData.Idle;
    r.maxMemSet := ec.maxMemSet;
    r.core.TakeOver(ec.core);
    r.uuid := ec.uuid;
    r.reinitCount := ec.reinitCount + 1;
    r.readInvocations, r.bytesOutput := ec.readInvocations, ec.bytesOutput;
  }

  /** What a startup may take: a pass for every rate. */
  const STARTUP_BOUND: nat := 18 * MAX_PASS

  /** A new collector that can take the place of ec. */
  ghost predicate Replaces(r: Instance, ec: Instance, c: Caches, fips: bool, startup: bool)
    reads r.Footprint(), ec.Footprint()
  {
    && r.Valid(fips) && r.core.failures == NO_FAILURES
    && r.core.fips && r.core.ntg1 == ec.core.ntg1 && ec.core.osr < r.core.osr
    && r.core.startup == (if startup then MEMORY_STAGE else COMPLETED) && r.core.recoveries == 0
    && Settled(r.flags, c) && (ec.maxMemSet ==> MemField(r.flags) != 0)
    && NoSmaller(ec.flags, ec.maxMemSet, r.flags) && Doubled(ec.flags, ec.maxMemSet, r.flags)
  }

  /** The allocation that jent_health_failure_reset is told to use: the bare one during startup, the whole one
      later. */
  method Allocate(host: Host, ec: Instance, osr: nat, flags: bv32, startup: bool)
    returns (r: Instance?, exhausted: bool, ghost recovered: bool)
    requires ec.Valid(host.fips) && ec.Sized(host.caches) && ec.core.fips
    requires ec.core.osr < osr <= MAX_OSR && flags == Enlarged(ec.flags, ec.maxMemSet, host.caches)
    modifies host, host.clock
    ensures |host.clock.feed| <= old(|host.clock.feed|) && (exhausted ==> host.clock.feed == [] && r == null)
    ensures startup ==> host.clock.feed == old(host.clock.feed) && !exhausted
    ensures !recovered ==> old(|host.clock.feed|) - |host.clock.feed| <= STARTUP_BOUND
    ensures r != null ==> host.selfTestRun
    ensures host.setbacks >= old(host.setbacks) && host.refusals == old(host.refusals)
    ensures r == null && !exhausted ==> host.setbacks > old(host.setbacks) || BothTimers(ec.flags)
    ensures BothTimers(ec.flags) ==> r == null && !exhausted
    ensures r != null && startup ==> r.reinitCount == 0 && host.failedTests == old(host.failedTests)
    ensures r != null ==> r.core.osr == osr + r.reinitCount + (host.failedTests - old(host.failedTests))
    ensures r != null ==>
              && fresh(r) && fresh(r.core.Footprint())
              && Replaces(r, ec, host.caches, host.fips, startup)
    decreases if startup then 0 else 3, 0
  {
    hide Has, MemField, Allocated, Enlarged, Settled, NoSmaller, Doubled, BothTimers, RandData.Valid, RandData.Ready,
      RandData.Idle;
    exhausted, recovered := false, false;
    EnlargedMode(ec.flags, ec.maxMemSet, host.caches);
    if startup {
      r := AllocInternal(host, osr, flags);
    } else {
      r, exhausted, recovered := Alloc(host, osr, flags);
    }
    if r != null {
      ResetFlags(ec.flags, ec.maxMemSet, r.flags, host.caches, host.fips, startup);
    } else {
      EnlargedTimers(ec.flags, ec.maxMemSet, host.caches);
    }
  }

  /** Allocating for enlarged flags does not change the timer flags either. */
  lemma EnlargedTimers(flags: bv32, capped: bool, c: Caches)
    requires Settled(flags, c)
    ensures BothTimers(Allocated(Enlarged(flags, capped, c), c)) == BothTimers(flags)
    ensures !Has(flags, DISABLE_MEMORY_ACCESS)
  {
    hide Has, Allocated, Enlarged, NoSmaller, MemField, OtherBits;
    Replacement(flags, capped, c);
    NoSmallerTimers(flags, capped, Allocated(Enlarged(flags, capped, c), c));
  }

  /** jent_health_failure_reset; null if it fails, and then the old collector is left as it is.  `inner` says how
      often the replacement was itself replaced during its startup. */
  method Reset(host: Host, ec: Instance, startup: bool)
    returns (r: Instance?, exhausted: bool, ghost recovered: bool, ghost inner: nat)
    requires ec.Valid(host.fips) && ec.Sized(host.caches) && ec.core.Failing()
    modifies host, host.clock
    ensures |host.clock.feed| <= old(|host.clock.feed|) && (exhausted ==> host.clock.feed == [] && r == null)
    ensures startup ==> host.clock.feed == old(host.clock.feed) && !exhausted
    ensures !recovered ==> old(|host.clock.feed|) - |host.clock.feed| <= STARTUP_BOUND
    ensures ec.core.osr >= MAX_OSR ==> r == null && !exhausted
    ensures r != null ==> host.selfTestRun
    ensures host.setbacks >= old(host.setbacks)
    ensures host.refusals == old(host.refusals) + if r == null && !exhausted && !startup then 1 else 0
    ensures r == null && !exhausted ==> host.setbacks > old(host.setbacks) || BothTimers(ec.flags)
    ensures BothTimers(ec.flags) ==> r == null && !exhausted
    ensures r != null ==> r.core.osr == ec.core.osr + 1 + inner + (host.failedTests - old(host.failedTests))
    ensures startup ==> inner == 0
    ensures r != null ==>
              && fresh(r) && fresh(r.core.Footprint()) && r.Valid(host.fips) && r.Sized(host.caches)
              && ec.core.osr < r.core.osr && r.core.fips && r.core.failures == NO_FAILURES
              && r.core.ntg1 == ec.core.ntg1
              && r.core.startup == (if startup then MEMORY_STAGE else COMPLETED) && r.core.recoveries == 0
              && NoSmaller(ec.flags, ec.maxMemSet, r.flags) && Doubled(ec.flags, ec.maxMemSet, r.flags)
              && r.maxMemSet == ec.maxMemSet && r.uuid == ec.uuid && r.reinitCount == ec.reinitCount + 1
              && r.readInvocations == ec.readInvocations && r.bytesOutput == ec.bytesOutput
    decreases if startup then 0 else 3, 1
  {
    hide Has, MemField, Enlarged, Settled, NoSmaller, Doubled, RandData.Valid, RandData.Ready, RandData.Idle,
      Instance.Valid;
    exhausted, recovered, inner := false, false, 0;
    assert host !in ec.Footprint() && host.clock !in ec.Footprint();
    var ok, osr, flags := NextStep(host, ec);
    if ok {
      r, exhausted, recovered := Allocate(host, ec, osr, flags, startup);
    } else {
      r := null;
    }
    if r != null {
      inner := r.reinitCount;
      TakeOver(r, ec, host.fips);
    } else if !exhausted && !startup {
      host.refusals := host.refusals + 1;
    }
  }

  lemma ResetFlags(flags: bv32, capped: bool, next: bv32, c: Caches, fips: bool, startup: bool)
    requires Settled(flags, c) && FipsMode(flags, fips) && (capped ==> MemField(flags) != 0)
    requires var asked := Enlarged(flags, capped, c);
             if startup then next == Allocated(asked, c)
             else && NoSmaller(Allocated(asked, c), MemField(asked) != 0, next)
                  && (MemField(asked) != 0 ==> MemField(next) != 0)
    ensures NoSmaller(flags, capped, next) && (capped ==> MemField(next) != 0)
    ensures Doubled(flags, capped, next)
  {
    hide Has, MemField, Allocated, Enlarged, Settled, NoSmaller, Doubled, OtherBits;
    var asked := Enlarged(flags, capped, c);
    Replacement(flags, capped, c);
    NoSmallerItself(Allocated(asked, c), c);
    DoublesAtLeast(flags, capped, c, MemField(asked) != 0, next);
    FieldStaysSet(flags, capped, c);
    FieldStaysSet(asked, capped, c);
    if !startup {
      NoSmallerThenGrown(flags, capped, Allocated(asked, c), MemField(asked) != 0, next);
    }
  }

  lemma EnlargedMode(flags: bv32, capped: bool, c: Caches)
    ensures var asked := Enlarged(flags, capped, c);
            && Has(asked, NTG1) == Has(flags, NTG1) && Has(asked, FORCE_FIPS) == Has(flags, FORCE_FIPS)
            && Has(asked, DISABLE_MEMORY_ACCESS) == Has(flags, DISABLE_MEMORY_ACCESS)
            && BothTimers(asked) == BothTimers(flags)
  {
    hide UpdateMemsize, UpdateHashloop, MemField, HashField, OtherBits, Has, DefaultField, Min, Plus;
    UpdateMemsizeFields(flags, 1, c);
    var mem := if capped then flags else UpdateMemsize(flags, 1, c);
    UpdateHashloopFields(mem, 1);
    SameFlag(flags, mem);
    SameFlag(mem, Enlarged(flags, capped, c));
  }

  lemma NoSmallerTimers(flags: bv32, capped: bool, next: bv32)
    requires NoSmaller(flags, capped, next)
    ensures BothTimers(next) == BothTimers(flags)
  {
    hide Has, OtherBits;
    SameFlag(flags, next);
  }

  /** A collector in startup: it comes from a request for some rate and flags.  A startup state that has been
      counted down past completion is above every stage. */
  ghost predicate Starting(ec: Instance, c: Caches, fips: bool, osr: nat, flags: bv32)
    reads ec.Footprint()
  {
    && ec.Valid(fips) && ec.Sized(c)
    && osr + ec.reinitCount <= ec.core.osr && ec.readInvocations == ec.bytesOutput == 0
    && ec.core.fips == FipsMode(flags, fips) && ec.core.ntg1 == Has(flags, NTG1)
    && ec.maxMemSet == (MemField(flags) != 0)
    && (ec.core.fips ==> NoSmaller(Allocated(flags, c), MemField(flags) != 0, ec.flags))
    && (if ec.core.fips
        then ec.core.startup != SHA3_STAGE && (ec.core.startup <= MEMORY_STAGE ==> ec.core.recoveries == 0)
        else ec.core.startup == COMPLETED)
  }

  /** One that startup goes on with. */
  ghost predicate InStartup(ec: Instance, c: Caches, fips: bool, osr: nat, flags: bv32)
    reads ec.Footprint()
  {
    Starting(ec, c, fips, osr, flags) && !ec.core.Failing()
  }

  /** Each of the two noise sources has delivered a pass of its own in FIPS mode, otherwise the two together. */
  predicate EachSource(y: Yield, fips: bool, nosr: nat) {
    if fips then y.memory >= nosr && y.hash >= nosr else y.combined >= nosr
  }

  lemma SourcesDelivered(before: Yield, after: Yield, startup: nat, nosr: nat)
    requires after.Covers(Delivered(before, startup, nosr))
    ensures startup == MEMORY_STAGE || EachSource(before, true, nosr) ==> EachSource(after, true, nosr)
    ensures startup == COMPLETED ==> EachSource(after, false, nosr)
  {
  }

  /** Startup is complete after a round exactly if no recovery fired in its stages; otherwise the state has been
      counted down past completion, and stays where it is. */
  predicate StartupOutcome(before: nat, recovered: bool, after: nat) {
    if before > MEMORY_STAGE then after == before
    else if recovered then after > MEMORY_STAGE
    else after == COMPLETED
  }

  /** A recovery in a startup stage has left every stage behind, and nothing fails on the feed any more. */
  ghost predicate Derailed(ec: Instance, feed: seq<Word>)
    reads ec.core, ec.core.lag, ec.core.apt, ec.core.rct
  {
    ec.core.osr > 0 && ec.core.startup > MEMORY_STAGE && ec.core.CalmNow(feed) && ec.core.memCount < ec.core.memCutoff
  }

  /** The first startup stage is going to come to that. */
  ghost predicate Derailing(ec: Instance, feed: seq<Word>)
    reads ec.core, ec.core.lag, ec.core.apt, ec.core.rct
  {
    && ec.core.osr > 0 && ec.core.startup == MEMORY_STAGE
    && CrossesCalmly(ec.core.Rate(), ec.core.Nosr(), ec.core.TestsNow(), feed)
  }

  /** The passes of one round.  `recovered` says that a recovery fired in them. */
  method StartupPass(host: Host, ec: Instance, ghost osr: nat, ghost flags: bv32)
    returns (exhausted: bool, ghost recovered: bool)
    requires InStartup(ec, host.caches, host.fips, osr, flags) && (ec.core.fips ==> ec.core.startup != COMPLETED)
    modifies host.clock, ec.core.Footprint()
    ensures |host.clock.feed| <= old(|host.clock.feed|) && (exhausted ==> host.clock.feed == [])
    ensures ec.core.fips && !recovered ==> old(|host.clock.feed|) - |host.clock.feed| <= MAX_PASS
    ensures !exhausted ==>
              && Starting(ec, host.caches, host.fips, osr, flags) && |host.clock.feed| < old(|host.clock.feed|)
              && (!ec.core.Failing() ==>
                    ec.core.unstuck.Covers(Delivered(old(ec.core.unstuck), old(ec.core.startup), ec.core.Nosr())))
              && (ec.core.fips ==> StartupOutcome(old(ec.core.startup), recovered, ec.core.startup))
    ensures ec.core.fips && old(ec.core.startup) == MEMORY_STAGE ==>
              (recovered <==> old(StagesCross(ec.core.Rate(), ec.core.Nosr(), ec.core.TestsNow(), host.clock.feed)))
    ensures ec.core.fips && !exhausted && old(Derailing(ec, host.clock.feed) || Derailed(ec, host.clock.feed)) ==>
              Derailed(ec, host.clock.feed)
  {
    hide Has, MemField, Allocated, Settled, NoSmaller, RandData.Valid, RandData.Ready, RandData.Idle,
      RandData.PassBound, RandData.Cutoff, RandData.Nosr, RandData.Settled, BlockBound, StagesCross, CrossesCalmly,
      RandData.TestsNow, RandData.CalmNow, Delivered, Yield.Covers, Failures.Any, Failures.Within;
    if ec.core.fips {
      RatePassAtMost(ec, host.fips);
      RateFacts(ec, host.fips);
      if Derailing(ec, host.clock.feed) {
        CalmlyIsCrossing(ec.core.Rate(), ec.core.Nosr(), ec.core.TestsNow(), host.clock.feed);
        FirstDecides(ec.core.Rate(), ec.core.Nosr(), ec.core.TestsNow(), host.clock.feed);
      }
    }
    ghost var before := ec.core.recoveries;
    exhausted := ec.core.RandomData(host.clock);
    recovered := ec.core.recoveries > before;
  }

  /** One round of the startup loop: null if it is given up.  `recovered` says that a recovery fired in it. */
  method StartupRound(host: Host, ec: Instance, ghost osr: nat, ghost flags: bv32)
    returns (r: Instance?, exhausted: bool, ghost recovered: bool)
    requires InStartup(ec, host.caches, host.fips, osr, flags) && (ec.core.fips ==> ec.core.startup != COMPLETED)
    modifies host, host.clock, ec.core.Footprint()
    ensures |host.clock.feed| <= old(|host.clock.feed|) && (exhausted ==> host.clock.feed == [] && r == null)
    ensures ec.core.fips && !recovered ==> old(|host.clock.feed|) - |host.clock.feed| <= MAX_PASS
    ensures host.setbacks >= old(host.setbacks) && host.refusals == old(host.refusals)
    ensures r == null && !exhausted ==> host.setbacks > old(host.setbacks) || BothTimers(Allocated(flags, host.caches))
    ensures r != null ==>
              && (r == ec || (fresh(r) && fresh(r.core.Footprint())))
              && InStartup(r, host.caches, host.fips, osr, flags)
              && |host.clock.feed| < old(|host.clock.feed|)
              && (host.selfTestRun || host.selfTestRun == old(host.selfTestRun))
              && (r == ec ==>
                    r.core.unstuck.Covers(Delivered(old(ec.core.unstuck), old(ec.core.startup), r.core.Nosr())))
              && (r != ec ==> ec.core.osr < r.core.osr && r.core.startup == MEMORY_STAGE)
              && r.core.osr == ec.core.osr + (r.reinitCount - old(ec.reinitCount))
                               + (host.failedTests - old(host.failedTests))
              && (r == ec && ec.core.fips ==> StartupOutcome(old(ec.core.startup), recovered, ec.core.startup))
    ensures ec.core.fips && old(ec.core.startup) == MEMORY_STAGE ==>
              (recovered <==> old(StagesCross(ec.core.Rate(), ec.core.Nosr(), ec.core.TestsNow(), host.clock.feed)))
    ensures ec.core.fips && !exhausted && old(Derailing(ec, host.clock.feed) || Derailed(ec, host.clock.feed)) ==>
              r == ec && Derailed(ec, host.clock.feed)
    decreases 1
  {
    hide Has, MemField, Allocated, Settled, NoSmaller, RandData.Valid, RandData.Ready, RandData.Idle,
      RandData.PassBound, RandData.Cutoff, RandData.Nosr, BlockBound, RandData.Settled, StagesCross, CrossesCalmly,
      RandData.TestsNow, RandData.CalmNow, Derailing, Derailed;
    exhausted, recovered := StartupPass(host, ec, osr, flags);
    if exhausted {
      return null, true, recovered;
    }
    r := ec;
    if Derailed(ec, host.clock.feed) {
      NotFailing(ec, host.clock.feed);
    }
    if ec.core.Failing() {
      ghost var nested, inner;
      r, exhausted, nested, inner := Reset(host, ec, true);
      if r == null {
        NoSmallerTimers(Allocated(flags, host.caches), MemField(flags) != 0, ec.flags);
        return;
      }
      NoSmallerThenGrown(Allocated(flags, host.caches), MemField(flags) != 0, ec.flags, ec.maxMemSet, r.flags);
      var ok := host.Try();
      if !ok {
        return null, false, recovered;
      }
    }
  }

  /** A derailed collector does not fail. */
  lemma NotFailing(ec: Instance, feed: seq<Word>)
    requires Derailed(ec, feed)
    ensures !ec.core.Failing() && ec.core.startup > MEMORY_STAGE
  {
    hide Calm;
  }

  lemma RateFacts(ec: Instance, fips: bool)
    requires ec.Valid(fips)
    ensures 0 < ec.core.osr && !ec.core.inRecovery && (ec.core.fips ==> ec.core.ntg1 == Has(ec.flags, NTG1))
  {
    hide RandData.Valid, RandData.Ready, RandData.Idle, Has;
  }

  lemma RatePassAtMost(ec: Instance, fips: bool)
    requires ec.Valid(fips) && ec.core.fips
    ensures 1 + 2 * ec.core.PassBound(true) <= MAX_PASS
  {
    ec.core.PassAtMost();
  }

  lemma StartsUp(ec: Instance, c: Caches, fips: bool, flags: bv32)
    requires ec.Valid(fips) && ec.Sized(c) && ec.flags == Allocated(flags, c)
    requires ec.core.fips == FipsMode(flags, fips) && ec.core.ntg1 == Has(flags, NTG1)
    requires ec.maxMemSet == (MemField(flags) != 0) && ec.core.failures == NO_FAILURES
    requires ec.core.startup == if ec.core.fips then MEMORY_STAGE else COMPLETED
    requires ec.core.recoveries == 0
    requires ec.reinitCount == ec.readInvocations == ec.bytesOutput == 0
    ensures InStartup(ec, c, fips, ec.core.osr, flags) && ec.core.osr <= MAX_OSR
  {
    hide Has, MemField, Allocated, NoSmaller, Settled, RandData.Valid, RandData.Ready, RandData.Idle;
    if ec.core.fips {
      NoSmallerItself(ec.flags, c);
    }
  }

  lemma StartupFacts(ec: Instance, c: Caches, fips: bool, osr: nat, flags: bv32)
    requires InStartup(ec, c, fips, osr, flags)
    ensures osr <= ec.core.osr <= MAX_OSR && ec.core.fips == FipsMode(flags, fips) && !ec.core.Failing()
    ensures !ec.core.fips ==> ec.core.startup == COMPLETED
    ensures ec.core.fips && ec.core.startup <= MEMORY_STAGE ==> ec.core.recoveries == 0
  {
    hide Has, MemField, Allocated, NoSmaller, Settled, RandData.Valid, RandData.Ready, RandData.Idle;
  }

  /** A collector that is ready gets its identifier. */
  method Identify(host: Host, ec: Instance, ghost osr: nat, ghost flags: bv32)
    requires InStartup(ec, host.caches, host.fips, osr, flags)
    modifies ec`uuid
    ensures InStartup(ec, host.caches, host.fips, osr, flags) && |ec.uuid| == UUID_LENGTH
  {
    hide Has, MemField, Allocated, NoSmaller, Settled, RandData.Valid, RandData.Ready, RandData.Idle;
    assert ec !in ec.core.Footprint();
    ec.uuid := host.NewUuid();
  }

  /** The feed comes to a recovery in the first startup stage of a new collector, and is calm after that. */
  ghost predicate DerailsNew(rate: nat, flags: bv32, feed: seq<Word>) {
    rate > 0 && CrossesCalmly(Mode(rate, Has(flags, NTG1)), LoopIterations(rate, true), START, feed)
  }

  lemma NewDerails(ec: Instance, fips: bool, flags: bv32, feed: seq<Word>)
    requires ec.Valid(fips) && ec.core.ntg1 == Has(flags, NTG1) && ec.core.fips && ec.core.startup == MEMORY_STAGE
    requires ec.core.TestsNow() == START && DerailsNew(ec.core.osr, flags, feed)
    ensures Derailing(ec, feed)
  {
    hide CrossesCalmly, Has, RandData.Valid, RandData.Ready, RandData.Idle, LoopIterations, RandData.TestsNow;
  }

  /** _jent_entropy_collector_alloc: a collector that has been through its startup without a health failure.
      `recovered` says that a recovery fired inside a startup stage, which leaves the startup state behind. */
  method Alloc(host: Host, osr: nat, flags: bv32) returns (r: Instance?, exhausted: bool, ghost recovered: bool)
    modifies host, host.clock
    ensures |host.clock.feed| <= old(|host.clock.feed|) && (exhausted ==> host.clock.feed == [] && r == null)
    ensures FipsMode(flags, host.fips) && !recovered ==>
              old(|host.clock.feed|) - |host.clock.feed| <= STARTUP_BOUND
    ensures Contradictory(flags, host.fips) || osr > MAX_OSR ==> r == null && !exhausted
    ensures host.setbacks >= old(host.setbacks) && host.refusals == old(host.refusals)
    ensures r == null && !exhausted && !Contradictory(flags, host.fips) && osr <= MAX_OSR ==>
              host.setbacks > old(host.setbacks) || BothTimers(Allocated(flags, host.caches))
    ensures FipsMode(flags, host.fips) && old(DerailsNew(EnsureMinimalOsr(osr), flags, host.clock.feed)) ==> r == null
    ensures r != null ==>
              && fresh(r) && fresh(r.core.Footprint()) && InStartup(r, host.caches, host.fips, EnsureMinimalOsr(osr), flags)
              && r.core.startup == COMPLETED && host.selfTestRun && |r.uuid| == 36
              && r.core.osr == (if osr < 3 then 3 else osr) + r.reinitCount + (host.failedTests - old(host.failedTests))
              && EachSource(r.core.unstuck, r.core.fips, r.core.Nosr())
              && (r.core.fips ==> r.core.recoveries == 0)
    decreases 2
  {
    hide Has, MemField, Allocated, InStartup, NoSmaller, Settled, RandData.Valid, RandData.Ready, RandData.Idle,
      EachSource, Delivered, Yield.Covers, RandData.Nosr, Derailing, Derailed, DerailsNew, RandData.TestsNow,
      StagesCross;
    exhausted, recovered := false, false;
    r := AllocInternal(host, osr, flags);
    if r == null {
      return;
    }
    var ok := host.Try();
    if !ok {
      return null, false, false;
    }
    ghost var first := r.core.osr;
    StartsUp(r, host.caches, host.fips, flags);
    StartupFacts(r, host.caches, host.fips, first, flags);
    ghost var derails := r.core.fips && DerailsNew(r.core.osr, flags, host.clock.feed);
    if derails {
      NewDerails(r, host.fips, flags, host.clock.feed);
    }
    var again := true;
    while again
      invariant fresh(r) && fresh(r.core.Footprint()) && InStartup(r, host.caches, host.fips, first, flags)
      invariant r.core.fips == FipsMode(flags, host.fips) && first <= r.core.osr <= MAX_OSR
      invariant r.core.osr == first + r.reinitCount + (host.failedTests - old(host.failedTests))
      invariant |host.clock.feed| <= old(|host.clock.feed|) && !exhausted
      invariant host.selfTestRun && host.setbacks >= old(host.setbacks) && host.refusals == old(host.refusals)
      invariant !again || !r.core.fips ==> r.core.startup == COMPLETED
      invariant derails ==> again && (Derailing(r, host.clock.feed) || Derailed(r, host.clock.feed))
      invariant r.core.fips && r.core.startup != MEMORY_STAGE ==> EachSource(r.core.unstuck, true, r.core.Nosr())
      invariant !again && !r.core.fips ==> EachSource(r.core.unstuck, false, r.core.Nosr())
      invariant again && r.core.fips && !recovered ==> r.core.startup == MEMORY_STAGE
      invariant again && r.core.fips ==> r.core.startup != COMPLETED
      invariant again && r.core.fips && !recovered ==>
                  old(|host.clock.feed|) - |host.clock.feed| <= (r.core.osr - first) * MAX_PASS
      invariant !again && r.core.fips && !recovered ==>
                  old(|host.clock.feed|) - |host.clock.feed| <= STARTUP_BOUND
      decreases again, |host.clock.feed|
    {
      ghost var fired;
      ghost var ec, before, startup := r, r.core.unstuck, r.core.startup;
      r, exhausted, fired := StartupRound(host, r, first, flags);
      recovered := recovered || fired;
      if r == null {
        return;
      }
      if derails {
        NotFailing(r, host.clock.feed);
      }
      if r == ec {
        SourcesDelivered(before, r.core.unstuck, startup, r.core.Nosr());
      }
      StartupFacts(r, host.caches, host.fips, first, flags);
      again := r.core.startup != COMPLETED;
    }
    StartupFacts(r, host.caches, host.fips, first, flags);
    Identify(host, r, first, flags);
  }

  // ---------------------------------------------------------------- reading

  /** A request for more than the largest result is cut down to it. */
  function Clamped(len: nat): (n: nat)
    ensures n <= len && n <= SSIZE_MAX && (if len < 0x8000_0000_0000_0000 then n == len else n == 0x7FFF_FFFF_FFFF_FFFF)
  {
    if len > SSIZE_MAX then SSIZE_MAX else len
  }

  const BLOCK: nat := 32

  /** How many blocks a request takes: as many as cover it, and no more. */
  function Blocks(len: nat): (n: nat)
    ensures len <= 32 * n < len + 32
  {
    (len + BLOCK - 1) / BLOCK
  }

  lemma BlocksLeft(len: nat, k: nat)
    requires BLOCK * k < len
    ensures k < Blocks(len) && (len - BLOCK * k <= BLOCK ==> k + 1 == Blocks(len))
  {
  }

  lemma NoBlocks()
    ensures Blocks(0) == 0
  {
  }

  /** The collector is as it was but for its health tests and its totals. */
  twostate predicate SameIdentity(ec: Instance)
    reads ec
  {
    ec.uuid == old(ec.uuid) && ec.maxMemSet == old(ec.maxMemSet) && ec.reinitCount == old(ec.reinitCount)
  }

  /** Ready for reading: startup is behind it. */
  ghost predicate Usable(ec: Instance, c: Caches, fips: bool)
    reads ec.Footprint()
  {
    ec.Valid(fips) && ec.Sized(c) && ec.core.startup == COMPLETED
  }

  /** jent_read_entropy: the number of bytes delivered or an error code. */
  method ReadEntropy(host: Host, ec: Instance?, buffer: bool, len: nat) returns (ret: int, exhausted: bool)
    requires ec != null ==> Usable(ec, host.caches, host.fips)
    modifies if ec == null then {} else ec.Footprint(), host.clock, host`setbacks
    ensures ec != null ==> SameIdentity(ec) && (!exhausted ==> Usable(ec, host.caches, host.fips))
    ensures |host.clock.feed| <= old(|host.clock.feed|) && (exhausted ==> host.clock.feed == [])
    ensures ret == -1 <==> ec == null || (!buffer && len > 0)
    ensures host.setbacks == old(host.setbacks) + if ret == -4 then 1 else 0
    ensures ret != -10
    ensures ret >= 0 && !exhausted ==>
              && ret == Clamped(len) && (len > 0 ==> !ec.core.Failing())
              && ec.readInvocations == (old(ec.readInvocations) + 1) % UINT64
              && ec.bytesOutput == (old(ec.bytesOutput) + ret) % UINT64
              && ec.core.unstuck.combined >= old(ec.core.unstuck.combined) + Paid(Blocks(ret), ec.core.Nosr())
    ensures ec != null && (ret < 0 || exhausted) ==>
              ec.readInvocations == old(ec.readInvocations) && ec.bytesOutput == old(ec.bytesOutput)
    ensures ret < 0 && !exhausted ==>
              ret == -1 || ret == -4 || (ec.core.Failing() && ret == HealthCode(ec.core.failures)
                                && Names(ret, ec.core.failures))
    ensures ec != null && ec.core.fips ==>
              old(|host.clock.feed|) - |host.clock.feed| <= Blocks(Clamped(len)) * MAX_PASS
  {
    hide RandData.Valid, RandData.Ready, RandData.Idle, RandData.PassBound, RandData.Cutoff, RandData.Nosr, BlockBound,
      RandData.Settled, Instance.Sized, Blocks, HealthCode, Names, Paid;
    exhausted := false;
    if ec == null || (!buffer && len > 0) {
      return -1, false;
    }
    var want := Clamped(len);
    var ok := host.Try();
    if !ok {
      return -4, false;
    }
    ret := 0;
    var left := want;
    ghost var k := 0;
    PaidStep(0, ec.core.Nosr());
    NoBlocks();
    while left > 0
      invariant Usable(ec, host.caches, host.fips) && SameIdentity(ec)
      invariant |host.clock.feed| <= old(|host.clock.feed|)
      invariant ret == 0 && host.setbacks == old(host.setbacks)
      invariant 0 <= left <= want && (left > 0 ==> left == want - BLOCK * k) && (left < want ==> !ec.core.Failing())
      invariant ec.readInvocations == old(ec.readInvocations) && ec.bytesOutput == old(ec.bytesOutput)
      invariant k <= Blocks(want) && (left == 0 ==> k == Blocks(want))
      invariant ec.core.unstuck.combined >= old(ec.core.unstuck.combined) + Paid(k, ec.core.Nosr())
      invariant ec.core.fips ==> old(|host.clock.feed|) - |host.clock.feed| <= k * MAX_PASS
    {
      BlocksLeft(want, k);
      PaidStep(k, ec.core.Nosr());
      exhausted := ReadBlock(host, ec);
      k := k + 1;
      if exhausted {
        return;
      }
      if ec.core.Failing() {
        ret := HealthCode(ec.core.failures);
        ec.core.NoMemPermanent();
        CodesNegative(ec.core.failures);
        CodesClassify(ec.core.failures);
        return;
      }
      left := left - if BLOCK < left then BLOCK else left;
    }
    ec.readInvocations := (ec.readInvocations + 1) % UINT64;
    ec.bytesOutput := (ec.bytesOutput + want) % UINT64;
    ret := want;
  }

  lemma CodesNegative(f: Failures)
    ensures HealthCode(f) < -1 && HealthCode(f) != -4
    ensures HealthCode(f) == -10 ==> f.rctMemPermanent
  {
  }

  /** One block of a request. */
  method ReadBlock(host: Host, ec: Instance) returns (exhausted: bool)
    requires Usable(ec, host.caches, host.fips)
    modifies ec.core.Footprint(), host.clock
    ensures !exhausted ==> Usable(ec, host.caches, host.fips)
    ensures |host.clock.feed| <= old(|host.clock.feed|) && (exhausted ==> host.clock.feed == [])
    ensures ec.core.fips ==> old(|host.clock.feed|) - |host.clock.feed| <= MAX_PASS
    ensures !exhausted && !ec.core.Failing() ==> ec.core.unstuck.combined >= old(ec.core.unstuck.combined) + ec.core.Nosr()
  {
    hide RandData.Valid, RandData.Ready, RandData.Idle, RandData.PassBound, RandData.Cutoff, RandData.Nosr, BlockBound,
      RandData.Settled, Settled, MemField, Has;
    if ec.core.fips {
      RatePassAtMost(ec, host.fips);
    }
    exhausted := ec.core.RandomData(host.clock);
  }

  lemma UsableFacts(ec: Instance, c: Caches, fips: bool)
    requires Usable(ec, c, fips)
    ensures MIN_OSR <= ec.core.osr <= MAX_OSR && ec.readInvocations < UINT64 && ec.bytesOutput < UINT64
    ensures ec.core.fips ==> NoSmaller(ec.flags, ec.maxMemSet, ec.flags)
  {
    hide RandData.Valid, RandData.Ready, RandData.Idle, Settled, NoSmaller, MemField;
    if ec.core.fips {
      NoSmallerItself(ec.flags, c);
    }
  }

  /** Identity and totals of next are those cur had, with some more replacements. */
  twostate predicate CarriesOn(cur: Instance, new next: Instance, resets: nat)
    reads next
  {
    && next.uuid == old(cur.uuid) && next.maxMemSet == old(cur.maxMemSet)
    && next.reinitCount == old(cur.reinitCount) + resets
    && cur.core.osr + resets <= next.core.osr && next.core.fips == cur.core.fips
    && (resets == 0 ==> cur == next)
  }

  twostate predicate SameTotals(cur: Instance, new next: Instance)
    reads next
  {
    next.readInvocations == old(cur.readInvocations) && next.bytesOutput == old(cur.bytesOutput)
  }

  /** The totals of next are those of cur and one more invocation that delivered len bytes. */
  twostate predicate Counted(cur: Instance, new next: Instance, len: nat)
    reads next
  {
    && next.readInvocations == (old(cur.readInvocations) + 1) % UINT64
    && next.bytesOutput == (old(cur.bytesOutput) + len) % UINT64
  }

  /** What one attempt at a request may take, with the startup of a replacement. */
  function AttemptBound(len: nat): nat {
    Blocks(len) * MAX_PASS + STARTUP_BOUND
  }

  /** What a failed attempt leads to. */
  predicate GivenUp(ret: int) {
    ret == -1 || ret == -4 || ret == -6 || ret == -7 || ret == -8 || ret == -10
  }

  /** One turn of the loop of jent_read_entropy_safe: the request is served, or fails for good (`stop`), or an
      intermittent failure has put a replacement in place. */
  method Attempt(host: Host, cur: Instance, len: nat)
    returns (ret: int, next: Instance, stop: bool, exhausted: bool, ghost recovered: bool, ghost inner: nat)
    requires Usable(cur, host.caches, host.fips) && 0 < len <= SSIZE_MAX
    modifies cur.Footprint(), host.clock, host
    ensures next == cur || (fresh(next) && fresh(next.core.Footprint()))
    ensures exhausted ==> host.clock.feed == [] && next == cur
    ensures !exhausted ==> Usable(next, host.caches, host.fips)
    ensures CarriesOn(cur, next, if next == cur then 0 else 1)
    ensures !exhausted && !stop && next == cur ==> ret == len && Counted(cur, next, len) && !next.core.Failing()
    ensures exhausted || stop || next != cur ==> SameTotals(cur, next)
    ensures next != cur ==> cur.core.Failing() && Intermittent(HealthCode(cur.core.failures))
    ensures stop && !exhausted && (ret == -4 || Intermittent(ret)) ==>
              host.setbacks > old(host.setbacks) || BothTimers(cur.flags)
    ensures host.refusals == old(host.refusals) + if stop && !exhausted && Intermittent(ret) then 1 else 0
    ensures host.setbacks >= old(host.setbacks)
    ensures next != cur ==> !stop && cur.core.osr < next.core.osr && NoSmaller(cur.flags, old(cur.maxMemSet), next.flags)
    ensures next != cur ==> next.core.osr == cur.core.osr + 1 + inner + (host.failedTests - old(host.failedTests))
    ensures next != cur ==> Doubled(cur.flags, old(cur.maxMemSet), next.flags)
    ensures !exhausted && !stop && next == cur ==> inner == 0 && host.failedTests == old(host.failedTests)
    ensures stop && !exhausted ==> ret < -1
    ensures ret != -10
    ensures stop && !exhausted ==>
              ret == -4 || (cur.core.Failing() && ret == HealthCode(cur.core.failures)
                                      && Names(ret, cur.core.failures))
    ensures cur.core.fips && !recovered ==> old(|host.clock.feed|) - |host.clock.feed| <= AttemptBound(len)
    ensures |host.clock.feed| <= old(|host.clock.feed|)
  {
    hide RandData.Valid, RandData.Ready, RandData.Idle, Instance.Sized, Blocks, NoSmaller, Doubled, Names,
      Instance.Valid;
    next, stop, recovered, inner := cur, false, false, 0;
    ret, exhausted := ReadEntropy(host, cur, true, len);
    CodesNegative(cur.core.failures);
    if exhausted {
      return;
    }
    if GivenUp(ret) {
      stop := true;
    } else if Intermittent(ret) {
      var r;
      r, exhausted, recovered, inner := Reset(host, cur, false);
      if r == null {
        stop := true;
        return;
      }
      next := r;
    }
  }

  /** jent_read_entropy_safe: a request that meets an intermittent failure is repeated on a replacement.  The
      caller's pointer is `cur` afterwards; `recovered` says that a recovery fired in the startup of one of the
      replacements, `inner` how often replacements were replaced during their startup. */
  method ReadEntropySafe(host: Host, ec: Instance, buffer: bool, len: nat)
    returns (ret: int, cur: Instance, exhausted: bool, ghost resets: nat, ghost recovered: bool, ghost inner: nat)
    requires Usable(ec, host.caches, host.fips)
    modifies ec.Footprint(), host.clock, host
    ensures cur == ec || (fresh(cur) && fresh(cur.core.Footprint()))
    ensures CarriesOn(ec, cur, resets) && (!exhausted ==> Usable(cur, host.caches, host.fips))
    ensures ret >= 0 && !exhausted ==> ret == Clamped(len) && (len > 0 ==> Counted(ec, cur, ret) && !cur.core.Failing())
    ensures ret < 0 || len == 0 || exhausted ==> SameTotals(ec, cur)
    ensures ret < 0 && !exhausted ==>
              if ret == -1 then !buffer && len > 0
              else ret == -4 || (cur.core.Failing() && ret == HealthCode(cur.core.failures)
                                      && Names(ret, cur.core.failures))
    ensures !exhausted && (ret == -4 || Intermittent(ret)) ==>
              host.setbacks > old(host.setbacks) || BothTimers(cur.flags)
    ensures host.refusals == old(host.refusals) + if !exhausted && Intermittent(ret) then 1 else 0
    ensures ret != -10
    ensures ec.core.fips ==> NoSmaller(ec.flags, old(ec.maxMemSet), cur.flags)
    ensures ret >= 0 && !exhausted ==>
              cur.core.osr == ec.core.osr + resets + inner + (host.failedTests - old(host.failedTests))
    ensures exhausted ==> host.clock.feed == []
    ensures ec.core.fips && !recovered ==>
              old(|host.clock.feed|) - |host.clock.feed| <= 18 * AttemptBound(Clamped(len))
  {
    hide RandData.Valid, RandData.Ready, RandData.Idle, AttemptBound, Attempts, NoSmaller, Doubled, Names, Usable,
      HealthCode, Paid, RandData.Failing, RandData.Footprint;
    exhausted, recovered, resets, inner, ret, cur := false, false, 0, 0, 0, ec;
    UsableFacts(ec, host.caches, host.fips);
    AttemptsBound(0, len);
    if !buffer && len > 0 {
      ret := -1;
      return;
    }
    var want := Clamped(len);
    var left := want;
    while left > 0
      invariant cur == ec || (fresh(cur) && fresh(cur.core.Footprint()))
      invariant Usable(cur, host.caches, host.fips) && CarriesOn(ec, cur, resets) && cur.core.osr <= MAX_OSR
      invariant host.setbacks >= old(host.setbacks) && host.refusals == old(host.refusals)
      invariant left == want || (left == 0 && Counted(ec, cur, want) && !cur.core.Failing())
      invariant left == want ==> SameTotals(ec, cur)
      invariant ec.core.fips ==> NoSmaller(ec.flags, old(ec.maxMemSet), cur.flags)
      invariant cur.core.osr == ec.core.osr + resets + inner + (host.failedTests - old(host.failedTests))
      invariant !exhausted && ret != -10
      invariant left == want && ec.core.fips && !recovered ==>
                  old(|host.clock.feed|) - |host.clock.feed| <= Attempts(cur.core.osr - ec.core.osr, want)
      invariant left == 0 && ec.core.fips && !recovered ==>
                  old(|host.clock.feed|) - |host.clock.feed| <= 18 * AttemptBound(want)
      decreases left, MAX_OSR - cur.core.osr
    {
      AttemptsBound(cur.core.osr - ec.core.osr, want);
      var next, stop;
      ghost var fired, more;
      ret, next, stop, exhausted, fired, more := Attempt(host, cur, left);
      recovered, inner := recovered || fired, inner + more;
      if exhausted || stop {
        return;
      }
      UsableFacts(next, host.caches, host.fips);
      if next != cur {
        resets := resets + 1;
        MoreAttempts(cur.core.osr - ec.core.osr, next.core.osr - ec.core.osr, want);
        if ec.core.fips {
          NoSmallerThenGrown(ec.flags, old(ec.maxMemSet), cur.flags, old(ec.maxMemSet), next.flags);
        }
        cur := next;
      } else {
        left := left - ret;
      }
    }
    ret := want;
  }

  /** What a number of attempts may take. */
  function Attempts(n: nat, len: nat): nat {
    Paid(n, AttemptBound(len))
  }

  lemma AttemptsBound(n: nat, len: nat)
    requires n <= 17
    ensures Attempts(0, len) == 0 && Attempts(n, len) + AttemptBound(len) <= 18 * AttemptBound(len)
  {
    hide AttemptBound;
    PaidStep(n, AttemptBound(len));
    PaidMonotone(n + 1, 18, AttemptBound(len));
  }

  lemma MoreAttempts(n: nat, m: nat, len: nat)
    requires n < m
    ensures Attempts(n, len) + AttemptBound(len) <= Attempts(m, len)
  {
    hide AttemptBound;
    PaidStep(n, AttemptBound(len));
    PaidMonotone(n + 1, m, AttemptBound(len));
  }
}
