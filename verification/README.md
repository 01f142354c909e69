# Models of the jitter entropy library and its monitor

A Dafny model of the parts of this repository with the most state: the health tests and the collection loop of the
jitter random number generator, its SHA-3 and XDRBG code, the recovery ladder around its collectors, the statistics
engine, and three small protocols: the job protocol of the graphical monitor, its JSON bridge and the kernel's ring
of test samples. Properties are stated for all inputs, all delta streams and all interleavings.
`dafny verify dfyconfig.toml` checks the whole project.

## What is modelled

* **Collector** (`Collector`, `DeltaStream`, `LagPredictor`, `Apt`, `Rct`, `Cutoffs`, `StartupWitness`). The four
  online tests update a collector in place while the loop collects measurements that are not stuck; the repetition
  count test with memory calls the loop again to recover. The time deltas come from a clock with a finite feed, so that
  a run which is still going on is one that has used up its feed (`exhausted`), and termination is a bound on what is
  consumed. Each test is proved equal to a property of the delta sequence: the lag, the adaptive proportion and the
  repetition count test over any stream (`LagOverStream`, `AptOverStream`, `RctOverStream`), the repetition count test
  with memory over any pass of the collection loop (`RandomDataOne`, with `DeltaStream`).
* **Hash and DRBG** (`Keccak`, `Fips202`, `Sponge`, `SpongeBits`, `BitSponge`, `ShaContext`, `Xdrbg`). The in-place
  permutation is proved equal to FIPS 202 bit by bit, the byte-wise sponge to the one on bit strings, the buffered
  context to the one-shot functions, the DRBG to its construction.
* **Ladder** (`Ladder`, `Sizing`). Allocation with its startup loop, reading, and the replacement of a failed collector
  by one of a higher rate, on top of the collector model. What a power-up test, an allocation or the internal timer
  answers is arbitrary; cache sizes and the system's FIPS mode are constant.
* **Timer and memory** (`Gcd`, `MemWalk`). The common divisor of the deltas, and the walk over the memory block.
* **Statistics** (`Serial`, `CritBinom`, and the batch tests in `Apt` and `Rct`), over integers and real numbers.
* **Protocols** (`Gui`, `TestRing`, `Json`, `BridgeJson`). The GUI as interleaved atomic steps of the UI thread and the
  workers; the ring with a reader that looks at the writer before it takes the lock; the parser, the integer accessor
  and the escaper of the bridge.

## What the proofs found

* A recovery that fires inside a startup stage counts the stage down twice. The unsigned startup state then wraps and
  no later call completes startup: a round of the loop in `_jent_entropy_collector_alloc` without a health failure
  completes startup iff no recovery fired in its stages, and past them it never does (`Ladder.StartupRound`, which
  also says on which deltas one fires: `DeltaStream.StagesCross`). The loop ends within 18 passes if no recovery fires
  inside startup. On streams of every length from 961 deltas on, with a zero at every third position up to the
  recovery and calm deltas after it, it does not end at rate 3 in common FIPS mode
  (`StartupWitness.StartupNeverEnds`); the round with the recovery comes back without a failure (`RecoveryInStartup`).
* The permanent failure of the test with memory (code -10) is never raised, in any mode: the count rises by one at a
  time and only in every third iteration, and at the intermittent cutoff either a recovery clears it or the failure
  of a recovery ends the pass before it can rise again (`CapStep`, `NoMemPermanent`); nor does the safety measure
  against a short window (jitterentropy-noise.c:571-574) apply at a rate up to 20. In common FIPS mode the
  intermittent cutoff itself is reached iff every third result of the whole window is stuck (`CommonCutoffReached`).
* After a recovery that fails, the invariant of the collector allows the resumed window to start with the count of a
  nested run (`Ready` in `Collector`); it is cleared before it can rise. No run in which that happens is given.
* "Tie goes to the shortest lag" (jitterentropy-health.c:184-187) holds among predictors that overtake in the same
  step; a predictor that only draws level with the one in use does not replace it, whatever its lag. The one in use
  is the first that reached the best score (`LagPredictor.LeaderIsFirst`, `LevelIsNotEnough`).
* `jent_rct_duplicate` loads the undivided `30 * osr`: in NTG.1 mode the next stuck result is a permanent failure, and
  in common mode the count is already past the intermittent check, so it raises nothing (`Ladder.DuplicatedCount`).
* The comment on `read_invocations` (jitterentropy-internal.h:367-370) says that every call counts and the safe variant
  takes retries back. The code counts successful calls only; `jent_read_entropy` also counts a request of length 0,
  `jent_read_entropy_safe` does not.
* A replacement allocated during normal operation records its own, already filled in, memory field as a caller's cap
  while it starts up, so resets inside that startup do not enlarge the memory; the old value is restored afterwards.
* A collector in NTG.1 mode that was also asked to force the internal timer keeps both timer flags; a replacement
  with those flags is always refused (`Ladder.Allocate`, `Ladder.Reset`).
* "An unconsumed real result is never overwritten" (app/main_gui.cpp:179-182) holds of rejections only: one is
  replaced exactly when a job publishes its result, or its failure to start, while it waits (`Gui.ResultsConserved`,
  and a run in which that happens, `Gui.SampleCanBeReplaced`).
* The boot test stops before it overwrites the first sample, but the sample that fills the ring has already pushed the
  reader past it (`TestRing.Testing.BootTest`).
* The position in the partial hash block is right after 2^64 bytes only if the length has wrapped a multiple of 17
  times (`ShaContext.WrappedPosition`); everything else about the hash is claimed below that length.

## Model

| member | source | states |
|---|---|---|
| Collector.RandData.RandomDataOne | jitterentropy-library/src/jitterentropy-noise.c:552-585 | What a pass over a delta stream comes to, in FIPS mode and without an earlier failure: a recovery fires iff, before a test raises an alarm and enough measurements are made, the stuck results at the positions divisible by three reach the cutoff of the test with memory; within a recovery exactly that raises the intermittent bit; otherwise the pass fails iff one of the three tests on every delta raises an alarm before it is over, and if not, the tests are what the measured deltas make of them and the rest of the stream is left; the failure bits are those of the tests that raised an alarm on the last delta; outside a recovery, a pass that fails is over nowhere in its stream. On a stream that calms down nothing fails. On every stream a pass consumes at most PassBound deltas, and without a failure its source has delivered the required number of measurements that were not stuck |
| Collector.RandData.RandomData | jitterentropy-library/src/jitterentropy-noise.c:593-631 | Startup is complete after one call iff no recovery fired in its stages, and otherwise the startup state has wrapped past every stage and stays there. In terms of the deltas: from the first stage a recovery fires iff the pass of the memory access comes to the cutoff of the test with memory, or is over and the pass of the hash loop on the rest of the stream does; from the second stage iff its pass does, and after startup iff the first delta raises no alarm and the pass on the rest does; the wrapped state is 2^32 - 2 or 2^32 - 1, depending on the pass. The memory access, first, and the hash loop each deliver a full pass of their own during startup, afterwards the two together; on calm deltas nothing fails and no recovery fires; bounded consumption in FIPS mode; at most one recovery per call outside startup |
| Collector.RandData.BothStages | jitterentropy-library/src/jitterentropy-noise.c:598-624 | The two stages of startup in one go: the same condition on the deltas for a recovery, and completion iff there was none |
| Collector.RandData.Prime | jitterentropy-library/src/jitterentropy-noise.c:625-628 | The priming measurement takes one delta, counts nothing and starts no recovery between passes, and fails iff a test raises an alarm on it |
| Collector.RandData.PrimedPass | jitterentropy-library/src/jitterentropy-noise.c:625-630 | A priming measurement and one pass: a recovery fires iff the first delta raises no alarm and the pass on the rest comes to the cutoff of the test with memory; only the two sources together are measured; bounded consumption, and nothing fails on calm deltas |
| Collector.RandData.Stage | jitterentropy-library/src/jitterentropy-noise.c:598-616 | One startup stage: a full pass of its noise source, the stage counted down (once more than the nested one if a recovery fired), the health tests initialized; a recovery fires in it iff the pass comes to the cutoff of the test with memory, and if none does the stage leaves the rest of the stream after its pass |
| Collector.RandData.Recover | jitterentropy-library/src/jitterentropy-health.c:575-586 | Ten nested runs, which deliver ten passes if nothing fails (the first one the stages that are left of startup), cannot start another recovery, consume a bounded number of deltas, keep every failure bit that is set, and leave the tests settled if nothing failed; on calm deltas nothing fails |
| Collector.RandData.RecoveryRun | jitterentropy-library/src/jitterentropy-health.c:584-585 | One run of a recovery, after some others |
| Collector.RandData.MemInsert | jitterentropy-library/src/jitterentropy-health.c:522-606 | The count, the window and the failure bits after a result, and exactly when a recovery starts; failure bits are only ever added; the branch that raises the permanent bit is never taken; without FIPS mode the count never reaches the cutoff |
| Collector.RandData.MemCountInWindow | jitterentropy-library/src/jitterentropy-health.c:468-606 | In every state a collector can be in, in either mode, the next count does not pass the intermittent cutoff, which is below the permanent one; without FIPS mode it does not reach it |
| Collector.RandData.NoMemPermanent | jitterentropy-library/src/jitterentropy-health.c:559-563 | The permanent failure of the test with memory is never raised |
| Collector.CapStep | jitterentropy-library/src/jitterentropy-health.c:522-606 | A count at its cutoff is not in an iteration that counts, and after one more result it is not either or a recovery clears it |
| Collector.RandData.Measure | jitterentropy-library/src/jitterentropy-noise.c:489-533 | A measurement takes one delta, and all failure bits afterwards are exactly those the four tests raise on it, unless a recovery starts |
| Collector.RandData.Stuck | jitterentropy-library/src/jitterentropy-health.c:681-711 | The same for a given delta; a recovery that starts on a delta without an alarm, with calm deltas ahead, raises nothing |
| Collector.RandData.MeasureInPass | jitterentropy-library/src/jitterentropy-noise.c:577-584 | A measurement takes a pass one delta further along its stream, with or without a recovery, and pays for it |
| Collector.FollowStart | jitterentropy-library/src/jitterentropy-noise.c:564-577 | A pass starts on its stream with nothing counted |
| Collector.TrackStep | jitterentropy-library/src/jitterentropy-health.c:522-606 | What the next delta decides: the count of the test with memory is that of the stuck results at the positions divisible by three, and the failure bits are raised iff one of the tests raises an alarm |
| Collector.FollowStep | jitterentropy-library/src/jitterentropy-noise.c:577-584 | One measurement takes the pass one delta on: still going, failed, or a recovery has fired |
| Collector.FollowEnd | jitterentropy-library/src/jitterentropy-noise.c:577-585 | Where a pass ends decides whether its stream comes to a cutoff at all, and where it is over |
| Collector.EasingStep | jitterentropy-library/src/jitterentropy-noise.c:577-584 | On a stream that calms down a measurement raises nothing, and from that point on the stream stays calm |
| Collector.EasingEnd | jitterentropy-library/src/jitterentropy-noise.c:577-585 | A pass does not end before its stream calms down |
| DeltaStream.QuietEnd | jitterentropy-library/src/jitterentropy-noise.c:577-585 | A pass that ends without an alarm neither comes to the cutoff of the test with memory nor fails anywhere in its stream |
| DeltaStream.AlarmedEnd | jitterentropy-library/src/jitterentropy-noise.c:577-585 | A pass that fails on an alarm does not come to that cutoff anywhere in its stream |
| DeltaStream.QuietLeaves | jitterentropy-library/src/jitterentropy-noise.c:577-585 | A pass without an alarm is over exactly where it leaves the rest of its stream |
| DeltaStream.AlarmLeaves | jitterentropy-library/src/jitterentropy-noise.c:577-585 | A pass that fails on an alarm is over nowhere |
| DeltaStream.SecondDecides | jitterentropy-library/src/jitterentropy-noise.c:598-624 | If the first pass of startup does not come to the cutoff, whether the two do is decided by the second, on what the first leaves |
| DeltaStream.CalmsStep | jitterentropy-library/src/jitterentropy-health.c:522-606 | Up to the point where a stream calms down no delta raises an alarm, and exactly there the count of the test with memory comes to its cutoff |
| DeltaStream.CountedIsHits | jitterentropy-library/src/jitterentropy-health.c:525-554 | The count after a result is the number of stuck results at the positions divisible by three in the window |
| DeltaStream.CommonCutoffReached | jitterentropy-library/src/jitterentropy-health.c:468-606 | In common FIPS mode a window comes to the cutoff of the test with memory iff every third of its results is stuck |
| StartupWitness.ThirdsQuiet | jitterentropy-library/src/jitterentropy-health.c:143-433 | On the stream with a zero at every third position and different deltas elsewhere none of the three tests raises an alarm |
| StartupWitness.ThirdsCross | jitterentropy-library/src/jitterentropy-health.c:522-606 | At rate 3 that stream brings the count of the test with memory to its cutoff before the pass is over |
| StartupWitness.TameIsCalm | jitterentropy-library/src/jitterentropy-health.c:143-433 | After its turn the stream repeats sixteen deltas, none of them stuck and none raising an alarm, however long it is |
| StartupWitness.StreamDerails | jitterentropy-library/src/jitterentropy-health.c:522-606 | At rate 3 in common FIPS mode, streams of every length come to a recovery in the first stage of startup and are calm after it |
| StartupWitness.RecoveryInStartup | jitterentropy-library/src/jitterentropy-noise.c:593-631 | A new collector whose first round of startup comes back with a recovery, without a failure and without completing |
| StartupWitness.StartupNeverEnds | jitterentropy-library/src/jitterentropy-base.c:728-767 | On such a stream of any length no collector is allocated: unless refused on the way in, the startup loop is still going on when the stream is used up |
| Collector.RandData.StuckTest | jitterentropy-library/src/jitterentropy-health.c:693-711 | The result is stuck iff the delta or one of its differences over the lag window is zero; the failure bits are those of the three tests on the delta, each test having its own |
| Collector.RaisedBits | jitterentropy-library/src/jitterentropy-health.c:143-433 | Each alarm sets the bit of its test and kind, and no other, and clears none |
| DeltaStream.StuckMeans | jitterentropy-library/src/jitterentropy-health.c:213-227 | A delta is stuck iff it is zero, or repeats the last one, or is as far from it, modulo 2^64, as that is from the one before; with the cases of a window that holds one delta or none |
| DeltaStream.StuckInStream | jitterentropy-library/src/jitterentropy-health.c:213-227 | The same for the positions of a stream |
| DeltaStream.EvenIsStuck | jitterentropy-library/src/jitterentropy-health.c:693-711 | In a stream of equally spaced deltas every one from the third on is stuck |
| DeltaStream.EvenFails | jitterentropy-library/src/jitterentropy-health.c:662-711 | So equally spaced deltas, two more than the repetition cutoff, raise an alarm |
| Collector.RandData.Derivatives | jitterentropy-library/src/jitterentropy-health.c:213-227 | The second and third derivative taken from the ring buffer are those of the last deltas seen |
| Collector.RandData.InsertTests | jitterentropy-library/src/jitterentropy-health.c:693-711 | The alarms of the three tests, each as a function of the history before the delta |
| Collector.RandData.HealthInit | jitterentropy-library/src/jitterentropy-health.c:748-766 | Initializing the tests again clears only the repetition count; the lag window, the failure bits and the count of the test with memory stay |
| Collector.RandData.TakeOver | jitterentropy-library/src/jitterentropy-health.c:608-654 | A replacement goes on in the lag window of the old collector and starts its other counts at intermittent cutoffs, and can be used: no recovery fires before its first pass |
| Collector.RandData.constructor | jitterentropy-library/src/jitterentropy-base.c:640-673 | A new collector has zero counters, the cutoffs of the tables and no failure |
| Collector.PassesBounded | jitterentropy-library/src/jitterentropy-noise.c:552-585 | One number bounds a whole call, recovery included, for every oversampling rate up to 20 |
| Collector.CountedInWindow | jitterentropy-library/src/jitterentropy-health.c:522-606 | A window admits a count in every third iteration only |
| LagPredictor.LagTest.Insert | jitterentropy-library/src/jitterentropy-health.c:143-211 | The counters, ring buffer and scoreboard hold exactly the successes, current run, last eight deltas and per-lag scores of the window, and the failure bit is raised iff a run reaches the local or the successes the global cutoff |
| LagPredictor.LagTest.UpdateScores | jitterentropy-library/src/jitterentropy-health.c:176-195 | The predictor in use moves to the shortest lag among those that overtake in the same step, and otherwise stays |
| LagPredictor.LagTest.Reset | jitterentropy-library/src/jitterentropy-health.c:113-127 | A new window starts from zero scores |
| LagPredictor.LagTest.Duplicate | jitterentropy-library/src/jitterentropy-health.c:229-243 | The copy stands for the same window as the original |
| LagPredictor.LeaderIsBest | jitterentropy-library/src/jitterentropy-health.c:176-195 | The predictor in use never has a lower score than another one |
| LagPredictor.ScoreIsCount | jitterentropy-library/src/jitterentropy-health.c:176-183 | A score is the number of deltas, from the ninth on, that equal the one seen so many inputs before |
| LagPredictor.SuccessesAreCount | jitterentropy-library/src/jitterentropy-health.c:155-174 | The successes are the positions that the predictor then in use had guessed, and the current run those at the end of the window |
| LagPredictor.LeaderIsFirst | jitterentropy-library/src/jitterentropy-health.c:176-195 | The predictor in use is the one that first reached the best score of the window, the shortest lag if several reached it at the same delta |
| LagPredictor.LevelIsNotEnough | jitterentropy-library/src/jitterentropy-health.c:184-190 | A window in which a shorter lag with the same score is not the predictor in use |
| LagPredictor.RingPush | jitterentropy-library/src/jitterentropy-health.c:143-211 | Overwriting the oldest slot keeps the last eight deltas in the ring buffer |
| LagPredictor.LagOverStream | jitterentropy-library/src/jitterentropy-health.c:143-211 | From a fresh test, the failure bit is set iff some delta of the stream makes its window reach a cutoff |
| LagPredictor.AlarmWithin | jitterentropy-library/src/jitterentropy-health.c:143-211 | Within a window: some delta alarms iff the successes of the whole window reach the global cutoff or some run the local one |
| LagPredictor.LagStreamIsWindows | jitterentropy-library/src/jitterentropy-health.c:143-211 | Some delta of a stream raises the alarm iff in some window of it, complete or the last one, the successes reach the global cutoff or a run reaches the local one |
| LagPredictor.SuccessesMonotone | jitterentropy-library/src/jitterentropy-health.c:143-211 | The successes of a window only grow |
| LagPredictor.FirstSuccessesAt | jitterentropy-library/src/jitterentropy-health.c:143-211 | A number of successes is reached at a delta that is itself a success |
| Apt.AptTest.Insert | jitterentropy-library/src/jitterentropy-health.c:408-433 | The window is the deltas since its first one, the count their agreements with it, the alarm the verdict on that count |
| Apt.AptTest.Duplicate | jitterentropy-library/src/jitterentropy-health.c:382-389 | The replacement continues the window with the count at its own intermittent cutoff |
| Apt.AptOverStream | jitterentropy-library/src/jitterentropy-health.c:408-433 | A fresh incremental test alarms on a stream iff some delta completes a tally that reaches a cutoff in its window, and for good iff some repetition of the first delta of its window reaches the permanent one |
| Apt.TallyIsCount | jitterentropy-library/src/jitterentropy-health.c:415-424 | The count is the number of positions that hold the value |
| Apt.ReachesWithin | jitterentropy-library/src/jitterentropy-health.c:408-433 | Within a window some delta reaches the cutoff iff the tally of the whole window does |
| Apt.AptBatch | app/entropy_stats.c:273-313 | The windows tested are all complete ones, the windows failed exactly those whose first value occurs as often as the cutoff |
| Apt.AptReport | app/entropy_stats.c:273-313 | The cutoff is one more than the critical value of the binomial distribution for the window, and the windows failed are exactly those whose first value occurs as often |
| Apt.CountFirst | app/entropy_stats.c:301-306 | The counting loop counts the occurrences of the first value of the window |
| Apt.SomeWindowFails | app/entropy_stats.c:298-312 | The number of failed windows is positive iff some window fails |
| Apt.IncrementalIsBatch | jitterentropy-library/src/jitterentropy-health.c:361-433 | On complete windows the incremental test of the collector alarms iff the batch test of the statistics engine fails a window (section 4.4.2 of NIST SP 800-90B) |
| Rct.RctTest.Insert | jitterentropy-library/src/jitterentropy-health.c:662-676 | The count is the number of stuck results since the last one that is not, modulo 2^32, and the alarm the verdict on it |
| Rct.RctTest.Restart | jitterentropy-library/src/jitterentropy-health.c:644-654 | The count starts from a given value |
| Rct.StuckRunCounts | jitterentropy-library/src/jitterentropy-health.c:662-676 | The count is exactly the length of the run of stuck results at the end of the history |
| Rct.RunReachesCutoff | jitterentropy-library/src/jitterentropy-health.c:662-676 | Somewhere the count reaches a cutoff iff that many consecutive results are stuck (section 4.4.1 of NIST SP 800-90B) |
| Rct.RctOverStream | jitterentropy-library/src/jitterentropy-health.c:662-676 | A fresh test raises an alarm on a stream iff as many consecutive results as the cutoff are stuck somewhere, and for good iff as many as the permanent cutoff are, however often the 32-bit count wraps |
| Rct.RctBatch | app/entropy_stats.c:239-271 | The longest run of equal samples, and it passes iff no run reaches the cutoff |
| Cutoffs.AptCutoffsOrdered | jitterentropy-library/src/jitterentropy-health.c:306-359 | Every intermittent cutoff of the tables can be reached in a window and is not above its permanent one |
| Cutoffs.LookupIs | jitterentropy-library/src/jitterentropy-health.c:49-60 | A rate takes its own entry of a table, and a higher one the last |
| Cutoffs.LagCutoffsRise | jitterentropy-library/src/jitterentropy-health.c:49-84 | Both cutoffs of the lag test rise with the rate, the global one between a half and the whole of the window |
| Cutoffs.AptCutoffsRise | jitterentropy-library/src/jitterentropy-health.c:306-359 | Both cutoffs of the adaptive proportion test rise with the rate, in either mode, and are lower in NTG.1 mode |
| Cutoffs.RctCutoffsAre | jitterentropy-library/src/jitterentropy-health.c:629-642 | 30 and 60 for each unit of the rate, an eighth of that, rounded up, in NTG.1 mode |
| Cutoffs.RctMemCutoffsOfModes | jitterentropy-library/src/jitterentropy-health.c:468-503 | The cutoffs of NTG.1 mode are lower up to rate 7, the same from there on, and rise with the rate |
| Cutoffs.RctMemCutoffsOrdered | jitterentropy-library/src/jitterentropy-health.c:468-520 | Intermittent below permanent in both tables, for every rate |
| Cutoffs.CommonCutoffs | jitterentropy-library/src/jitterentropy-health.c:468-489 | The common table is 107 times the rate up to 20, the permanent cutoff one more |
| Cutoffs.Iterations | jitterentropy-library/src/jitterentropy-noise.c:541-585 | The 16-bit iteration count is a multiple of three and does not wrap for rates up to 20 |
| Cutoffs.RctMemWindow | jitterentropy-library/src/jitterentropy-health.c:468-489 | A window admits fewer counts than the permanent cutoff, and without FIPS mode fewer than the intermittent one |
| Cutoffs.RctMemCutoffRises | jitterentropy-library/src/jitterentropy-health.c:496-520 | The cutoff of a replacement is strictly above that of the collector it replaces |
| Cutoffs.RctPermanentInRange | jitterentropy-library/src/jitterentropy-health.c:629-642 | The permanent repetition cutoff is between 1 and 1200 |
| Ladder.ReadEntropySafe | jitterentropy-library/src/jitterentropy-base.c:435-510 | Retries raise the rate, which stays at most 20, so there are at most 17 of them. Success delivers the whole request and adds one invocation and its bytes to the totals, failure adds nothing; identifier, totals and the memory cap survive every replacement, the reinitialization count grows by one each and the rate by that, by replacements within a startup and by failed power-up tests; the code names the failure of the collector the caller is left with, an intermittent one is returned exactly if its replacement was refused, and -10 never; neither memory nor hash loop shrinks; in FIPS mode consumption is bounded if no recovery fires in the startup of a replacement |
| Ladder.Attempt | jitterentropy-library/src/jitterentropy-base.c:450-507 | One attempt: served, given up, or a replacement of a higher rate in place, with the totals untouched |
| Ladder.ReadEntropy | jitterentropy-library/src/jitterentropy-base.c:229-333 | Success has gathered a full pass of measurements of both sources for every block of 32 bytes and meets no health failure; totals change only on success; an error code names the failure of the collector (-6 and -2 the repetition count, -7 and -3 the adaptive proportion, -9 the test with memory, -5 the lag test), and never the one of a permanent failure of the test with memory |
| Ladder.ReadBlock | jitterentropy-library/src/jitterentropy-base.c:256-293 | A block comes after a full pass that did not fail |
| Ladder.Identify | jitterentropy-library/src/jitterentropy-base.c:769-775 | A collector that has completed startup has an identifier |
| Ladder.CodesClassify | jitterentropy-library/src/jitterentropy-base.c:261-284 | Each code names the failure of one test, and which one: a permanent one before an intermittent one, and the tests in a fixed order; an intermittent code is returned iff no permanent bit is set |
| Ladder.Alloc | jitterentropy-library/src/jitterentropy-base.c:701-778 | Any collector returned has completed startup (in FIPS mode a full pass of the memory access and one of the hash loop, without a recovery), reports no health failure, has a rate of max(3, requested), one more for every replacement during startup and for every power-up test that failed, up to 20, and a passed power-up test behind it; contradictory flags and too high rates are rejected, and otherwise there is a failed test or operation or the highest rate behind a refusal; in FIPS mode the loop ends within 18 passes if no recovery fires inside startup; if one does in the first stage and the deltas are calm after it, there is never a collector |
| Ladder.StartupRound | jitterentropy-library/src/jitterentropy-base.c:728-767 | One turn of the loop, including the continue after a reset: a collector that goes on has completed startup iff no recovery fired in its stages and otherwise is past every stage and stays there, so that it never completes; from the first stage one fires iff the deltas bring one of the two passes to the cutoff of the test with memory; or it is one of a higher rate back at the first stage |
| Ladder.StartupPass | jitterentropy-library/src/jitterentropy-base.c:728-737 | The passes of one turn, a full one of each source at the start, and the same alternative and condition |
| Ladder.AllocInternal | jitterentropy-library/src/jitterentropy-base.c:545-699 | A new collector has the requested rate, or 3 for a lower one, sized flags, the mode the flags and the system ask for, and its startup ahead of it exactly in FIPS mode |
| Ladder.AllocatedMode | jitterentropy-library/src/jitterentropy-base.c:584-632 | Filling in the sizes does not change FIPS or NTG.1 mode |
| Ladder.NextStep | jitterentropy-library/src/jitterentropy-base.c:345-368 | The rate of a replacement is one more than the old one and one more for every power-up test that fails; it gives up exactly when 20 is passed |
| Ladder.Allocate | jitterentropy-library/src/jitterentropy-base.c:335-370 | Either allocation yields a collector that can take the place of the old one; with both timer flags there is none |
| Ladder.Reset | jitterentropy-library/src/jitterentropy-base.c:335-406 | The replacement has a rate higher by one, one more for every failed power-up test and every replacement within its own startup; its memory and hash loop have at least doubled, up to their limits and unless the caller set the memory; it has the old identity and totals, no failure, and one more reinitialization; at rate 20 there is none, nor with both timer flags |
| Ladder.ResetFlags | jitterentropy-library/src/jitterentropy-base.c:345-377 | A memory size the caller set survives a replacement, whichever allocation is used |
| Ladder.TakeOver | jitterentropy-library/src/jitterentropy-base.c:379-400 | Identity, totals, cap and test state are carried over; startup and failures are the new collector's own |
| Ladder.DuplicatedCount | jitterentropy-library/src/jitterentropy-health.c:644-654 | The count a replacement starts with raises no alarm at the next stuck result in common mode and a permanent one in NTG.1 mode |
| Sizing.CacheSizeToMemory | jitterentropy-library/arch/jitterentropy-arch-cache.c:102-125 | The result has the form 2^k - 1 and the same highest bit as the 32-bit sum of the sizes; 0 for a sum of 0 |
| Sizing.SmearedFills | jitterentropy-library/arch/jitterentropy-arch-cache.c:117-122 | So for every 32-bit number the five steps are applied to |
| Sizing.RoundupIsPower | jitterentropy-library/arch/jitterentropy-arch-cache.c:193-198 | The rounded size is the power of two just above the sum iff there is one in 32 bits, and 0 otherwise |
| Sizing.RoundupIsLeast | jitterentropy-library/arch/jitterentropy-arch-cache.c:193-198 | No smaller power of two is above the sum |
| Sizing.Log2Simple | jitterentropy-library/src/jitterentropy-base.c:97-104 | The loop halves until nothing is left |
| Sizing.LogIsHighest | jitterentropy-library/src/jitterentropy-base.c:97-104 | What it counts is the position of the highest bit |
| Sizing.MemoryCoversL1 | jitterentropy-library/src/jitterentropy-base.c:127-174 | Without a caller size the block is a power of two of at least four times the L1 cache, exactly when that is no more than 128 MB |
| Sizing.MemoryIsFourfold | jitterentropy-library/src/jitterentropy-base.c:127-174 | And exactly: four times the power of two just above the L1 cache, up to 512 MB; 256 KB for a cache that is unknown or below 128 bytes |
| Sizing.MemoryExceedsAll | jitterentropy-library/src/jitterentropy-base.c:127-174 | With all caches counted the block is a power of two larger than their sum, exactly below 512 MB |
| Sizing.MemoryIsSimple | jitterentropy-library/src/jitterentropy-base.c:127-174 | And exactly: the power of two just above their sum, up to 512 MB; 256 KB for a sum that is unknown or below 512 bytes |
| Sizing.SumOfCaches | jitterentropy-library/arch/jitterentropy-arch-cache.c:102-115 | All levels are summed, or the first one alone, modulo 2^32 |
| Sizing.SizeFields | jitterentropy-library/src/jitterentropy-base.c:512-541 | Where the size fields are and what they stand for: 256 KB for 0, otherwise 512 bytes shifted by the field; the hash loop 1 shifted by its field |
| Sizing.UpdateMemsizeFields | jitterentropy-library/src/jitterentropy-base.c:127-174 | Only the memory field changes, and it is capped |
| Sizing.UpdateHashloopFields | jitterentropy-library/src/jitterentropy-base.c:176-192 | Only the hash loop field changes, and it is capped |
| Sizing.AllocatedSettled | jitterentropy-library/src/jitterentropy-base.c:584-632 | The flags a collector keeps are sized, and NTG.1 has the internal timer off |
| Sizing.AllocatedFields | jitterentropy-library/src/jitterentropy-base.c:584-632 | What allocating does to the flags, field by field: the timer flag in NTG.1 mode, a memory size unless the memory is off, at most 512 MB, and nothing else |
| Sizing.SettledStays | jitterentropy-library/src/jitterentropy-base.c:614-632 | Sizing sized flags again changes nothing |
| Sizing.ReplacementGrows | jitterentropy-library/src/jitterentropy-base.c:345-360 | A replacement doubles memory and hash loop up to their limits, keeps a caller's memory size, and leaves all other flags |
| Sizing.DoublesAtLeast | jitterentropy-library/src/jitterentropy-base.c:345-360 | Whatever comes after a replacement, memory and hash loop have at least doubled up to their limits |
| Sizing.ResetsGrow | jitterentropy-library/src/jitterentropy-base.c:335-360 | Over any number of replacements nothing shrinks, a caller's memory size stays and so do all other flags |
| Keccak.ThetaInPlace | jitterentropy-library/src/jitterentropy-sha3.c:68-116 | The in-place step computes theta of the old state |
| Keccak.RhoInPlace | jitterentropy-library/src/jitterentropy-sha3.c:118-149 | The walk rotates each lane exactly once |
| Keccak.PiInPlace | jitterentropy-library/src/jitterentropy-sha3.c:151-181 | Following the cycle in place moves every lane to its pi position |
| Keccak.ChiInPlace | jitterentropy-library/src/jitterentropy-sha3.c:183-228 | Column by column in place equals chi of the old state |
| Keccak.ChiColumn | jitterentropy-library/src/jitterentropy-sha3.c:183-228 | One column from saved lanes, the others untouched |
| Keccak.PermuteInPlace | jitterentropy-library/src/jitterentropy-sha3.c:246-257 | Twenty-four rounds in place equal the permutation of the old state |
| Keccak.CycleSource | jitterentropy-library/src/jitterentropy-sha3.c:151-181 | The in-place order visits the pi permutation as one cycle of 24 lanes |
| Keccak.BitRol | jitterentropy-library/src/jitterentropy-sha3.c:58-61 | A rotation by an amount of the permutation moves bit z to z + n modulo 64 |
| Fips202.ThetaBits | jitterentropy-library/src/jitterentropy-sha3.c:68-116 | Theta is that of section 3.2.1 of FIPS 202 on every bit of every state |
| Fips202.RhoBits | jitterentropy-library/src/jitterentropy-sha3.c:118-149 | Rho is that of section 3.2.2, offsets by the triangular numbers |
| Fips202.RhoRolIsTriangular | jitterentropy-library/src/jitterentropy-sha3.c:118-149 | The rotation constants are the triangular numbers modulo 64 |
| Fips202.PiBits | jitterentropy-library/src/jitterentropy-sha3.c:151-181 | Pi is that of section 3.2.3 |
| Fips202.ChiBits | jitterentropy-library/src/jitterentropy-sha3.c:183-228 | Chi is that of section 3.2.4 |
| Fips202.IotaBits | jitterentropy-library/src/jitterentropy-sha3.c:230-244 | Iota changes lane (0, 0) only |
| Fips202.RoundBits | jitterentropy-library/src/jitterentropy-sha3.c:246-257 | A round is theta, rho, pi, chi and iota in this order (section 3.3) |
| Fips202.PermutationIsRounds | jitterentropy-library/src/jitterentropy-sha3.c:246-257 | Twenty-four rounds, counted from 0 |
| Fips202.IotaConstants | jitterentropy-library/src/jitterentropy-sha3.c:230-244 | The table of round constants is the one the shift register of section 3.2.5 generates |
| Sponge.AbsorbConcat | jitterentropy-library/src/jitterentropy-sha3.c:302-343 | Absorbing whole blocks one after the other absorbs their concatenation |
| Sponge.ResumeShort | jitterentropy-library/src/jitterentropy-sha3.c:302-343 | Input that does not fill the partial block only extends it |
| Sponge.ResumeAligned | jitterentropy-library/src/jitterentropy-sha3.c:302-343 | Input at a block boundary goes on from the absorbed state |
| Sponge.ResumeBlock | jitterentropy-library/src/jitterentropy-sha3.c:302-343 | Input that fills the partial block absorbs it and goes on behind it |
| Sponge.SpongeByTail | jitterentropy-library/src/jitterentropy-sha3.c:345-381 | The digest of a message follows from the state after its whole blocks and one padded block |
| Sponge.SqueezePrefix | jitterentropy-library/src/jitterentropy-sha3.c:345-381 | A shorter digest is a prefix of a longer one |
| SpongeBits.Sha3Padding | jitterentropy-library/src/jitterentropy-sha3.c:345-381 | The padding bytes of SHA3 are the bits 01 and pad10*1 of sections 5.1 and 6.1 of FIPS 202, for every length |
| SpongeBits.ShakePadding | jitterentropy-library/src/jitterentropy-sha3.c:345-381 | Those of SHAKE256 are the bits 1111 and pad10*1 (section 6.2) |
| SpongeBits.LaneRoundTrip | jitterentropy-library/src/jitterentropy-sha3.c:38-41 | Reading a lane and writing it gives the bytes back |
| SpongeBits.BytesRoundTrip | jitterentropy-library/src/jitterentropy-sha3.c:51-55 | Writing a lane and reading it gives the lane back |
| SpongeBits.LaneBit | jitterentropy-library/src/jitterentropy-sha3.c:38-55 | Bit order of lanes and bytes agree |
| BitSponge.StateRoundTrip | jitterentropy-library/src/jitterentropy-sha3.c:38-55 | A state can be read back from its string of 1600 bits (section 3.1 of FIPS 202) |
| BitSponge.StateStringBits | jitterentropy-library/src/jitterentropy-sha3.c:38-55 | Bit 64 (5 y + x) + z of that string is A[x, y, z] |
| BitSponge.AbsorbStrings | jitterentropy-library/src/jitterentropy-sha3.c:291-343 | Absorbing bytes block by block absorbs the bit string as Algorithm 8 does |
| BitSponge.SpongeIsBitSponge | jitterentropy-library/src/jitterentropy-sha3.c:302-381 | The bits of the digest are SPONGE[KECCAK-f[1600], pad10*1, 1088] of section 4 of FIPS 202 of the bits of the message and the domain bits |
| BitSponge.Sha3IsBitSponge | jitterentropy-library/src/jitterentropy-sha3.c:302-381 | SHA3-256 is KECCAK[512](M || 01, 256) on bit strings (section 6.1) |
| BitSponge.ShakeIsBitSponge | jitterentropy-library/src/jitterentropy-sha3.c:302-381 | SHAKE256 of at most one block is KECCAK[512](M || 1111, d) (section 6.2) |
| ShaContext.Context.Update | jitterentropy-library/src/jitterentropy-sha3.c:302-343 | The context represents everything absorbed so far, however the input meets the partial block |
| ShaContext.Context.Final | jitterentropy-library/src/jitterentropy-sha3.c:345-381 | The digest is the sponge of everything absorbed, and the context starts over |
| ShaContext.Context.AbsorbBlocks | jitterentropy-library/src/jitterentropy-sha3.c:328-342 | The block loop absorbs all whole blocks and leaves the tail |
| ShaContext.Context.CompletePartial | jitterentropy-library/src/jitterentropy-sha3.c:312-326 | Filling the partial block absorbs old bytes and new ones as one block |
| ShaContext.Context.AbsorbInPlace | jitterentropy-library/src/jitterentropy-sha3.c:291-300 | A block is added to the first 17 lanes and the state permuted |
| ShaContext.WrappedPosition | jitterentropy-library/src/jitterentropy-sha3.c:302-311 | The position in the partial block taken from the wrapped length is right iff the length has wrapped a multiple of 17 times |
| ShaContext.HashPieces | jitterentropy-library/src/jitterentropy-sha3.c:302-381 | However a message is cut into updates the digest is the one-shot SHA3-256 of the whole |
| Xdrbg.GenerateBlock | jitterentropy-library/src/jitterentropy-sha3.c:414-497 | The output is the prefix of bytes 64.. of SHAKE256(V || 2 encoded) and the context holds exactly the next V, with the encoding of a first seeding only once |
| Xdrbg.Squeeze | jitterentropy-library/src/jitterentropy-sha3.c:414-497 | Closing the context with an encoding byte yields the SHAKE256 of what it held |
| Xdrbg.ShakePrefix | jitterentropy-library/src/jitterentropy-sha3.c:414-497 | A shorter request gets a prefix |
| Xdrbg.EncodeIs | jitterentropy-library/src/jitterentropy-sha3.c:405-405 | The closing byte is 85 n |
| Xdrbg.Construction | jitterentropy-library/src/jitterentropy-sha3.c:436-472 | The three calls of the construction: V from the seed, V from V and the seed, and the next V with the output behind it |
| Xdrbg.Run | jitterentropy-library/src/jitterentropy-sha3.c:414-497 | Every run of seed updates and requests gives the outputs of the construction, however the seed material is cut, as long as each request sees fewer than 2^64 bytes |
| Xdrbg.Deliver | jitterentropy-library/src/jitterentropy-base.c:256-313 | The bytes of a request are the outputs of the construction, one for each block, seeded with the material of its pass; afterwards the state has been replaced once more without output unless the memory is secure |
| Xdrbg.DeliverBlock | jitterentropy-library/src/jitterentropy-base.c:256-293 | A block is the output after the material of its pass |
| Xdrbg.FinalMore | jitterentropy-library/src/jitterentropy-sha3.c:414-497 | One request more takes the state one step on |
| BridgeJson.ParseFlatObject | app/bridge_json.h:73-134 | Accepts exactly the texts of the flat-object grammar without duplicate keys, and returns the object the grammar says |
| BridgeJson.Parse | app/bridge_json.h:73-134 | The index loop computes what the scanner computes |
| BridgeJson.ParseMember | app/bridge_json.h:83-112 | A key, a colon and a scalar at a position, and where they end |
| BridgeJson.ParseScalar | app/bridge_json.h:93-112 | The scalar at a position: a string, or the longest text without a delimiter that is not nested |
| BridgeJson.ParseToken | app/bridge_json.h:99-104 | The longest text without a delimiter |
| BridgeJson.ParseString | app/bridge_json.h:37-69 | The literal at a position, its decoded value and where it ends |
| BridgeJson.SkipWsAt | app/bridge_json.h:30-35 | The first position that is not white space |
| Json.ScanObjectIsGrammar | app/bridge_json.h:73-134 | A text is accepted with a meaning iff it is a document of the grammar with that meaning |
| Json.DocumentComplete | app/bridge_json.h:73-134 | Every document of the grammar is accepted |
| Json.DocumentSound | app/bridge_json.h:73-134 | Whatever is accepted is a document, white space and all |
| Json.AddMembersMeaning | app/bridge_json.h:114-116 | The object holds every member's value under its key and nothing else |
| Json.StringComplete | app/bridge_json.h:37-69 | Every literal of plain characters and escapes is read with its value (section 7 of RFC 8259 without \u) |
| Json.StringSound | app/bridge_json.h:37-69 | Whatever is read as a string is such a literal |
| Json.Characters | app/bridge_json.h:30-62 | The four characters of white space and the eight escape letters with their code points |
| Json.Delimiters | app/bridge_json.h:99-104 | What ends a bare scalar |
| Json.NotScalars | app/bridge_json.h:37-112 | Nested values, control characters and unknown escapes are rejected |
| BridgeJson.GetInt | app/bridge_json.h:170-204 | Succeeds iff the text is the canonical decimal form, of at most 18 digits, of a value in the range (or minus zero), and returns that value |
| BridgeJson.ReadDigits | app/bridge_json.h:185-197 | The digit loop accepts canonical digit strings only and computes their number |
| BridgeJson.CanonicalIsDecimal | app/bridge_json.h:170-204 | A canonical digit string is the decimal form of its number |
| BridgeJson.DecimalIsCanonical | app/bridge_json.h:170-204 | The decimal form of a number is canonical and stands for it |
| BridgeJson.DenotesOne | app/bridge_json.h:170-204 | No text stands for two values |
| BridgeJson.JsonEscape | app/bridge_json.h:207-232 | The loop escapes character by character |
| BridgeJson.EscapeInverse | app/bridge_json.h:207-232 | Reading back an escaped string gives the string iff its only control characters are newline, carriage return and tab, and nothing otherwise |
| BridgeJson.EscapeForms | app/bridge_json.h:207-232 | Every escape has its form: the code point in base 16 for control characters without a letter |
| BridgeJson.EscapeAndParse | app/bridge_json.h:37-69 | ParseString inverts a quoted JsonEscape, exactly on those strings |
| Gui.StepKeepsInv | app/main_gui.cpp:162-219 | Every atomic step of the UI thread or of a worker keeps the invariant |
| Gui.Reachable | app/main_gui.cpp:162-219 | Every interleaving from the start satisfies it |
| Gui.OneWorker | app/main_gui.cpp:200-219 | At most one worker thread is alive |
| Gui.HandlesKept | app/main_gui.cpp:162-177 | No handle is overwritten: each is closed once, after its thread has exited, or held; between messages a live thread is the one in the slot |
| Gui.BusyMeans | app/main_gui.cpp:200-219 | The slot is taken exactly while a job is being admitted or worked on |
| Gui.CollectorSafe | app/main_gui.cpp:729-787 | A worker always finds its collector; the UI thread frees it only while no worker has a job; a configuration that is not refused as busy never meets an allocated one |
| Gui.UiNotStuck | app/main_gui.cpp:660-790 | The UI thread has a step to take in every state until it is closed |
| Gui.CancelHolds | app/main_gui.cpp:715-719 | Once the flag is set while a worker is alive it stays set until it has exited; the job reads at most the chunk it is at, and unless it is reading one it is not reported as done |
| Gui.Cancels | app/main_gui.cpp:715-719 | A cancel request sets the flag if there is a job, and changes nothing else and nothing otherwise |
| Gui.CancelStops | app/main_gui.cpp:715-719 | From any reachable state: after a cancel request, or the end of the program, a live worker reads at most the chunk it is at and, unless it is reading one, is not reported as done, whatever happens next |
| Gui.EndsProgram | app/main_gui.cpp:1007-1022 | The end of the program sets the flag, and gives up waiting for a worker that does not exit in time |
| Gui.EndsClean | app/main_gui.cpp:1007-1025 | Once the worker has exited its handle is closed and the collector freed |
| Gui.RequestRefused | app/main_gui.cpp:200-206 | A request that is busy or invalid changes nothing but what the page is told |
| Gui.RequestStarts | app/main_gui.cpp:200-219 | A request with a free slot: one thread more, for that job, its handle in the slot, the flag clear |
| Gui.RequestFails | app/main_gui.cpp:221-236 | If no thread can be created the page is told and the slot is free |
| Gui.RequestTimesOut | app/main_gui.cpp:207-211 | If the thread before does not exit in time the request is refused |
| Gui.ConfigurationRefused | app/main_gui.cpp:729-775 | A configuration is refused while there is a job, and if it is invalid |
| Gui.Configures | app/main_gui.cpp:776-787 | Otherwise the collector is freed and the page told |
| Gui.Delivers | app/main_gui.cpp:340-356 | A frame delivers what waits, once |
| Gui.JobsEnd | app/main_gui.cpp:340-356 | In every run a job is running until it ends, and has read something when it is done |
| Gui.JobBegins | app/main_gui.cpp:240-356 | From its start to the first look at the flag, or to a failure before it |
| Gui.JobReads | app/main_gui.cpp:240-356 | Every read of a job that is neither cancelled nor failed counts |
| Gui.JobEnds | app/main_gui.cpp:240-356 | How a job ends: done with the last read, cancelled at a look at the flag, failed at a read; a benchmark frees the collector, a generator keeps it |
| Gui.JobLeaves | app/main_gui.cpp:340-356 | Then its result is published, the slot is free, and the thread exits |
| Gui.CancelStep | app/main_gui.cpp:212-217 | No step clears the flag under a live worker |
| Gui.StartsUncancelled | app/main_gui.cpp:212-217 | No job starts cancelled |
| Gui.ResultsConserved | app/main_gui.cpp:179-198 | A result leaves the pending place only by delivery, or replaced; one is replaced exactly when the result of a job or a failure to start one is stored while it waits, and never by a rejection |
| Gui.EveryResultOnce | app/main_gui.cpp:340-356 | The result of every finished job is there exactly once, delivered, waiting or replaced, with the status the job ended with |
| Gui.SampleCanBeReplaced | app/main_gui.cpp:179-236 | A run in which a generated sample is replaced before any frame has delivered it |
| TestRing.Testing.Store | jitterentropy-library/linux_kernel/jitterentropy_testing.c:117-170 | One sample more; once there are as many as slots the oldest is given up; the live slots hold the samples not yet read; refused exactly when no test runs or the boot test is full |
| TestRing.Testing.HaveData | jitterentropy-library/linux_kernel/jitterentropy_testing.c:172-177 | The masked comparison tells exactly whether there are samples to read, over any number of stores |
| TestRing.Testing.Take | jitterentropy-library/linux_kernel/jitterentropy_testing.c:185-228 | With a writer seen before the lock, the reader only ever takes a live slot |
| TestRing.Testing.Read | jitterentropy-library/linux_kernel/jitterentropy_testing.c:179-235 | With stores interleaved anywhere: the words are samples in the order stored, each once, and those missing between them are ones a ring's length behind; it waits only if there is nothing to read (or the 32-bit counter has just wrapped to 0); a signal and the end of the boot test end a read only after all samples stored before the call are read or given up |
| TestRing.Testing.Wait | jitterentropy-library/linux_kernel/jitterentropy_testing.c:198-211 | The wait ends as soon as there is a sample |
| TestRing.Testing.StoreAll | jitterentropy-library/linux_kernel/jitterentropy_testing.c:117-170 | Stores while the reader is away only give up the oldest samples |
| TestRing.Testing.BootTest | jitterentropy-library/linux_kernel/jitterentropy_testing.c:131-165 | The boot test takes the first 1024 samples and then stops; the first one can still be read iff fewer than 1024 have come |
| TestRing.Testing.DataInit | jitterentropy-library/linux_kernel/jitterentropy_testing.c:91-104 | Starts a fresh recording, except during the boot test |
| TestRing.Testing.Fini | jitterentropy-library/linux_kernel/jitterentropy_testing.c:106-115 | Ends it, but keeps boot data |
| TestRing.Testing.Reset | jitterentropy-library/linux_kernel/jitterentropy_testing.c:81-89 | An empty ring |
| Serial.SerialCorrelation | app/entropy_stats.c:106-129 | None exactly for fewer than two bytes or equal bytes; otherwise between -1 and 1 |
| Serial.CorrelationBounds | app/entropy_stats.c:121-128 | The numerator is bounded by the denominator, which is 0 iff all bytes are equal |
| Serial.RotatedIs | app/entropy_stats.c:114-121 | The successor of the last byte is the first |
| Serial.TwoValues | app/entropy_stats.c:121-128 | Two different values are perfectly anticorrelated |
| Serial.Sums | app/entropy_stats.c:114-121 | The accumulators are the sums of products, values and squares |
| CritBinom.CritBinom | app/entropy_stats.c:203-227 | The least k with P(X <= k) >= 1 - alpha for X binomial, for every p from 0 to 1 |
| CritBinom.Total | app/entropy_stats.c:203-227 | The binomial theorem for p and 1 - p |
| CritBinom.TermIsExactly | app/entropy_stats.c:217-221 | The factorial formula is the probability of k successes in n trials |
| CritBinom.AtMostRises | app/entropy_stats.c:203-227 | The distribution function does not fall |
| Gcd.Gcd64 | jitterentropy-library/src/jitterentropy-gcd.c:34-55 | The divisors of the result are exactly the common divisors of the arguments |
| Gcd.AnalyzeInternal | jitterentropy-library/src/jitterentropy-gcd.c:57-97 | The divisors of the result are exactly the common divisors of all deltas; the sum is their total variation modulo 2^64 |
| Gcd.GreatestDivisor | jitterentropy-library/src/jitterentropy-gcd.c:57-97 | Such a number is the greatest common divisor, unique, and 0 only for a history of zeros |
| Gcd.MonotoneVariation | jitterentropy-library/src/jitterentropy-gcd.c:57-97 | A history that only rises or only falls varies by the distance between its ends |
| Gcd.Timer.Analyze | jitterentropy-library/src/jitterentropy-gcd.c:99-131 | A published divisor is not 0, below 2^31, that of the history that published it, and never changes; a history that does not vary enough, or has a divisor from 2^31 - 1 on, publishes none |
| Gcd.Timer.Get | jitterentropy-library/src/jitterentropy-gcd.c:150-157 | The divisor a collector divides by is never 0 |
| MemWalk.Memory.Walk | jitterentropy-library/src/jitterentropy-noise.c:295-332 | Over all calls every byte holds its number of hits modulo 256 |
| MemWalk.HitsExactly | jitterentropy-library/src/jitterentropy-noise.c:309-332 | Every byte has been hit once per round of accesses, and once more after its turn in the current one |
| MemWalk.FullCycle | jitterentropy-library/src/jitterentropy-noise.c:309-332 | Any memmask + 1 consecutive accesses hit every byte exactly once |
| MemWalk.EvenHits | jitterentropy-library/src/jitterentropy-noise.c:309-332 | Hit counts never differ by more than one |
| MemWalk.TurnOf | jitterentropy-library/src/jitterentropy-noise.c:325-331 | Which access of a round touches a byte, in closed form: 127 has an inverse modulo a power of two |

## Left out

- Keccak: the source spells out 25 lanes per step; the model has loops over the lanes with the same reads and writes.
- RandData: the fields of the three tests on a delta are grouped into one object per test; the hash state, the memory block and the timer are modelled apart from the collector.
- RandData.RandomData: in non-FIPS mode the collection loop has no bound, since nothing stops a stream of stuck deltas; the model claims only what holds when it ends.
- Clock: timestamps, the division by the common divisor and the work inside a measurement (hash loop, pseudorandom memory access, xoshiro generator) are replaced by an arbitrary stream of deltas.
- ReadEntropy: the bytes delivered are stated apart from the passes (`Xdrbg.Deliver`, for any material that the passes put into the context), with the extra block squeezed for backtracking resistance; the lag test has no permanent failure bit in the code, so code -8 does not occur.
- ReadBlock: the bytes of the block are those of `Xdrbg.DeliverBlock`; the contract here speaks of the pass in front of it.
- ReadEntropySafe: the checks for a null pointer to the collector are not modelled; its branch for unknown codes cannot be taken.
- AllocInternal: the internal timer, memory allocation and secure memory are operations that may fail, in one place; freeing a collector is not modelled.
- PowerUpTest: the body of the power-up test is arbitrary; its deltas do not come from the modelled feed.
- MemoryCoversL1: the discovery of cache sizes (CPUID, sysfs, registers) is a constant oracle.
- SpongeOf: digests longer than one block, which the program never asks for, are not modelled.
- Final: a digest length that is not a multiple of eight yields whole lanes only, as in the code.
- CritBinom: the program adds terms computed through logarithms and `lgamma` in floating point; the model adds the exact terms. Sums of floating-point numbers elsewhere are exact integers or reals as well.
- AptReport: the probability 2^-H is a parameter and the samples are integers, not doubles.
- AptBatch: samples are integers, not doubles, so that a value that is not equal to itself does not occur; `AptReport` takes the cutoff from the exact critical value.
- BitRol: the amounts are those the permutation rotates by; `rol64` takes any.
- RctBatch: the cutoff is a parameter; the program computes it with a floating-point logarithm. Samples are integers, not doubles.
- Gui: the threads are interleaved atomic steps on values instead of objects; the critical section that a worker holds for its whole run, the timeline record, the session histogram, telemetry text and window handling are not modelled. Time-outs may or may not occur.
- Read: stores by other contexts come as a list of batches, one for each time the reader is not holding the lock; the debugfs session around the reader is not modelled.
- Json: characters stand for bytes; `GetString` and `GetBool` are plain lookups and are not modelled.
- GetInt: C++ integer width is not modelled, since no accepted value has more than 18 digits.
- The monobit, runs, chi-square and entropy statistics, the health monitor, the status text, the benchmark's timing, raw-entropy tools, kernel device glue and self-test vectors are not part of this model.
- The counting-thread timer is not part of this model beyond "may fail to start".
