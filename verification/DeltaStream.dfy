/** What the health tests make of a stream of deltas: the stuck results, the alarms of the three tests that see every
    delta, and the count of the repetition count test with memory, as properties of the stream. */
module DeltaStream {
  import opened Basics
  import opened LagPredictor
  import opened Cutoffs
  import opened Apt
  import opened Rct

  function Delta(prev: Word, next: Word): Word {
    (next - prev) % UINT64
  }

  /** The stuck test: the delta, its first or its second difference within the lag window is zero. */
  predicate IsStuck(w: seq<Word>, delta: Word) {
    delta == 0 || delta == Ago(w, 0) || Delta(Ago(w, 0), delta) == Delta(Ago(w, 1), Ago(w, 0))
  }

  /** What the three tests remember: the lag window, the fields of the adaptive proportion test and the count of
      stuck results. */
  datatype Tests = Tests(window: seq<Word>, apt: AptState, run: nat)

  const START := Tests([], APT_START, 0)

  /** The rate and the mode that a collector takes its cutoffs from. */
  datatype Mode = Mode(osr: nat, ntg1: bool)

  type Setting = m: Mode | m.osr > 0 witness Mode(1, false)

  function Next(t: Tests, delta: Word): Tests {
    Tests(NextWindow(t.window, delta), AptNext(t.apt, delta),
          if IsStuck(t.window, delta) then (t.run + 1) % UINT32 else 0)
  }

  function AptVerdict(m: Setting, t: Tests, delta: Word): Alarm {
    AptAlarm(t.apt, delta, AptCutoff(m.osr, m.ntg1), AptPermanentCutoff(m.osr, m.ntg1))
  }

  function RctVerdict(m: Setting, t: Tests, delta: Word): Alarm {
    if IsStuck(t.window, delta)
    then Verdict((t.run + 1) % UINT32, RctCutoff(m.osr, m.ntg1), RctPermanentCutoff(m.osr, m.ntg1))
    else NoAlarm
  }

  predicate LagVerdict(m: Setting, t: Tests, delta: Word) {
    LagAlarm(t.window + [delta], LagLocalCutoff(m.osr), LagGlobalCutoff(m.osr))
  }

  /** One of the three tests raises an alarm on the delta. */
  predicate Alarms(m: Setting, t: Tests, delta: Word) {
    AptVerdict(m, t, delta) != NoAlarm || RctVerdict(m, t, delta) != NoAlarm || LagVerdict(m, t, delta)
  }

  /** The tests after a stream. */
  function After(t: Tests, h: seq<Word>): Tests {
    if h == [] then t else Next(After(t, h[..|h| - 1]), h[|h| - 1])
  }

  /** No delta of the stream raises an alarm. */
  predicate Quiet(m: Setting, t: Tests, h: seq<Word>) {
    h == [] || (Quiet(m, t, h[..|h| - 1]) && !Alarms(m, After(t, h[..|h| - 1]), h[|h| - 1]))
  }

  /** The delta at position i is stuck. */
  predicate StuckAt(t: Tests, h: seq<Word>, i: nat)
    requires i < |h|
  {
    IsStuck(After(t, h[..i]).window, h[i])
  }

  /** How many of the first n deltas are not stuck. */
  function Unstuck(t: Tests, h: seq<Word>, n: nat): nat
    requires n <= |h|
  {
    if n == 0 then 0 else Unstuck(t, h, n - 1) + if StuckAt(t, h, n - 1) then 0 else 1
  }

  /** How many of the first n deltas are stuck at a position divisible by three. */
  function StuckThirds(t: Tests, h: seq<Word>, n: nat): (c: nat)
    requires n <= |h|
    ensures c <= n
  {
    if n == 0 then 0 else StuckThirds(t, h, n - 1) + if (n - 1) % 3 == 0 && StuckAt(t, h, n - 1) then 1 else 0
  }

  /** The count of the test with memory over a pass: its window is the first nosr measurements. */
  function MemHits(t: Tests, h: seq<Word>, nosr: nat): nat {
    StuckThirds(t, h, Least(|h|, nosr))
  }

  // ---------------------------------------------------------------- what stuck means

  /** A delta is stuck when it is zero or continues the last two of the window evenly, a repetition of the last one
      included; a window that has just started is preceded by zeros. */
  lemma StuckMeans(w: seq<Word>, d: Word)
    ensures d == 0 ==> IsStuck(w, d)
    ensures d > 0 && |w| == 0 ==> !IsStuck(w, d)
    ensures d > 0 && |w| == 1 ==> (IsStuck(w, d) <==> d == w[0] || (d - w[0]) % UINT64 == w[0])
    ensures d > 0 && |w| >= 2 ==>
              (IsStuck(w, d) <==>
               || (d - w[|w| - 1]) % UINT64 == 0
               || (d - w[|w| - 1]) % UINT64 == (w[|w| - 1] - w[|w| - 2]) % UINT64)
  {
  }

  lemma {:induction false} WindowAfter(h: seq<Word>)
    requires |h| < WINDOW
    ensures After(START, h).window == h
  {
    hide AptNext, IsStuck;
    if h != [] {
      WindowAfter(h[..|h| - 1]);
      assert h[..|h| - 1] + [h[|h| - 1]] == h;
    }
  }

  /** Within the first window of a new collector: which deltas of a stream are stuck. */
  lemma StuckInStream(h: seq<Word>, i: nat)
    requires 2 <= i < |h| < WINDOW
    ensures StuckAt(START, h, i)
       <==> h[i] == 0 || h[i] == h[i - 1] || (h[i] - h[i - 1]) % UINT64 == (h[i - 1] - h[i - 2]) % UINT64
  {
    hide IsStuck;
    WindowAfter(h[..i]);
    StuckMeans(h[..i], h[i]);
    NoDifference(h[i - 1], h[i]);
  }

  lemma NoDifference(a: Word, b: Word)
    ensures (b - a) % UINT64 == 0 <==> a == b
  {
  }

  /** Deltas that grow by the same amount, modulo 2^64. */
  predicate Even(h: seq<Word>, c: Word) {
    forall i | 0 < i < |h| :: (h[i] - h[i - 1]) % UINT64 == c
  }

  lemma EvenIsStuck(h: seq<Word>, c: Word, i: nat)
    requires Even(h, c) && 2 <= i < |h| < WINDOW
    ensures StuckAt(START, h, i)
  {
    hide StuckAt;
    StuckInStream(h, i);
  }

  /** While nothing alarms, the repetition count of such a stream grows with it and stays below its cutoff. */
  lemma {:induction false} EvenRuns(m: Setting, h: seq<Word>, c: Word, n: nat)
    requires Even(h, c) && n <= |h| < WINDOW && Quiet(m, START, h[..n]) && m.osr <= 20
    ensures n <= After(START, h[..n]).run + 2 && After(START, h[..n]).run < RctCutoff(m.osr, m.ntg1)
  {
    hide IsStuck, AptVerdict, LagVerdict, AptNext, NextWindow;
    if n > 0 {
      assert h[..n][..n - 1] == h[..n - 1];
      EvenRuns(m, h, c, n - 1);
      if n > 2 {
        EvenIsStuck(h, c, n - 1);
      }
    }
  }

  /** So a counter that is read at even distances fails the repetition count test. */
  lemma EvenFails(m: Setting, h: seq<Word>, c: Word)
    requires Even(h, c) && RctCutoff(m.osr, m.ntg1) + 2 <= |h| < WINDOW && m.osr <= 20
    ensures !Quiet(m, START, h)
  {
    hide Quiet, After;
    if Quiet(m, START, h) {
      assert h[..|h|] == h;
      EvenRuns(m, h, c, |h|);
    }
  }

  // ---------------------------------------------------------------- one delta more

  lemma AfterOne(t: Tests, h: seq<Word>, delta: Word)
    ensures After(t, h + [delta]) == Next(After(t, h), delta)
  {
    assert (h + [delta])[..|h|] == h;
  }

  lemma QuietOne(m: Setting, t: Tests, h: seq<Word>, delta: Word)
    ensures Quiet(m, t, h + [delta]) <==> Quiet(m, t, h) && !Alarms(m, After(t, h), delta)
  {
    hide Alarms;
    assert (h + [delta])[..|h|] == h;
  }

  /** The first n positions do not depend on what follows. */
  lemma {:induction false} PrefixCounts(t: Tests, h: seq<Word>, k: nat, n: nat)
    requires n <= k <= |h|
    ensures Unstuck(t, h[..k], n) == Unstuck(t, h, n) && StuckThirds(t, h[..k], n) == StuckThirds(t, h, n)
  {
    hide IsStuck;
    if n > 0 {
      PrefixCounts(t, h, k, n - 1);
      assert h[..k][..n - 1] == h[..n - 1];
    }
  }

  lemma MemHitsOne(t: Tests, h: seq<Word>, delta: Word, nosr: nat)
    ensures MemHits(t, h + [delta], nosr) == MemHits(t, h, nosr)
              + if |h| < nosr && |h| % 3 == 0 && IsStuck(After(t, h).window, delta) then 1 else 0
  {
    hide IsStuck;
    var g := h + [delta];
    assert g[..|h|] == h;
    PrefixCounts(t, g, |h|, Least(|h|, nosr));
  }

  /** The count only grows. */
  lemma {:induction false} MemHitsGrow(t: Tests, h: seq<Word>, n: nat, nosr: nat)
    requires n <= |h|
    ensures MemHits(t, h[..n], nosr) <= MemHits(t, h, nosr)
    decreases |h| - n
  {
    hide MemHits;
    if n < |h| {
      assert h[..n + 1] == h[..n] + [h[n]];
      MemHitsOne(t, h[..n], h[n], nosr);
      MemHitsGrow(t, h, n + 1, nosr);
    } else {
      assert h[..n] == h;
    }
  }

  lemma {:induction false} QuietShrinks(m: Setting, t: Tests, h: seq<Word>, n: nat)
    requires n <= |h| && Quiet(m, t, h)
    ensures Quiet(m, t, h[..n])
  {
    hide Alarms;
    if n < |h| {
      assert h[..n] == h[..|h| - 1][..n];
      QuietShrinks(m, t, h[..|h| - 1], n);
    } else {
      assert h[..n] == h;
    }
  }

  // ---------------------------------------------------------------- a pass over a stream

  /** The pass is still going on after n deltas: no test has raised an alarm and fewer than nosr deltas were not
      stuck. */
  predicate Open(m: Setting, nosr: nat, t: Tests, h: seq<Word>, n: nat)
    requires n <= |h|
  {
    Quiet(m, t, h[..n]) && Unstuck(t, h, n) < nosr
  }

  /** While the pass is going on, delta n - 1 brings the count of the test with memory to its cutoff. */
  predicate Crosses(m: Setting, nosr: nat, t: Tests, h: seq<Word>, n: nat)
    requires 0 < n <= |h|
  {
    && Open(m, nosr, t, h, n - 1)
    && MemHits(t, h[..n - 1], nosr) < RctMemCutoff(m.osr, m.ntg1) <= MemHits(t, h[..n], nosr)
  }

  /** While the pass is going on, delta n - 1 makes it fail: one of the three tests raises an alarm on it, or the
      count of the test with memory comes to its cutoff in a recovery. */
  predicate Stops(m: Setting, nosr: nat, inRecovery: bool, t: Tests, h: seq<Word>, n: nat)
    requires 0 < n <= |h|
  {
    && Open(m, nosr, t, h, n - 1) && MemHits(t, h[..n - 1], nosr) < RctMemCutoff(m.osr, m.ntg1)
    && (Alarms(m, After(t, h[..n - 1]), h[n - 1]) || (inRecovery && Crosses(m, nosr, t, h, n)))
  }

  /** The pass comes to the cutoff of the test with memory somewhere in the stream. */
  ghost predicate CrossesIn(m: Setting, nosr: nat, t: Tests, h: seq<Word>) {
    exists n :: 0 < n <= |h| && Crosses(m, nosr, t, h, n)
  }

  /** It fails somewhere in the stream. */
  ghost predicate StopsIn(m: Setting, nosr: nat, inRecovery: bool, t: Tests, h: seq<Word>) {
    exists n :: 0 < n <= |h| && Stops(m, nosr, inRecovery, t, h, n)
  }

  lemma {:induction false} UnstuckGrows(t: Tests, h: seq<Word>, n: nat, k: nat)
    requires n <= k <= |h|
    ensures Unstuck(t, h, n) <= Unstuck(t, h, k)
  {
    if n < k {
      UnstuckGrows(t, h, n, k - 1);
    }
  }

  lemma UnstuckStep(t: Tests, h: seq<Word>, n: nat)
    requires n <= |h|
    ensures Unstuck(t, h, 0) == 0 && (n > 0 ==> Unstuck(t, h, n) <= Unstuck(t, h, n - 1) + 1)
  {
  }

  lemma HitsUpTo(t: Tests, h: seq<Word>, n: nat, k: nat, nosr: nat)
    requires n <= k <= |h|
    ensures MemHits(t, h[..n], nosr) <= MemHits(t, h[..k], nosr)
  {
    hide MemHits;
    assert h[..k][..n] == h[..n];
    MemHitsGrow(t, h[..k], n, nosr);
  }

  lemma QuietUpTo(m: Setting, t: Tests, h: seq<Word>, n: nat, k: nat)
    requires n <= k <= |h| && Quiet(m, t, h[..k])
    ensures Quiet(m, t, h[..n])
    ensures 0 < n ==> !Alarms(m, After(t, h[..n - 1]), h[n - 1])
  {
    hide Alarms;
    assert h[..k][..n] == h[..n];
    QuietShrinks(m, t, h[..k], n);
    if 0 < n {
      assert h[..n][..n - 1] == h[..n - 1];
    }
  }

  /** A pass that ends quietly, after enough measurements or because the stream does, neither crosses nor fails. */
  lemma QuietEnd(m: Setting, nosr: nat, inRecovery: bool, t: Tests, h: seq<Word>, n: nat)
    requires n <= |h| && Quiet(m, t, h[..n]) && MemHits(t, h[..n], nosr) < RctMemCutoff(m.osr, m.ntg1)
    requires n == |h| || Unstuck(t, h, n) >= nosr
    ensures !CrossesIn(m, nosr, t, h) && !StopsIn(m, nosr, inRecovery, t, h)
  {
    hide Alarms, MemHits, Quiet, Unstuck, RctMemCutoff;
    forall k | 0 < k <= |h| ensures !Crosses(m, nosr, t, h, k) && !Stops(m, nosr, inRecovery, t, h, k) {
      if k <= n {
        HitsUpTo(t, h, k, n, nosr);
        QuietUpTo(m, t, h, k, n);
      } else {
        UnstuckGrows(t, h, n, k - 1);
      }
    }
  }

  /** A pass that fails does not cross anywhere, unless that is why it fails. */
  lemma AlarmedEnd(m: Setting, nosr: nat, inRecovery: bool, t: Tests, h: seq<Word>, n: nat)
    requires 0 < n <= |h| && Stops(m, nosr, inRecovery, t, h, n) && !Crosses(m, nosr, t, h, n)
    ensures !CrossesIn(m, nosr, t, h)
  {
    hide Alarms, MemHits, Quiet, Unstuck, RctMemCutoff;
    forall k | 0 < k <= |h| ensures !Crosses(m, nosr, t, h, k) {
      if k < n {
        HitsUpTo(t, h, k, n - 1, nosr);
      } else if k > n && Quiet(m, t, h[..k - 1]) {
        QuietUpTo(m, t, h, n, k - 1);
      }
    }
  }

  // ---------------------------------------------------------------- two passes in a row

  /** A pass without an alarm has enough results that are not stuck at delta n - 1, and not before. */
  predicate Over(m: Setting, nosr: nat, t: Tests, h: seq<Word>, n: nat)
    requires 0 < n <= |h|
  {
    Quiet(m, t, h[..n]) && Unstuck(t, h, n) == nosr && Unstuck(t, h, n - 1) < nosr
  }

  /** One of the two passes of startup comes to the cutoff of the test with memory: the first one, or the second
      one on what the first one leaves, with the repetition count cleared in between. */
  ghost predicate StagesCross(m: Setting, nosr: nat, t: Tests, h: seq<Word>) {
    || CrossesIn(m, nosr, t, h)
    || exists n :: 0 < n <= |h| && Over(m, nosr, t, h, n) && CrossesIn(m, nosr, After(t, h[..n]).(run := 0), h[n..])
  }

  /** What a pass has left of its stream: it is over there, unless it failed or its stream has ended. */
  ghost predicate PassLeft(m: Setting, nosr: nat, t: Tests, h: seq<Word>, rest: seq<Word>, failed: bool) {
    && |rest| <= |h| && h[|h| - |rest|..] == rest
    && (forall n | 0 < n <= |h| && Over(m, nosr, t, h, n) :: !failed && n == |h| - |rest|)
    && (!failed && rest != [] ==> |rest| < |h| && Over(m, nosr, t, h, |h| - |rest|))
  }

  /** A pass without an alarm leaves the rest of its stream. */
  lemma QuietLeaves(m: Setting, nosr: nat, t: Tests, h: seq<Word>, rest: seq<Word>)
    requires |rest| <= |h| && h[|h| - |rest|..] == rest && nosr > 0
    requires var n := |h| - |rest|;
             && Quiet(m, t, h[..n]) && (n > 0 ==> Unstuck(t, h, n - 1) < nosr)
             && (rest == [] || Unstuck(t, h, n) == nosr)
    ensures PassLeft(m, nosr, t, h, rest, false)
  {
    hide Quiet;
    var n := |h| - |rest|;
    forall k | 0 < k <= |h| && Over(m, nosr, t, h, k) ensures k == n {
      if k < n {
        UnstuckGrows(t, h, k, n - 1);
      } else if n < k {
        UnstuckGrows(t, h, n, k - 1);
      }
    }
  }

  /** A pass that fails on an alarm is over nowhere. */
  lemma AlarmLeaves(m: Setting, nosr: nat, t: Tests, h: seq<Word>, rest: seq<Word>)
    requires |rest| < |h| && h[|h| - |rest|..] == rest && Stops(m, nosr, false, t, h, |h| - |rest|)
    ensures PassLeft(m, nosr, t, h, rest, true)
  {
    hide Alarms, MemHits, Quiet, Unstuck, RctMemCutoff;
    var n := |h| - |rest|;
    forall k | 0 < k <= |h| ensures !Over(m, nosr, t, h, k) {
      if k < n {
        UnstuckGrows(t, h, k, n - 1);
      } else if Quiet(m, t, h[..k]) {
        QuietUpTo(m, t, h, n, k);
      }
    }
  }

  lemma NothingCrosses(m: Setting, nosr: nat, t: Tests)
    ensures !CrossesIn(m, nosr, t, [])
  {
  }

  lemma FirstDecides(m: Setting, nosr: nat, t: Tests, h: seq<Word>)
    requires CrossesIn(m, nosr, t, h)
    ensures StagesCross(m, nosr, t, h)
  {
  }

  /** When the first pass does not come to the cutoff, the second one decides, on what is left. */
  lemma SecondDecides(m: Setting, nosr: nat, t: Tests, h: seq<Word>, rest: seq<Word>, failed: bool)
    requires !CrossesIn(m, nosr, t, h) && PassLeft(m, nosr, t, h, rest, failed)
    ensures StagesCross(m, nosr, t, h)
       <==> !failed && CrossesIn(m, nosr, After(t, h[..|h| - |rest|]).(run := 0), rest)
  {
    hide Over, Crosses;
  }

  // ---------------------------------------------------------------- streams that calm down

  /** No delta of the stream is stuck or raises an alarm. */
  predicate Calm(m: Setting, t: Tests, h: seq<Word>)
    decreases |h|
  {
    h == [] || (!IsStuck(t.window, h[0]) && !Alarms(m, t, h[0]) && Calm(m, Next(t, h[0]), h[1..]))
  }

  /** It stays calm when the repetition count is cleared. */
  lemma CalmAfresh(m: Setting, t: Tests, h: seq<Word>)
    requires Calm(m, t, h)
    ensures Calm(m, t.(run := 0), h)
  {
    hide IsStuck, AptAlarm, LagAlarm;
    if h != [] {
      assert Next(t.(run := 0), h[0]) == Next(t, h[0]);
    }
  }

  /** The stream is calm from position k on, without an alarm before; a pass comes to the cutoff of the test with
      memory there, unless that is its start. */
  predicate CalmsAt(m: Setting, nosr: nat, nested: bool, t: Tests, h: seq<Word>, k: nat) {
    && k <= |h| && Quiet(m, t, h[..k]) && Calm(m, After(t, h[..k]), h[k..])
    && (k > 0 ==> !nested && Crosses(m, nosr, t, h, k))
  }

  /** The stream brings a pass to the cutoff of the test with memory without an alarm, and is calm after that. */
  ghost predicate CrossesCalmly(m: Setting, nosr: nat, t: Tests, h: seq<Word>) {
    exists k :: 0 < k <= |h| && CalmsAt(m, nosr, false, t, h, k)
  }

  /** What the deltas up to that position do. */
  lemma CalmsStep(m: Setting, nosr: nat, nested: bool, t: Tests, h: seq<Word>, k: nat, n: nat)
    requires n < k && CalmsAt(m, nosr, nested, t, h, k)
    ensures !nested && k <= |h| && !Alarms(m, After(t, h[..n]), h[n]) && Unstuck(t, h, n) < nosr
    ensures After(t, h[..n + 1]) == Next(After(t, h[..n]), h[n])
    ensures Crosses(m, nosr, t, h, n + 1) <==> n + 1 == k
    ensures n + 1 == k ==> Calm(m, Next(After(t, h[..n]), h[n]), h[n + 1..])
  {
    hide Alarms, MemHits, Quiet, Unstuck, RctMemCutoff, Next, Calm, After;
    QuietUpTo(m, t, h, n + 1, k);
    AfterPrefix(m, t, h, n);
    UnstuckGrows(t, h, n, k - 1);
    if n + 1 < k {
      HitsUpTo(t, h, n + 1, k - 1, nosr);
    }
  }

  lemma CalmlyIsCrossing(m: Setting, nosr: nat, t: Tests, h: seq<Word>)
    requires CrossesCalmly(m, nosr, t, h)
    ensures CrossesIn(m, nosr, t, h)
  {
    hide Crosses, Quiet, Calm;
    var k :| 0 < k <= |h| && CalmsAt(m, nosr, false, t, h, k);
    assert Crosses(m, nosr, t, h, k);
  }

  lemma CalmFromStart(m: Setting, nosr: nat, nested: bool, t: Tests, h: seq<Word>)
    requires Calm(m, t, h)
    ensures CalmsAt(m, nosr, nested, t, h, 0)
  {
    hide Calm;
    assert h[..0] == [] && h[0..] == h;
  }

  /** Where a stream calms down. */
  ghost function CalmingPoint(m: Setting, nosr: nat, t: Tests, h: seq<Word>): (k: nat)
    ensures Calm(m, t, h) ==> k == 0
    ensures !Calm(m, t, h) && CrossesCalmly(m, nosr, t, h) ==> 0 < k <= |h| && CalmsAt(m, nosr, false, t, h, k)
  {
    if !Calm(m, t, h) && CrossesCalmly(m, nosr, t, h)
    then var k :| 0 < k <= |h| && CalmsAt(m, nosr, false, t, h, k); k
    else 0
  }

  // ---------------------------------------------------------------- the cutoff in common mode

  /** Every position divisible by three among the first n is stuck. */
  predicate AllThirds(t: Tests, h: seq<Word>, n: nat)
    requires n <= |h|
  {
    forall i | 0 <= i < n && i % 3 == 0 :: StuckAt(t, h, i)
  }

  lemma {:induction false} ThirdsAtMost(t: Tests, h: seq<Word>, n: nat)
    requires n <= |h|
    ensures StuckThirds(t, h, n) <= (n + 2) / 3
    ensures StuckThirds(t, h, n) == (n + 2) / 3 <==> AllThirds(t, h, n)
  {
    hide StuckAt;
    if n > 0 {
      ThirdsAtMost(t, h, n - 1);
    }
  }

  /** Outside NTG.1 mode the cutoff of the test with memory is reached iff every third result of the whole window is
      stuck. */
  lemma CommonCutoffReached(osr: nat, t: Tests, h: seq<Word>)
    requires 0 < osr <= 20
    ensures MemHits(t, h, LoopIterations(osr, true)) >= RctMemCutoff(osr, false)
       <==> |h| >= 321 * osr - 2 && AllThirds(t, h, 321 * osr - 2)
  {
    hide StuckThirds, AllThirds, RctMemCutoff, LoopIterations;
    CommonCutoffs(osr);
    Iterations(osr, true);
    var n := Least(|h|, 321 * osr);
    ThirdsAtMost(t, h, n);
    if n >= 321 * osr - 2 {
      ThirdsTail(t, h, 321 * osr - 2, n);
    }
  }

  /** The last positions of a window are not divisible by three. */
  lemma ThirdsTail(t: Tests, h: seq<Word>, k: nat, n: nat)
    requires k <= n <= |h| && n <= k + 2 && k % 3 == 1
    ensures AllThirds(t, h, n) <==> AllThirds(t, h, k)
  {
    hide StuckAt;
    forall i | k <= i < n ensures i % 3 != 0 {
      assert i == k || i == k + 1;
    }
  }

  // ---------------------------------------------------------------- one measurement

  /** The count after a result is the count of the stream that is one delta longer. */
  lemma CountedIsHits(t: Tests, h: seq<Word>, n: nat, nosr: nat, ctr: nat, count: nat)
    requires n < |h| && nosr > 0 && ctr == Least(n, nosr) && (n > 0 ==> count == MemHits(t, h[..n], nosr))
    ensures MemHits(t, h[..n + 1], nosr) == (if ctr == 0 then 0 else count)
              + if IsStuck(After(t, h[..n]).window, h[n]) && ctr < nosr && ctr % 3 == 0 then 1 else 0
    ensures Unstuck(t, h, n + 1) == Unstuck(t, h, n) + if IsStuck(After(t, h[..n]).window, h[n]) then 0 else 1
  {
    hide IsStuck, MemHits;
    assert h[..n + 1] == h[..n] + [h[n]];
    MemHitsOne(t, h[..n], h[n], nosr);
    if n == 0 {
      NoHits(t, nosr);
    }
  }

  lemma NoHits(t: Tests, nosr: nat)
    ensures MemHits(t, [], nosr) == 0
  {
  }

  lemma AfterPrefix(m: Setting, t: Tests, h: seq<Word>, n: nat)
    requires n < |h|
    ensures After(t, h[..n + 1]) == Next(After(t, h[..n]), h[n])
    ensures Quiet(m, t, h[..n + 1]) <==> Quiet(m, t, h[..n]) && !Alarms(m, After(t, h[..n]), h[n])
  {
    hide Alarms, Next;
    assert h[..n + 1] == h[..n] + [h[n]];
    AfterOne(t, h[..n], h[n]);
    QuietOne(m, t, h[..n], h[n]);
  }

  /** What the next delta of a pass that is going on decides. */
  lemma NextInPass(m: Setting, nosr: nat, nested: bool, t: Tests, h: seq<Word>, n: nat)
    requires n < |h| && Open(m, nosr, t, h, n) && MemHits(t, h[..n], nosr) < RctMemCutoff(m.osr, m.ntg1)
    ensures var hits, alarm := MemHits(t, h[..n + 1], nosr), Alarms(m, After(t, h[..n]), h[n]);
            && (Crosses(m, nosr, t, h, n + 1) <==> hits >= RctMemCutoff(m.osr, m.ntg1))
            && (Stops(m, nosr, nested, t, h, n + 1) <==> alarm || (nested && hits >= RctMemCutoff(m.osr, m.ntg1)))
            && (Quiet(m, t, h[..n + 1]) <==> !alarm)
            && After(t, h[..n + 1]) == Next(After(t, h[..n]), h[n])
  {
    hide Alarms, MemHits, Quiet, Unstuck, RctMemCutoff, Next;
    AfterPrefix(m, t, h, n);
  }
}
