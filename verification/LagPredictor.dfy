/** The lag predictor test of jitterentropy-health.c: eight predictors, predictor i guessing the delta seen
    i + 1 inputs ago, scored over a window of 2^17 deltas. */
module LagPredictor {
  import opened Basics

  const HISTORY: nat := 8
  const WINDOW: nat := 0x2_0000

  // ---------------------------------------------------------------- the test as properties of a window

  /** The delta seen i + 1 inputs ago; 0 before the start of the window. */
  function Ago(w: seq<Word>, i: nat): Word {
    if i < |w| then w[|w| - 1 - i] else 0
  }

  /** The last delta of the window is what predictor i guessed. */
  predicate Hits(w: seq<Word>, i: nat)
    requires i < HISTORY < |w|
  {
    w[|w| - 1] == w[|w| - 2 - i]
  }

  /** How often predictor i was right, from the ninth delta of the window on. */
  function Score(w: seq<Word>, i: nat): nat
    requires i < HISTORY
  {
    if |w| <= HISTORY then 0 else Score(w[..|w| - 1], i) + if Hits(w, i) then 1 else 0
  }

  predicate Exceeds(w: seq<Word>, bound: nat, i: nat)
    requires i < HISTORY
  {
    bound < Score(w, i)
  }

  /** The shortest lag from i on whose score exceeds the bound. */
  function FirstExceeding(w: seq<Word>, bound: nat, i: nat): (j: nat)
    requires i <= HISTORY
    ensures i <= j <= HISTORY
    ensures forall k | i <= k < j :: !Exceeds(w, bound, k)
    ensures j < HISTORY ==> Exceeds(w, bound, j)
    decreases HISTORY - i
  {
    if i == HISTORY || Exceeds(w, bound, i) then i else FirstExceeding(w, bound, i + 1)
  }

  /** The predictor in use after the window's deltas: the shortest lag that raised the best score, the last
      time the best score rose. */
  function Leader(w: seq<Word>): (b: nat)
    ensures b < HISTORY
  {
    if |w| <= HISTORY then 0 else
      var b := Leader(w[..|w| - 1]);
      var j := FirstExceeding(w, Score(w[..|w| - 1], b), 0);
      if j == HISTORY then b else j
  }

  predicate Predicted(w: seq<Word>)
    requires HISTORY < |w|
  {
    Hits(w, Leader(w[..|w| - 1]))
  }

  function Successes(w: seq<Word>): nat {
    if |w| <= HISTORY then 0 else Successes(w[..|w| - 1]) + if Predicted(w) then 1 else 0
  }

  /** The current run of successes. */
  function SuccessRun(w: seq<Word>): nat {
    if |w| <= HISTORY then 0 else if Predicted(w) then SuccessRun(w[..|w| - 1]) + 1 else 0
  }

  /** The positions, from the ninth on, whose delta was seen i + 1 inputs before. */
  function Guessed(w: seq<Word>, i: nat): set<nat>
    requires i < 8
  {
    set n: nat {:trigger w[n]} | 8 <= n < |w| && w[n] == w[n - 1 - i]
  }

  /** A score is the number of such positions. */
  lemma {:induction false} ScoreIsCount(w: seq<Word>, i: nat)
    requires i < 8
    ensures Score(w, i) == |Guessed(w, i)|
  {
    hide Guessed;
    GuessedStep(w, i);
    if |w| > HISTORY {
      ScoreIsCount(w[..|w| - 1], i);
    }
  }

  lemma GuessedStep(w: seq<Word>, i: nat)
    requires i < 8
    ensures |w| <= HISTORY ==> Guessed(w, i) == {}
    ensures |w| > HISTORY ==>
              var v, n := w[..|w| - 1], |w| - 1;
              n !in Guessed(v, i) && Guessed(w, i) == if Hits(w, i) then Guessed(v, i) + {n} else Guessed(v, i)
  {
    if |w| > HISTORY {
      var v, n := w[..|w| - 1], |w| - 1;
      assert forall k: nat | k < n :: v[k] == w[k];
      assert n in Guessed(w, i) <==> Hits(w, i);
    }
  }

  /** The positions whose delta the predictor in use before them had guessed. */
  function Foreseen(w: seq<Word>): set<nat> {
    set n: nat | 8 <= n < |w| && w[n] == w[n - 1 - Leader(w[..n])]
  }

  /** The successes are as many, and the current run are those at the end of the window. */
  lemma {:induction false} SuccessesAreCount(w: seq<Word>)
    ensures Successes(w) == |Foreseen(w)|
    ensures SuccessRun(w) <= |w|
    ensures forall n: nat | |w| - SuccessRun(w) <= n < |w| :: n in Foreseen(w)
    ensures SuccessRun(w) < |w| ==> |w| - SuccessRun(w) - 1 !in Foreseen(w)
  {
    hide Foreseen, Predicted;
    if |w| > HISTORY {
      SuccessesAreCount(w[..|w| - 1]);
      ForeseenStep(w);
    } else {
      NoneForeseen(w);
    }
  }

  lemma ForeseenStep(w: seq<Word>)
    requires |w| > HISTORY
    ensures var v, n := w[..|w| - 1], |w| - 1;
            n !in Foreseen(v) && Foreseen(w) == if Predicted(w) then Foreseen(v) + {n} else Foreseen(v)
  {
    hide Leader;
    var v, n := w[..|w| - 1], |w| - 1;
    assert forall k: nat | k <= n :: w[..k] == v[..k];
    assert n in Foreseen(w) <==> Predicted(w);
  }

  lemma NoneForeseen(w: seq<Word>)
    requires |w| <= HISTORY
    ensures Foreseen(w) == {}
  {
  }

  lemma {:induction false} ScoreStep(w: seq<Word>, i: nat)
    requires i < HISTORY < |w|
    ensures Score(w[..|w| - 1], i) <= Score(w, i) <= Score(w[..|w| - 1], i) + 1
  {
  }

  /** The predictor in use never has a lower score than another one. */
  lemma {:induction false} LeaderIsBest(w: seq<Word>, i: nat)
    requires i < HISTORY
    ensures Score(w, i) <= Score(w, Leader(w))
  {
    if |w| > HISTORY {
      var before := w[..|w| - 1];
      var b := Leader(before);
      LeaderIsBest(before, i);
      ScoreStep(w, i);
      ScoreStep(w, b);
      var j := FirstExceeding(w, Score(before, b), 0);
      if j < HISTORY {
        assert Exceeds(w, Score(before, b), j);
      } else {
        assert !Exceeds(w, Score(before, b), i);
      }
    }
  }

  lemma {:induction false} ScoreGrows(w: seq<Word>, n: nat, i: nat)
    requires n <= |w| && i < HISTORY
    ensures Score(w[..n], i) <= Score(w, i)
    decreases |w|
  {
    if n == |w| {
      assert w[..n] == w;
    } else {
      assert w[..n] == w[..|w| - 1][..n];
      ScoreGrows(w[..|w| - 1], n, i);
      if |w| > HISTORY {
        ScoreStep(w, i);
      }
    }
  }

  /** The predictor in use is the one that first reached the best score of the window, the shortest lag if several
      reached it at the same delta; without a success it is the shortest lag of all. */
  lemma {:induction false} LeaderIsFirst(w: seq<Word>) returns (n: nat)
    ensures n <= |w|
    ensures forall i | 0 <= i < HISTORY :: Score(w, i) <= Score(w, Leader(w))
    ensures Score(w, Leader(w)) == 0 ==> Leader(w) == 0
    ensures Score(w, Leader(w)) > 0 ==>
              && (forall k, i | 0 <= k < n && 0 <= i < HISTORY :: Score(w[..k], i) < Score(w, Leader(w)))
              && Score(w[..n], Leader(w)) == Score(w, Leader(w))
              && (forall i | 0 <= i < Leader(w) :: Score(w[..n], i) < Score(w, Leader(w)))
  {
    hide Hits;
    forall i | 0 <= i < HISTORY ensures Score(w, i) <= Score(w, Leader(w)) {
      LeaderIsBest(w, i);
    }
    if |w| <= HISTORY {
      n := 0;
      return;
    }
    var before := w[..|w| - 1];
    var b := Leader(before);
    var best := Score(before, b);
    var j := FirstExceeding(w, best, 0);
    if j == HISTORY {
      n := LeaderIsFirst(before);
      assert forall k | 0 <= k <= n :: w[..k] == before[..k];
      assert !Exceeds(w, best, b);
      ScoreStep(w, b);
    } else {
      n := |w|;
      assert Exceeds(w, best, j) && w[..n] == w;
      LeaderIsBest(before, j);
      ScoreStep(w, j);
      forall i | 0 <= i < j ensures Score(w, i) <= best {
        assert !Exceeds(w, best, i);
      }
      forall k, i | 0 <= k < n && 0 <= i < HISTORY ensures Score(w[..k], i) < Score(w, j) {
        assert w[..k] == before[..k];
        ScoreGrows(before, k, i);
        LeaderIsBest(before, i);
      }
    }
  }

  /** A shorter lag that only draws level does not take over. */
  lemma LevelIsNotEnough()
    ensures var w: seq<Word> := [1, 2, 3, 4, 5, 6, 7, 8, 7, 7];
            Score(w, 0) == Score(w, 1) == 1 && Leader(w) == 1 && forall i | 0 <= i < HISTORY :: Score(w, i) <= 1
  {
    var w: seq<Word> := [1, 2, 3, 4, 5, 6, 7, 8, 7, 7];
    var v: seq<Word> := [1, 2, 3, 4, 5, 6, 7, 8, 7];
    assert w[..9] == v && v[..8] == [1, 2, 3, 4, 5, 6, 7, 8];
    assert Leader(v[..8]) == 0 && forall i | 0 <= i < HISTORY :: Score(v[..8], i) == 0;
    assert Score(v, 1) == 1 && forall i | 0 <= i < HISTORY && i != 1 :: Score(v, i) == 0;
    assert !Exceeds(v, 0, 0) && Exceeds(v, 0, 1);
    assert Leader(v) == 1;
    assert forall i | 0 <= i < HISTORY :: Score(w, i) <= 1 && !Exceeds(w, 1, i);
  }

  /** Where the ring buffer keeps the delta seen i + 1 inputs ago, after n inputs. */
  function Slot(n: nat, i: nat): (s: nat)
    requires i < HISTORY
    ensures s < HISTORY
  {
    (n - i - 1) % HISTORY
  }

  lemma SlotStep(n: nat, i: nat)
    requires i < HISTORY
    ensures Slot(n + 1, i) == if i == 0 then n % HISTORY else Slot(n, i - 1)
    ensures i > 0 ==> Slot(n, i - 1) != n % HISTORY
  {
  }

  /** The ring buffer holds the last eight deltas of the window, and zeros for those before its start. */
  predicate RingHolds(ring: seq<Word>, w: seq<Word>)
    requires |ring| == HISTORY
  {
    forall i | 0 <= i < HISTORY :: ring[Slot(|w|, i)] == Ago(w, i)
  }

  lemma RingPush(ring: seq<Word>, w: seq<Word>, delta: Word)
    requires |ring| == HISTORY && RingHolds(ring, w)
    ensures RingHolds(ring[|w| % HISTORY := delta], w + [delta])
  {
    hide Slot;
    forall i | 0 <= i < HISTORY
      ensures ring[|w| % HISTORY := delta][Slot(|w + [delta]|, i)] == Ago(w + [delta], i)
    {
      SlotStep(|w|, i);
      if i > 0 {
        assert ring[Slot(|w|, i - 1)] == Ago(w, i - 1);
      }
    }
  }

  lemma RingGuess(ring: seq<Word>, w: seq<Word>, i: nat)
    requires |ring| == HISTORY && RingHolds(ring, w) && i < HISTORY
    ensures ring[Slot(|w|, i)] == Ago(w, i)
  {
  }

  /** The window after a delta: a full window is dropped. */
  function NextWindow(w: seq<Word>, delta: Word): seq<Word> {
    if |w| + 1 < WINDOW then w + [delta] else []
  }

  class LagTest {
    var observations: nat
    var successCount: nat
    var successRun: nat
    var bestPredictor: nat
    const history: array<Word>
    const scoreboard: array<nat>
    const localCutoff: nat
    const globalCutoff: nat

    /** The deltas inserted since the last reset. */
    ghost var window: seq<Word>

    ghost predicate Valid()
      reads this, history, scoreboard
    {
      && history.Length == HISTORY && scoreboard.Length == HISTORY
      && observations == |window| < WINDOW
      && successCount == Successes(window) && successRun == SuccessRun(window)
      && bestPredictor == Leader(window)
      && RingHolds(history[..], window)
      && (forall i | 0 <= i < HISTORY :: scoreboard[i] == Score(window, i))
    }

    constructor (localCutoff: nat, globalCutoff: nat)
      ensures Valid() && window == [] && fresh(history) && fresh(scoreboard)
      ensures this.localCutoff == localCutoff && this.globalCutoff == globalCutoff
    {
      observations, successCount, successRun, bestPredictor := 0, 0, 0, 0;
      history := new Word[HISTORY](_ => 0);
      scoreboard := new nat[HISTORY](_ => 0);
      this.localCutoff, this.globalCutoff := localCutoff, globalCutoff;
      window := [];
    }

    /** jent_lag_reset */
    method Reset()
      requires history.Length == HISTORY && scoreboard.Length == HISTORY
      modifies this`observations, this`successCount, this`successRun, this`bestPredictor, this`window
      modifies history, scoreboard
      ensures Valid() && window == []
    {
      for i := 0 to HISTORY
        invariant forall j | 0 <= j < i :: history[j] == 0 && scoreboard[j] == 0
      {
        scoreboard[i] := 0;
        history[i] := 0;
      }
      successCount, successRun, bestPredictor, observations := 0, 0, 0, 0;
      window := [];
    }

    /** jent_lag_duplicate: the collector that replaces another goes on in the middle of the old one's window. */
    method Duplicate(other: LagTest)
      requires Valid() && other.Valid() && other != this
      requires history != other.history && scoreboard != other.scoreboard
      modifies this`observations, this`successCount, this`successRun, this`bestPredictor, this`window
      modifies history, scoreboard
      ensures Valid() && window == other.window
    {
      hide Score, Leader, Successes, SuccessRun, Slot, RingHolds;
      for i := 0 to HISTORY
        invariant history.Length == HISTORY && scoreboard.Length == HISTORY
        invariant other.history[..] == old(other.history[..]) && other.scoreboard[..] == old(other.scoreboard[..])
        invariant forall j | 0 <= j < i :: history[j] == other.history[j] && scoreboard[j] == other.scoreboard[j]
      {
        scoreboard[i] := other.scoreboard[i];
        history[i] := other.history[i];
      }
      assert history[..] == other.history[..];
      successRun, successCount := other.successRun, other.successCount;
      bestPredictor, observations := other.bestPredictor, other.observations;
      window := other.window;
    }

    /** jent_lag_insert; alarm says whether the call raises the failure bit. */
    method Insert(delta: Word) returns (alarm: bool)
      requires Valid()
      modifies this`observations, this`successCount, this`successRun, this`bestPredictor, this`window
      modifies history, scoreboard
      ensures Valid()
      ensures window == NextWindow(old(window), delta)
      ensures alarm <==> LagAlarm(old(window) + [delta], localCutoff, globalCutoff)
    {
      hide Score, Leader, Successes, SuccessRun, Slot, RingHolds;
      var w: seq<Word> := window + [delta];
      assert w[..|w| - 1] == window;
      Unfold(w);
      Unfold(window);
      RingPush(history[..], window, delta);
      RingGuess(history[..], window, bestPredictor);
      alarm := false;
      if observations < HISTORY {
        history[observations] := delta;
        observations := observations + 1;
        window := w;
        return;
      }
      var prediction := history[Slot(observations, bestPredictor)];
      if prediction == delta {
        successCount := successCount + 1;
        successRun := successRun + 1;
        alarm := successRun >= localCutoff || successCount >= globalCutoff;
      } else {
        successRun := 0;
      }
      UpdateScores(delta, w);
      history[observations % HISTORY] := delta;
      observations := observations + 1;
      window := w;
      if observations >= WINDOW {
        Reset();
      }
    }

    /** The scoring loop of jent_lag_insert. */
    method UpdateScores(delta: Word, ghost w: seq<Word>)
      requires history.Length == HISTORY && scoreboard.Length == HISTORY
      requires HISTORY <= observations && |w| == observations + 1 && w[observations] == delta
      requires bestPredictor == Leader(w[..|w| - 1])
      requires RingHolds(history[..], w[..|w| - 1])
      requires forall i | 0 <= i < HISTORY :: scoreboard[i] == Score(w[..|w| - 1], i)
      modifies this`bestPredictor, scoreboard
      ensures history[..] == old(history[..])
      ensures bestPredictor == Leader(w)
      ensures forall i | 0 <= i < HISTORY :: scoreboard[i] == Score(w, i)
    {
      hide Score, Leader, Slot, RingHolds;
      ghost var before := w[..|w| - 1];
      ghost var b := bestPredictor;
      ghost var bound := Score(before, b);
      forall i | 0 <= i < HISTORY
        ensures Score(before, i) <= bound
        ensures Score(w, i) == Score(before, i) + if Hits(w, i) then 1 else 0
      {
        LeaderIsBest(before, i);
        ScoreUnfold(w, i);
      }
      ghost var winner := FirstExceeding(w, bound, 0);
      for i := 0 to HISTORY
        invariant history[..] == old(history[..])
        invariant forall j | 0 <= j < i :: scoreboard[j] == Score(w, j)
        invariant forall j | i <= j < HISTORY :: scoreboard[j] == Score(before, j)
        invariant bestPredictor == if winner < i then winner else b
      {
        RingGuess(history[..], before, i);
        assert Hits(w, i) <==> history[Slot(observations, i)] == delta;
        assert Exceeds(w, bound, i) <==> Score(w, i) > bound;
        if history[Slot(observations, i)] == delta {
          scoreboard[i] := scoreboard[i] + 1;
          if scoreboard[i] > scoreboard[bestPredictor] {
            bestPredictor := i;
          }
        }
      }
      LeaderUnfold(w);
    }
  }

  predicate LagAlarm(w: seq<Word>, localCutoff: nat, globalCutoff: nat) {
    && HISTORY < |w|
    && Predicted(w)
    && (SuccessRun(w) >= localCutoff || Successes(w) >= globalCutoff)
  }

  lemma ScoreUnfold(w: seq<Word>, i: nat)
    requires i < HISTORY < |w|
    ensures Score(w, i) == Score(w[..|w| - 1], i) + if Hits(w, i) then 1 else 0
  {
  }

  lemma LeaderUnfold(w: seq<Word>)
    requires HISTORY < |w|
    ensures var b := Leader(w[..|w| - 1]);
            var j := FirstExceeding(w, Score(w[..|w| - 1], b), 0);
            Leader(w) == if j == HISTORY then b else j
  {
  }

  lemma Unfold(w: seq<Word>)
    ensures |w| <= HISTORY ==> Successes(w) == 0 && SuccessRun(w) == 0 && Leader(w) == 0
                               && forall i | 0 <= i < HISTORY :: Score(w, i) == 0
    ensures |w| > HISTORY ==>
              && Successes(w) == Successes(w[..|w| - 1]) + (if Predicted(w) then 1 else 0)
              && SuccessRun(w) == if Predicted(w) then SuccessRun(w[..|w| - 1]) + 1 else 0
  {
  }

  // ---------------------------------------------------------------- over a stream

  /** Where the window of position i starts. */
  function WindowStart(i: nat): (s: nat)
    ensures s <= i < s + WINDOW
  {
    i - i % WINDOW
  }

  lemma WindowStartStep(i: nat)
    ensures WindowStart(0) == 0
    ensures WindowStart(i + 1) == if i + 1 == WindowStart(i) + WINDOW then i + 1 else WindowStart(i)
  {
  }

  /** The delta at position i of a stream makes a run or a window's successes reach a cutoff. */
  predicate AlarmAt(h: seq<Word>, i: nat, localCutoff: nat, globalCutoff: nat)
    requires i < |h|
  {
    LagAlarm(h[WindowStart(i)..i + 1], localCutoff, globalCutoff)
  }

  /** A fresh lag test raises its failure bit on a stream iff some delta makes its window reach a cutoff. */
  method LagOverStream(h: seq<Word>, localCutoff: nat, globalCutoff: nat) returns (failed: bool)
    ensures failed <==> exists i :: 0 <= i < |h| && AlarmAt(h, i, localCutoff, globalCutoff)
  {
    hide WindowStart, LagAlarm, LagTest.Valid;
    var test := new LagTest(localCutoff, globalCutoff);
    failed := false;
    WindowStartStep(0);
    for i := 0 to |h|
      invariant test.Valid() && fresh(test) && fresh(test.history) && fresh(test.scoreboard)
      invariant test.localCutoff == localCutoff && test.globalCutoff == globalCutoff
      invariant test.window == h[WindowStart(i)..i]
      invariant failed <==> exists j :: 0 <= j < i && AlarmAt(h, j, localCutoff, globalCutoff)
    {
      WindowStartStep(i);
      assert h[WindowStart(i)..i] + [h[i]] == h[WindowStart(i)..i + 1];
      var alarm := test.Insert(h[i]);
      assert alarm <==> AlarmAt(h, i, localCutoff, globalCutoff);
      assert test.window == h[WindowStart(i + 1)..i + 1];
      failed := failed || alarm;
    }
  }

  lemma {:induction false} SuccessesMonotone(w: seq<Word>, n: nat)
    requires n <= |w|
    ensures Successes(w[..n]) <= Successes(w)
    decreases |w|
  {
    hide Predicted;
    if n < |w| {
      SuccessesMonotone(w[..|w| - 1], n);
      assert w[..|w| - 1][..n] == w[..n];
    } else {
      assert w[..n] == w;
    }
  }

  /** Within one window: some delta raises the alarm iff the window's successes reach the global cutoff or one
      of its runs the local one. */
  lemma {:induction false} AlarmWithin(w: seq<Word>, localCutoff: nat, globalCutoff: nat)
    requires localCutoff > 0 && globalCutoff > 0
    ensures (exists n :: 0 <= n <= |w| && LagAlarm(w[..n], localCutoff, globalCutoff))
       <==> Successes(w) >= globalCutoff || exists n :: 0 <= n <= |w| && SuccessRun(w[..n]) >= localCutoff
  {
    hide Predicted;
    forall n | 0 <= n <= |w| && LagAlarm(w[..n], localCutoff, globalCutoff) && SuccessRun(w[..n]) < localCutoff
      ensures Successes(w) >= globalCutoff
    {
      SuccessesMonotone(w, n);
    }
    if Successes(w) >= globalCutoff {
      var n := FirstSuccessesAt(w, globalCutoff);
      assert LagAlarm(w[..n], localCutoff, globalCutoff);
    }
    if n :| 0 <= n <= |w| && SuccessRun(w[..n]) >= localCutoff {
      assert LagAlarm(w[..n], localCutoff, globalCutoff);
    }
  }

  /** The delta that completes a number of successes is itself a success. */
  lemma {:induction false} FirstSuccessesAt(w: seq<Word>, count: nat) returns (n: nat)
    requires Successes(w) >= count > 0
    ensures HISTORY < n <= |w| && Predicted(w[..n]) && Successes(w[..n]) >= count
  {
    hide Predicted;
    if Successes(w[..|w| - 1]) >= count {
      n := FirstSuccessesAt(w[..|w| - 1], count);
      assert w[..|w| - 1][..n] == w[..n];
    } else {
      n := |w|;
      assert w[..n] == w;
    }
  }

  // ---------------------------------------------------------------- windows of a stream

  /** Where window k starts. */
  function WindowAt(k: nat): nat {
    k * WINDOW
  }

  /** The deltas of window k, the last one as far as it has come. */
  function WindowOf(h: seq<Word>, k: nat): seq<Word>
    requires WindowAt(k) <= |h|
  {
    if WindowAt(k) + WINDOW <= |h| then h[WindowAt(k)..WindowAt(k) + WINDOW] else h[WindowAt(k)..]
  }

  /** The successes of the window reach the global cutoff, or one of its runs the local one. */
  ghost predicate WindowFails(w: seq<Word>, localCutoff: nat, globalCutoff: nat) {
    Successes(w) >= globalCutoff || exists n :: 0 <= n <= |w| && SuccessRun(w[..n]) >= localCutoff
  }

  lemma StartOf(k: nat, r: nat)
    requires r < WINDOW
    ensures WindowStart(WindowAt(k) + r) == WindowAt(k) == 0x2_0000 * k
  {
  }

  lemma WindowOfPosition(i: nat)
    ensures WindowAt(i / WINDOW) + i % WINDOW == i
  {
  }

  /** The test raises its failure bit on a stream iff some window of it, complete or the last one, reaches a cutoff. */
  lemma LagStreamIsWindows(h: seq<Word>, localCutoff: nat, globalCutoff: nat)
    requires localCutoff > 0 && globalCutoff > 0
    ensures (exists i :: 0 <= i < |h| && AlarmAt(h, i, localCutoff, globalCutoff))
       <==> exists k: nat :: WindowAt(k) < |h| && WindowFails(WindowOf(h, k), localCutoff, globalCutoff)
  {
    hide WindowStart, WindowAt, LagAlarm, WindowFails;
    forall i | 0 <= i < |h| && AlarmAt(h, i, localCutoff, globalCutoff)
      ensures exists k: nat :: WindowAt(k) < |h| && WindowFails(WindowOf(h, k), localCutoff, globalCutoff)
    {
      var k, r := i / WINDOW, i % WINDOW;
      WindowOfPosition(i);
      StartOf(k, r);
      var w := WindowOf(h, k);
      assert h[WindowAt(k)..i + 1] == w[..r + 1];
      WindowAlarm(w, r + 1, localCutoff, globalCutoff);
    }
    forall k: nat | WindowAt(k) < |h| && WindowFails(WindowOf(h, k), localCutoff, globalCutoff)
      ensures exists i :: 0 <= i < |h| && AlarmAt(h, i, localCutoff, globalCutoff)
    {
      var w := WindowOf(h, k);
      var n := AlarmOfWindow(w, localCutoff, globalCutoff);
      var i := WindowAt(k) + n - 1;
      StartOf(k, n - 1);
      assert h[WindowStart(i)..i + 1] == w[..n];
      assert AlarmAt(h, i, localCutoff, globalCutoff);
    }
  }

  lemma WindowAlarm(w: seq<Word>, n: nat, localCutoff: nat, globalCutoff: nat)
    requires n <= |w| && LagAlarm(w[..n], localCutoff, globalCutoff) && localCutoff > 0 && globalCutoff > 0
    ensures WindowFails(w, localCutoff, globalCutoff)
  {
    hide LagAlarm, Successes, SuccessRun;
    AlarmWithin(w, localCutoff, globalCutoff);
  }

  lemma AlarmOfWindow(w: seq<Word>, localCutoff: nat, globalCutoff: nat) returns (n: nat)
    requires WindowFails(w, localCutoff, globalCutoff) && localCutoff > 0 && globalCutoff > 0
    ensures 0 < n <= |w| && LagAlarm(w[..n], localCutoff, globalCutoff)
  {
    hide Successes, SuccessRun, Predicted;
    AlarmWithin(w, localCutoff, globalCutoff);
    n :| 0 <= n <= |w| && LagAlarm(w[..n], localCutoff, globalCutoff);
  }
}
