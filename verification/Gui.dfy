/** The job protocol of app/main_gui.cpp: a UI thread that admits, cancels and configures, and worker threads that
    run one job each, as interleaved atomic steps on the shared globals. */
module Gui {
  import opened Basics

  datatype Job = Generate | Benchmark

  datatype Status = Running | Done | Cancelled | Failed

  /** Where a worker thread is. */
  datatype WorkerPc = Starting | Initializing | Checking | Reading | Cleaning | Publishing | Releasing | Leaving | Exited

  datatype Worker = Worker(job: Job, pc: WorkerPc, status: Status, chunks: nat)

  /** Where the UI thread is; between messages it is idle. */
  datatype UiPc =
    | Idle
    | Rejecting(action: Action, code: Code)
    | Reaping(job: Job)
    | GivingBack(job: Job)
    | ResettingCancel(job: Job)
    | Creating(job: Job)
    | Storing(thread: nat)
    | Failing(job: Job)
    | Unclaiming
    | CancelAdmitted
    | Validating
    | ShuttingDown
    | Configuring
    | AwaitingWorker
    | Closing
    | Closed

  datatype Action = Run(job: Job) | Configure

  datatype Code = Success | Busy | InvalidArgument | AlreadyRunning

  /** What the page gets to see. */
  datatype Result = Rejection(action: Action, code: Code) | JobResult(thread: nat, status: Status) | StartFailure(job: Job)

  /** The globals, the threads, and a history: handles closed, results delivered to the page, and results that
      another one replaced. */
  datatype State = State(
    busy: bool,
    cancel: bool,
    handle: Option<nat>,
    pending: Option<Result>,
    collector: bool,
    ui: UiPc,
    workers: seq<Worker>,
    closed: nat,
    delivered: multiset<Result>,
    replaced: multiset<Result>
  )

  function Init(): State {
    State(false, false, None, None, false, Idle, [], 0, multiset{}, multiset{})
  }

  /** How the work of a thread turns out: it goes on, it was the last read, or it failed. */
  datatype Outcome = More | Finish | Fail | NoMemory

  /** One atomic step of the UI thread, or one of a worker; `ok` and `inTime` are how an operation that may fail
      turns out. */
  datatype Step =
    | Ask(job: Job)
    | AskBadly(job: Job)
    | PublishRejection
    | Reap(inTime: bool)
    | GiveBack
    | ResetCancel
    | Create(ok: bool)
    | Store
    | PublishStartFailure
    | Unclaim
    | AskCancel
    | SetCancel
    | AskConfigure
    | Validate(ok: bool)
    | FreeCollector
    | RngConfigure
    | Tick
    | Destroy
    | WaitForWorker(inTime: bool)
    | ShutDown
    | Work(thread: nat, outcome: Outcome)

  /** The result that waits for the next frame. */
  function Waiting(pending: Option<Result>): multiset<Result> {
    if pending.Some? then multiset{pending.value} else multiset{}
  }

  /** Store a result whatever is there. */
  function Publish(s: State, r: Result): State {
    s.(pending := Some(r), replaced := s.replaced + Waiting(s.pending))
  }

  /** The thread behind the handle in the slot has exited. */
  predicate HandleDone(s: State) {
    s.handle.None? || (s.handle.value < |s.workers| && s.workers[s.handle.value].pc == Exited)
  }

  function CloseHandle(s: State): State {
    s.(handle := None, closed := if s.handle.Some? then s.closed + 1 else s.closed)
  }

  /** The UI thread's part of a step; None if it is not at that point. */
  function UiApply(s: State, step: Step): Option<State> {
    match step
    case Ask(job) =>
      if s.ui != Idle then None
      else if s.busy then Some(s.(ui := Rejecting(Run(job), Busy)))
      else Some(s.(busy := true, ui := Reaping(job)))
    case AskBadly(job) =>
      if s.ui != Idle then None else Some(s.(ui := Rejecting(Run(job), InvalidArgument)))
    case PublishRejection =>
      if !s.ui.Rejecting? then None
      else if s.pending.Some? then Some(s.(ui := Idle))
      else Some(s.(pending := Some(Rejection(s.ui.action, s.ui.code)), ui := Idle))
    case Reap(inTime) =>
      if !s.ui.Reaping? then None
      else if !inTime then
        if s.handle.Some? then Some(s.(ui := GivingBack(s.ui.job))) else None
      else if HandleDone(s) then Some(CloseHandle(s).(ui := ResettingCancel(s.ui.job))) else None
    case GiveBack =>
      if !s.ui.GivingBack? then None else Some(s.(busy := false, ui := Rejecting(Run(s.ui.job), Busy)))
    case ResetCancel =>
      if !s.ui.ResettingCancel? then None else Some(s.(cancel := false, ui := Creating(s.ui.job)))
    case Create(ok) =>
      if !s.ui.Creating? then None
      else if ok then
        Some(s.(workers := s.workers + [Worker(s.ui.job, Starting, Running, 0)], ui := Storing(|s.workers|)))
      else Some(s.(ui := Failing(s.ui.job)))
    case Store =>
      if !s.ui.Storing? then None else Some(s.(handle := Some(s.ui.thread), ui := Idle))
    case PublishStartFailure =>
      if !s.ui.Failing? then None else Some(Publish(s, StartFailure(s.ui.job)).(ui := Unclaiming))
    case Unclaim =>
      if s.ui != Unclaiming then None else Some(s.(busy := false, ui := Idle))
    case AskCancel =>
      if s.ui != Idle then None else Some(if s.busy then s.(ui := CancelAdmitted) else s)
    case SetCancel =>
      if s.ui != CancelAdmitted then None else Some(s.(cancel := true, ui := Idle))
    case AskConfigure =>
      if s.ui != Idle then None
      else Some(s.(ui := if s.busy then Rejecting(Configure, Busy) else Validating))
    case Validate(ok) =>
      if s.ui != Validating then None
      else Some(s.(ui := if ok then ShuttingDown else Rejecting(Configure, InvalidArgument)))
    case FreeCollector =>
      if s.ui != ShuttingDown then None else Some(s.(collector := false, ui := Configuring))
    case RngConfigure =>
      if s.ui != Configuring then None
      else Some(s.(ui := Rejecting(Configure, if s.collector then AlreadyRunning else Success)))
    case Tick =>
      if s.ui != Idle then None
      else Some(s.(pending := None, delivered := s.delivered + Waiting(s.pending)))
    case Destroy =>
      if s.ui != Idle then None else Some(s.(cancel := true, ui := AwaitingWorker))
    case WaitForWorker(inTime) =>
      if s.ui != AwaitingWorker then None
      else if !inTime then
        if s.handle.Some? then Some(s.(ui := Closed)) else None
      else if HandleDone(s) then Some(CloseHandle(s).(ui := Closing)) else None
    case ShutDown =>
      if s.ui != Closing then None else Some(s.(collector := false, ui := Closed))
    case Work(_, _) => None
  }

  /** What a worker does next, given the cancel flag and the collector: the worker afterwards and the collector. */
  function WorkerNext(w: Worker, cancel: bool, collector: bool, outcome: Outcome): (Worker, bool) {
    match w.pc
    case Starting =>
      // A benchmark starts from no collector, unless it has no buffer and gives up before that.
      if w.job == Benchmark && outcome == NoMemory then (w.(pc := Publishing, status := Failed), collector)
      else (w.(pc := Initializing), if w.job == Benchmark then false else collector)
    case Initializing =>
      // init_rng allocates a collector unless there is one; the buffer may fail after it.
      if outcome == Fail then (w.(pc := Cleaning, status := Failed), collector)
      else if outcome == NoMemory then (w.(pc := Cleaning, status := Failed), true)
      else (w.(pc := Checking), true)
    case Checking =>
      if cancel then (w.(pc := Cleaning, status := Cancelled), collector) else (w.(pc := Reading), collector)
    case Reading =>
      if !collector || outcome == Fail || outcome == NoMemory then (w.(pc := Cleaning, status := Failed), collector)
      else if outcome == More then (w.(pc := Checking, chunks := w.chunks + 1), collector)
      else (w.(pc := Cleaning, status := Done, chunks := w.chunks + 1), collector)
    case Cleaning =>
      // A benchmark that got this far frees its collector on every path.
      (w.(pc := Publishing), if w.job == Benchmark then false else collector)
    case Publishing => (w.(pc := Releasing), collector)
    case Releasing => (w.(pc := Leaving), collector)
    case Leaving => (w.(pc := Exited), collector)
    case Exited => (w, collector)
  }

  function WorkerApply(s: State, i: nat, outcome: Outcome): Option<State> {
    if i >= |s.workers| || s.workers[i].pc == Exited || s.ui == Closed then None else
      var w := s.workers[i];
      var (next, collector) := WorkerNext(w, s.cancel, s.collector, outcome);
      var moved := s.(workers := s.workers[i := next], collector := collector);
      Some(match w.pc
           case Publishing => Publish(moved, JobResult(i, w.status))
           case Releasing => moved.(busy := false)
           case _ => moved)
  }

  function Apply(s: State, step: Step): Option<State> {
    if step.Work? then WorkerApply(s, step.thread, step.outcome) else UiApply(s, step)
  }

  /** The state after a run, if every step of it is possible. */
  function Execute(s: State, steps: seq<Step>): Option<State> {
    if steps == [] then Some(s) else
      var before := Execute(s, steps[..|steps| - 1]);
      if before.None? then None else Apply(before.value, steps[|steps| - 1])
  }

  // ---------------------------------------------------------------- the invariant

  /** All threads but possibly the last have exited. */
  predicate Alone(s: State) {
    forall i | 0 <= i < |s.workers| - 1 :: s.workers[i].pc == Exited
  }

  function LastPc(s: State): WorkerPc {
    if s.workers == [] then Exited else s.workers[|s.workers| - 1].pc
  }

  predicate Quiet(s: State) {
    LastPc(s) == Exited
  }

  predicate AnyActive(s: State) {
    LastPc(s) != Leaving && LastPc(s) != Exited
  }

  /** The UI thread has claimed the slot and not passed it on to a worker or given it up. */
  predicate Claiming(ui: UiPc) {
    ui.Reaping? || ui.GivingBack? || ui.ResettingCancel? || ui.Creating? || ui.Failing? || ui == Unclaiming
  }

  /** The slot: taken by the UI thread or by the last worker, and never by both. */
  predicate SlotOk(s: State) {
    s.busy == (Claiming(s.ui) || AnyActive(s)) && !(Claiming(s.ui) && AnyActive(s))
  }

  /** Handles: one for every thread, closed or in its place; a thread that lives is the one in the slot. */
  predicate HandleOk(s: State) {
    && (s.handle.Some? ==> s.handle.value + 1 == |s.workers|)
    && (s.ui.Storing? ==> s.ui.thread + 1 == |s.workers| && s.handle.None?)
    && (s.handle.None? && !s.ui.Storing? ==> Quiet(s))
    && (s.ui.ResettingCancel? || s.ui.Creating? || s.ui.Failing? || s.ui == Unclaiming || s.ui == Closing ==>
          s.handle.None?)
    && |s.workers| == s.closed + (if s.handle.Some? || s.ui.Storing? then 1 else 0)
  }

  predicate CollectorThere(s: State) {
    LastPc(s) == Checking || LastPc(s) == Reading ==> s.collector
  }

  predicate CollectorOk(s: State) {
    && (s.ui == Validating || s.ui == ShuttingDown || s.ui == Configuring ==> !s.busy)
    && (s.ui == Configuring ==> !s.collector)
    && (s.ui.Creating? || s.ui.Storing? ==> !s.cancel)
  }

  predicate Inv(s: State) {
    Alone(s) && SlotOk(s) && HandleOk(s) && CollectorOk(s) && CollectorThere(s)
  }

  /** A step of the UI thread leaves the threads alone or adds one. */
  lemma UiThreads(s: State, step: Step)
    requires !step.Work? && UiApply(s, step).Some? && HandleOk(s)
    ensures var t := UiApply(s, step).value;
            && (!(step.Create? && step.ok) ==> LastPc(t) == LastPc(s))
            && (step.Create? && step.ok ==> LastPc(t) == Starting && (Alone(s) ==> Alone(t)))
            && (HandleDone(s) && s.handle.Some? ==> LastPc(s) == Exited)
  {
    hide Claiming, Waiting;
  }

  /** The steps of the UI thread between claiming the slot and passing it on. */
  predicate Admitting(step: Step) {
    step.Reap? || step == GiveBack || step == ResetCancel || step.Create? || step == Store
    || step == PublishStartFailure || step == Unclaim
  }

  lemma AdmittingKeepsSlot(s: State, step: Step)
    requires SlotOk(s) && HandleOk(s) && Admitting(step) && UiApply(s, step).Some?
    ensures SlotOk(UiApply(s, step).value)
  {
    hide LastPc, HandleDone, Waiting;
    UiThreads(s, step);
  }

  lemma UiKeepsSlot(s: State, step: Step)
    requires SlotOk(s) && HandleOk(s) && !step.Work? && UiApply(s, step).Some?
    ensures SlotOk(UiApply(s, step).value)
  {
    hide LastPc, HandleDone, Waiting, Publish;
    if Admitting(step) {
      AdmittingKeepsSlot(s, step);
    } else {
      UiThreads(s, step);
    }
  }

  lemma AdmittingKeepsHandle(s: State, step: Step)
    requires HandleOk(s) && Admitting(step) && UiApply(s, step).Some?
    ensures HandleOk(UiApply(s, step).value)
  {
    hide LastPc, HandleDone, Waiting;
    UiThreads(s, step);
  }

  lemma UiKeepsHandle(s: State, step: Step)
    requires HandleOk(s) && !step.Work? && UiApply(s, step).Some?
    ensures HandleOk(UiApply(s, step).value)
  {
    hide LastPc, HandleDone, Waiting, Publish;
    if Admitting(step) {
      AdmittingKeepsHandle(s, step);
    } else {
      UiThreads(s, step);
    }
  }

  lemma UiKeepsCollector(s: State, step: Step)
    requires CollectorOk(s) && !step.Work? && UiApply(s, step).Some?
    ensures CollectorOk(UiApply(s, step).value)
  {
    hide HandleDone, Waiting;
  }

  lemma UiKeepsThere(s: State, step: Step)
    requires SlotOk(s) && HandleOk(s) && CollectorOk(s) && CollectorThere(s) && !step.Work? && UiApply(s, step).Some?
    ensures CollectorThere(UiApply(s, step).value)
  {
    hide LastPc, HandleDone, Waiting, Claiming;
    UiThreads(s, step);
    if step == FreeCollector || step == ShutDown {
      assert LastPc(s) == Leaving || LastPc(s) == Exited;
    }
  }

  /** Only the last thread moves, and only it. */
  lemma WorkerMoves(s: State, i: nat, outcome: Outcome)
    requires Alone(s) && WorkerApply(s, i, outcome).Some?
    ensures i + 1 == |s.workers| && LastPc(s) == s.workers[i].pc
    ensures var t := WorkerApply(s, i, outcome).value;
            && |t.workers| == |s.workers| && Alone(t)
            && LastPc(t) == WorkerNext(s.workers[i], s.cancel, s.collector, outcome).0.pc
  {
    hide WorkerNext;
  }

  lemma WorkerKeepsInv(s: State, i: nat, outcome: Outcome)
    requires Inv(s) && WorkerApply(s, i, outcome).Some?
    ensures Inv(WorkerApply(s, i, outcome).value)
  {
    hide LastPc, Alone;
    WorkerMoves(s, i, outcome);
  }

  /** Every step of every thread keeps the invariant. */
  lemma StepKeepsInv(s: State, step: Step)
    requires Inv(s) && Apply(s, step).Some?
    ensures Inv(Apply(s, step).value)
  {
    hide UiApply, WorkerApply, SlotOk, HandleOk, CollectorOk, CollectorThere;
    if step.Work? {
      WorkerKeepsInv(s, step.thread, step.outcome);
    } else {
      UiKeepsSlot(s, step);
      UiKeepsHandle(s, step);
      UiKeepsCollector(s, step);
      UiKeepsThere(s, step);
      UiKeepsAlone(s, step);
    }
  }

  lemma UiKeepsAlone(s: State, step: Step)
    requires Alone(s) && SlotOk(s) && HandleOk(s) && !step.Work? && UiApply(s, step).Some?
    ensures Alone(UiApply(s, step).value)
  {
    hide HandleDone;
  }

  /** So every state of every run from the initial one satisfies it. */
  lemma {:induction false} Reachable(steps: seq<Step>)
    requires Execute(Init(), steps).Some?
    ensures Inv(Execute(Init(), steps).value)
  {
    hide Apply, Inv;
    if steps == [] {
      InitInv();
    } else {
      Reachable(steps[..|steps| - 1]);
      StepKeepsInv(Execute(Init(), steps[..|steps| - 1]).value, steps[|steps| - 1]);
    }
  }

  lemma InitInv()
    ensures Inv(Init())
  {
  }

  // ---------------------------------------------------------------- what it means for every run

  predicate Live(s: State, i: nat) {
    i < |s.workers| && s.workers[i].pc != Exited
  }

  /** The thread has a job that is not finished. */
  predicate Working(s: State, i: nat) {
    Live(s, i) && s.workers[i].pc != Leaving
  }

  lemma LiveIsLast(s: State, i: nat)
    requires Inv(s) && Live(s, i)
    ensures i + 1 == |s.workers| && LastPc(s) == s.workers[i].pc
  {
  }

  /** At most one worker thread is alive. */
  lemma OneWorker(steps: seq<Step>, i: nat, j: nat)
    requires Execute(Init(), steps).Some?
    requires Live(Execute(Init(), steps).value, i) && Live(Execute(Init(), steps).value, j)
    ensures i == j
  {
    var s := Execute(Init(), steps).value;
    Reachable(steps);
    LiveIsLast(s, i);
    LiveIsLast(s, j);
  }

  /** A step changes the handle in the slot only to put one there or to close that of a thread that has exited. */
  lemma HandleStep(s: State, step: Step)
    requires HandleOk(s) && Apply(s, step).Some?
    ensures var t := Apply(s, step).value;
            && (s.handle.Some? && t.handle != s.handle ==>
                  !Live(s, s.handle.value) && t.handle == None && t.closed == s.closed + 1)
            && (s.handle.None? || t.handle == s.handle ==> t.closed == s.closed)
  {
    hide WorkerNext, Waiting, LastPc;
  }

  /** Every handle is closed once, after its thread has exited, or is in the slot or about to be put there: no
      handle is overwritten, and between messages a thread that lives is the one in the slot. */
  lemma HandlesKept(steps: seq<Step>, step: Step)
    requires Execute(Init(), steps).Some?
    ensures var s := Execute(Init(), steps).value;
            && |s.workers| == s.closed + (if s.handle.Some? || s.ui.Storing? then 1 else 0)
            && (forall i: nat | Live(s, i) && !s.ui.Storing? :: s.handle == Some(i))
            && (Apply(s, step).Some? ==>
                  var t := Apply(s, step).value;
                  && (s.handle.Some? && t.handle != s.handle ==>
                        !Live(s, s.handle.value) && t.handle == None && t.closed == s.closed + 1)
                  && (s.handle.None? || t.handle == s.handle ==> t.closed == s.closed))
  {
    hide Execute, Claiming, SlotOk, CollectorOk, Alone, Apply;
    Reachable(steps);
    var s := Execute(Init(), steps).value;
    if Apply(s, step).Some? {
      HandleStep(s, step);
    }
    forall i: nat | Live(s, i) ensures i + 1 == |s.workers| && LastPc(s) == s.workers[i].pc {
      LiveIsLast(s, i);
    }
  }

  /** The slot is taken exactly while the UI thread is admitting a job or a worker has one. */
  lemma BusyMeans(steps: seq<Step>)
    requires Execute(Init(), steps).Some?
    ensures var s := Execute(Init(), steps).value;
            s.busy <==> Claiming(s.ui) || exists i: nat :: Working(s, i)
  {
    hide Execute, Claiming;
    Reachable(steps);
    var s := Execute(Init(), steps).value;
    forall i: nat | Working(s, i) ensures AnyActive(s) {
      LiveIsLast(s, i);
    }
    if AnyActive(s) {
      assert Working(s, |s.workers| - 1);
    }
  }

  /** A worker that checks or reads finds the collector, and the collector is freed by the UI thread only while no
      worker has a job; so a configuration that is not refused as busy never meets a collector. */
  lemma CollectorSafe(steps: seq<Step>)
    requires Execute(Init(), steps).Some?
    ensures var s := Execute(Init(), steps).value;
            && (forall i: nat | Live(s, i) && (s.workers[i].pc == Checking || s.workers[i].pc == Reading) :: s.collector)
            && (s.ui == ShuttingDown || s.ui == Closing ==> forall i: nat :: !Working(s, i))
            && (s.ui == Configuring ==> !s.collector && Apply(s, RngConfigure).value.ui == Rejecting(Configure, Success))
  {
    hide Execute;
    Reachable(steps);
    var s := Execute(Init(), steps).value;
    forall i: nat | Live(s, i) ensures i + 1 == |s.workers| && LastPc(s) == s.workers[i].pc {
      LiveIsLast(s, i);
    }
  }

  /** The UI thread always has a step to take until it is closed. */
  lemma UiNotStuck(s: State)
    requires s.ui != Closed
    ensures exists step: Step :: !step.Work? && Apply(s, step).Some?
  {
    hide HandleDone;
    var step := match s.ui
      case Idle => Tick
      case Rejecting(_, _) => PublishRejection
      case Reaping(_) => Reap(HandleDone(s))
      case GivingBack(_) => GiveBack
      case ResettingCancel(_) => ResetCancel
      case Creating(_) => Create(true)
      case Storing(_) => Store
      case Failing(_) => PublishStartFailure
      case Unclaiming => Unclaim
      case CancelAdmitted => SetCancel
      case Validating => Validate(true)
      case ShuttingDown => FreeCollector
      case Configuring => RngConfigure
      case AwaitingWorker => WaitForWorker(HandleDone(s))
      case Closing => ShutDown;
    NoHandle(s);
    assert !step.Work? && Apply(s, step).Some?;
  }

  lemma NoHandle(s: State)
    ensures s.handle.None? ==> HandleDone(s)
  {
  }

  // ---------------------------------------------------------------- cancelling

  /** The reads a worker will have made once the flag stops it. */
  function Budget(w: Worker): nat {
    w.chunks + if w.pc == Reading then 1 else 0
  }

  /** The job has not read for the last time and will not be reported as done. */
  predicate Doomed(w: Worker) {
    || w.pc == Starting || w.pc == Initializing || w.pc == Checking
    || (w.pc != Reading && (w.status == Cancelled || w.status == Failed))
  }

  lemma CancelledWorker(w: Worker, collector: bool, outcome: Outcome)
    ensures var next := WorkerNext(w, true, collector, outcome).0;
            Budget(next) <= Budget(w) && (Doomed(w) ==> Doomed(next))
  {
  }

  /** No step of the UI thread changes a worker, and none clears the flag while one is alive. */
  lemma UiSparesWorkers(s: State, step: Step, i: nat)
    requires !step.Work? && UiApply(s, step).Some? && i < |s.workers|
    ensures var t := UiApply(s, step).value; i < |t.workers| && t.workers[i] == s.workers[i]
    ensures UiApply(s, step).value.cancel || !s.cancel || step == ResetCancel
  {
    hide HandleDone, Waiting;
  }

  lemma CancelStep(s: State, step: Step, i: nat)
    requires Inv(s) && Apply(s, step).Some? && i < |s.workers| && (Live(s, i) ==> s.cancel)
    ensures var t := Apply(s, step).value;
            && i < |t.workers| && (Live(t, i) ==> t.cancel)
            && Budget(t.workers[i]) <= Budget(s.workers[i])
            && (Doomed(s.workers[i]) ==> Doomed(t.workers[i]))
  {
    hide SlotOk, Waiting, HandleDone, Claiming, CollectorOk, CollectorThere, Budget, Doomed, WorkerNext, UiApply;
    if step.Work? {
      WorkerMoves(s, step.thread, step.outcome);
      CancelledWorker(s.workers[step.thread], s.collector, step.outcome);
    } else {
      UiSparesWorkers(s, step, i);
      if Live(s, i) {
        LiveIsLast(s, i);
        NoResetBeside(s, step);
      }
    }
  }

  lemma NoResetBeside(s: State, step: Step)
    requires HandleOk(s) && LastPc(s) != Exited && !step.Work? && UiApply(s, step).Some?
    ensures step != ResetCancel
  {
    hide HandleDone, Waiting, LastPc;
  }

  /** A cancel that finds a worker alive, from admission on, stays set until that worker has exited; the job reads
      at most the chunk it is at, and unless it is at one it does not end as done. */
  lemma {:induction false} CancelHolds(s: State, steps: seq<Step>, i: nat)
    requires Inv(s) && s.cancel && Live(s, i) && Execute(s, steps).Some?
    ensures var t := Execute(s, steps).value;
            && Inv(t) && i < |t.workers| && (Live(t, i) ==> t.cancel)
            && Budget(t.workers[i]) <= Budget(s.workers[i])
            && (Doomed(s.workers[i]) ==> Doomed(t.workers[i]))
  {
    hide Apply, Inv, Budget, Doomed;
    if steps != [] {
      CancelHolds(s, steps[..|steps| - 1], i);
      var u := Execute(s, steps[..|steps| - 1]).value;
      CancelStep(u, steps[|steps| - 1], i);
      StepKeepsInv(u, steps[|steps| - 1]);
    }
  }

  /** No job starts cancelled, whatever was cancelled before it. */
  lemma StartsUncancelled(steps: seq<Step>, ok: bool)
    requires Execute(Init(), steps).Some?
    ensures var s := Execute(Init(), steps).value; Apply(s, Create(ok)).Some? ==> !s.cancel
  {
    hide Execute;
    Reachable(steps);
  }

  // ---------------------------------------------------------------- results

  /** Every result there has been: delivered, waiting or replaced. */
  function Accounted(s: State): multiset<Result> {
    s.delivered + s.replaced + Waiting(s.pending)
  }

  /** What a step adds to them. */
  function NewResult(s: State, step: Step): multiset<Result> {
    match step
    case PublishRejection =>
      if s.ui.Rejecting? && s.pending.None? then multiset{Rejection(s.ui.action, s.ui.code)} else multiset{}
    case PublishStartFailure => if s.ui.Failing? then multiset{StartFailure(s.ui.job)} else multiset{}
    case Work(i, _) =>
      if i < |s.workers| && s.workers[i].pc == Publishing then multiset{JobResult(i, s.workers[i].status)} else multiset{}
    case _ => multiset{}
  }

  /** The step stores a result whatever is there: that of a job, or of its failure to start. */
  predicate PublishesOver(s: State, step: Step) {
    step == PublishStartFailure
    || (step.Work? && step.thread < |s.workers| && s.workers[step.thread].pc == Publishing)
  }

  /** A frame delivers the waiting result, and only the result of a job or a failure to start one replaces it,
      never a rejection; no result is lost in any other way. */
  predicate Conserves(s: State, step: Step, t: State) {
    && Accounted(t) == Accounted(s) + NewResult(s, step)
    && (t.delivered != s.delivered ==>
          step == Tick && t.delivered == s.delivered + Waiting(s.pending) && t.pending.None?)
    && (t.replaced != s.replaced <==> s.pending.Some? && PublishesOver(s, step))
    && (t.replaced != s.replaced ==>
          t.replaced == s.replaced + Waiting(s.pending) && t.pending.Some? && !t.pending.value.Rejection?)
    && (step == PublishRejection && s.pending.Some? ==> t.pending == s.pending)
  }

  lemma ResultsConserved(s: State, step: Step)
    requires Apply(s, step).Some?
    ensures Conserves(s, step, Apply(s, step).value)
  {
    hide UiApply, WorkerApply, Conserves;
    if step.Work? {
      WorkerResults(s, step.thread, step.outcome);
    } else if step == PublishRejection || step == PublishStartFailure || step == Tick {
      UiResults(s, step);
    } else {
      UiSparesResults(s, step);
      NoNewResult(s, step, UiApply(s, step).value);
    }
  }

  /** Most steps leave the results alone. */
  lemma UiSparesResults(s: State, step: Step)
    requires !step.Work? && UiApply(s, step).Some?
    requires step != PublishRejection && step != PublishStartFailure && step != Tick
    ensures var t := UiApply(s, step).value;
            t.pending == s.pending && t.delivered == s.delivered && t.replaced == s.replaced
  {
    hide HandleDone, Publish, Waiting;
  }

  lemma NoNewResult(s: State, step: Step, t: State)
    requires t.pending == s.pending && t.delivered == s.delivered && t.replaced == s.replaced
    requires step != PublishRejection && step != PublishStartFailure && !step.Work?
    ensures Conserves(s, step, t)
  {
  }

  /** Publishing accounts for one more result. */
  lemma PublishConserves(s: State, r: Result, t: State)
    requires t.delivered == s.delivered && t.replaced == s.replaced + Waiting(s.pending) && t.pending == Some(r)
    ensures Accounted(t) == Accounted(s) + multiset{r}
  {
    hide Waiting;
    assert Waiting(t.pending) == multiset{r} by {
      WaitingFor(r);
    }
  }

  lemma WaitingFor(r: Result)
    ensures Waiting(Some(r)) == multiset{r} && Waiting(None) == multiset{}
  {
  }

  /** What a worker's step does to the results. */
  lemma WorkerStores(s: State, i: nat, outcome: Outcome)
    requires WorkerApply(s, i, outcome).Some?
    ensures var t := WorkerApply(s, i, outcome).value;
            && i < |s.workers| && t.delivered == s.delivered
            && if s.workers[i].pc == Publishing
               then t.replaced == s.replaced + Waiting(s.pending) && t.pending == Some(JobResult(i, s.workers[i].status))
               else t.replaced == s.replaced && t.pending == s.pending
  {
    hide WorkerNext, Waiting;
  }

  lemma WorkerResults(s: State, i: nat, outcome: Outcome)
    requires WorkerApply(s, i, outcome).Some?
    ensures Conserves(s, Work(i, outcome), WorkerApply(s, i, outcome).value)
  {
    hide WorkerNext, WorkerApply, Waiting, Accounted;
    var t := WorkerApply(s, i, outcome).value;
    WorkerStores(s, i, outcome);
    WaitingGrows(s.replaced, s.pending);
    if s.workers[i].pc == Publishing {
      PublishConserves(s, JobResult(i, s.workers[i].status), t);
    } else {
      SameAccounted(s, t);
    }
  }

  lemma SameAccounted(s: State, t: State)
    requires t.pending == s.pending && t.delivered == s.delivered && t.replaced == s.replaced
    ensures Accounted(t) == Accounted(s) + multiset{}
  {
  }

  lemma UiResults(s: State, step: Step)
    requires step == PublishRejection || step == PublishStartFailure || step == Tick
    requires UiApply(s, step).Some?
    ensures Conserves(s, step, UiApply(s, step).value)
  {
    hide Waiting, Accounted;
    var t := UiApply(s, step).value;
    WaitingGrows(s.replaced, s.pending);
    if step == Tick {
      TickConserves(s, t);
    } else if step == PublishStartFailure {
      PublishConserves(s, StartFailure(s.ui.job), t);
    } else if s.pending.Some? {
      SameAccounted(s, t);
    } else {
      NothingWaits(s.replaced);
      PublishConserves(s, Rejection(s.ui.action, s.ui.code), t);
    }
  }

  lemma WaitingGrows(m: multiset<Result>, pending: Option<Result>)
    ensures m + Waiting(pending) != m <==> pending.Some?
  {
    assert |m + Waiting(pending)| == |m| + |Waiting(pending)|;
  }

  lemma NothingWaits(m: multiset<Result>)
    ensures m + Waiting(None) == m
  {
  }

  lemma TickConserves(s: State, t: State)
    requires t.delivered == s.delivered + Waiting(s.pending) && t.replaced == s.replaced && t.pending.None?
    ensures Accounted(t) == Accounted(s) + multiset{}
  {
    hide Waiting;
    NothingWaits(t.replaced);
    assert Waiting(t.pending) == multiset{} by {
      WaitingFor(StartFailure(Generate));
    }
  }

  /** The job's result has been published. */
  predicate Published(w: Worker) {
    w.pc == Releasing || w.pc == Leaving || w.pc == Exited
  }

  /** The job has ended with a status and published it. */
  predicate Concluded(s: State, i: nat, status: Status) {
    i < |s.workers| && Published(s.workers[i]) && s.workers[i].status == status
  }

  /** Over every run: the result of each job that published one is there exactly once, delivered, waiting or
      replaced, with the status the job ended with; nothing else passes for a job's result. */
  ghost predicate ResultsOnce(s: State) {
    forall i: nat, status :: Accounted(s)[JobResult(i, status)] == if Concluded(s, i, status) then 1 else 0
  }

  lemma {:induction false} EveryResultOnce(steps: seq<Step>)
    requires Execute(Init(), steps).Some?
    ensures ResultsOnce(Execute(Init(), steps).value)
  {
    hide Apply, NewResult, Accounted, Concluded, Init;
    if steps == [] {
      NothingAccounted();
    } else {
      EveryResultOnce(steps[..|steps| - 1]);
      var s := Execute(Init(), steps[..|steps| - 1]).value;
      var step := steps[|steps| - 1];
      ResultsConserved(s, step);
      var t := Apply(s, step).value;
      forall i: nat, status
        ensures Accounted(t)[JobResult(i, status)] == if Concluded(t, i, status) then 1 else 0
      {
        assert Accounted(s)[JobResult(i, status)] == if Concluded(s, i, status) then 1 else 0;
        OneMoreResult(s, step, i, status);
      }
    }
  }

  lemma NothingAccounted()
    ensures ResultsOnce(Init())
  {
  }

  /** A step publishes the result of a job exactly when it makes the job a published one. */
  lemma OneMoreResult(s: State, step: Step, i: nat, status: Status)
    requires Apply(s, step).Some?
    ensures var t := Apply(s, step).value;
            (if Concluded(s, i, status) then 1 else 0) + NewResult(s, step)[JobResult(i, status)]
              == if Concluded(t, i, status) then 1 else 0
  {
    hide UiApply, WorkerApply;
    if step.Work? {
      WorkerConcludes(s, step.thread, step.outcome, i, status);
    } else {
      UiWorkers(s, step);
    }
  }

  lemma WorkerConcludes(s: State, thread: nat, outcome: Outcome, i: nat, status: Status)
    requires WorkerApply(s, thread, outcome).Some?
    ensures (if Concluded(s, i, status) then 1 else 0) + NewResult(s, Work(thread, outcome))[JobResult(i, status)]
         == if Concluded(WorkerApply(s, thread, outcome).value, i, status) then 1 else 0
  {
    hide WorkerNext, Waiting;
    NextStatus(s.workers[thread], s.cancel, s.collector, outcome);
  }

  lemma NextStatus(w: Worker, cancel: bool, collector: bool, outcome: Outcome)
    requires w.pc != Exited
    ensures var next := WorkerNext(w, cancel, collector, outcome).0;
            Published(next) == (w.pc == Publishing || Published(w)) && (Published(next) ==> next.status == w.status)
  {
  }

  lemma UiWorkers(s: State, step: Step)
    requires !step.Work? && UiApply(s, step).Some?
    ensures var t := UiApply(s, step).value;
            t.workers == s.workers || exists job :: t.workers == s.workers + [Worker(job, Starting, Running, 0)]
  {
    hide HandleDone, Waiting;
  }

  lemma Extend(steps: seq<Step>, step: Step)
    requires Execute(Init(), steps).Some?
    ensures Execute(Init(), steps + [step]) == Apply(Execute(Init(), steps).value, step)
  {
    Then(Init(), steps, step);
  }

  /** A run that admits a job from an idle state without a collector or cancel request. */
  lemma Admitted(before: seq<Step>, s: State) returns (steps: seq<Step>)
    requires Execute(Init(), before) == Some(s) && s.ui == Idle && !s.busy && HandleDone(s)
    ensures Execute(Init(), steps) == Some(CloseHandle(s).(busy := true, cancel := false, ui := Creating(Generate)))
  {
    hide Execute, Init, HandleDone;
    Extend(before, Ask(Generate));
    var asked := s.(busy := true, ui := Reaping(Generate));
    assert HandleDone(asked) by {
      SameHandle(s, asked);
    }
    Extend(before + [Ask(Generate)], Reap(true));
    Extend(before + [Ask(Generate)] + [Reap(true)], ResetCancel);
    steps := before + [Ask(Generate)] + [Reap(true)] + [ResetCancel];
  }

  lemma SameHandle(s: State, t: State)
    requires s.handle == t.handle && s.workers == t.workers
    ensures HandleDone(s) == HandleDone(t)
  {
  }

  /** A worker that generates one chunk, from its start to its exit. */
  lemma Generates(before: seq<Step>, s: State) returns (steps: seq<Step>)
    requires Execute(Init(), before) == Some(s) && s.ui == Idle && !s.cancel && s.pending.None?
    requires s.workers == [Worker(Generate, Starting, Running, 0)]
    ensures Execute(Init(), steps) == Some(s.(busy := false, collector := true, pending := Some(JobResult(0, Done)),
                                              workers := [Worker(Generate, Exited, Done, 1)]))
  {
    hide Execute, Init, UiApply;
    steps := before;
    var t := s;
    var outcomes := [More, More, More, Finish, More, More, More, More];
    var pcs := [Initializing, Checking, Reading, Cleaning, Publishing, Releasing, Leaving, Exited];
    for k := 0 to 8
      invariant Execute(Init(), steps) == Some(t)
      invariant t == s.(busy := k < 7 && s.busy, collector := k >= 2 || s.collector,
                        pending := if k >= 6 then Some(JobResult(0, Done)) else None,
                        replaced := t.replaced,
                        workers := [Worker(Generate, if k == 0 then Starting else pcs[k - 1],
                                           if k >= 4 then Done else Running, if k >= 4 then 1 else 0)])
      invariant t.replaced == s.replaced
    {
      Extend(steps, Work(0, outcomes[k]));
      steps := steps + [Work(0, outcomes[k])];
      t := WorkerApply(t, 0, outcomes[k]).value;
      assert Waiting(None) == multiset{} && s.replaced + multiset{} == s.replaced;
    }
  }

  /** That an unconsumed result is never overwritten holds of rejections only: a generated sample that no frame has
      picked up is replaced when the next job fails to start (or ends). */
  lemma SampleCanBeReplaced() returns (steps: seq<Step>)
    ensures Execute(Init(), steps).Some?
    ensures var s := Execute(Init(), steps).value;
            JobResult(0, Done) in s.replaced && s.delivered == multiset{} && s.pending == Some(StartFailure(Generate))
  {
    hide Execute, UiApply, HandleDone;
    assert Execute(Init(), []) == Some(Init()) && HandleDone(Init()) by {
      Begins();
    }
    steps := Admitted([], Init());
    var s := Init().(busy := true, ui := Creating(Generate));
    steps := Starts(steps, s);
    s := s.(ui := Idle, handle := Some(0), workers := [Worker(Generate, Starting, Running, 0)]);
    steps := Generates(steps, s);
    s := s.(busy := false, collector := true, pending := Some(JobResult(0, Done)),
            workers := [Worker(Generate, Exited, Done, 1)]);
    assert HandleDone(s) by {
      ExitedHandle(s);
    }
    steps := Admitted(steps, s);
    s := s.(busy := true, handle := None, closed := 1, ui := Creating(Generate));
    steps := FailsToStart(steps, s);
  }

  lemma Begins()
    ensures Execute(Init(), []) == Some(Init()) && HandleDone(Init())
  {
  }

  lemma ExitedHandle(s: State)
    requires s.handle == Some(0) && |s.workers| == 1 && s.workers[0].pc == Exited
    ensures HandleDone(s)
  {
  }

  lemma Starts(before: seq<Step>, s: State) returns (steps: seq<Step>)
    requires Execute(Init(), before) == Some(s) && s.ui == Creating(Generate) && s.workers == []
    ensures Execute(Init(), steps)
         == Some(s.(ui := Idle, handle := Some(0), workers := [Worker(Generate, Starting, Running, 0)]))
  {
    hide Execute, Init;
    Extend(before, Create(true));
    assert s.workers + [Worker(Generate, Starting, Running, 0)] == [Worker(Generate, Starting, Running, 0)];
    Extend(before + [Create(true)], Store);
    steps := before + [Create(true)] + [Store];
  }

  lemma FailsToStart(before: seq<Step>, s: State) returns (steps: seq<Step>)
    requires Execute(Init(), before) == Some(s) && s.ui == Creating(Generate)
    ensures Execute(Init(), steps) == Some(Publish(s, StartFailure(Generate)).(ui := Unclaiming))
  {
    hide Execute, Init;
    Extend(before, Create(false));
    Extend(before + [Create(false)], PublishStartFailure);
    steps := before + [Create(false)] + [PublishStartFailure];
  }

  // ---------------------------------------------------------------- what the page asks for

  lemma Then(s: State, steps: seq<Step>, step: Step)
    requires Execute(s, steps).Some?
    ensures Execute(s, steps + [step]) == Apply(Execute(s, steps).value, step)
  {
    assert (steps + [step])[..|steps|] == steps;
  }

  lemma First(s: State, a: Step)
    ensures Execute(s, [a]) == Apply(s, a)
  {
    hide Apply;
    assert Execute(s, []) == Some(s) && [] + [a] == [a];
    Then(s, [], a);
  }

  lemma Second(s: State, a: Step, b: Step)
    requires Apply(s, a).Some?
    ensures Execute(s, [a, b]) == Apply(Apply(s, a).value, b)
  {
    hide Apply;
    First(s, a);
    assert [a] + [b] == [a, b];
    Then(s, [a], b);
  }

  lemma Third(s: State, a: Step, b: Step, c: Step)
    requires Apply(s, a).Some? && Apply(Apply(s, a).value, b).Some?
    ensures Execute(s, [a, b, c]) == Apply(Apply(Apply(s, a).value, b).value, c)
  {
    hide Apply;
    Second(s, a, b);
    assert [a, b] + [c] == [a, b, c];
    Then(s, [a, b], c);
  }

  /** Two runs in a row. */
  lemma {:induction false} Composes(s: State, before: seq<Step>, after: seq<Step>)
    requires Execute(s, before).Some?
    ensures Execute(s, before + after) == Execute(Execute(s, before).value, after)
    decreases |after|
  {
    hide Apply;
    if after == [] {
      assert before + after == before;
    } else {
      Composes(s, before, after[..|after| - 1]);
      assert (before + after)[..|before + after| - 1] == before + after[..|after| - 1];
    }
  }

  /** The page is told, unless another result waits. */
  function Told(s: State, action: Action, code: Code): State {
    if s.pending.Some? then s else s.(pending := Some(Rejection(action, code)))
  }

  /** A request that is busy or bad is refused, and changes nothing but what the page is told. */
  lemma RequestRefused(s: State, job: Job)
    requires s.ui == Idle
    ensures s.busy ==> Execute(s, [Ask(job), PublishRejection]) == Some(Told(s, Run(job), Busy))
    ensures Execute(s, [AskBadly(job), PublishRejection]) == Some(Told(s, Run(job), InvalidArgument))
  {
    hide Execute;
    if s.busy {
      Second(s, Ask(job), PublishRejection);
    }
    Second(s, AskBadly(job), PublishRejection);
  }

  /** The slot is claimed, the thread before is reaped, and a cancel of it forgotten. */
  lemma RequestClaims(s: State, job: Job)
    requires s.ui == Idle && !s.busy && HandleDone(s)
    ensures Execute(s, [Ask(job), Reap(true), ResetCancel])
         == Some(s.(busy := true, cancel := false, handle := None,
                    closed := s.closed + (if s.handle.Some? then 1 else 0), ui := Creating(job)))
  {
    hide Execute;
    Third(s, Ask(job), Reap(true), ResetCancel);
  }

  /** A request for a job when the slot is free and the last thread has exited: one thread more, for that job, with
      its handle in the slot and no cancel. */
  lemma RequestStarts(s: State, job: Job)
    requires s.ui == Idle && !s.busy && HandleDone(s)
    ensures Execute(s, [Ask(job), Reap(true), ResetCancel] + [Create(true), Store])
         == Some(s.(busy := true, cancel := false, handle := Some(|s.workers|),
                    closed := s.closed + (if s.handle.Some? then 1 else 0),
                    workers := s.workers + [Worker(job, Starting, Running, 0)]))
  {
    hide Execute;
    RequestClaims(s, job);
    var t := Execute(s, [Ask(job), Reap(true), ResetCancel]).value;
    Composes(s, [Ask(job), Reap(true), ResetCancel], [Create(true), Store]);
    Second(t, Create(true), Store);
  }

  /** If no thread can be created, the page gets to know that and the slot is free again. */
  lemma RequestFails(s: State, job: Job)
    requires s.ui == Idle && !s.busy && HandleDone(s)
    ensures Execute(s, [Ask(job), Reap(true), ResetCancel] + [Create(false), PublishStartFailure, Unclaim])
         == Some(s.(cancel := false, handle := None, closed := s.closed + (if s.handle.Some? then 1 else 0),
                    pending := Some(StartFailure(job)), replaced := s.replaced + Waiting(s.pending)))
  {
    hide Execute, Waiting;
    RequestClaims(s, job);
    var t := Execute(s, [Ask(job), Reap(true), ResetCancel]).value;
    Composes(s, [Ask(job), Reap(true), ResetCancel], [Create(false), PublishStartFailure, Unclaim]);
    Third(t, Create(false), PublishStartFailure, Unclaim);
  }

  /** If the thread before does not exit in time, the request is refused as busy. */
  lemma RequestTimesOut(s: State, job: Job)
    requires s.ui == Idle && !s.busy && s.handle.Some?
    ensures Execute(s, [Ask(job), Reap(false), GiveBack] + [PublishRejection]) == Some(Told(s, Run(job), Busy))
  {
    hide Execute;
    Third(s, Ask(job), Reap(false), GiveBack);
    Then(s, [Ask(job), Reap(false), GiveBack], PublishRejection);
  }

  /** A configuration is refused while there is a job, and if it is invalid. */
  lemma ConfigurationRefused(s: State)
    requires s.ui == Idle
    ensures s.busy ==> Execute(s, [AskConfigure, PublishRejection]) == Some(Told(s, Configure, Busy))
    ensures !s.busy ==>
              Execute(s, [AskConfigure, Validate(false), PublishRejection]) == Some(Told(s, Configure, InvalidArgument))
  {
    hide Execute;
    if s.busy {
      Second(s, AskConfigure, PublishRejection);
    } else {
      Third(s, AskConfigure, Validate(false), PublishRejection);
    }
  }

  lemma ConfigurationSteps(s: State)
    requires s.ui == Idle && !s.busy
    ensures Apply(s, AskConfigure) == Some(s.(ui := Validating))
    ensures Apply(s.(ui := Validating), Validate(true)) == Some(s.(ui := ShuttingDown))
    ensures Apply(s.(ui := ShuttingDown), FreeCollector) == Some(s.(collector := false, ui := Configuring))
  {
  }

  lemma ConfiguredSteps(s: State)
    requires s.ui == Configuring && !s.collector
    ensures Apply(s, RngConfigure) == Some(s.(ui := Rejecting(Configure, Success)))
    ensures Apply(s.(ui := Rejecting(Configure, Success)), PublishRejection)
         == Some(Told(s.(ui := Idle), Configure, Success))
  {
  }

  /** Otherwise the collector is freed, and the page is told of the success. */
  lemma Configures(s: State)
    requires s.ui == Idle && !s.busy
    ensures Execute(s, [AskConfigure, Validate(true), FreeCollector] + [RngConfigure, PublishRejection])
         == Some(Told(s.(collector := false), Configure, Success))
  {
    hide Execute, Apply;
    ConfigurationSteps(s);
    Third(s, AskConfigure, Validate(true), FreeCollector);
    Composes(s, [AskConfigure, Validate(true), FreeCollector], [RngConfigure, PublishRejection]);
    var freed := s.(collector := false, ui := Configuring);
    ConfiguredSteps(freed);
    Second(freed, RngConfigure, PublishRejection);
  }

  /** A cancel request sets the flag if there is a job, and does nothing otherwise. */
  lemma Cancels(s: State)
    requires s.ui == Idle
    ensures s.busy ==> Execute(s, [AskCancel, SetCancel]) == Some(s.(cancel := true))
    ensures !s.busy ==> Execute(s, [AskCancel]) == Some(s)
  {
    hide Execute;
    if s.busy {
      Second(s, AskCancel, SetCancel);
    } else {
      First(s, AskCancel);
    }
  }

  /** The end of the program sets the flag, frees everything once the thread has exited, and gives up waiting for one
      that does not. */
  lemma EndsProgram(s: State)
    requires s.ui == Idle
    ensures Execute(s, [Destroy]) == Some(s.(cancel := true, ui := AwaitingWorker))
    ensures s.handle.Some? ==> Execute(s, [Destroy, WaitForWorker(false)]) == Some(s.(cancel := true, ui := Closed))
  {
    hide Execute;
    First(s, Destroy);
    if s.handle.Some? {
      Second(s, Destroy, WaitForWorker(false));
    }
  }

  lemma EndsClean(s: State)
    requires s.ui == Idle && HandleDone(s)
    ensures Execute(s, [Destroy, WaitForWorker(true), ShutDown])
         == Some(s.(cancel := true, handle := None, closed := s.closed + (if s.handle.Some? then 1 else 0),
                    collector := false, ui := Closed))
  {
    hide Execute, HandleDone;
    var a := s.(cancel := true, ui := AwaitingWorker);
    SameHandle(s, a);
    assert Apply(s, Destroy) == Some(a);
    assert Apply(a, WaitForWorker(true)) == Some(CloseHandle(a).(ui := Closing));
    Third(s, Destroy, WaitForWorker(true), ShutDown);
  }

  /** A frame delivers what waits. */
  lemma Delivers(s: State)
    requires s.ui == Idle
    ensures Execute(s, [Tick]) == Some(s.(pending := None, delivered := s.delivered + Waiting(s.pending)))
  {
    hide Execute, Waiting;
    First(s, Tick);
  }

  /** A cancel request, or the end of the program, while a job is worked on: whatever happens next, the flag stays
      set until its thread has exited, the job reads at most the chunk it is at, and unless it is reading one it
      does not end as done. */
  lemma CancelStops(before: seq<Step>, request: seq<Step>, after: seq<Step>, i: nat)
    requires Execute(Init(), before).Some?
    requires var s := Execute(Init(), before).value;
             && s.ui == Idle && Live(s, i)
             && (request == [Destroy] || (request == [AskCancel, SetCancel] && s.busy))
    requires Execute(Init(), before + request + after).Some?
    ensures var s, t := Execute(Init(), before).value, Execute(Init(), before + request + after).value;
            && i < |t.workers| && (Live(t, i) ==> t.cancel)
            && Budget(t.workers[i]) <= Budget(s.workers[i])
            && (Doomed(s.workers[i]) ==> Doomed(t.workers[i]))
  {
    hide Execute, Apply, Inv, Budget, Doomed;
    var s := Execute(Init(), before).value;
    Reachable(before);
    Cancels(s);
    EndsProgram(s);
    Composes(Init(), before, request);
    Reachable(before + request);
    Composes(Init(), before + request, after);
    CancelHolds(Execute(s, request).value, after, i);
  }

  /** A job is running until it ends, and has read something when it is done. */
  predicate Sensible(w: Worker) {
    match w.pc
    case Starting => w.status == Running && w.chunks == 0
    case Initializing => w.status == Running && w.chunks == 0
    case Checking => w.status == Running
    case Reading => w.status == Running
    case _ => w.status != Running && (w.status == Done ==> w.chunks > 0)
  }

  /** So it is in every run. */
  lemma {:induction false} JobsEnd(steps: seq<Step>)
    requires Execute(Init(), steps).Some?
    ensures forall w | w in Execute(Init(), steps).value.workers :: Sensible(w)
  {
    hide Apply, Sensible;
    if steps != [] {
      JobsEnd(steps[..|steps| - 1]);
      SensibleStep(Execute(Init(), steps[..|steps| - 1]).value, steps[|steps| - 1]);
    }
  }

  lemma SensibleStep(s: State, step: Step)
    requires Apply(s, step).Some? && forall w | w in s.workers :: Sensible(w)
    ensures forall w | w in Apply(s, step).value.workers :: Sensible(w)
  {
    hide UiApply, WorkerNext, Sensible;
    if step.Work? {
      SensibleNext(s.workers[step.thread], s.cancel, s.collector, step.outcome);
    } else {
      UiWorkers(s, step);
      SensibleStart();
    }
  }

  lemma SensibleNext(w: Worker, cancel: bool, collector: bool, outcome: Outcome)
    requires Sensible(w)
    ensures Sensible(WorkerNext(w, cancel, collector, outcome).0)
  {
  }

  lemma SensibleStart()
    ensures forall job :: Sensible(Worker(job, Starting, Running, 0))
  {
  }

  // ---------------------------------------------------------------- a job from its start to its end

  /** A worker on its own for some steps, the flag unchanged. */
  function Advance(w: Worker, cancel: bool, collector: bool, outcomes: seq<Outcome>): (Worker, bool) {
    if outcomes == [] then (w, collector) else
      var (next, there) := Advance(w, cancel, collector, outcomes[..|outcomes| - 1]);
      WorkerNext(next, cancel, there, outcomes[|outcomes| - 1])
  }

  /** n reads that are not the last one, with a look at the flag before each. */
  function Reads(n: nat): seq<Outcome> {
    if n == 0 then [] else Reads(n - 1) + [More, More]
  }

  lemma Onward(w: Worker, cancel: bool, collector: bool, outcomes: seq<Outcome>, outcome: Outcome)
    ensures var (next, there) := Advance(w, cancel, collector, outcomes);
            Advance(w, cancel, collector, outcomes + [outcome]) == WorkerNext(next, cancel, there, outcome)
  {
    assert (outcomes + [outcome])[..|outcomes|] == outcomes;
  }

  lemma Onward1(w: Worker, cancel: bool, collector: bool, a: Outcome)
    ensures Advance(w, cancel, collector, [a]) == WorkerNext(w, cancel, collector, a)
  {
    Onward(w, cancel, collector, [], a);
    assert [] + [a] == [a];
  }

  lemma Onward2(w: Worker, cancel: bool, collector: bool, a: Outcome, b: Outcome)
    ensures var (next, there) := WorkerNext(w, cancel, collector, a);
            Advance(w, cancel, collector, [a, b]) == WorkerNext(next, cancel, there, b)
  {
    hide WorkerNext, Advance;
    Onward1(w, cancel, collector, a);
    Onward(w, cancel, collector, [a], b);
    assert [a] + [b] == [a, b];
  }

  /** To the first look at the flag: the collector is allocated. */
  lemma JobBegins(job: Job, cancel: bool, collector: bool)
    ensures Advance(Worker(job, Starting, Running, 0), cancel, collector, [More, More])
         == (Worker(job, Checking, Running, 0), true)
    ensures Advance(Worker(job, Starting, Running, 0), cancel, collector, [More, Fail])
         == (Worker(job, Cleaning, Failed, 0), job == Generate && collector)
    ensures Advance(Worker(job, Starting, Running, 0), cancel, collector, [More, NoMemory])
         == (Worker(job, Cleaning, Failed, 0), true)
    ensures Advance(Worker(Benchmark, Starting, Running, 0), cancel, collector, [NoMemory])
         == (Worker(Benchmark, Publishing, Failed, 0), collector)
    ensures Advance(Worker(Generate, Starting, Running, 0), cancel, collector, [NoMemory])
         == (Worker(Generate, Initializing, Running, 0), collector)
  {
    hide Advance;
    Onward1(Worker(Benchmark, Starting, Running, 0), cancel, collector, NoMemory);
    Onward1(Worker(Generate, Starting, Running, 0), cancel, collector, NoMemory);
    var w := Worker(job, Starting, Running, 0);
    Onward2(w, cancel, collector, More, More);
    Onward2(w, cancel, collector, More, Fail);
    Onward2(w, cancel, collector, More, NoMemory);
  }

  /** Without a cancel or a failure every read counts. */
  lemma {:induction false} JobReads(job: Job, n: nat)
    ensures Advance(Worker(job, Checking, Running, 0), false, true, Reads(n)) == (Worker(job, Checking, Running, n), true)
  {
    if n > 0 {
      JobReads(job, n - 1);
      var w := Worker(job, Checking, Running, 0);
      Onward(w, false, true, Reads(n - 1), More);
      Onward(w, false, true, Reads(n - 1) + [More], More);
      assert Reads(n - 1) + [More] + [More] == Reads(n);
    }
  }

  /** How a job ends, after n reads: done with the last one, cancelled at a look at the flag, failed at a read; a
      benchmark frees the collector, a generator keeps it. */
  lemma JobEnds(job: Job, n: nat)
    ensures var w := Worker(job, Checking, Running, n);
            && Advance(w, false, true, [More, Finish]) == (Worker(job, Cleaning, Done, n + 1), true)
            && Advance(w, true, true, [More]) == (Worker(job, Cleaning, Cancelled, n), true)
            && Advance(w, false, true, [More, Fail]) == (Worker(job, Cleaning, Failed, n), true)
            && Advance(w, false, true, [More, NoMemory]) == (Worker(job, Cleaning, Failed, n), true)
            && Advance(w, false, false, [More, More]) == (Worker(job, Cleaning, Failed, n), false)
    ensures forall status, there: bool ::
              Advance(Worker(job, Cleaning, status, n), true, there, [More])
              == (Worker(job, Publishing, status, n), job == Generate && there)
  {
    hide Advance;
    var w := Worker(job, Checking, Running, n);
    Onward2(w, false, true, More, Finish);
    Onward1(w, true, true, More);
    Onward2(w, false, true, More, Fail);
    Onward2(w, false, true, More, NoMemory);
    Onward2(w, false, false, More, More);
    forall status, there: bool
      ensures Advance(Worker(job, Cleaning, status, n), true, there, [More])
           == (Worker(job, Publishing, status, n), job == Generate && there)
    {
      Onward1(Worker(job, Cleaning, status, n), true, there, More);
    }
  }

  /** Then its result is published, the slot passed on, and the thread exits. */
  lemma JobLeaves(s: State, i: nat)
    requires i < |s.workers| && s.workers[i].pc == Publishing && s.ui != Closed
    ensures Execute(s, [Work(i, More), Work(i, More), Work(i, More)])
         == Some(s.(pending := Some(JobResult(i, s.workers[i].status)), replaced := s.replaced + Waiting(s.pending),
                    busy := false, workers := s.workers[i := s.workers[i].(pc := Exited)]))
  {
    hide Execute, Waiting;
    var w := Work(i, More);
    var a := Apply(s, w).value;
    var b := Apply(a, w).value;
    assert a.workers[i] == s.workers[i].(pc := Releasing) && b.workers[i] == s.workers[i].(pc := Leaving);
    Third(s, w, w, w);
    assert Apply(b, w).value.workers == s.workers[i := s.workers[i].(pc := Exited)];
  }
}
