/** The health reporter's worker thread and the shutdown of its owner. Every step is one
    access to shared state; a wait with a timeout and a predicate is the loop that it stands
    for. */
module ReporterLifecycle {
  import opened Numbers

  datatype Thread = WorkerThread | OwnerThread

  /** Where the worker is. From `Testing` to `Releasing` and in `Leaving` it holds the mutex;
      in `Waiting` it is blocked until it is notified, its time is up, or it wakes up
      spuriously. */
  datatype Worker =
    | Locking
    | Testing
    | Checking
    | TimedOut
    | Releasing
    | Leaving
    | Waiting
    | Waking(late: bool)
    | Emitting
    | Exited

  /** Where the owner is. In `Setting` and `Unlocking` it holds the mutex. */
  datatype Owner = Serving | Acquiring | Setting | Unlocking | Notifying | Joining | Destroyed

  /** `emitted` and `emittedLate` count the reports made before and after shutdown was
      signalled. */
  datatype State = State(done: bool, holder: Option<Thread>, worker: Worker, owner: Owner,
                         emitted: nat, emittedLate: nat)

  /** No worker is started for an interval of zero. */
  function Init(interval: nat): State {
    State(false, None, if interval > 0 then Locking else Exited, Serving, 0, 0)
  }

  datatype Action = Work | Own | TimeUp | WakeSpuriously

  predicate Enabled(s: State, a: Action) {
    match a
    case Work =>
      && s.worker != Waiting && s.worker != Exited
      && (s.worker == Locking || s.worker.Waking? ==> s.holder == None)
    case Own =>
      && s.owner != Destroyed
      && (s.owner == Acquiring ==> s.holder == None)
      && (s.owner == Joining ==> s.worker == Exited)
    case TimeUp => s.worker == Waiting
    case WakeSpuriously => s.worker == Waiting
  }

  function Step(s: State, a: Action): State
    requires Enabled(s, a)
  {
    match a
    case Work => WorkerStep(s)
    case Own => OwnerStep(s)
    case TimeUp => s.(worker := Waking(true))
    case WakeSpuriously => s.(worker := Waking(false))
  }

  function WorkerStep(s: State): State {
    match s.worker
    case Locking => s.(holder := Some(WorkerThread), worker := Testing)
    case Testing => s.(worker := if s.done then Leaving else Checking)
    case Checking => if s.done then s.(worker := Leaving) else s.(holder := None, worker := Waiting)
    case Waking(late) => s.(holder := Some(WorkerThread), worker := if late then TimedOut else Checking)
    case TimedOut => s.(worker := if s.done then Leaving else Releasing)
    case Releasing => s.(holder := None, worker := Emitting)
    case Emitting =>
      if s.done then s.(emittedLate := s.emittedLate + 1, worker := Locking)
      else s.(emitted := s.emitted + 1, worker := Locking)
    case Leaving => s.(holder := None, worker := Exited)
    case _ => s
  }

  function OwnerStep(s: State): State {
    match s.owner
    case Serving => s.(owner := Acquiring)
    case Acquiring => s.(holder := Some(OwnerThread), owner := Setting)
    case Setting => s.(done := true, owner := Unlocking)
    case Unlocking => s.(holder := None, owner := Notifying)
    case Notifying => s.(worker := if s.worker == Waiting then Waking(false) else s.worker, owner := Joining)
    case Joining => s.(owner := Destroyed)
    case Destroyed => s
  }

  /** The state after a schedule, if every step of it was possible. */
  function Run(s: State, schedule: seq<Action>): Option<State>
    decreases |schedule|
  {
    if schedule == [] then Some(s)
    else if !Enabled(s, schedule[0]) then None
    else Run(Step(s, schedule[0]), schedule[1..])
  }

  // ----- The invariant -----

  predicate LockHeld(s: State) {
    && (s.holder == Some(WorkerThread) <==> s.worker in {Testing, Checking, TimedOut, Releasing, Leaving})
    && (s.holder == Some(OwnerThread) <==> s.owner in {Setting, Unlocking})
  }

  /** Shutdown is signalled once, and no wait goes on after the notification. */
  predicate Signalled(s: State) {
    && (s.done <==> s.owner in {Unlocking, Notifying, Joining, Destroyed})
    && (s.owner in {Joining, Destroyed} ==> s.worker != Waiting)
    && (s.owner == Destroyed ==> s.worker == Exited)
    && (s.worker == Leaving ==> s.done)
  }

  /** The report that the worker is about to make. */
  predicate AboutToEmit(s: State) {
    s.worker == Releasing || s.worker == Emitting
  }

  predicate OneLateReport(s: State) {
    && (!s.done ==> s.emittedLate == 0)
    && (s.done ==> s.worker != Releasing)
    && s.emittedLate + (if s.done && AboutToEmit(s) then 1 else 0) <= 1
  }

  predicate Inv(s: State) {
    LockHeld(s) && Signalled(s) && OneLateReport(s)
  }

  lemma StepInv(s: State, a: Action)
    requires Inv(s) && Enabled(s, a)
    ensures Inv(Step(s, a))
  {
  }

  lemma {:induction false} InvKept(s: State, schedule: seq<Action>)
    requires Inv(s) && Run(s, schedule).Some?
    ensures Inv(Run(s, schedule).value)
    decreases |schedule|
  {
    if schedule != [] {
      StepInv(s, schedule[0]);
      InvKept(Step(s, schedule[0]), schedule[1..]);
    }
  }

  /** In every run the worker makes at most one report after shutdown has been signalled. */
  lemma AtMostOneLateReport(interval: nat, schedule: seq<Action>)
    requires Run(Init(interval), schedule).Some?
    ensures Inv(Run(Init(interval), schedule).value)
    ensures Run(Init(interval), schedule).value.emittedLate <= 1
  {
    InvKept(Init(interval), schedule);
  }

  /** With an interval of zero no worker ever runs, and there is never a report. */
  lemma NoWorkerNoReport(schedule: seq<Action>)
    requires Run(Init(0), schedule).Some?
    ensures var t := Run(Init(0), schedule).value; t.worker == Exited && t.emitted == 0 && t.emittedLate == 0
  {
    ExitedStaysSilent(Init(0), schedule);
  }

  lemma {:induction false} ExitedStaysSilent(s: State, schedule: seq<Action>)
    requires s.worker == Exited && Run(s, schedule).Some?
    ensures var t := Run(s, schedule).value;
            t.worker == Exited && t.emitted == s.emitted && t.emittedLate == s.emittedLate
    decreases |schedule|
  {
    if schedule != [] {
      ExitedStaysSilent(Step(s, schedule[0]), schedule[1..]);
    }
  }

  // ----- Every timeout gives a report -----

  /** The worker's time has run out, and the report for it has not been made yet. */
  function Due(w: Worker): nat {
    match w
    case Waking(late) => if late then 1 else 0
    case TimedOut => 1
    case Releasing => 1
    case Emitting => 1
    case _ => 0
  }

  function Timeouts(schedule: seq<Action>): nat {
    if schedule == [] then 0 else (if schedule[0] == TimeUp then 1 else 0) + Timeouts(schedule[1..])
  }

  lemma DueByStep(s: State, a: Action)
    requires Enabled(s, a) && !Step(s, a).done
    ensures !s.done
    ensures Step(s, a).emitted + Due(Step(s, a).worker) == s.emitted + Due(s.worker) + if a == TimeUp then 1 else 0
  {
  }

  lemma {:induction false} DoneStays(s: State, schedule: seq<Action>)
    requires s.done && Run(s, schedule).Some?
    ensures Run(s, schedule).value.done
    decreases |schedule|
  {
    if schedule != [] {
      DoneStays(Step(s, schedule[0]), schedule[1..]);
    }
  }

  /** As long as shutdown has not been signalled, every timeout gives exactly one report, made
      or due, and nothing else gives one: neither a spurious wakeup nor any other step. */
  lemma {:induction false} EveryTimeoutReports(s: State, schedule: seq<Action>)
    requires Run(s, schedule).Some? && !Run(s, schedule).value.done
    ensures var t := Run(s, schedule).value;
            t.emitted + Due(t.worker) == s.emitted + Due(s.worker) + Timeouts(schedule)
    decreases |schedule|
  {
    if schedule != [] {
      if Step(s, schedule[0]).done {
        DoneStays(Step(s, schedule[0]), schedule[1..]);
      }
      DueByStep(s, schedule[0]);
      EveryTimeoutReports(Step(s, schedule[0]), schedule[1..]);
    }
  }

  /** How many steps the worker is away from its next wait. */
  function StepsToWait(w: Worker): nat {
    match w
    case Waiting => 0
    case Checking => 1
    case Testing => 2
    case Locking => 3
    case Emitting => 4
    case Releasing => 5
    case TimedOut => 6
    case Waking(late) => if late then 7 else 2
    case _ => 0
  }

  function Works(n: nat): seq<Action> {
    if n == 0 then [] else [Work] + Works(n - 1)
  }

  /** While the owner serves, a running worker comes to its next wait by its own steps alone, and
      on the way makes the report that is due. With the lemma above, it reports after every
      interval for as long as it is left to run. */
  lemma {:induction false} WorkerWaitsAgain(s: State)
    requires Inv(s) && s.owner == Serving && s.worker != Exited
    ensures var run := Run(s, Works(StepsToWait(s.worker)));
            && run.Some? && run.value.worker == Waiting && run.value.owner == Serving
            && run.value.emitted == s.emitted + Due(s.worker)
    decreases StepsToWait(s.worker)
  {
    if s.worker != Waiting {
      HolderCases(s.holder);
      var t := Step(s, Work);
      StepInv(s, Work);
      assert StepsToWait(t.worker) == StepsToWait(s.worker) - 1;
      assert Works(StepsToWait(s.worker))[1..] == Works(StepsToWait(t.worker));
      WorkerWaitsAgain(t);
    }
  }

  /** A run in which the one late report is made: the time was up just before shutdown. */
  lemma LateReportHappens(interval: nat) returns (schedule: seq<Action>)
    requires interval > 0
    ensures Run(Init(interval), schedule).Some? && Run(Init(interval), schedule).value.emittedLate == 1
  {
    var s := Init(interval);
    schedule := [];
    for i := 0 to 11
      invariant Run(Init(interval), schedule) == Some(s)
      invariant s == LateRun(interval, i)
    {
      var a := if i == 3 then TimeUp else if i in {7, 8, 9} then Own else Work;
      RunOn(Init(interval), schedule, a);
      s := Step(s, a);
      schedule := schedule + [a];
    }
  }

  /** The states of that run. */
  function LateRun(interval: nat, i: nat): State
    requires interval > 0
  {
    match i
    case 0 => Init(interval)
    case 1 => State(false, Some(WorkerThread), Testing, Serving, 0, 0)
    case 2 => State(false, Some(WorkerThread), Checking, Serving, 0, 0)
    case 3 => State(false, None, Waiting, Serving, 0, 0)
    case 4 => State(false, None, Waking(true), Serving, 0, 0)
    case 5 => State(false, Some(WorkerThread), TimedOut, Serving, 0, 0)
    case 6 => State(false, Some(WorkerThread), Releasing, Serving, 0, 0)
    case 7 => State(false, None, Emitting, Serving, 0, 0)
    case 8 => State(false, None, Emitting, Acquiring, 0, 0)
    case 9 => State(false, Some(OwnerThread), Emitting, Setting, 0, 0)
    case 10 => State(true, Some(OwnerThread), Emitting, Unlocking, 0, 0)
    case _ => State(true, Some(OwnerThread), Locking, Unlocking, 0, 1)
  }

  lemma {:induction false} RunOn(s: State, schedule: seq<Action>, a: Action)
    requires Run(s, schedule).Some? && Enabled(Run(s, schedule).value, a)
    ensures Run(s, schedule + [a]) == Some(Step(Run(s, schedule).value, a))
    decreases |schedule|
  {
    if schedule == [] {
      assert [] + [a] == [a] && [a][1..] == [];
    } else {
      assert (schedule + [a])[1..] == schedule[1..] + [a];
      RunOn(Step(s, schedule[0]), schedule[1..], a);
    }
  }

  // ----- Shutdown ends -----

  function WorkerRank(w: Worker): nat {
    match w
    case Exited => 0
    case Leaving => 1
    case Testing => 2
    case Checking => 2
    case TimedOut => 2
    case Locking => 3
    case Waking(_) => 3
    case Emitting => 4
    case Waiting => 4
    case Releasing => 5
  }

  function OwnerRank(o: Owner): nat {
    match o
    case Destroyed => 0
    case Joining => 1
    case Notifying => 2
    case Unlocking => 3
    case Setting => 4
    case Acquiring => 5
    case Serving => 6
  }

  function Rank(s: State): nat {
    WorkerRank(s.worker) + OwnerRank(s.owner)
  }

  /** Once shutdown has been signalled, every step of any kind brings the end nearer. */
  lemma StepLowersRank(s: State, a: Action)
    requires Inv(s) && s.done && Enabled(s, a)
    ensures Step(s, a).done && Rank(Step(s, a)) < Rank(s)
  {
  }

  /** Until the reporter is destroyed, a thread can step; neither needs a timeout or a
      spurious wakeup for it once the worker has been notified. */
  lemma NeverStuck(s: State)
    requires Inv(s) && s.owner != Destroyed
    ensures Enabled(s, Own) || Enabled(s, Work)
  {
    HolderCases(s.holder);
  }

  lemma HolderCases(holder: Option<Thread>)
    ensures holder == None || holder == Some(WorkerThread) || holder == Some(OwnerThread)
  {
    match holder
    case None =>
    case Some(WorkerThread) =>
    case Some(OwnerThread) =>
  }

  /** The join returns: no run goes on after the signal for more than `Rank(s)` steps, and a
      run that cannot go on has destroyed the reporter. */
  lemma {:induction false} JoinReturns(s: State, schedule: seq<Action>)
    requires Inv(s) && s.done && Run(s, schedule).Some?
    ensures |schedule| + Rank(Run(s, schedule).value) <= Rank(s) <= 7
    ensures var t := Run(s, schedule).value;
            (t.owner == Destroyed && t.worker == Exited) || Enabled(t, Own) || Enabled(t, Work)
    decreases |schedule|
  {
    if schedule == [] {
      if s.owner != Destroyed {
        NeverStuck(s);
      }
    } else {
      StepLowersRank(s, schedule[0]);
      StepInv(s, schedule[0]);
      JoinReturns(Step(s, schedule[0]), schedule[1..]);
    }
  }
}
