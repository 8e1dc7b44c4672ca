/** Mutual exclusion, freedom from deadlock, and that every request finishes. */
module Progress {
  import opened Bytes
  import opened Daemon
  import opened Interleaving
  import opened Tallies
  import Gcm

  // ---- the mutexes ----

  predicate LocksConsistent(s: Sys) {
    && (forall m :: m in s.held ==> s.held[m] < |s.tasks| && Holds(s.tasks[s.held[m]].pc) == Some(m))
    && (forall i :: 0 <= i < |s.tasks| && Holds(s.tasks[i].pc).Some? ==>
          Holds(s.tasks[i].pc).value in s.held && s.held[Holds(s.tasks[i].pc).value] == i)
  }

  /** How many operations a task still has in front of it. */
  function Remaining(pc: Pc): nat {
    match pc
    case Start => 8
    case RotateWant(m, _) => (match m case ProviderM => 6 case AlgoM => 4 case KeyM => 2)
    case RotateHold(m, _) => (match m case ProviderM => 5 case AlgoM => 3 case KeyM => 1)
    case UseWantKey => 6
    case UseHoldKey => 5
    case UseWantProvider(_) => 4
    case UseHoldProvider(_) => 3
    case UseCount(_) => 2
    case UseRelease(_) => 1
    case StatusWantAlgo => 7
    case StatusHoldAlgo => 6
    case StatusWantKey(_) => 5
    case StatusHoldKey(_) => 4
    case StatusLoad(n, _) => if n == 0 then 3 else if n == 1 then 2 else 1
    case Done(_) => 0
  }

  /** A handler's own operations never take a mutex, and each brings its task closer to the end. */
  ghost predicate WellBehaved(h: Handler) {
    forall cells: Cells, req, pc, clock :: Wants(pc).None? && !pc.Done? ==>
      var pc' := h(cells, req, pc, clock).1;
      && (Holds(pc').None? || Holds(pc') == Holds(pc))
      && Remaining(pc') < Remaining(pc)
  }

  lemma DaemonWellBehaved(c: Gcm.Cipher)
    ensures WellBehaved(DaemonHandler(c))
  {
    forall cells: Cells, req, pc, clock: u64 | Wants(pc).None? && !pc.Done?
      ensures var pc' := Act(c, cells, req, pc, clock).1;
        && (Holds(pc').None? || Holds(pc') == Holds(pc))
        && Remaining(pc') < Remaining(pc)
    {
    }
  }

  /** No task waits for one of the three mutexes while it holds another. */
  lemma NoHoldAndWait(pc: Pc)
    ensures Wants(pc).None? || Holds(pc).None?
    ensures Wants(pc).Some? ==> Holds(Acquired(pc)) == Wants(pc) && Remaining(Acquired(pc)) < Remaining(pc)
  {
  }

  lemma StepKeepsLocks(h: Handler, s: Sys, i: nat, clock: u64)
    requires WellBehaved(h) && LocksConsistent(s) && Enabled(s, i)
    ensures LocksConsistent(Step(h, s, i, clock))
  {
    NoHoldAndWait(s.tasks[i].pc);
  }

  lemma {:induction false} RunKeepsLocks(h: Handler, s: Sys, run: seq<Event>)
    requires WellBehaved(h) && LocksConsistent(s)
    ensures LocksConsistent(Exec(h, s, run))
    decreases |run|
  {
    if run != [] {
      if run[0].Run? && Enabled(s, run[0].task) {
        StepKeepsLocks(h, s, run[0].task, run[0].clock);
      }
      RunKeepsLocks(h, Apply(h, s, run[0]), run[1..]);
    }
  }

  // ---- progress ----

  predicate AllDone(s: Sys) {
    forall i :: 0 <= i < |s.tasks| ==> s.tasks[i].pc.Done?
  }

  /** No deadlock: while a request is unfinished, some task can move. */
  lemma SomeTaskCanMove(s: Sys, i: nat) returns (j: nat)
    requires LocksConsistent(s) && i < |s.tasks| && !s.tasks[i].pc.Done?
    ensures Enabled(s, j)
  {
    if Enabled(s, i) {
      j := i;
    } else {
      j := s.held[Wants(s.tasks[i].pc).value];
      NoHoldAndWait(s.tasks[j].pc);
    }
  }

  function TaskRemaining(t: Task): nat { Remaining(t.pc) }

  function Pending(s: Sys): nat {
    Sum(TaskRemaining, s.tasks)
  }

  lemma StepShortens(h: Handler, s: Sys, i: nat, clock: u64)
    requires WellBehaved(h) && Enabled(s, i)
    ensures Pending(Step(h, s, i, clock)) < Pending(s)
  {
    NoHoldAndWait(s.tasks[i].pc);
    SumUpdate(TaskRemaining, s.tasks, i, Step(h, s, i, clock).tasks[i]);
  }

  lemma ArrivalCosts(h: Handler, s: Sys, req: Request)
    ensures Pending(Apply(h, s, Arrive(req))) == Pending(s) + 8
  {
    SumAppend(TaskRemaining, s.tasks, Task(req, Start));
    assert TaskRemaining(Task(req, Start)) == 8;
  }

  /** How many events of a run move a task, and how many bring a new one. */
  function Moves(h: Handler, s: Sys, run: seq<Event>): nat
    decreases |run|
  {
    if run == [] then 0
    else (if run[0].Run? && Enabled(s, run[0].task) then 1 else 0) + Moves(h, Apply(h, s, run[0]), run[1..])
  }

  function Arrivals(run: seq<Event>): nat {
    if run == [] then 0 else (if run[0].Arrive? then 1 else 0) + Arrivals(run[1..])
  }

  /** In every run, each request costs at most eight moves: no task is starved by endless work of others. */
  lemma {:induction false} MovesBounded(h: Handler, s: Sys, run: seq<Event>)
    requires WellBehaved(h)
    ensures Moves(h, s, run) + Pending(Exec(h, s, run)) <= Pending(s) + 8 * Arrivals(run)
    decreases |run|
  {
    if run != [] {
      if run[0].Arrive? {
        ArrivalCosts(h, s, run[0].req);
      } else if Enabled(s, run[0].task) {
        StepShortens(h, s, run[0].task, run[0].clock);
      }
      MovesBounded(h, Apply(h, s, run[0]), run[1..]);
    }
  }

  /** A run in which nothing arrives and some task moves at every event. */
  predicate Busy(h: Handler, s: Sys, run: seq<Event>)
    decreases |run|
  {
    run == [] || (run[0].Run? && Enabled(s, run[0].task) && Busy(h, Apply(h, s, run[0]), run[1..]))
  }

  /** Every request finishes: however the tasks are scheduled, a busy run is no longer than the work
      pending, and when it cannot be prolonged every request has its answer. */
  lemma {:induction false} EveryRequestFinishes(h: Handler, s: Sys, run: seq<Event>)
    requires WellBehaved(h) && LocksConsistent(s) && Busy(h, s, run)
    ensures |run| <= Pending(s)
    ensures AllDone(Exec(h, s, run)) <==> forall j :: !Enabled(Exec(h, s, run), j)
    decreases |run|
  {
    if run == [] {
      if i :| 0 <= i < |s.tasks| && !s.tasks[i].pc.Done? {
        var j := SomeTaskCanMove(s, i);
      }
    } else {
      StepShortens(h, s, run[0].task, run[0].clock);
      StepKeepsLocks(h, s, run[0].task, run[0].clock);
      EveryRequestFinishes(h, Apply(h, s, run[0]), run[1..]);
    }
  }

  /** Any one request can be driven to its answer, by the tasks that are there. */
  lemma {:induction false} RequestCanFinish(h: Handler, s: Sys, i: nat, clock: u64) returns (run: seq<Event>)
    requires WellBehaved(h) && LocksConsistent(s) && i < |s.tasks|
    ensures Busy(h, s, run) && i < |Exec(h, s, run).tasks| && Exec(h, s, run).tasks[i].pc.Done?
    decreases Pending(s)
  {
    if s.tasks[i].pc.Done? {
      run := [];
    } else {
      var j := SomeTaskCanMove(s, i);
      StepShortens(h, s, j, clock);
      StepKeepsLocks(h, s, j, clock);
      var rest := RequestCanFinish(h, Step(h, s, j, clock), i, clock);
      run := [Run(j, clock)] + rest;
    }
  }
}
