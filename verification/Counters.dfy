/** The three statistics counters over whole concurrent runs. */
module Counters {
  import opened Bytes
  import opened Daemon
  import opened Interleaving
  import opened Progress
  import opened Tallies
  import Gcm

  /** Which counter an answer moves. */
  datatype Counter = Sealed | Opened | Failed | NoCounter

  function CounterOf(resp: Response): Counter {
    match resp
    case Ciphertext(_) => Sealed
    case Plaintext(_) => Opened
    case Error(_, SealFailed(_)) => Failed
    case Error(_, OpenFailed(_)) => Failed
    case _ => NoCounter
  }

  /** The answer of an `Encrypt` or `Decrypt` that is past its counter operation. */
  function Counted(pc: Pc): Counter {
    match pc
    case UseRelease(resp) => CounterOf(resp)
    case Done(resp) => CounterOf(resp)
    case _ => NoCounter
  }

  function IsSealed(t: Task): nat { if Counted(t.pc) == Sealed then 1 else 0 }
  function IsOpened(t: Task): nat { if Counted(t.pc) == Opened then 1 else 0 }
  function IsFailed(t: Task): nat { if Counted(t.pc) == Failed then 1 else 0 }

  predicate Accounted(s: Sys) {
    && s.cells.packetsSealed == Sum(IsSealed, s.tasks) % WRAP
    && s.cells.packetsOpened == Sum(IsOpened, s.tasks) % WRAP
    && s.cells.cryptoErrors == Sum(IsFailed, s.tasks) % WRAP
  }

  /** One operation moves a counter exactly when it makes its task's answer counted. */
  ghost predicate CountsOnce(h: Handler) {
    forall cells: Cells, req, pc, clock :: Wants(pc).None? && !pc.Done? ==>
      var (cells', pc') := h(cells, req, pc, clock);
      && (Counted(pc) != NoCounter ==> Counted(pc') == Counted(pc))
      && var moved := if Counted(pc) == NoCounter then Counted(pc') else NoCounter;
      && cells'.packetsSealed == (if moved == Sealed then Next(cells.packetsSealed) else cells.packetsSealed)
      && cells'.packetsOpened == (if moved == Opened then Next(cells.packetsOpened) else cells.packetsOpened)
      && cells'.cryptoErrors == (if moved == Failed then Next(cells.cryptoErrors) else cells.cryptoErrors)
  }

  lemma DaemonActCountsOnce(c: Gcm.Cipher, cells: Cells, req: Request, pc: Pc, clock: u64)
    requires Wants(pc).None? && !pc.Done?
    ensures var (cells', pc') := Act(c, cells, req, pc, clock);
      && (Counted(pc) != NoCounter ==> Counted(pc') == Counted(pc))
      && var moved := if Counted(pc) == NoCounter then Counted(pc') else NoCounter;
      && cells'.packetsSealed == (if moved == Sealed then Next(cells.packetsSealed) else cells.packetsSealed)
      && cells'.packetsOpened == (if moved == Opened then Next(cells.packetsOpened) else cells.packetsOpened)
      && cells'.cryptoErrors == (if moved == Failed then Next(cells.cryptoErrors) else cells.cryptoErrors)
  {
  }

  lemma DaemonCountsOnce(c: Gcm.Cipher)
    ensures CountsOnce(DaemonHandler(c))
  {
    forall cells: Cells, req, pc, clock: u64 | Wants(pc).None? && !pc.Done? {
      DaemonActCountsOnce(c, cells, req, pc, clock);
    }
  }

  lemma NextOfCount(n: nat)
    ensures Next(n % WRAP) == (n + 1) % WRAP
  {
  }

  /** One counter under an update of one task that starts to count, or does not. */
  lemma CounterStep(f: Task -> nat, tasks: seq<Task>, i: nat, t: Task, before: u64, after: u64)
    requires i < |tasks| && before == Sum(f, tasks) % WRAP
    requires if f(t) == f(tasks[i]) then after == before else f(t) == f(tasks[i]) + 1 && after == Next(before)
    ensures after == Sum(f, tasks[i := t]) % WRAP && Sum(f, tasks[i := t]) >= Sum(f, tasks)
  {
    SumUpdate(f, tasks, i, t);
    NextOfCount(Sum(f, tasks));
  }

  lemma StepAccounted(h: Handler, s: Sys, i: nat, clock: u64)
    requires CountsOnce(h) && Accounted(s) && Enabled(s, i)
    ensures var s' := Step(h, s, i, clock);
      && Accounted(s')
      && Sum(IsSealed, s'.tasks) >= Sum(IsSealed, s.tasks)
      && Sum(IsOpened, s'.tasks) >= Sum(IsOpened, s.tasks)
      && Sum(IsFailed, s'.tasks) >= Sum(IsFailed, s.tasks)
  {
    var s' := Step(h, s, i, clock);
    CounterStep(IsSealed, s.tasks, i, s'.tasks[i], s.cells.packetsSealed, s'.cells.packetsSealed);
    CounterStep(IsOpened, s.tasks, i, s'.tasks[i], s.cells.packetsOpened, s'.cells.packetsOpened);
    CounterStep(IsFailed, s.tasks, i, s'.tasks[i], s.cells.cryptoErrors, s'.cells.cryptoErrors);
  }

  /** In every reachable state each counter is, modulo 2^64, the number of requests whose answer is of
      its kind and past the counter operation, and those numbers never shrink. */
  lemma {:induction false} RunAccounted(h: Handler, s: Sys, run: seq<Event>)
    requires CountsOnce(h) && Accounted(s)
    ensures Accounted(Exec(h, s, run))
    ensures Sum(IsSealed, Exec(h, s, run).tasks) >= Sum(IsSealed, s.tasks)
    ensures Sum(IsOpened, Exec(h, s, run).tasks) >= Sum(IsOpened, s.tasks)
    ensures Sum(IsFailed, Exec(h, s, run).tasks) >= Sum(IsFailed, s.tasks)
    decreases |run|
  {
    if run != [] {
      if run[0].Arrive? {
        var t := Task(run[0].req, Start);
        SumAppend(IsSealed, s.tasks, t);
        SumAppend(IsOpened, s.tasks, t);
        SumAppend(IsFailed, s.tasks, t);
      } else if Enabled(s, run[0].task) {
        StepAccounted(h, s, run[0].task, run[0].clock);
      }
      RunAccounted(h, Apply(h, s, run[0]), run[1..]);
    }
  }

  function Answered(k: Counter): Task -> nat {
    (t: Task) => if t.pc.Done? && CounterOf(t.pc.resp) == k then 1 else 0
  }

  lemma {:induction false} SumOfDone(f: Task -> nat, g: Task -> nat, tasks: seq<Task>)
    requires forall i :: 0 <= i < |tasks| ==> f(tasks[i]) == g(tasks[i])
    ensures Sum(f, tasks) == Sum(g, tasks)
  {
    if tasks != [] {
      SumOfDone(f, g, tasks[..|tasks| - 1]);
    }
  }

  /** When everything that arrived is answered, the three counters are the numbers of ciphertexts, of
      plaintexts, and of failed seals and opens among the answers; 409s, rejected nonces, rotations
      with their self-tests, policies and status reports are in none of them. */
  lemma CountersExact(c: Gcm.Cipher, run: seq<Event>)
    requires AllDone(Exec(DaemonHandler(c), IDLE, run))
    ensures var end := Exec(DaemonHandler(c), IDLE, run);
      && end.cells.packetsSealed == Sum(Answered(Sealed), end.tasks) % WRAP
      && end.cells.packetsOpened == Sum(Answered(Opened), end.tasks) % WRAP
      && end.cells.cryptoErrors == Sum(Answered(Failed), end.tasks) % WRAP
  {
    var end := Exec(DaemonHandler(c), IDLE, run);
    DaemonCountsOnce(c);
    RunAccounted(DaemonHandler(c), IDLE, run);
    SumOfDone(IsSealed, Answered(Sealed), end.tasks);
    SumOfDone(IsOpened, Answered(Opened), end.tasks);
    SumOfDone(IsFailed, Answered(Failed), end.tasks);
  }
}
