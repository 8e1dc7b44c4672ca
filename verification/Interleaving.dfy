/** The daemon under concurrency: every request is a task that moves through the lock, read,
    write and counter operations of its handler one at a time, and any number of tasks interleave
    in any order. The three cells are separate mutexes; nothing locks them together. */
module Interleaving {
  import opened Bytes
  import opened Crypto
  import opened Daemon
  import opened Providers
  import Gcm

  datatype Mutex = ProviderM | AlgoM | KeyM

  /** Where a handler is, with the local variables it still needs. `Want` waits for a mutex,
      `Hold` has it; `Count` and `Release` still hold the provider mutex, `Load` the key mutex. */
  datatype Pc =
    | Start
    | RotateWant(m: Mutex, key: KeyHandle)
    | RotateHold(m: Mutex, key: KeyHandle)
    | UseWantKey
    | UseHoldKey
    | UseWantProvider(key: KeyHandle)
    | UseHoldProvider(key: KeyHandle)
    | UseCount(resp: Response)
    | UseRelease(resp: Response)
    | StatusWantAlgo
    | StatusHoldAlgo
    | StatusWantKey(algo: AlgoId)
    | StatusHoldKey(algo: AlgoId)
    | StatusLoad(loaded: nat, report: StatusReport)
    | Done(resp: Response)

  datatype Task = Task(req: Request, pc: Pc)

  datatype Sys = Sys(cells: Cells, held: map<Mutex, nat>, tasks: seq<Task>)

  const IDLE := Sys(INITIAL, map[], [])

  datatype Event = Arrive(req: Request) | Run(task: nat, clock: u64)

  function Wants(pc: Pc): Option<Mutex> {
    match pc
    case RotateWant(m, _) => Some(m)
    case UseWantKey => Some(KeyM)
    case UseWantProvider(_) => Some(ProviderM)
    case StatusWantAlgo => Some(AlgoM)
    case StatusWantKey(_) => Some(KeyM)
    case _ => None
  }

  function Holds(pc: Pc): Option<Mutex> {
    match pc
    case RotateHold(m, _) => Some(m)
    case UseHoldKey => Some(KeyM)
    case UseHoldProvider(_) => Some(ProviderM)
    case UseCount(_) => Some(ProviderM)
    case UseRelease(_) => Some(ProviderM)
    case StatusHoldAlgo => Some(AlgoM)
    case StatusHoldKey(_) => Some(KeyM)
    case StatusLoad(_, _) => Some(KeyM)
    case _ => None
  }

  function Acquired(pc: Pc): Pc
    requires Wants(pc).Some?
  {
    match pc
    case RotateWant(m, key) => RotateHold(m, key)
    case UseWantKey => UseHoldKey
    case UseWantProvider(key) => UseHoldProvider(key)
    case StatusWantAlgo => StatusHoldAlgo
    case StatusWantKey(algo) => StatusHoldKey(algo)
  }

  function Write(cells: Cells, m: Mutex, key: KeyHandle): Cells {
    match m
    case ProviderM => cells.(provider := Provider(Ring, key.algo))
    case AlgoM => cells.(algo := key.algo)
    case KeyM => cells.(key := Some(key))
  }

  /** The answer an `Encrypt` or `Decrypt` computes with the key it read earlier and the provider it finds now. */
  function Answer(c: Gcm.Cipher, p: Provider, key: KeyHandle, req: Request): Response {
    match req
    case Encrypt(nonce, _, plaintext) => EncryptAnswer(c, p, key, nonce, plaintext)
    case Decrypt(frame) => DecryptAnswer(c, p, key, frame)
    case _ => Ack
  }

  function Prepared(c: Gcm.Cipher, req: Request): Result<KeyHandle, Response> {
    if req.RotateKey? then Prepare(c, req.keyId, req.algo, req.material) else Err(Ack)
  }

  function IdOf(key: Option<KeyHandle>): Option<u32> {
    if key.Some? then Some(key.value.id) else None
  }

  /** What one operation does to the cells and to its own task. */
  type Handler = (Cells, Request, Pc, u64) -> (Cells, Pc)

  /** One operation of a task that is neither waiting for a mutex nor finished. */
  function Act(c: Gcm.Cipher, cells: Cells, req: Request, pc: Pc, clock: u64): (Cells, Pc) {
    match pc
    case Start =>
      (cells,
       match req
       case GetStatus => StatusWantAlgo
       case SetPolicy(_) => Done(Ack)
       case RotateKey(_, _, _) =>
         (match Prepared(c, req) case Ok(key) => RotateWant(ProviderM, key) case Err(resp) => Done(resp))
       case _ => UseWantKey)
    case RotateHold(m, key) =>
      (Write(cells, m, key),
       match m
       case ProviderM => RotateWant(AlgoM, key)
       case AlgoM => RotateWant(KeyM, key)
       case KeyM => Done(Ack))
    case UseHoldKey =>
      (cells, if cells.key.None? then Done(Error(409, NoActiveKey)) else UseWantProvider(cells.key.value))
    case UseHoldProvider(key) => (cells, UseCount(Answer(c, cells.provider, key, req)))
    case UseCount(resp) => (Count(cells, resp), UseRelease(resp))
    case UseRelease(resp) => (cells, Done(resp))
    case StatusHoldAlgo => (cells, StatusWantKey(cells.algo))
    case StatusHoldKey(algo) => (cells, StatusLoad(0, StatusReport(clock, algo, IdOf(cells.key), 0, 0, 0)))
    case StatusLoad(n, r) =>
      (cells,
       if n == 0 then StatusLoad(1, r.(packetsSealed := cells.packetsSealed))
       else if n == 1 then StatusLoad(2, r.(packetsOpened := cells.packetsOpened))
       else Done(Status(r.(cryptoErrors := cells.cryptoErrors))))
    case _ => (cells, pc)
  }

  function DaemonHandler(c: Gcm.Cipher): Handler {
    (cells: Cells, req: Request, pc: Pc, clock: u64) => Act(c, cells, req, pc, clock)
  }

  predicate Enabled(s: Sys, i: nat) {
    && i < |s.tasks|
    && !s.tasks[i].pc.Done?
    && (Wants(s.tasks[i].pc).Some? ==> Wants(s.tasks[i].pc).value !in s.held)
  }

  function Step(h: Handler, s: Sys, i: nat, clock: u64): (s': Sys)
    requires Enabled(s, i)
    ensures |s'.tasks| == |s.tasks|
  {
    var t := s.tasks[i];
    if Wants(t.pc).Some? then
      Sys(s.cells, s.held[Wants(t.pc).value := i], s.tasks[i := t.(pc := Acquired(t.pc))])
    else
      var (cells, pc) := h(s.cells, t.req, t.pc, clock);
      var held := if Holds(t.pc).Some? && Holds(pc).None? then s.held - {Holds(t.pc).value} else s.held;
      Sys(cells, held, s.tasks[i := t.(pc := pc)])
  }

  /** Any event sequence is a run: running a task that cannot move is a no-op. */
  function Apply(h: Handler, s: Sys, e: Event): (s': Sys)
    ensures |s'.tasks| >= |s.tasks|
  {
    match e
    case Arrive(req) => s.(tasks := s.tasks + [Task(req, Start)])
    case Run(i, clock) => if Enabled(s, i) then Step(h, s, i, clock) else s
  }

  function Exec(h: Handler, s: Sys, run: seq<Event>): Sys
    decreases |run|
  {
    if run == [] then s else Exec(h, Apply(h, s, run[0]), run[1..])
  }

  lemma {:induction false} ExecConcat(h: Handler, s: Sys, a: seq<Event>, b: seq<Event>)
    ensures Exec(h, s, a + b) == Exec(h, Exec(h, s, a), b)
    decreases |a|
  {
    if a == [] {
      assert a + b == b;
    } else {
      assert (a + b)[0] == a[0] && (a + b)[1..] == a[1..] + b;
      ExecConcat(h, Apply(h, s, a[0]), a[1..], b);
    }
  }

  /** Requests never change once they have arrived, and finished tasks stay finished. */
  predicate Extends(s: Sys, s': Sys) {
    && |s.tasks| <= |s'.tasks|
    && forall i :: 0 <= i < |s.tasks| ==>
         s'.tasks[i].req == s.tasks[i].req && (s.tasks[i].pc.Done? ==> s'.tasks[i] == s.tasks[i])
  }

  lemma {:induction false} ExecExtends(h: Handler, s: Sys, run: seq<Event>)
    ensures Extends(s, Exec(h, s, run))
    decreases |run|
  {
    if run != [] {
      ExecExtends(h, Apply(h, s, run[0]), run[1..]);
    }
  }
}
