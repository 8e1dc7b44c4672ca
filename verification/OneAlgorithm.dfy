/** Runs whose accepted rotations all name one algorithm, from start-up on, overlapping or not: what
    the three cells and the tasks keep, although the daemon starts with another provider. */
module OneAlgorithm {
  import opened Bytes
  import opened Coherence
  import opened Crypto
  import opened Daemon
  import opened Interleaving
  import opened Linearizability
  import opened Providers
  import Gcm

  predicate KeepsAlgorithm(c: Gcm.Cipher, algo: AlgoId, req: Request) {
    Prepared(c, req).Ok? ==> Prepared(c, req).value.algo == algo
  }

  predicate ArrivalsKeep(c: Gcm.Cipher, algo: AlgoId, run: seq<Event>) {
    forall k :: 0 <= k < |run| && run[k].Arrive? ==> KeepsAlgorithm(c, algo, run[k].req)
  }

  /** A task past a cell's write, or with a key in hand, knows that the cell is of the algorithm. */
  predicate TaskSettled(c: Gcm.Cipher, algo: AlgoId, cells: Cells, t: Task) {
    && KeepsAlgorithm(c, algo, t.req)
    && (Rotating(t.pc) ==>
          && Prepared(c, t.req) == Ok(t.pc.key)
          && (t.pc.m != ProviderM ==> cells.provider == Provider(Ring, algo))
          && (t.pc.m == KeyM ==> cells.algo == algo))
    && (t.pc.UseWantProvider? || t.pc.UseHoldProvider? ==>
          t.pc.key.algo == algo && cells.provider == Provider(Ring, algo))
    && (Prepared(c, t.req).Ok? ==> t.pc.Start? || Rotating(t.pc) || (t.pc.Done? && cells.key.Some?))
  }

  /** Some rotation has written the provider but not yet the key. */
  predicate PartlyWritten(s: Sys) {
    exists i :: 0 <= i < |s.tasks| && Rotating(s.tasks[i].pc) && s.tasks[i].pc.m != ProviderM
  }

  predicate Untouched(cells: Cells) {
    cells.provider == INITIAL.provider && cells.algo == INITIAL.algo && cells.key.None?
  }

  predicate Settled(c: Gcm.Cipher, algo: AlgoId, s: Sys) {
    && (s.cells.key.Some? ==>
          s.cells.key.value.algo == algo && s.cells.provider == Provider(Ring, algo) && s.cells.algo == algo)
    && (forall i :: 0 <= i < |s.tasks| ==> TaskSettled(c, algo, s.cells, s.tasks[i]))
    && (s.cells.key.Some? || Untouched(s.cells) || PartlyWritten(s))
  }

  /** The program order of the handlers, as far as cells and keys go. */
  ghost predicate Orderly(c: Gcm.Cipher, h: Handler) {
    forall cells: Cells, req, pc, clock :: Wants(pc).None? && !pc.Done? ==>
      var (cells', pc') := h(cells, req, pc, clock);
      if pc.RotateHold? then cells' == Write(cells, pc.m, pc.key) && pc' == AfterWrite(pc.m, pc.key)
      else
        && cells'.provider == cells.provider && cells'.algo == cells.algo && cells'.key == cells.key
        && (Rotating(pc') ==> pc'.RotateWant? && pc'.m == ProviderM && Prepared(c, req) == Ok(pc'.key))
        && (pc.Start? && Prepared(c, req).Ok? ==> Rotating(pc'))
        && (pc'.UseWantProvider? ==> cells.key == Some(pc'.key))
        && !pc'.UseHoldProvider?
  }

  lemma DaemonOrderly(c: Gcm.Cipher)
    ensures Orderly(c, DaemonHandler(c))
  {
    forall cells: Cells, req, pc, clock: u64 | Wants(pc).None? && !pc.Done?
      ensures var (cells', pc') := Act(c, cells, req, pc, clock);
        if pc.RotateHold? then cells' == Write(cells, pc.m, pc.key) && pc' == AfterWrite(pc.m, pc.key)
        else
          && cells'.provider == cells.provider && cells'.algo == cells.algo && cells'.key == cells.key
          && (Rotating(pc') ==> pc'.RotateWant? && pc'.m == ProviderM && Prepared(c, req) == Ok(pc'.key))
          && (pc.Start? && Prepared(c, req).Ok? ==> Rotating(pc'))
          && (pc'.UseWantProvider? ==> cells.key == Some(pc'.key))
          && !pc'.UseHoldProvider?
    {
    }
  }

  /** What the other tasks know survives a step: the cells only ever move to the algorithm. */
  lemma OthersStaySettled(c: Gcm.Cipher, algo: AlgoId, s: Sys, s': Sys, i: nat)
    requires Settled(c, algo, s) && i < |s.tasks| == |s'.tasks|
    requires forall j :: 0 <= j < |s.tasks| && j != i ==> s'.tasks[j] == s.tasks[j]
    requires s'.cells.provider == s.cells.provider || s'.cells.provider == Provider(Ring, algo)
    requires s'.cells.algo == s.cells.algo || s'.cells.algo == algo
    requires s.cells.key.Some? ==> s'.cells.key.Some?
    requires TaskSettled(c, algo, s'.cells, s'.tasks[i])
    ensures forall j :: 0 <= j < |s'.tasks| ==> TaskSettled(c, algo, s'.cells, s'.tasks[j])
  {
    forall j | 0 <= j < |s'.tasks| ensures TaskSettled(c, algo, s'.cells, s'.tasks[j]) {
      if j != i {
        assert TaskSettled(c, algo, s.cells, s.tasks[j]);
      }
    }
  }

  lemma PartlyWrittenElsewhere(s: Sys, s': Sys, i: nat)
    requires i < |s.tasks| == |s'.tasks|
    requires forall j :: 0 <= j < |s.tasks| && j != i ==> s'.tasks[j] == s.tasks[j]
    requires Rotating(s.tasks[i].pc) && s.tasks[i].pc.m != ProviderM ==>
               Rotating(s'.tasks[i].pc) && s'.tasks[i].pc.m != ProviderM
    ensures PartlyWritten(s) ==> PartlyWritten(s')
  {
    if j :| 0 <= j < |s.tasks| && Rotating(s.tasks[j].pc) && s.tasks[j].pc.m != ProviderM {
      assert Rotating(s'.tasks[j].pc) && s'.tasks[j].pc.m != ProviderM;
    }
  }

  lemma WriteSettled(c: Gcm.Cipher, h: Handler, algo: AlgoId, s: Sys, i: nat, clock: u64)
    requires Orderly(c, h) && Settled(c, algo, s) && Enabled(s, i) && s.tasks[i].pc.RotateHold?
    ensures Settled(c, algo, Step(h, s, i, clock))
  {
    var s' := Step(h, s, i, clock);
    assert TaskSettled(c, algo, s.cells, s.tasks[i]);
    OthersStaySettled(c, algo, s, s', i);
    if s.tasks[i].pc.m != KeyM {
      assert Rotating(s'.tasks[i].pc) && s'.tasks[i].pc.m != ProviderM;
      assert PartlyWritten(s');
    }
  }

  lemma PlainSettled(c: Gcm.Cipher, h: Handler, algo: AlgoId, s: Sys, i: nat, clock: u64)
    requires Orderly(c, h) && Settled(c, algo, s) && Enabled(s, i) && !s.tasks[i].pc.RotateHold?
    ensures Settled(c, algo, Step(h, s, i, clock))
  {
    var s' := Step(h, s, i, clock);
    assert TaskSettled(c, algo, s.cells, s.tasks[i]);
    OthersStaySettled(c, algo, s, s', i);
    PartlyWrittenElsewhere(s, s', i);
  }

  lemma ArrivalSettled(c: Gcm.Cipher, h: Handler, algo: AlgoId, s: Sys, req: Request)
    requires Settled(c, algo, s) && KeepsAlgorithm(c, algo, req)
    ensures Settled(c, algo, Apply(h, s, Arrive(req)))
  {
    var s' := Apply(h, s, Arrive(req));
    forall j | 0 <= j < |s'.tasks| ensures TaskSettled(c, algo, s'.cells, s'.tasks[j]) {
      if j < |s.tasks| {
        assert TaskSettled(c, algo, s.cells, s.tasks[j]);
      }
    }
    if j :| 0 <= j < |s.tasks| && Rotating(s.tasks[j].pc) && s.tasks[j].pc.m != ProviderM {
      assert s'.tasks[j] == s.tasks[j];
    }
  }

  lemma SettledAllows(c: Gcm.Cipher, algo: AlgoId, s: Sys, e: Event)
    requires Settled(c, algo, s)
    ensures Allowed(ExactAccount(c), s, e)
  {
    if e.Run? && Enabled(s, e.task) {
      assert TaskSettled(c, algo, s.cells, s.tasks[e.task]);
    }
  }

  /** In every such run the cells stay settled, and no task ever finds another algorithm's provider. */
  lemma {:induction false} RunSettled(c: Gcm.Cipher, h: Handler, algo: AlgoId, s: Sys, run: seq<Event>)
    requires Orderly(c, h) && Settled(c, algo, s) && ArrivalsKeep(c, algo, run)
    ensures Settled(c, algo, Exec(h, s, run))
    ensures Steered(h, ExactAccount(c), s, run)
    decreases |run|
  {
    if run != [] {
      var e := run[0];
      SettledAllows(c, algo, s, e);
      if e.Arrive? {
        ArrivalSettled(c, h, algo, s, e.req);
      } else if Enabled(s, e.task) {
        if s.tasks[e.task].pc.RotateHold? {
          WriteSettled(c, h, algo, s, e.task, e.clock);
        } else {
          PlainSettled(c, h, algo, s, e.task, e.clock);
        }
      }
      RunSettled(c, h, algo, Apply(h, s, e), run[1..]);
    }
  }

  lemma IdleSettled(c: Gcm.Cipher, algo: AlgoId)
    ensures Settled(c, algo, IDLE)
  {
  }

  /** Every request that arrived is some task's. */
  lemma {:induction false} ArrivedIsTask(h: Handler, s: Sys, run: seq<Event>, k: nat) returns (i: nat)
    requires k < |run| && run[k].Arrive?
    ensures var end := Exec(h, s, run); i < |end.tasks| && end.tasks[i].req == run[k].req
    decreases |run|
  {
    if k == 0 {
      i := |s.tasks|;
      ExecExtends(h, Apply(h, s, run[0]), run[1..]);
    } else {
      i := ArrivedIsTask(h, Apply(h, s, run[0]), run[1..], k - 1);
    }
  }
}
