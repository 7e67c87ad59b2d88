/** The HSSPI guarantees, stated over every interleaving of callers, interrupt handler and worker. */
module HsspiRuns {
  import opened HsspiCore
  import opened HsspiEngine
  import opened HsspiSafety
  import opened HsspiBarrier

  /** A worker that saw work in the queue will still find some. */
  predicate SnapshotHolds(s: State) {
    s.worker == Checked(false, true) || s.worker == Checked(false, false) ==> s.core.work != []
  }

  lemma CallerKeepsSnapshot(s: State, l: CallerLabel)
    requires s.core.WellFormed() && SnapshotHolds(s)
    ensures SnapshotHolds(CallerStep(s, l))
  {
    CallerFrame(s, l);
  }

  lemma LoopKeepsSnapshot(s: State, l: LoopLabel)
    requires s.core.WellFormed() && SnapshotHolds(s)
    ensures SnapshotHolds(LoopStep(s, l))
  {
    LoopFrame(s, l);
  }

  lemma StepKeepsSnapshot(s: State, l: Label)
    requires s.core.WellFormed() && SnapshotHolds(s)
    ensures SnapshotHolds(Step(s, l))
  {
    hide CallerStep, HandlerStep, LoopStep, TransmitStep, ReceiveStep;
    match l
    case ByCaller(c) => CallerKeepsSnapshot(s, c);
    case ByHandler(h) => HandlerFrame(s, h);
    case ByLoop(w) => LoopKeepsSnapshot(s, w);
    case ByTransmit(t) => TransmitLeavesChecked(s, t);
    case ByReceive(r) => ReceiveLeavesChecked(s, r);
  }

  lemma TransmitLeavesChecked(s: State, l: TransmitLabel)
    ensures TransmitStep(s, l).core == s.core
    ensures TransmitStep(s, l).worker == s.worker || !TransmitStep(s, l).worker.Checked?
  {
  }

  lemma ReceiveLeavesChecked(s: State, l: ReceiveLabel)
    requires s.core.WellFormed()
    ensures ReceiveStep(s, l).core == s.core
    ensures ReceiveStep(s, l).worker == s.worker || !ReceiveStep(s, l).worker.Checked?
  {
  }

  /** Everything that holds in every reachable state. */
  ghost predicate Safe(s: State) {
    && s.core.WellFormed()
    && IrqBalanced(s) && Conserved(s) && ReadsFollow(s) && Waiting(s)
    && SnapshotHolds(s) && Dated(s) && Covered(s)
  }

  lemma StepKeepsSafe(s: State, l: Label)
    requires Safe(s)
    ensures Safe(Step(s, l))
  {
    StepKeepsIrq(s, l);
    StepKeepsConserved(s, l);
    StepKeepsReads(s, l);
    StepKeepsWaiting(s, l);
    StepKeepsSnapshot(s, l);
    StepKeepsDated(s, l);
    StepKeepsCovered(s, l);
    hide Step, IrqBalanced, Conserved, ReadsFollow, Waiting, SnapshotHolds, Dated, Covered;
  }

  lemma {:induction false} ReachableIsSafe(ls: seq<Label>)
    ensures Safe(Exec(ls))
  {
    if ls != [] {
      hide Safe, Step;
      ReachableIsSafe(ls[..|ls| - 1]);
      StepKeepsSafe(Exec(ls[..|ls| - 1]), ls[|ls| - 1]);
    }
  }

  /** The state after the first `i` labels of a run. */
  function After(ls: seq<Label>, i: nat): (s: State)
    requires i <= |ls|
    ensures s.core.WellFormed()
  {
    Exec(ls[..i])
  }

  lemma AfterNext(ls: seq<Label>, i: nat)
    requires i < |ls|
    ensures After(ls, i + 1) == Step(After(ls, i), ls[i])
  {
    assert ls[..i + 1][..i] == ls[..i];
  }

  lemma AfterIsSafe(ls: seq<Label>, i: nat)
    requires i <= |ls|
    ensures Safe(After(ls, i))
  {
    ReachableIsSafe(ls[..i]);
  }

  // ------------------------------------------------------------------ stop

  /** Inside a transfer: from taking a block or a pending interrupt to the end of the read that follows. */
  predicate Transferring(w: Worker) {
    !(w.Idle? || w.Checked? || w.NothingWaits? || w.Go? || w.Taking? || w.Exited? || w.Completing?)
  }

  lemma {:induction false} StopPersists(ls: seq<Label>, a: nat, b: nat, c: nat)
    requires a < b <= |ls| && ls[a] == ByCaller(Stop(c)) && c !in After(ls, a).calls
    requires forall i :: a < i < b ==> ls[i] != ByCaller(Start)
    ensures StopHolds(After(ls, b), c)
  {
    hide After, Step, StopHolds, Safe;
    AfterNext(ls, b - 1);
    if b == a + 1 {
      AfterIsSafe(ls, a);
      StopStarts(After(ls, a), c);
    } else {
      StopPersists(ls, a, b - 1, c);
      StepKeepsStop(After(ls, b - 1), ls[b - 1], c);
    }
  }

  lemma StopStarts(s: State, c: nat)
    requires Safe(s) && c !in s.calls
    ensures StopHolds(Step(s, ByCaller(Stop(c))), c)
  {
    StopBegins(s, c);
  }

  /**
   Once a stop call has returned, and as long as nobody has started the engine since it was made, the worker
   is in no transfer and no block is queued for one, whatever it had seen before.
   */
  lemma QuiescentAfterStop(ls: seq<Label>, a: nat, b: nat, c: nat)
    requires a < b <= |ls| && ls[a] == ByCaller(Stop(c)) && c !in After(ls, a).calls
    requires forall i :: a < i < b ==> ls[i] != ByCaller(Start)
    requires c in After(ls, b).calls && After(ls, b).calls[c].phase == Returned
    ensures !Transferring(After(ls, b).worker)
    ensures NoTx(After(ls, b).core.work)
  {
    StopPersists(ls, a, b, c);
  }

  // ------------------------------------------------------------------ unregister

  lemma {:induction false} BarrierPersists(ls: seq<Label>, a: nat, b: nat, c: nat, y: Layer)
    requires a < b <= |ls| && ls[a] == ByCaller(Unregister(y, c))
    requires c !in After(ls, a).calls && After(ls, a).core.Registered(y)
    ensures BarrierHolds(After(ls, b), c, y, After(ls, a).Gen(y))
  {
    hide After, Step, BarrierHolds, Safe;
    AfterNext(ls, b - 1);
    if b == a + 1 {
      AfterIsSafe(ls, a);
      BarrierStarts(After(ls, a), y, c);
    } else {
      BarrierPersists(ls, a, b - 1, c, y);
      StepKeepsBarrier(After(ls, b - 1), ls[b - 1], c, y, After(ls, a).Gen(y));
    }
  }

  lemma BarrierStarts(s: State, y: Layer, c: nat)
    requires Safe(s) && c !in s.calls && s.core.Registered(y)
    ensures BarrierHolds(Step(s, ByCaller(Unregister(y, c))), c, y, s.Gen(y))
  {
    BarrierBegins(s, y, c);
  }

  lemma GenChangesByRegister(s: State, l: Label, y: Layer)
    requires s.core.WellFormed() && l != ByCaller(Register(y))
    ensures Step(s, l).Gen(y) == s.Gen(y)
  {
    hide HandlerStep, LoopStep, TransmitStep, ReceiveStep;
    match l
    case ByCaller(c) =>
    case ByHandler(h) => HandlerFrame(s, h);
    case ByLoop(w) => LoopFrame(s, w);
    case ByTransmit(t) => TransmitFrame(s, t);
    case ByReceive(r) => ReceiveFrame(s, r);
  }

  lemma {:induction false} GenPersists(ls: seq<Label>, a: nat, b: nat, y: Layer)
    requires a <= b <= |ls|
    requires forall i :: a <= i < b ==> ls[i] != ByCaller(Register(y))
    ensures After(ls, b).Gen(y) == After(ls, a).Gen(y)
  {
    if a < b {
      hide Step;
      AfterNext(ls, b - 1);
      hide After;
      GenPersists(ls, a, b - 1, y);
      GenChangesByRegister(After(ls, b - 1), ls[b - 1], y);
    }
  }

  lemma {:induction false} QueuedIsAccepted(q: seq<Work>, i: nat)
    requires i < |q| && q[i].WorkTx?
    ensures q[i].tx in TxOf(q)
  {
    if i > 0 {
      QueuedIsAccepted(q[1..], i - 1);
    }
  }

  /** The state names a layer nowhere the worker could still touch it. */
  ghost predicate Forgotten(s: State, y: Layer) {
    && (forall i :: 0 <= i < |s.core.work| && s.core.work[i].WorkTx? ==> s.core.work[i].tx.layer != y)
    && (HeldBy(s.worker).Some? ==> HeldBy(s.worker).value.layer != y)
  }

  /**
   When unregistering a layer has returned: no block accepted for it before the call is queued or in flight, what
   still names it, queued or held, belongs to a later registration, and if there was none, nothing names it any more.
   */
  lemma UnregisterBarrier(ls: seq<Label>, a: nat, b: nat, c: nat, y: Layer)
    requires a < b <= |ls| && ls[a] == ByCaller(Unregister(y, c))
    requires c !in After(ls, a).calls && After(ls, a).core.Registered(y)
    requires c in After(ls, b).calls && After(ls, b).calls[c].phase == Returned
    ensures var before, after := After(ls, a), After(ls, b);
            forall tx :: tx in before.accepted && tx.layer == y ==>
              WorkTx(tx) !in after.core.work && tx !in InFlight(after.worker)
    ensures QueueNewer(After(ls, b).core.work, y, After(ls, a).Gen(y))
    ensures HeldNewer(HeldBy(After(ls, b).worker), y, After(ls, a).Gen(y))
    ensures (forall i :: a < i < b ==> ls[i] != ByCaller(Register(y))) ==> Forgotten(After(ls, b), y)
  {
    var before, after := After(ls, a), After(ls, b);
    var g := before.Gen(y);
    BarrierPersists(ls, a, b, c, y);
    AfterIsSafe(ls, a);
    AfterIsSafe(ls, b);
    if forall i :: a < i < b ==> ls[i] != ByCaller(Register(y)) {
      GenPersists(ls, a, b, y);
      NoLaterReference(after, c, y, g);
    }
    EarlierAreGone(before, after, y);
    hide Safe, After, Forgotten;
  }

  lemma EarlierAreGone(before: State, after: State, y: Layer)
    requires Dated(before)
    requires QueueNewer(after.core.work, y, before.Gen(y)) && HeldNewer(HeldBy(after.worker), y, before.Gen(y))
    ensures forall tx :: tx in before.accepted && tx.layer == y ==>
              WorkTx(tx) !in after.core.work && tx !in InFlight(after.worker)
  {
    forall tx | tx in before.accepted && tx.layer == y
      ensures WorkTx(tx) !in after.core.work && tx !in InFlight(after.worker)
    {
      assert tx.gen <= before.Gen(y);
    }
  }

  lemma NoLaterReference(s: State, c: nat, y: Layer, g: nat)
    requires Safe(s) && BarrierHolds(s, c, y, g) && s.calls[c].phase == Returned && s.Gen(y) == g
    ensures Forgotten(s, y)
  {
    forall i | 0 <= i < |s.core.work| && s.core.work[i].WorkTx?
      ensures s.core.work[i].tx.layer != y
    {
      QueuedIsAccepted(s.core.work, i);
      assert s.core.work[i].tx in s.accepted;
    }
  }

  /** A layer registered again, and sent to, while its unregistering is still waiting; then that call returns. */
  function Reregistered(y: Layer): seq<Label> {
    [ByCaller(Register(y))] + ([ByCaller(Unregister(y, 0))] + ([ByCaller(Register(y))] + ([ByCaller(Start)]
    + ([ByCaller(Send(y, 0, 0))] + Served()))))
  }

  function Served(): seq<Label> {
    [ByLoop(Check)] + ([ByLoop(TestBit)] + ([ByLoop(Proceed)] + ([ByLoop(Take)] + ([ByLoop(Complete)]
    + ([ByCaller(Return(0))] + [])))))
  }

  /**
   Without that condition the code's comment does not hold: in this run the unregister call has returned and a block
   that names the layer is queued.
   */
  lemma NewReferenceRemains(y: Layer)
    requires y.id < LAYERS
    ensures var s := Exec(Reregistered(y));
            && 0 in s.calls && s.calls[0] == Call(ForUnregister(y, 1), Returned)
            && s.core.work == [WorkTx(Tx(0, 0, 0, y, 2))]
            && !Forgotten(s, y)
  {
    hide Step, Forgotten;
    var ls := Served();
    PlayFromInit(Reregistered(y));
    hide Exec, Served;
    var s1 := Step(Init, ByCaller(Register(y)));
    var s2 := Step(s1, ByCaller(Unregister(y, 0)));
    var s3 := Step(s2, ByCaller(Register(y)));
    var s4 := Step(s3, ByCaller(Start));
    var s5 := Step(s4, ByCaller(Send(y, 0, 0)));
    PlayOne(Init, ByCaller(Register(y)), [ByCaller(Unregister(y, 0))] + ([ByCaller(Register(y))] + ([ByCaller(Start)]
            + ([ByCaller(Send(y, 0, 0))] + ls))));
    PlayOne(s1, ByCaller(Unregister(y, 0)), [ByCaller(Register(y))] + ([ByCaller(Start)]
            + ([ByCaller(Send(y, 0, 0))] + ls)));
    PlayOne(s2, ByCaller(Register(y)), [ByCaller(Start)] + ([ByCaller(Send(y, 0, 0))] + ls));
    PlayOne(s3, ByCaller(Start), [ByCaller(Send(y, 0, 0))] + ls);
    PlayOne(s4, ByCaller(Send(y, 0, 0)), ls);
    RegisteredTwice(y, s1, s2, s3);
    StartedAndSent(y, s3, s4, s5);
    ServedEnds(s5, y);
  }

  lemma RegisteredTwice(y: Layer, s1: State, s2: State, s3: State)
    requires y.id < LAYERS && s1 == Step(Init, ByCaller(Register(y)))
    requires s2 == Step(s1, ByCaller(Unregister(y, 0))) && s3 == Step(s2, ByCaller(Register(y)))
    ensures s3.core.Registered(y) && s3.Gen(y) == 2 && s3.accepted == [] && s3.worker == Idle && s3.teardown == Alive
    ensures s3.core.work == [WorkDone(0)] && s3.calls == map[0 := Call(ForUnregister(y, 1), Queued)]
  {
  }

  lemma StartedAndSent(y: Layer, s3: State, s4: State, s5: State)
    requires s3.core.WellFormed() && s3.core.Registered(y) && s3.accepted == []
    requires s4 == Step(s3, ByCaller(Start)) && s5 == Step(s4, ByCaller(Send(y, 0, 0)))
    ensures s5.worker == s3.worker && s5.calls == s3.calls && s5.teardown == s3.teardown
    ensures s5.core.work == s3.core.work + [WorkTx(Tx(0, 0, 0, y, s3.Gen(y)))]
  {
  }

  lemma ServedEnds(s: State, y: Layer)
    requires s.core.WellFormed() && s.worker == Idle && s.core.work == [WorkDone(0), WorkTx(Tx(0, 0, 0, y, 2))]
    requires s.teardown == Alive && s.calls == map[0 := Call(ForUnregister(y, 1), Queued)]
    ensures var r := Play(s, Served());
            && 0 in r.calls && r.calls[0] == Call(ForUnregister(y, 1), Returned)
            && r.core.work == [WorkTx(Tx(0, 0, 0, y, 2))]
            && !Forgotten(r, y)
  {
    hide CallerStep, HandlerStep, TransmitStep, ReceiveStep, TakeWork;
    var t1 := Step(s, ByLoop(Check));
    var t2 := Step(t1, ByLoop(TestBit));
    var t3 := Step(t2, ByLoop(Proceed));
    var t4 := Step(t3, ByLoop(Take));
    var t5 := Step(t4, ByLoop(Complete));
    TakeFrame(t3);
    assert t5 == s.(core := t4.core, calls := map[0 := Call(ForUnregister(y, 1), Completed)]);
    hide Step;
    ReturnEnds(t5, y);
    PlayOne(s, ByLoop(Check), [ByLoop(TestBit)] + ([ByLoop(Proceed)] + ([ByLoop(Take)] + ([ByLoop(Complete)]
            + ([ByCaller(Return(0))] + [])))));
    PlayOne(t1, ByLoop(TestBit), [ByLoop(Proceed)] + ([ByLoop(Take)] + ([ByLoop(Complete)]
            + ([ByCaller(Return(0))] + []))));
    PlayOne(t2, ByLoop(Proceed), [ByLoop(Take)] + ([ByLoop(Complete)] + ([ByCaller(Return(0))] + [])));
    PlayOne(t3, ByLoop(Take), [ByLoop(Complete)] + ([ByCaller(Return(0))] + []));
    PlayOne(t4, ByLoop(Complete), [ByCaller(Return(0))] + []);
    PlayOne(t5, ByCaller(Return(0)), []);
  }

  lemma ReturnEnds(s: State, y: Layer)
    requires s.core.WellFormed() && s.core.work == [WorkTx(Tx(0, 0, 0, y, 2))]
    requires s.calls == map[0 := Call(ForUnregister(y, 1), Completed)]
    ensures var r := Step(s, ByCaller(Return(0)));
            && 0 in r.calls && r.calls[0] == Call(ForUnregister(y, 1), Returned)
            && r.core.work == s.core.work
            && !Forgotten(r, y)
  {
    assert Step(s, ByCaller(Return(0))).core.work[0].tx.layer == y;
  }

  // ------------------------------------------------------------------ transmit

  /** Blocks are given back in acceptance order, each once; the rest is in flight or queued. */
  lemma TxConservation(ls: seq<Label>)
    ensures var s := Exec(ls);
            && s.accepted == s.sent + InFlight(s.worker) + TxOf(s.core.work)
            && (forall i, j :: 0 <= i < j < |s.sent| ==> s.sent[i].serial < s.sent[j].serial)
  {
    ReachableIsSafe(ls);
    var s := Exec(ls);
    assert forall i :: 0 <= i < |s.sent| ==> s.sent[i] == s.accepted[i];
  }

  /** When the driver may be torn down and no unregister waits, every accepted block was given back or is in flight. */
  lemma DeinitLeavesNoBlock(ls: seq<Label>)
    requires CanDeinit(Exec(ls).core)
    requires forall c :: c in Exec(ls).calls && Exec(ls).calls[c].kind.ForUnregister? ==>
               Exec(ls).calls[c].phase != Queued
    ensures NoTx(Exec(ls).core.work)
    ensures Exec(ls).accepted == Exec(ls).sent + InFlight(Exec(ls).worker)
  {
    ReachableIsSafe(ls);
    var s := Exec(ls);
    forall i | 0 <= i < |s.core.work|
      ensures !s.core.work[i].WorkTx?
    {
      if s.core.work[i].WorkTx? {
        assert false;
      }
    }
    NoTxMeansEmpty(s.core.work);
  }

  lemma {:induction false} NoTxMeansEmpty(q: seq<Work>)
    requires NoTx(q)
    ensures TxOf(q) == []
  {
    if q != [] {
      NoTxMeansEmpty(q[1..]);
    }
  }

  // ------------------------------------------------------------------ interrupts and reads

  /** The line is off exactly while somebody is due to turn it on again, and never off twice. */
  lemma IrqLine(ls: seq<Label>)
    ensures var s := Exec(ls);
            && 0 <= s.depth <= 1
            && (s.depth == 0 <==> !s.ssIrq && s.handler != Masked && !s.worker.Cleared?)
            && (s.worker.Cleared? ==> s.depth == 1 && !s.ssIrq)
  {
    ReachableIsSafe(ls);
  }

  /** The pending bit is cleared only by the worker, after a successful read whose header shows no more data. */
  lemma BitClearedAfterRead(ls: seq<Label>, l: Label)
    requires Exec(ls).ssIrq && !Step(Exec(ls), l).ssIrq
    ensures l == ByReceive(ClearBit)
    ensures var xs := Exec(ls).xfers;
            xs != [] && xs[|xs| - 1].host.rd && xs[|xs| - 1].ret == 0 && !xs[|xs| - 1].soc.odw
  {
    ReachableIsSafe(ls);
    var s := Exec(ls);
    hide CallerStep, LoopStep, TransmitStep;
    match l
    case ByCaller(c) => CallerFrame(s, c);
    case ByHandler(h) =>
    case ByLoop(w) => LoopFrame(s, w);
    case ByTransmit(t) => TransmitFrame(s, t);
    case ByReceive(r) =>
  }

  /** Every read follows at once a successful pre-read that named its layer and length. */
  lemma ReadFollowsPreRead(ls: seq<Label>)
    ensures ReadsAnnounced(Exec(ls).xfers)
    ensures var s := Exec(ls);
            s.worker.RxXfer? ==>
              s.xfers != [] && Announces(s.xfers[|s.xfers| - 1], s.worker.ul, s.worker.length)
  {
    ReachableIsSafe(ls);
  }
}
