/** What one step of the HSSPI engine leaves alone, and the invariants it keeps. */
module HsspiSafety {
  import opened HsspiCore
  import opened HsspiEngine

  // ------------------------------------------------------------------ frames

  lemma CallerFrame(s: State, l: CallerLabel)
    requires s.core.WellFormed()
    ensures var r := CallerStep(s, l);
            && r.worker == s.worker && r.ssIrq == s.ssIrq && r.depth == s.depth && r.handler == s.handler
            && r.sent == s.sent && r.xfers == s.xfers
  {
  }

  lemma HandlerFrame(s: State, l: HandlerLabel)
    ensures var r := HandlerStep(s, l); r == s.(ssIrq := r.ssIrq, depth := r.depth, handler := r.handler)
  {
  }

  /** The worker takes up the first job, or starts a pre-read if there is none. */
  lemma TakeFrame(s: State)
    ensures var r, q := TakeWork(s), s.core.work;
            && r == s.(core := r.core, worker := r.worker)
            && r.core == s.core.(work := if q == [] then [] else q[1..])
            && r.worker == if q == [] then PreXfer else if q[0].WorkTx? then TxTaken(q[0].tx) else Completing(q[0].call)
  {
  }

  lemma LoopFrame(s: State, l: LoopLabel)
    requires s.core.WellFormed()
    ensures var r := LoopStep(s, l);
            && r == s.(core := r.core, worker := r.worker, calls := r.calls)
            && r.core == s.core.(work := r.core.work)
  {
    TakeFrame(s);
    hide TakeWork;
  }

  lemma TransmitFrame(s: State, l: TransmitLabel)
    ensures var r := TransmitStep(s, l); r == s.(worker := r.worker, sent := r.sent, xfers := r.xfers)
  {
  }

  lemma ReceiveFrame(s: State, l: ReceiveLabel)
    requires s.core.WellFormed()
    ensures var r := ReceiveStep(s, l); r == s.(worker := r.worker, ssIrq := r.ssIrq, depth := r.depth)
  {
  }

  // ------------------------------------------------------------------ the SS_IRQ line

  function Bit(b: bool): int { if b then 1 else 0 }

  /** The line is disabled once for a pending bit, a handler about to set it, or a worker about to re-enable it. */
  predicate IrqBalanced(s: State) {
    && s.depth == Bit(s.ssIrq) + Bit(s.handler == Masked) + Bit(s.worker.Cleared?)
    && 0 <= s.depth <= 1
    && (s.handler == Entered ==> s.depth == 0)
  }

  lemma HandlerKeepsIrq(s: State, l: HandlerLabel)
    requires IrqBalanced(s)
    ensures IrqBalanced(HandlerStep(s, l))
  {
  }

  lemma LoopKeepsIrq(s: State, l: LoopLabel)
    requires s.core.WellFormed() && IrqBalanced(s)
    ensures IrqBalanced(LoopStep(s, l))
  {
    LoopFrame(s, l);
  }

  lemma TransmitKeepsIrq(s: State, l: TransmitLabel)
    requires IrqBalanced(s)
    ensures IrqBalanced(TransmitStep(s, l))
  {
  }

  lemma ReceiveKeepsIrq(s: State, l: ReceiveLabel)
    requires s.core.WellFormed() && IrqBalanced(s)
    ensures IrqBalanced(ReceiveStep(s, l))
  {
  }

  lemma StepKeepsIrq(s: State, l: Label)
    requires s.core.WellFormed() && IrqBalanced(s)
    ensures IrqBalanced(Step(s, l))
  {
    hide CallerStep, HandlerStep, LoopStep, TransmitStep, ReceiveStep;
    match l
    case ByCaller(c) => CallerFrame(s, c);
    case ByHandler(h) => HandlerKeepsIrq(s, h);
    case ByLoop(w) => LoopKeepsIrq(s, w);
    case ByTransmit(t) => TransmitKeepsIrq(s, t);
    case ByReceive(r) => ReceiveKeepsIrq(s, r);
  }

  // ------------------------------------------------------------------ transmit conservation

  function TxOf(q: seq<Work>): seq<Tx> {
    if q == [] then []
    else (if q[0].WorkTx? then [q[0].tx] else []) + TxOf(q[1..])
  }

  function InFlight(w: Worker): seq<Tx> {
    match w
    case TxTaken(tx) => [tx]
    case TxXfer(tx, _) => [tx]
    case TxXferDone(tx, _, _, _) => [tx]
    case _ => []
  }

  lemma {:induction false} TxOfAppend(q: seq<Work>, w: Work)
    ensures TxOf(q + [w]) == TxOf(q) + (if w.WorkTx? then [w.tx] else [])
  {
    if q != [] {
      TxOfAppend(q[1..], w);
      assert (q + [w])[1..] == q[1..] + [w];
    }
  }

  lemma TxOfFirst(q: seq<Work>)
    requires q != []
    ensures TxOf(q) == (if q[0].WorkTx? then [q[0].tx] else []) + TxOf(q[1..])
  {
  }

  /** Accepted blocks are, in order, those given to `sent`, the one in flight, those queued. */
  ghost predicate Conserved(s: State) {
    && s.accepted == s.sent + InFlight(s.worker) + TxOf(s.core.work)
    && (forall i :: 0 <= i < |s.accepted| ==> s.accepted[i].serial == i)
  }

  lemma CallerKeepsConserved(s: State, l: CallerLabel)
    requires s.core.WellFormed() && Conserved(s)
    ensures Conserved(CallerStep(s, l))
  {
    hide TxOf;
    match l
    case Unregister(y, c) => TxOfAppend(s.core.work, WorkDone(c));
    case Stop(c) => TxOfAppend(s.core.work, WorkDone(c));
    case Send(y, b, n) => TxOfAppend(s.core.work, WorkTx(NextTx(s, y, b, n)));
    case _ =>
  }

  lemma TakeKeepsConserved(s: State)
    requires Conserved(s) && s.worker.Taking?
    ensures Conserved(TakeWork(s))
  {
    if s.core.work != [] { TxOfFirst(s.core.work); }
    hide TxOf;
  }

  lemma LoopKeepsConserved(s: State, l: LoopLabel)
    requires s.core.WellFormed() && Conserved(s)
    ensures Conserved(LoopStep(s, l))
  {
    hide TxOf, TakeWork;
    LoopFrame(s, l);
    if l == Take && s.worker.Taking? {
      TakeKeepsConserved(s);
    }
  }

  lemma TransmitKeepsConserved(s: State, l: TransmitLabel)
    requires Conserved(s)
    ensures Conserved(TransmitStep(s, l))
  {
    hide TxOf;
    TransmitFrame(s, l);
  }

  lemma ReceiveKeepsConserved(s: State, l: ReceiveLabel)
    requires s.core.WellFormed() && Conserved(s)
    ensures Conserved(ReceiveStep(s, l))
  {
    hide TxOf;
    ReceiveFrame(s, l);
  }

  lemma StepKeepsConserved(s: State, l: Label)
    requires s.core.WellFormed() && Conserved(s)
    ensures Conserved(Step(s, l))
  {
    hide CallerStep, HandlerStep, LoopStep, TransmitStep, ReceiveStep, TxOf;
    match l
    case ByCaller(c) => CallerKeepsConserved(s, c);
    case ByHandler(h) => HandlerFrame(s, h);
    case ByLoop(w) => LoopKeepsConserved(s, w);
    case ByTransmit(t) => TransmitKeepsConserved(s, t);
    case ByReceive(r) => ReceiveKeepsConserved(s, r);
  }

  // ------------------------------------------------------------------ reads follow pre-reads

  /** A successful exchange with the pre-read flag, whose reply names this read. */
  predicate Announces(x: Xfer, ul: nat, length: nat) {
    x.host.prd && x.ret == 0 && x.soc.ul == ul && x.soc.length == length
  }

  ghost predicate ReadsAnnounced(xs: seq<Xfer>) {
    forall i :: 0 <= i < |xs| && xs[i].host.rd ==> i > 0 && Announces(xs[i - 1], xs[i].host.ul, xs[i].host.length)
  }

  predicate LastIs(xs: seq<Xfer>, prd: bool, ret: int, soc: Soc) {
    xs != [] && xs[|xs| - 1].host.prd == prd && xs[|xs| - 1].ret == ret && xs[|xs| - 1].soc == soc
  }

  /** What the worker's position says about the last exchange. */
  predicate PositionMatches(w: Worker, xs: seq<Xfer>) {
    match w
    case TxXferDone(_, prd, ret, soc) => LastIs(xs, prd, ret, soc)
    case TxSent(prd, ret, soc) => LastIs(xs, prd, ret, soc)
    case PreXferDone(ret, soc) => LastIs(xs, true, ret, soc)
    case RxStart(ul, length) => xs != [] && Announces(xs[|xs| - 1], ul, length)
    case RxLooked(ul, length, _) => xs != [] && Announces(xs[|xs| - 1], ul, length)
    case RxXfer(ul, length, _) => xs != [] && Announces(xs[|xs| - 1], ul, length)
    case RxXferDone(ul, length, _, ret, soc) =>
      xs != [] && xs[|xs| - 1] == Xfer(Host(false, false, true, ul, length), ret, soc)
    case RxReceived(ul, length, ret, soc) =>
      xs != [] && xs[|xs| - 1] == Xfer(Host(false, false, true, ul, length), ret, soc)
    case _ => true
  }

  ghost predicate ReadsFollow(s: State) {
    ReadsAnnounced(s.xfers) && PositionMatches(s.worker, s.xfers)
  }

  lemma LoopKeepsReads(s: State, l: LoopLabel)
    requires s.core.WellFormed() && ReadsFollow(s)
    ensures ReadsFollow(LoopStep(s, l))
  {
    LoopFrame(s, l);
  }

  predicate InExchange(w: Worker) {
    w.TxXfer? || w.PreXfer? || w.RxXfer?
  }

  /** An exchange is logged with exactly the header the worker had prepared. */
  lemma ExchangeKeepsReads(s: State, ret: int, soc: Soc)
    requires ReadsFollow(s)
    ensures ReadsFollow(TransmitStep(s, Exchange(ret, soc)))
    ensures TransmitStep(s, Exchange(ret, soc)).xfers
         == s.xfers + (if InExchange(s.worker) && Plausible(ret, soc) then [Xfer(HostOf(s.worker), ret, soc)] else [])
  {
  }

  lemma TransmitKeepsReads(s: State, l: TransmitLabel)
    requires ReadsFollow(s)
    ensures ReadsFollow(TransmitStep(s, l))
  {
    if l.Exchange? {
      ExchangeKeepsReads(s, l.ret, l.soc);
    }
  }

  lemma ReceiveKeepsReads(s: State, l: ReceiveLabel)
    requires s.core.WellFormed() && ReadsFollow(s)
    ensures ReadsFollow(ReceiveStep(s, l))
  {
    ReceiveFrame(s, l);
  }

  lemma StepKeepsReads(s: State, l: Label)
    requires s.core.WellFormed() && ReadsFollow(s)
    ensures ReadsFollow(Step(s, l))
  {
    hide CallerStep, HandlerStep, LoopStep, TransmitStep, ReceiveStep, PositionMatches;
    match l
    case ByCaller(c) => CallerFrame(s, c);
    case ByHandler(h) => HandlerFrame(s, h);
    case ByLoop(w) => LoopKeepsReads(s, w);
    case ByTransmit(t) => TransmitKeepsReads(s, t);
    case ByReceive(r) => ReceiveKeepsReads(s, r);
  }

  // ------------------------------------------------------------------ completions

  /** Work whose waiters are exactly the calls still queued, each once. */
  ghost predicate Waiting(s: State) {
    && (forall k :: 0 <= k < |s.core.work| && s.core.work[k].WorkDone? ==>
          && s.core.work[k].call in s.calls
          && s.calls[s.core.work[k].call].phase == Queued
          && s.worker != Completing(s.core.work[k].call))
    && (forall j, k :: 0 <= j < k < |s.core.work| && s.core.work[j].WorkDone? ==> s.core.work[j] != s.core.work[k])
    && (s.worker.Completing? ==> s.worker.call in s.calls && s.calls[s.worker.call].phase == Queued)
  }

  lemma EnqueueKeepsWaiting(s: State, l: CallerLabel)
    requires s.core.WellFormed() && Waiting(s) && (l.Unregister? || l.Stop?)
    ensures Waiting(CallerStep(s, l))
  {
    CallerFrame(s, l);
  }

  lemma CallerKeepsWaiting(s: State, l: CallerLabel)
    requires s.core.WellFormed() && Waiting(s)
    ensures Waiting(CallerStep(s, l))
  {
    if l.Unregister? || l.Stop? {
      EnqueueKeepsWaiting(s, l);
    } else {
      CallerFrame(s, l);
    }
  }

  lemma LoopKeepsWaiting(s: State, l: LoopLabel)
    requires s.core.WellFormed() && Waiting(s)
    ensures Waiting(LoopStep(s, l))
  {
    LoopFrame(s, l);
  }

  lemma TransmitKeepsWaiting(s: State, l: TransmitLabel)
    requires Waiting(s)
    ensures Waiting(TransmitStep(s, l))
  {
    TransmitFrame(s, l);
  }

  lemma ReceiveKeepsWaiting(s: State, l: ReceiveLabel)
    requires s.core.WellFormed() && Waiting(s)
    ensures Waiting(ReceiveStep(s, l))
  {
    ReceiveFrame(s, l);
  }

  lemma StepKeepsWaiting(s: State, l: Label)
    requires s.core.WellFormed() && Waiting(s)
    ensures Waiting(Step(s, l))
  {
    hide CallerStep, HandlerStep, LoopStep, TransmitStep, ReceiveStep;
    match l
    case ByCaller(c) => CallerKeepsWaiting(s, c);
    case ByHandler(h) => HandlerFrame(s, h);
    case ByLoop(w) => LoopKeepsWaiting(s, w);
    case ByTransmit(t) => TransmitKeepsWaiting(s, t);
    case ByReceive(r) => ReceiveKeepsWaiting(s, r);
  }

  // ------------------------------------------------------------------ quiescence after stop

  ghost predicate NoTx(q: seq<Work>) {
    forall i :: 0 <= i < |q| ==> !q[i].WorkTx?
  }

  /** The worker is outside every transfer, and cannot enter one while the queue holds no block. */
  predicate AtRest(s: State) {
    match s.worker
    case Idle => true
    case NothingWaits => true
    case Exited => true
    case Completing(_) => true
    case Checked(empty, running) => !running && (!empty ==> s.core.work != [])
    case Go => s.core.work != [] || s.teardown.ShouldStop?
    case Taking => s.core.work != []
    case _ => false
  }

  /**
   A stop with identifier `c` since which the engine has not been started: no block is queued behind its
   completion, and once that completion is served no block is queued at all and the worker is at rest.
   */
  ghost predicate StopHolds(s: State, c: nat) {
    && c in s.calls
    && s.core.state == Stopped
    && (s.worker == Checked(false, true) || s.worker == Checked(false, false) ==> s.core.work != [])
    && if s.calls[c].phase == Queued then
         && (forall j, k :: 0 <= j < k < |s.core.work| && s.core.work[j] == WorkDone(c) ==> !s.core.work[k].WorkTx?)
         && (s.worker == Completing(c) ==> NoTx(s.core.work))
       else NoTx(s.core.work) && AtRest(s)
  }

  lemma StopBegins(s: State, c: nat)
    requires s.core.WellFormed() && c !in s.calls
    requires s.worker == Checked(false, true) || s.worker == Checked(false, false) ==> s.core.work != []
    requires Waiting(s)
    ensures StopHolds(CallerStep(s, Stop(c)), c)
  {
  }

  lemma CallerKeepsStop(s: State, l: CallerLabel, c: nat)
    requires s.core.WellFormed() && StopHolds(s, c) && !l.Start?
    ensures StopHolds(CallerStep(s, l), c)
  {
    CallerFrame(s, l);
  }

  lemma LoopKeepsStop(s: State, l: LoopLabel, c: nat)
    requires s.core.WellFormed() && StopHolds(s, c)
    ensures StopHolds(LoopStep(s, l), c)
  {
    LoopFrame(s, l);
  }

  lemma TransmitKeepsStop(s: State, l: TransmitLabel, c: nat)
    requires StopHolds(s, c)
    ensures StopHolds(TransmitStep(s, l), c)
  {
    TransmitFrame(s, l);
  }

  lemma ReceiveKeepsStop(s: State, l: ReceiveLabel, c: nat)
    requires s.core.WellFormed() && StopHolds(s, c)
    ensures StopHolds(ReceiveStep(s, l), c)
  {
    ReceiveFrame(s, l);
  }

  lemma StepKeepsStop(s: State, l: Label, c: nat)
    requires s.core.WellFormed() && StopHolds(s, c) && l != ByCaller(Start)
    ensures StopHolds(Step(s, l), c)
  {
    hide CallerStep, HandlerStep, LoopStep, TransmitStep, ReceiveStep;
    match l
    case ByCaller(y) => CallerKeepsStop(s, y, c);
    case ByHandler(h) => HandlerFrame(s, h);
    case ByLoop(w) => LoopKeepsStop(s, w, c);
    case ByTransmit(t) => TransmitKeepsStop(s, t, c);
    case ByReceive(r) => ReceiveKeepsStop(s, r, c);
  }
}
