/** References to layers: what an unregister call guarantees about them. */
module HsspiBarrier {
  import opened HsspiCore
  import opened HsspiEngine
  import opened HsspiSafety

  /** The reference to a layer the worker holds, with the registration it belongs to. */
  function HeldBy(w: Worker): Option<Held> {
    match w
    case TxTaken(tx) => Some(Held(tx.layer, tx.gen))
    case TxXfer(tx, _) => Some(Held(tx.layer, tx.gen))
    case TxXferDone(tx, _, _, _) => Some(Held(tx.layer, tx.gen))
    case RxLooked(_, _, held) => held
    case RxXfer(_, _, held) => held
    case RxXferDone(_, _, held, _, _) => held
    case _ => None
  }

  /** A queued job that refers to a layer does so under a registration later than `g`. */
  predicate WorkNewer(w: Work, y: Layer, g: nat) {
    w.WorkTx? && w.tx.layer == y ==> w.tx.gen > g
  }

  predicate HeldNewer(h: Option<Held>, y: Layer, g: nat) {
    h.Some? && h.value.layer == y ==> h.value.gen > g
  }

  ghost predicate QueueNewer(q: seq<Work>, y: Layer, g: nat) {
    forall i :: 0 <= i < |q| ==> WorkNewer(q[i], y, g)
  }

  // ------------------------------------------------------------------ the barrier

  /**
   Call `c` ended registration `g` of layer `y`: behind its completion, and everywhere once that completion
   is served, only later registrations of the layer are referred to.
   */
  ghost predicate BarrierHolds(s: State, c: nat, y: Layer, g: nat) {
    && c in s.calls
    && |s.core.layers| == LAYERS
    && g <= s.Gen(y)
    && (s.core.Registered(y) ==> g < s.Gen(y))
    && if s.calls[c].phase == Queued then
         && (forall j, k :: 0 <= j < k < |s.core.work| && s.core.work[j] == WorkDone(c) ==>
               WorkNewer(s.core.work[k], y, g))
         && (s.worker == Completing(c) ==> QueueNewer(s.core.work, y, g))
       else QueueNewer(s.core.work, y, g) && HeldNewer(HeldBy(s.worker), y, g)
  }

  lemma BarrierBegins(s: State, y: Layer, c: nat)
    requires s.core.WellFormed() && Waiting(s) && c !in s.calls && s.core.Registered(y)
    ensures BarrierHolds(CallerStep(s, Unregister(y, c)), c, y, s.Gen(y))
  {
  }

  predicate Enqueues(l: CallerLabel) {
    l.Unregister? || l.Stop? || l.Send?
  }

  lemma EnqueueKeepsBarrier(s: State, l: CallerLabel, c: nat, y: Layer, g: nat)
    requires s.core.WellFormed() && BarrierHolds(s, c, y, g) && Enqueues(l)
    ensures BarrierHolds(CallerStep(s, l), c, y, g)
  {
    CallerFrame(s, l);
  }

  lemma CallerKeepsBarrier(s: State, l: CallerLabel, c: nat, y: Layer, g: nat)
    requires s.core.WellFormed() && BarrierHolds(s, c, y, g)
    ensures BarrierHolds(CallerStep(s, l), c, y, g)
  {
    CallerFrame(s, l);
    if Enqueues(l) {
      hide *;
      EnqueueKeepsBarrier(s, l, c, y, g);
    }
  }

  lemma TakeKeepsBarrier(s: State, c: nat, y: Layer, g: nat)
    requires s.core.WellFormed() && BarrierHolds(s, c, y, g)
    ensures BarrierHolds(LoopStep(s, Take), c, y, g)
  {
    if s.worker.Taking? && s.core.work != [] {
      PopKeepsBarrier(s, LoopStep(s, Take), c, y, g);
    }
  }

  /** The worker takes up the first job of the queue. */
  lemma PopKeepsBarrier(s: State, r: State, c: nat, y: Layer, g: nat)
    requires BarrierHolds(s, c, y, g) && s.core.work != []
    requires r == s.(core := r.core, worker := r.worker) && r.core == s.core.(work := s.core.work[1..])
    requires match s.core.work[0]
             case WorkDone(d) => r.worker == Completing(d)
             case WorkTx(tx) => r.worker == TxTaken(tx)
    ensures BarrierHolds(r, c, y, g)
  {
    assert forall i :: 0 <= i < |r.core.work| ==> r.core.work[i] == s.core.work[i + 1];
  }

  lemma LoopKeepsBarrier(s: State, l: LoopLabel, c: nat, y: Layer, g: nat)
    requires s.core.WellFormed() && BarrierHolds(s, c, y, g)
    ensures BarrierHolds(LoopStep(s, l), c, y, g)
  {
    if l == Take {
      TakeKeepsBarrier(s, c, y, g);
    } else {
      LoopFrame(s, l);
    }
  }

  lemma TransmitKeepsBarrier(s: State, l: TransmitLabel, c: nat, y: Layer, g: nat)
    requires BarrierHolds(s, c, y, g)
    ensures BarrierHolds(TransmitStep(s, l), c, y, g)
  {
    TransmitFrame(s, l);
  }

  lemma ReceiveKeepsBarrier(s: State, l: ReceiveLabel, c: nat, y: Layer, g: nat)
    requires s.core.WellFormed() && BarrierHolds(s, c, y, g)
    ensures BarrierHolds(ReceiveStep(s, l), c, y, g)
  {
    ReceiveFrame(s, l);
  }

  lemma StepKeepsBarrier(s: State, l: Label, c: nat, y: Layer, g: nat)
    requires s.core.WellFormed() && BarrierHolds(s, c, y, g)
    ensures BarrierHolds(Step(s, l), c, y, g)
  {
    hide CallerStep, HandlerStep, LoopStep, TransmitStep, ReceiveStep;
    match l
    case ByCaller(x) => CallerKeepsBarrier(s, x, c, y, g);
    case ByHandler(h) => HandlerFrame(s, h);
    case ByLoop(w) => LoopKeepsBarrier(s, w, c, y, g);
    case ByTransmit(t) => TransmitKeepsBarrier(s, t, c, y, g);
    case ByReceive(r) => ReceiveKeepsBarrier(s, r, c, y, g);
  }

  // ------------------------------------------------------------------ references name past registrations

  /** Every reference ever made belongs to a registration that has happened. */
  ghost predicate Dated(s: State) {
    && (forall i :: 0 <= i < |s.accepted| ==> s.accepted[i].gen <= s.Gen(s.accepted[i].layer))
    && (HeldBy(s.worker).Some? ==> HeldBy(s.worker).value.gen <= s.Gen(HeldBy(s.worker).value.layer))
  }

  lemma CallerKeepsDated(s: State, l: CallerLabel)
    requires s.core.WellFormed() && Dated(s)
    ensures Dated(CallerStep(s, l))
  {
    CallerFrame(s, l);
  }

  lemma LoopKeepsDated(s: State, l: LoopLabel)
    requires s.core.WellFormed() && Dated(s) && Conserved(s)
    ensures Dated(LoopStep(s, l))
  {
    LoopFrame(s, l);
    if s.core.work != [] && s.core.work[0].WorkTx? && s.worker.Taking? {
      TxOfFirst(s.core.work);
      assert s.core.work[0].tx == s.accepted[|s.sent|];
    }
  }

  lemma TransmitKeepsDated(s: State, l: TransmitLabel)
    requires Dated(s)
    ensures Dated(TransmitStep(s, l))
  {
    TransmitFrame(s, l);
  }

  lemma ReceiveKeepsDated(s: State, l: ReceiveLabel)
    requires s.core.WellFormed() && Dated(s)
    ensures Dated(ReceiveStep(s, l))
  {
    ReceiveFrame(s, l);
  }

  lemma StepKeepsDated(s: State, l: Label)
    requires s.core.WellFormed() && Dated(s) && Conserved(s)
    ensures Dated(Step(s, l))
  {
    hide CallerStep, HandlerStep, LoopStep, TransmitStep, ReceiveStep, Conserved;
    match l
    case ByCaller(c) => CallerKeepsDated(s, c);
    case ByHandler(h) => HandlerFrame(s, h);
    case ByLoop(w) => LoopKeepsDated(s, w);
    case ByTransmit(t) => TransmitKeepsDated(s, t);
    case ByReceive(r) => ReceiveKeepsDated(s, r);
  }

  // ------------------------------------------------------------------ queued blocks are covered

  /** An unregister call ending registration `g` of `y` still waits behind position `i`. */
  ghost predicate AwaitedBehind(s: State, i: int, y: Layer, g: nat) {
    exists k :: i < k < |s.core.work| && 0 <= k && Ends(s, s.core.work[k], y, g)
  }

  predicate Ends(s: State, w: Work, y: Layer, g: nat) {
    w.WorkDone? && w.call in s.calls && s.calls[w.call].kind == ForUnregister(y, g)
  }

  /** Each queued block belongs to a live registration, or to one whose unregister waits behind it. */
  ghost predicate Covered(s: State) {
    |s.core.layers| == LAYERS
    && forall i :: 0 <= i < |s.core.work| && s.core.work[i].WorkTx? ==>
         var tx := s.core.work[i].tx;
         (s.core.Registered(tx.layer) && s.Gen(tx.layer) == tx.gen) || AwaitedBehind(s, i, tx.layer, tx.gen)
  }

  lemma AppendKeepsCovered(s: State, r: State, w: Work)
    requires Covered(s)
    requires r.core.work == s.core.work + [w] && r.core.layers == s.core.layers && r.gens == s.gens
    requires forall c :: c in s.calls ==> c in r.calls && r.calls[c].kind == s.calls[c].kind
    requires w.WorkTx? ==> s.core.Registered(w.tx.layer) && s.Gen(w.tx.layer) == w.tx.gen
    ensures Covered(r)
  {
    forall i | 0 <= i < |r.core.work| && r.core.work[i].WorkTx?
      ensures var tx := r.core.work[i].tx;
              (r.core.Registered(tx.layer) && r.Gen(tx.layer) == tx.gen) || AwaitedBehind(r, i, tx.layer, tx.gen)
    {
      var tx := r.core.work[i].tx;
      if i < |s.core.work| && AwaitedBehind(s, i, tx.layer, tx.gen) {
        var k :| i < k < |s.core.work| && 0 <= k && Ends(s, s.core.work[k], tx.layer, tx.gen);
        assert Ends(r, r.core.work[k], tx.layer, tx.gen);
      }
    }
  }

  lemma UnregisterKeepsCovered(s: State, y: Layer, c: nat)
    requires s.core.WellFormed() && Covered(s)
    ensures Covered(CallerStep(s, Unregister(y, c)))
  {
    var r := CallerStep(s, Unregister(y, c));
    if r != s {
      var n := |s.core.work|;
      forall i | 0 <= i < |r.core.work| && r.core.work[i].WorkTx?
        ensures var tx := r.core.work[i].tx;
                (r.core.Registered(tx.layer) && r.Gen(tx.layer) == tx.gen) || AwaitedBehind(r, i, tx.layer, tx.gen)
      {
        var tx := r.core.work[i].tx;
        if tx.layer == y && tx.gen == s.Gen(y) {
          assert Ends(r, r.core.work[n], tx.layer, tx.gen);
        } else if AwaitedBehind(s, i, tx.layer, tx.gen) {
          var k :| i < k < |s.core.work| && 0 <= k && Ends(s, s.core.work[k], tx.layer, tx.gen);
          assert Ends(r, r.core.work[k], tx.layer, tx.gen);
        }
      }
    }
  }

  /** Steps that change neither the queue nor which registrations are over keep the cover. */
  lemma SameQueueKeepsCovered(s: State, r: State)
    requires Covered(s) && r.core.work == s.core.work && |r.core.layers| == LAYERS
    requires forall c :: c in s.calls ==> c in r.calls && r.calls[c].kind == s.calls[c].kind
    requires forall y :: s.core.Registered(y) ==> r.core.Registered(y) && r.Gen(y) == s.Gen(y)
    ensures Covered(r)
  {
    forall i | 0 <= i < |r.core.work| && r.core.work[i].WorkTx?
      ensures var tx := r.core.work[i].tx;
              (r.core.Registered(tx.layer) && r.Gen(tx.layer) == tx.gen) || AwaitedBehind(r, i, tx.layer, tx.gen)
    {
      var tx := r.core.work[i].tx;
      if AwaitedBehind(s, i, tx.layer, tx.gen) {
        var k :| i < k < |s.core.work| && 0 <= k && Ends(s, s.core.work[k], tx.layer, tx.gen);
        assert Ends(r, r.core.work[k], tx.layer, tx.gen);
      }
    }
  }

  lemma CallerKeepsCovered(s: State, l: CallerLabel)
    requires s.core.WellFormed() && Covered(s)
    ensures Covered(CallerStep(s, l))
  {
    var r := CallerStep(s, l);
    hide Covered;
    match l
    case Unregister(y, c) => UnregisterKeepsCovered(s, y, c);
    case Stop(c) => if r != s { AppendKeepsCovered(s, r, WorkDone(c)); }
    case Send(y, b, n) => if r != s { AppendKeepsCovered(s, r, WorkTx(NextTx(s, y, b, n))); }
    case Register(y) => SameQueueKeepsCovered(s, r);
    case _ => SameQueueKeepsCovered(s, r);
  }

  lemma TakeKeepsCovered(s: State)
    requires s.core.WellFormed() && Covered(s)
    ensures Covered(LoopStep(s, Take))
  {
    hide Covered;
    var r := LoopStep(s, Take);
    if s.worker.Taking? && s.core.work != [] {
      PopKeepsCovered(s, r);
    } else {
      SameQueueKeepsCovered(s, r);
    }
  }

  lemma PopKeepsCovered(s: State, r: State)
    requires Covered(s) && s.core.work != []
    requires r.core == s.core.(work := s.core.work[1..]) && r.calls == s.calls && r.gens == s.gens
    ensures Covered(r)
  {
    forall i | 0 <= i < |r.core.work| && r.core.work[i].WorkTx?
      ensures var tx := r.core.work[i].tx;
              (r.core.Registered(tx.layer) && r.Gen(tx.layer) == tx.gen) || AwaitedBehind(r, i, tx.layer, tx.gen)
    {
      var tx := s.core.work[i + 1].tx;
      if AwaitedBehind(s, i + 1, tx.layer, tx.gen) {
        var k :| i + 1 < k < |s.core.work| && 0 <= k && Ends(s, s.core.work[k], tx.layer, tx.gen);
        assert Ends(r, r.core.work[k - 1], tx.layer, tx.gen);
      }
    }
  }

  lemma StepKeepsCovered(s: State, l: Label)
    requires s.core.WellFormed() && Covered(s)
    ensures Covered(Step(s, l))
  {
    hide Covered, HandlerStep, TransmitStep, ReceiveStep, CallerStep;
    match l
    case ByCaller(c) => CallerKeepsCovered(s, c);
    case ByHandler(h) =>
      HandlerFrame(s, h);
      SameQueueKeepsCovered(s, Step(s, l));
    case ByLoop(w) =>
      if w == Take {
        TakeKeepsCovered(s);
      } else {
        SameQueueKeepsCovered(s, Step(s, l));
      }
    case ByTransmit(t) =>
      TransmitFrame(s, t);
      SameQueueKeepsCovered(s, Step(s, l));
    case ByReceive(r) =>
      ReceiveFrame(s, r);
      SameQueueKeepsCovered(s, Step(s, l));
  }
}
