/** What the transfer functions do is what the engine's transfer steps do, with the handler's steps in between. */
module HsspiTransferRuns {
  import opened HsspiCore
  import opened HsspiEngine
  import opened HsspiSafety
  import opened HsspiTransfer

  /** A run of the handler and of the worker's transfer steps alone. */
  predicate TransferOnly(ls: seq<Label>) {
    forall i :: 0 <= i < |ls| ==> ls[i].ByHandler? || ls[i].ByTransmit? || ls[i].ByReceive?
  }

  /** What a step of the engine does to a layer or to the line. */
  function EffectOf(s: State, l: Label): seq<Effect> {
    if l == ByTransmit(Sent) && s.worker.TxXferDone? then [SentBy(s.worker.tx, s.worker.ret)]
    else if l == ByReceive(Received) && s.worker.RxXferDone? && s.worker.held.Some? then
      [ReceivedBy(s.worker.ul, s.worker.ret)]
    else if l == ByReceive(Enable) && s.worker.Cleared? then [LineEnabled]
    else []
  }

  function EffectsOf(s: State, ls: seq<Label>): seq<Effect>
    requires s.core.WellFormed()
    decreases |ls|
  {
    if ls == [] then [] else EffectOf(s, ls[0]) + EffectsOf(Step(s, ls[0]), ls[1..])
  }

  /** Transfer labels lead from one state to another with these effects. */
  ghost predicate Leads(s: State, ls: seq<Label>, r: State, fx: seq<Effect>)
    requires s.core.WellFormed()
  {
    TransferOnly(ls) && Play(s, ls) == r && EffectsOf(s, ls) == fx
  }

  lemma LeadsNowhere(s: State)
    requires s.core.WellFormed()
    ensures Leads(s, [], s, []) && Play(s, []) == s && EffectsOf(s, []) == []
  {
  }

  lemma LeadsOne(s: State, l: Label)
    requires s.core.WellFormed() && TransferOnly([l])
    ensures Leads(s, [l], Step(s, l), EffectOf(s, l))
  {
    hide Step, EffectOf;
    PlayOne(s, l, []);
    assert [l] + [] == [l] && [l][1..] == [];
    assert EffectsOf(s, [l]) == EffectOf(s, l) + [];
  }

  lemma EffectsOne(s: State, l: Label, ls: seq<Label>)
    requires s.core.WellFormed()
    ensures EffectsOf(s, [l] + ls) == EffectOf(s, l) + EffectsOf(Step(s, l), ls)
  {
    hide Step, EffectOf;
    assert ([l] + ls)[1..] == ls;
  }

  lemma {:induction false} EffectsThen(s: State, a: seq<Label>, b: seq<Label>)
    requires s.core.WellFormed()
    ensures EffectsOf(s, a + b) == EffectsOf(s, a) + EffectsOf(Play(s, a), b)
    decreases |a|
  {
    hide Step, EffectOf, EffectsOf, Play, Core.WellFormed;
    if a == [] {
      assert a + b == b;
      LeadsNowhere(s);
    } else {
      var l, rest := a[0], a[1..];
      var s1 := Step(s, l);
      assert a == [l] + rest && a + b == [l] + (rest + b);
      PlayOne(s, l, rest);
      EffectsOne(s, l, rest);
      EffectsOne(s, l, rest + b);
      EffectsThen(s1, rest, b);
      var e := EffectOf(s, l);
      var f, g := EffectsOf(s1, rest), EffectsOf(Play(s1, rest), b);
      assert e + (f + g) == (e + f) + g;
    }
  }

  lemma LeadsThen(s: State, a: seq<Label>, m: State, fa: seq<Effect>, b: seq<Label>, r: State, fb: seq<Effect>,
                  fx: seq<Effect>)
    requires s.core.WellFormed() && Leads(s, a, m, fa) && m.core.WellFormed() && Leads(m, b, r, fb)
    requires fx == fa + fb
    ensures Leads(s, a + b, r, fx)
  {
    hide Step, EffectsOf, Play;
    PlayThen(s, a, b);
    EffectsThen(s, a, b);
  }

  /** The engine stands where a transfer stands: same exchanges, same bit, the handler outside. */
  ghost predicate Stands(s: State, v: View, w: Worker) {
    && s.core.WellFormed() && IrqBalanced(s)
    && s.handler == Outside && s.worker == w
    && s.xfers == v.xfers && s.ssIrq == v.ssIrq
  }

  /** What moves while the worker runs a transfer. */
  ghost predicate SameOtherwise(s: State, r: State) {
    r == s.(worker := r.worker, sent := r.sent, xfers := r.xfers, ssIrq := r.ssIrq, depth := r.depth)
  }

  lemma SameTwice(s: State, m: State, r: State)
    requires SameOtherwise(s, m) && SameOtherwise(m, r)
    ensures SameOtherwise(s, r)
  {
  }

  /** The handler's steps that bring SS_IRQ up, if it has come up. */
  lemma RingsIsARun(s: State, v: View, irq: bool) returns (ls: seq<Label>, r: State)
    requires Stands(s, v, s.worker) && !s.worker.Cleared? && (v.ssIrq ==> irq)
    ensures Leads(s, ls, r, [])
    ensures Stands(r, v.(ssIrq := irq), s.worker) && SameOtherwise(s, r) && r.sent == s.sent
  {
    if irq && !v.ssIrq {
      var s1 := Step(s, ByHandler(Enter));
      var s2 := Step(s1, ByHandler(Disable));
      r := Step(s2, ByHandler(SetBit));
      LeadsOne(s, ByHandler(Enter));
      LeadsOne(s1, ByHandler(Disable));
      LeadsOne(s2, ByHandler(SetBit));
      hide Leads;
      LeadsThen(s, [ByHandler(Enter)], s1, [], [ByHandler(Disable)], s2, [], []);
      LeadsThen(s, [ByHandler(Enter)] + [ByHandler(Disable)], s2, [], [ByHandler(SetBit)], r, [], []);
      ls := [ByHandler(Enter)] + [ByHandler(Disable)] + [ByHandler(SetBit)];
    } else {
      ls, r := [], s;
      LeadsNowhere(s);
    }
  }

  lemma ExchangeIsARun(s: State, v: View, x: Xfer, irq: bool) returns (ls: seq<Label>, r: State)
    requires Stands(s, v, s.worker) && InExchange(s.worker) && (v.ssIrq ==> irq)
    requires x.host == HostOf(s.worker) && Plausible(x.ret, x.soc)
    ensures Leads(s, ls, r, [])
    ensures Stands(r, AfterExchange(v, x, irq), AfterXfer(s.worker, x.ret, x.soc))
    ensures SameOtherwise(s, r) && r.sent == s.sent
  {
    hide Leads;
    var m;
    ls, m := RingsIsARun(s, v, irq);
    r := Step(m, ByTransmit(Exchange(x.ret, x.soc)));
    LeadsOne(m, ByTransmit(Exchange(x.ret, x.soc)));
    LeadsThen(s, ls, m, [], [ByTransmit(Exchange(x.ret, x.soc))], r, [], []);
    ls := ls + [ByTransmit(Exchange(x.ret, x.soc))];
  }

  /** The look-up in the layer table and the request for a block. */
  lemma LookupAndGet(s: State, ul: nat, length: nat, up: Upper) returns (ls: seq<Label>, r: State)
    requires s.core.WellFormed() && IrqBalanced(s) && s.worker == RxStart(ul, length) && up.layers == s.core.layers
    ensures Leads(s, ls, r, [])
    ensures r == s.(worker := r.worker) && r.worker.RxXfer? && HostOf(r.worker) == HostOf(RxXfer(ul, length, None))
    ensures r.worker.held.Some? <==> up.Gives(ul)
    ensures IrqBalanced(r)
  {
    var m := Step(s, ByReceive(Lookup));
    r := Step(m, ByReceive(Get(up.grants)));
    LeadsOne(s, ByReceive(Lookup));
    LeadsOne(m, ByReceive(Get(up.grants)));
    LeadsThen(s, [ByReceive(Lookup)], m, [], [ByReceive(Get(up.grants))], r, [], []);
    ls := [ByReceive(Lookup)] + [ByReceive(Get(up.grants))];
  }

  /** From the start of a read to the end of its exchange. */
  lemma FetchIsARun(s: State, v: View, ul: nat, length: nat, up: Upper, x: Xfer, irq: bool)
    returns (ls: seq<Label>, r: State)
    requires Stands(s, v, RxStart(ul, length)) && (v.ssIrq ==> irq) && up.layers == s.core.layers
    requires x.host == HostOf(RxXfer(ul, length, None)) && Plausible(x.ret, x.soc)
    ensures Leads(s, ls, r, [])
    ensures r.worker.RxXferDone? && r.worker.ul == ul && r.worker.ret == x.ret && r.worker.soc == x.soc
    ensures r.worker.held.Some? <==> up.Gives(ul)
    ensures Stands(r, AfterExchange(v, x, irq), r.worker) && SameOtherwise(s, r) && r.sent == s.sent
  {
    hide Leads, IrqBalanced, Core.WellFormed;
    var begin, m := LookupAndGet(s, ul, length, up);
    var ex;
    ex, r := ExchangeIsARun(m, v, x, irq);
    LeadsThen(s, begin, m, [], ex, r, [], []);
    ls := begin + ex;
  }

  /** The call back, and the line enabled if the bit could be cleared. */
  lemma EndOfRead(s: State, x: Xfer) returns (ls: seq<Label>, r: State)
    requires s.core.WellFormed() && IrqBalanced(s) && s.handler == Outside && s.worker.RxXferDone?
    requires s.worker.ul == x.host.ul && s.worker.ret == x.ret && s.worker.soc == x.soc
    ensures Leads(s, ls, r, ReadEffects(x, s.ssIrq, s.worker.held.Some?))
    ensures r.core.WellFormed() && IrqBalanced(r) && r.worker == Idle && r.handler == Outside
    ensures SameOtherwise(s, r) && r.xfers == s.xfers && r.sent == s.sent
    ensures r.ssIrq == (s.ssIrq && (x.ret != 0 || x.soc.odw))
  {
    var s1 := Step(s, ByReceive(Received));
    var s2 := Step(s1, ByReceive(ClearBit));
    r := Step(s2, ByReceive(Enable));
    LeadsOne(s, ByReceive(Received));
    LeadsOne(s1, ByReceive(ClearBit));
    LeadsOne(s2, ByReceive(Enable));
    var fx := EffectOf(s, ByReceive(Received));
    var gx := EffectOf(s2, ByReceive(Enable));
    assert fx + gx == ReadEffects(x, s.ssIrq, s.worker.held.Some?);
    hide Leads;
    LeadsThen(s, [ByReceive(Received)], s1, fx, [ByReceive(ClearBit)], s2, [], fx);
    LeadsThen(s, [ByReceive(Received)] + [ByReceive(ClearBit)], s2, fx, [ByReceive(Enable)], r, gx, fx + gx);
    ls := [ByReceive(Received)] + [ByReceive(ClearBit)] + [ByReceive(Enable)];
  }

  lemma ReadOutcome(v: View, after: View, ul: nat, length: nat, up: Upper, ret: int)
    requires DidRead(v, after, ul, length, up, ret)
    ensures |after.irqs| == |after.xfers| > |v.xfers| == |v.irqs|
    ensures var x, irq := after.xfers[|v.xfers|], after.irqs[|v.irqs|];
            && x.host == HostOf(RxXfer(ul, length, None)) && Plausible(x.ret, x.soc) && (v.ssIrq ==> irq)
            && after.xfers == v.xfers + [x] && after.ssIrq == (irq && (x.ret != 0 || x.soc.odw))
            && after.effects == v.effects + ReadEffects(x, irq, up.Gives(ul))
  {
  }

  /**
   A read is a run of the engine's receive steps: same exchange, same bit, and the same call back and enabling of the
   line, where the layer is the one the engine finds in its table.
   */
  lemma ReadIsARun(s: State, v: View, after: View, ul: nat, length: nat, up: Upper, ret: int)
    returns (ls: seq<Label>, r: State, fx: seq<Effect>)
    requires Stands(s, v, RxStart(ul, length)) && DidRead(v, after, ul, length, up, ret) && up.layers == s.core.layers
    ensures Leads(s, ls, r, fx) && after.effects == v.effects + fx
    ensures Stands(r, after, Idle) && SameOtherwise(s, r) && r.sent == s.sent
  {
    var x, irq := after.xfers[|v.xfers|], after.irqs[|v.irqs|];
    ReadOutcome(v, after, ul, length, up, ret);
    hide Leads, IrqBalanced, DidRead, Core.WellFormed, ReadEffects, SameOtherwise;
    var begin, m := FetchIsARun(s, v, ul, length, up, x, irq);
    fx := ReadEffects(x, irq, up.Gives(ul));
    var end;
    end, r := EndOfRead(m, x);
    SameTwice(s, m, r);
    LeadsThen(s, begin, m, [], end, r, fx, fx);
    ls := begin + end;
  }

  /** A run that has come to the start of a read goes on to its end. */
  lemma GoesOn(s: State, begin: seq<Label>, m: State, fm: seq<Effect>, was: seq<Effect>, v: View, after: View, ul: nat,
               length: nat, up: Upper, ret: int) returns (ls: seq<Label>, r: State, fx: seq<Effect>)
    requires s.core.WellFormed() && Leads(s, begin, m, fm) && SameOtherwise(s, m) && up.layers == s.core.layers
    requires Stands(m, v, RxStart(ul, length)) && DidRead(v, after, ul, length, up, ret) && v.effects == was + fm
    ensures Leads(s, ls, r, fx) && after.effects == was + fx
    ensures Stands(r, after, Idle) && SameOtherwise(s, r) && r.sent == m.sent
  {
    hide Leads, IrqBalanced, DidRead, Core.WellFormed;
    var rest, gx;
    rest, r, gx := ReadIsARun(m, v, after, ul, length, up, ret);
    SameTwice(s, m, r);
    hide SameOtherwise;
    LeadsThen(s, begin, m, fm, rest, r, gx, fm + gx);
    ls, fx := begin + rest, fm + gx;
  }

  /** From the block taken to the end of its write, with the block given back. */
  lemma WriteIsARun(s: State, v: View, w: Xfer, irq: bool, tx: Tx) returns (ls: seq<Label>, r: State)
    requires Stands(s, v, TxTaken(tx)) && (v.ssIrq ==> irq)
    requires w.host == HostOf(TxXfer(tx, v.ssIrq)) && Plausible(w.ret, w.soc)
    ensures Leads(s, ls, r, [SentBy(tx, w.ret)])
    ensures Stands(r, AfterWrite(v, tx, w, irq),
                   if w.ret == 0 && v.ssIrq then RxStart(w.soc.ul, w.soc.length) else Idle)
    ensures SameOtherwise(s, r) && r.sent == s.sent + [tx]
  {
    hide Leads, Core.WellFormed;
    var s1 := Step(s, ByTransmit(Header));
    LeadsOne(s, ByTransmit(Header));
    HeaderIsSet(s, s1, tx);
    hide Step, EffectOf, IrqBalanced;
    var ex, s2 := ExchangeIsARun(s1, v, w, irq);
    var end;
    end, r := SentAndAfter(s2, tx, v.ssIrq, w);
    var fx := [SentBy(tx, w.ret)];
    LeadsThen(s1, ex, s2, [], end, r, fx, fx);
    LeadsThen(s, [ByTransmit(Header)], s1, [], ex + end, r, fx, fx);
    ls := [ByTransmit(Header)] + (ex + end);
  }

  lemma HeaderIsSet(s: State, s1: State, tx: Tx)
    requires s.core.WellFormed() && IrqBalanced(s) && s.worker == TxTaken(tx) && s1 == Step(s, ByTransmit(Header))
    ensures s1 == s.(worker := TxXfer(tx, s.ssIrq)) && IrqBalanced(s1) && EffectOf(s, ByTransmit(Header)) == []
  {
  }

  lemma SentAndAfter(s: State, tx: Tx, prd: bool, w: Xfer) returns (ls: seq<Label>, r: State)
    requires s.core.WellFormed() && IrqBalanced(s) && s.worker == TxXferDone(tx, prd, w.ret, w.soc)
    ensures Leads(s, ls, r, [SentBy(tx, w.ret)])
    ensures r == s.(sent := s.sent + [tx],
                    worker := if w.ret == 0 && prd then RxStart(w.soc.ul, w.soc.length) else Idle)
    ensures IrqBalanced(r)
  {
    var m := Step(s, ByTransmit(Sent));
    r := Step(m, ByTransmit(AfterTx));
    LeadsOne(s, ByTransmit(Sent));
    LeadsOne(m, ByTransmit(AfterTx));
    hide Leads;
    LeadsThen(s, [ByTransmit(Sent)], m, [SentBy(tx, w.ret)], [ByTransmit(AfterTx)], r, [], [SentBy(tx, w.ret)]);
    ls := [ByTransmit(Sent)] + [ByTransmit(AfterTx)];
  }

  /** What `hsspi_tx` does is a run of the engine from the block taken to the worker idle again. */
  lemma TxIsARun(s: State, v: View, after: View, tx: Tx, up: Upper, ret: int)
    returns (ls: seq<Label>, r: State, fx: seq<Effect>)
    requires Stands(s, v, TxTaken(tx)) && DidTx(v, after, tx, up, ret) && up.layers == s.core.layers
    ensures Leads(s, ls, r, fx) && after.effects == v.effects + fx
    ensures Stands(r, after, Idle) && SameOtherwise(s, r) && r.sent == s.sent + [tx]
  {
    var w, irq := after.xfers[|v.xfers|], after.irqs[|v.irqs|];
    var m := AfterWrite(v, tx, w, irq);
    hide Leads, IrqBalanced, DidRead, Core.WellFormed, SameOtherwise, HostOf;
    ls, r := WriteIsARun(s, v, w, irq, tx);
    fx := [SentBy(tx, w.ret)];
    assert m.effects == v.effects + fx;
    if w.ret == 0 && v.ssIrq {
      assert DidRead(m, after, w.soc.ul, w.soc.length, up, ret);
      hide AfterWrite, DidTx;
      ls, r, fx := GoesOn(s, ls, r, fx, v.effects, m, after, w.soc.ul, w.soc.length, up, ret);
    }
  }

  /** A pre-read up to its end. */
  lemma ProbeIsARun(s: State, v: View, p: Xfer, irq: bool) returns (ls: seq<Label>, r: State)
    requires Stands(s, v, PreXfer) && (v.ssIrq ==> irq) && p.host == HostOf(PreXfer) && Plausible(p.ret, p.soc)
    ensures Leads(s, ls, r, [])
    ensures Stands(r, AfterExchange(v, p, irq), if p.ret == 0 then RxStart(p.soc.ul, p.soc.length) else Idle)
    ensures SameOtherwise(s, r) && r.sent == s.sent
  {
    hide Leads;
    var m;
    ls, m := ExchangeIsARun(s, v, p, irq);
    r := Step(m, ByTransmit(AfterPre));
    LeadsOne(m, ByTransmit(AfterPre));
    LeadsThen(s, ls, m, [], [ByTransmit(AfterPre)], r, [], []);
    ls := ls + [ByTransmit(AfterPre)];
  }

  /** What `hsspi_pre_read` does is a run of the engine from the empty queue to the worker idle again. */
  lemma PreReadIsARun(s: State, v: View, after: View, up: Upper, ret: int)
    returns (ls: seq<Label>, r: State, fx: seq<Effect>)
    requires Stands(s, v, PreXfer) && DidPreRead(v, after, up, ret) && up.layers == s.core.layers
    ensures Leads(s, ls, r, fx) && after.effects == v.effects + fx
    ensures Stands(r, after, Idle) && SameOtherwise(s, r) && r.sent == s.sent
  {
    var p, irq := after.xfers[|v.xfers|], after.irqs[|v.irqs|];
    var m := AfterExchange(v, p, irq);
    hide Leads, IrqBalanced, DidRead, Core.WellFormed, SameOtherwise, HostOf;
    ls, r := ProbeIsARun(s, v, p, irq);
    fx := [];
    assert m.effects == v.effects + fx;
    if p.ret == 0 {
      assert DidRead(m, after, p.soc.ul, p.soc.length, up, ret);
      hide AfterExchange, DidPreRead;
      ls, r, fx := GoesOn(s, ls, r, fx, v.effects, m, after, p.soc.ul, p.soc.length, up, ret);
    }
  }
}
