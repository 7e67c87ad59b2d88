/** What the headers of the HSSPI exchanges say, over every interleaving and for each transfer function. */
module HsspiWire {
  import opened HsspiCore
  import opened HsspiEngine
  import opened HsspiSafety
  import opened HsspiRuns
  import opened HsspiTransfer

  // ------------------------------------------------------------------ the exchange log of the engine

  /** A write names its layer and length, with or without a pre-read; an empty pre-read names neither. */
  predicate HeaderKind(h: Host) {
    || (h.wr && !h.rd)
    || (h.prd && !h.wr && !h.rd && h.ul == 0 && h.length == 0)
    || (h.rd && !h.wr && !h.prd)
  }

  /** Layer and length of each write on the wire, in order. */
  function WriteHeaders(xs: seq<Xfer>): seq<(nat, nat)> {
    if xs == [] then []
    else
      var h := xs[|xs| - 1].host;
      WriteHeaders(xs[..|xs| - 1]) + (if h.wr then [(h.ul, h.length)] else [])
  }

  function BlockHeaders(txs: seq<Tx>): (hs: seq<(nat, nat)>)
    ensures |hs| == |txs|
  {
    seq(|txs|, i requires 0 <= i < |txs| => (txs[i].layer.id, txs[i].length))
  }

  /** The block whose exchange is over but which has not been given back. */
  function Exchanged(w: Worker): seq<Tx> {
    match w
    case TxXferDone(tx, _, _, _) => [tx]
    case _ => []
  }

  /** The header of the exchange just made. */
  predicate LastHeader(w: Worker, xs: seq<Xfer>) {
    match w
    case TxXferDone(tx, prd, _, _) => xs != [] && xs[|xs| - 1].host == Host(true, prd, false, tx.layer.id, tx.length)
    case PreXferDone(_, _) => xs != [] && xs[|xs| - 1].host == Host(false, true, false, 0, 0)
    case _ => true
  }

  ghost predicate WritesCarry(s: State) {
    && WriteHeaders(s.xfers) == BlockHeaders(s.sent + Exchanged(s.worker))
    && LastHeader(s.worker, s.xfers)
    && forall i :: 0 <= i < |s.xfers| ==> HeaderKind(s.xfers[i].host)
  }

  lemma WriteHeadersNext(xs: seq<Xfer>, x: Xfer)
    ensures WriteHeaders(xs + [x]) == WriteHeaders(xs) + (if x.host.wr then [(x.host.ul, x.host.length)] else [])
  {
    assert (xs + [x])[..|xs|] == xs;
  }

  lemma BlockHeadersNext(txs: seq<Tx>, tx: Tx)
    ensures BlockHeaders(txs + [tx]) == BlockHeaders(txs) + [(tx.layer.id, tx.length)]
  {
  }

  lemma LoopKeepsWrites(s: State, l: LoopLabel)
    requires s.core.WellFormed() && WritesCarry(s)
    ensures WritesCarry(LoopStep(s, l))
  {
    hide WriteHeaders, BlockHeaders;
    LoopFrame(s, l);
  }

  lemma ExchangeKeepsWrites(s: State, ret: int, soc: Soc)
    requires WritesCarry(s)
    ensures WritesCarry(TransmitStep(s, Exchange(ret, soc)))
  {
    hide WriteHeaders, BlockHeaders;
    WriteHeadersNext(s.xfers, Xfer(HostOf(s.worker), ret, soc));
    if s.worker.TxXfer? {
      BlockHeadersNext(s.sent, s.worker.tx);
      assert s.sent + [] == s.sent;
    }
  }

  lemma TransmitKeepsWrites(s: State, l: TransmitLabel)
    requires WritesCarry(s)
    ensures WritesCarry(TransmitStep(s, l))
  {
    hide WriteHeaders, BlockHeaders;
    TransmitFrame(s, l);
    if l.Exchange? {
      ExchangeKeepsWrites(s, l.ret, l.soc);
    } else if l.Sent? && s.worker.TxXferDone? {
      assert s.sent + [s.worker.tx] + [] == s.sent + [s.worker.tx];
    }
  }

  lemma ReceiveKeepsWrites(s: State, l: ReceiveLabel)
    requires s.core.WellFormed() && WritesCarry(s)
    ensures WritesCarry(ReceiveStep(s, l))
  {
    hide WriteHeaders, BlockHeaders;
    ReceiveFrame(s, l);
  }

  lemma StepKeepsWrites(s: State, l: Label)
    requires s.core.WellFormed() && WritesCarry(s)
    ensures WritesCarry(Step(s, l))
  {
    hide CallerStep, HandlerStep, LoopStep, TransmitStep, ReceiveStep, WriteHeaders, BlockHeaders;
    match l
    case ByCaller(c) => CallerFrame(s, c);
    case ByHandler(h) => HandlerFrame(s, h);
    case ByLoop(w) => LoopKeepsWrites(s, w);
    case ByTransmit(t) => TransmitKeepsWrites(s, t);
    case ByReceive(r) => ReceiveKeepsWrites(s, r);
  }

  lemma {:induction false} ReachableWritesCarry(ls: seq<Label>)
    ensures WritesCarry(Exec(ls))
  {
    if ls != [] {
      hide Step, WritesCarry;
      ReachableWritesCarry(ls[..|ls| - 1]);
      StepKeepsWrites(Exec(ls[..|ls| - 1]), ls[|ls| - 1]);
    }
  }

  /**
   In every interleaving the writes on the wire are the accepted blocks: in the order they were accepted, each once,
   each header with the layer and the length of its block, up to those still queued or not yet exchanged.
   */
  lemma WireIsAccepted(ls: seq<Label>)
    ensures WriteHeaders(Exec(ls).xfers) <= BlockHeaders(Exec(ls).accepted)
    ensures Exec(ls).core.work == [] && Exec(ls).worker.Idle? ==>
              WriteHeaders(Exec(ls).xfers) == BlockHeaders(Exec(ls).accepted)
  {
    ReachableIsSafe(ls);
    ReachableWritesCarry(ls);
    hide WriteHeaders;
    var s := Exec(ls);
    var done := s.sent + Exchanged(s.worker);
    assert s.accepted[..|done|] == done;
    assert BlockHeaders(s.accepted)[..|done|] == BlockHeaders(done);
  }

  /** In every reachable state, the exchange just made bears the header of the block or of an empty pre-read. */
  lemma HeaderOnWire(ls: seq<Label>)
    ensures var s := Exec(ls);
            && (s.worker.TxXferDone? ==>
                  && s.xfers != []
                  && var h := s.xfers[|s.xfers| - 1].host;
                     && h.wr && !h.rd && h.prd == s.worker.prd
                     && h.ul == s.worker.tx.layer.id && h.length == s.worker.tx.length)
            && (s.worker.PreXferDone? ==>
                  && s.xfers != []
                  && var h := s.xfers[|s.xfers| - 1].host;
                     !h.wr && !h.rd && h.prd && h.ul == 0 && h.length == 0)
  {
    ReachableWritesCarry(ls);
  }

  /** Every exchange that succeeded brought back a ready header with the low flags clear. */
  ghost predicate AnswersPlausible(xs: seq<Xfer>) {
    forall i :: 0 <= i < |xs| && xs[i].ret == 0 ==> xs[i].soc.rdy && xs[i].soc.low == 0
  }

  lemma {:induction false} GoodExchangesAreReady(ls: seq<Label>)
    ensures AnswersPlausible(Exec(ls).xfers)
  {
    if ls != [] {
      var s, l := Exec(ls[..|ls| - 1]), ls[|ls| - 1];
      GoodExchangesAreReady(ls[..|ls| - 1]);
      hide CallerStep, HandlerStep, LoopStep, ReceiveStep, Exec;
      match l
      case ByCaller(c) => CallerFrame(s, c);
      case ByHandler(h) => HandlerFrame(s, h);
      case ByLoop(w) => LoopFrame(s, w);
      case ByTransmit(t) =>
      case ByReceive(r) => ReceiveFrame(s, r);
    }
  }

  // ------------------------------------------------------------------ the transfer functions

  /**
   `hsspi_tx`: the write's header has the layer and length of the block, and the pre-read flag exactly when an interrupt
   was pending; the block is given back at once, with the result of the write.
   */
  lemma TxWrites(v: View, after: View, tx: Tx, up: Upper, ret: int)
    requires DidTx(v, after, tx, up, ret)
    ensures |after.xfers| > |v.xfers| && |after.effects| > |v.effects|
    ensures var h := after.xfers[|v.xfers|].host;
            h.wr && h.prd == v.ssIrq && !h.rd && h.ul == tx.layer.id && h.length == tx.length
    ensures v.xfers <= after.xfers && v.effects <= after.effects
    ensures after.effects[|v.effects|] == SentBy(tx, after.xfers[|v.xfers|].ret)
    ensures var w := after.xfers[|v.xfers|];
            if w.ret == 0 && v.ssIrq then |after.xfers| == |v.xfers| + 2 && after.xfers[|v.xfers| + 1].host.rd
            else |after.xfers| == |v.xfers| + 1 && ret == w.ret && after.effects == v.effects + [SentBy(tx, w.ret)]
  {
    var w := after.xfers[|v.xfers|];
    if w.ret == 0 && v.ssIrq {
      ReadReads(AfterWrite(v, tx, w, after.irqs[|v.irqs|]), after, w.soc.ul, w.soc.length, up, ret);
    }
  }

  /** `hsspi_pre_read`: a header with the pre-read flag alone, then a read exactly if that succeeded. */
  lemma PreReadAsks(v: View, after: View, up: Upper, ret: int)
    requires DidPreRead(v, after, up, ret)
    ensures |after.xfers| > |v.xfers| && v.xfers <= after.xfers && v.effects <= after.effects
    ensures var h := after.xfers[|v.xfers|].host; !h.wr && h.prd && !h.rd && h.ul == 0 && h.length == 0
    ensures var p := after.xfers[|v.xfers|];
            if p.ret == 0 then |after.xfers| == |v.xfers| + 2 && after.xfers[|v.xfers| + 1].host.rd
            else |after.xfers| == |v.xfers| + 1 && ret == p.ret && after.effects == v.effects
  {
    var p := after.xfers[|v.xfers|];
    if p.ret == 0 {
      ReadReads(AfterExchange(v, p, after.irqs[|v.irqs|]), after, p.soc.ul, p.soc.length, up, ret);
    }
  }

  /**
   `hsspi_rx`: one exchange whose header has the read flag alone and what was announced. It succeeds exactly if the
   device's header shows output active, no error, and the same layer and length; the layer gets its block back whatever
   the result; SS_IRQ is taken, and the line enabled, only after a good exchange with no more data waiting.
   */
  lemma ReadReads(v: View, after: View, ul: nat, length: nat, up: Upper, ret: int)
    requires DidRead(v, after, ul, length, up, ret)
    ensures |after.xfers| == |after.irqs| == |v.xfers| + 1 && v.xfers <= after.xfers && v.effects <= after.effects
    ensures var h := after.xfers[|v.xfers|].host; !h.wr && !h.prd && h.rd && h.ul == ul && h.length == length
    ensures var x := after.xfers[|v.xfers|];
            && (ret == 0 <==> x.ret == 0 && x.soc.oa && !x.soc.err && x.soc.ul == ul && x.soc.length == length)
            && (x.ret != 0 ==> ret == x.ret)
    ensures var x, irq := after.xfers[|v.xfers|], after.irqs[|v.irqs|];
            && (v.ssIrq ==> irq)
            && (after.ssIrq <==> irq && (x.ret != 0 || x.soc.odw))
            && (LineEnabled in after.effects[|v.effects|..] <==> irq && !after.ssIrq)
            && (ReceivedBy(ul, x.ret) in after.effects[|v.effects|..]
                <==> ul < 6 && ul < |up.layers| && up.layers[ul].Some? && up.grants)
  {
    var x, irq := after.xfers[|v.xfers|], after.irqs[|v.irqs|];
    var fx := ReadEffects(x, irq, up.Gives(ul));
    assert after.effects[|v.effects|..] == fx;
  }
}
