/**
 The transfer functions the worker thread calls, on the shared headers they update in place. What the wires and
 the device answer is arbitrary.
 */
module HsspiTransfer {
  import opened Errno
  import opened HsspiCore
  import opened HsspiEngine
  import opened HsspiSafety

  const ATTEMPTS: nat := 5
  const ZERO_SOC: Soc := Soc(false, false, false, false, 0, 0, 0)

  /** The retry rule: every attempt but the last failed with EAGAIN, and only five such failures give up. */
  ghost predicate RetriesRight(tries: seq<int>, ret: int) {
    && 1 <= |tries| <= ATTEMPTS
    && tries[|tries| - 1] == ret
    && (forall i :: 0 <= i < |tries| - 1 ==> tries[i] == -EAGAIN)
    && (ret == -EAGAIN ==> |tries| == ATTEMPTS)
  }

  lemma AppendKeepsAnnounced(xs: seq<Xfer>, x: Xfer)
    requires ReadsAnnounced(xs)
    requires x.host.rd ==> xs != [] && Announces(xs[|xs| - 1], x.host.ul, x.host.length)
    ensures ReadsAnnounced(xs + [x])
  {
  }

  /** What a read must bring back: output active, no error, and the layer and length it asked for. */
  predicate ReadGood(x: Xfer) {
    x.ret == 0 && x.soc.oa && !x.soc.err && x.soc.ul == x.host.ul && x.soc.length == x.host.length
  }

  /** What a transfer does to others: calls back into an upper layer, with a status, and enabling the SS_IRQ line. */
  datatype Effect = SentBy(tx: Tx, status: int) | ReceivedBy(ul: nat, status: int) | LineEnabled

  /** The upper side as a transfer finds it: the layer table, and whether a layer's `get` hands out a block. */
  datatype Upper = Upper(layers: seq<Option<Layer>>, grants: bool) {
    predicate Gives(ul: nat) {
      ul < LAYERS && ul < |layers| && layers[ul].Some? && grants
    }
  }

  /** What a transfer changes: the exchanges made, SS_IRQ after each of them, SS_IRQ now, and the effects in order. */
  datatype View = View(xfers: seq<Xfer>, irqs: seq<bool>, ssIrq: bool, effects: seq<Effect>)

  function AfterExchange(v: View, x: Xfer, irq: bool): View {
    v.(xfers := v.xfers + [x], irqs := v.irqs + [irq], ssIrq := irq)
  }

  /** The layer is called back if it had a block; without more data waiting, a set SS_IRQ makes the line be enabled. */
  function ReadEffects(x: Xfer, irq: bool, found: bool): seq<Effect> {
    (if found then [ReceivedBy(x.host.ul, x.ret)] else [])
    + (if x.ret == 0 && !x.soc.odw && irq then [LineEnabled] else [])
  }

  function AfterRead(v: View, x: Xfer, irq: bool, found: bool): View {
    var m := AfterExchange(v, x, irq);
    m.(ssIrq := irq && (x.ret != 0 || x.soc.odw), effects := m.effects + ReadEffects(x, irq, found))
  }

  function AfterWrite(v: View, tx: Tx, w: Xfer, irq: bool): View {
    var m := AfterExchange(v, w, irq);
    m.(effects := m.effects + [SentBy(tx, w.ret)])
  }

  /** The exchange after `v`, as an interrupt may have seen it: SS_IRQ can come up meanwhile, but not go. */
  predicate NextIs(v: View, after: View, host: Host) {
    && |after.irqs| == |after.xfers| > |v.xfers| == |v.irqs|
    && after.xfers[|v.xfers|].host == host
    && Plausible(after.xfers[|v.xfers|].ret, after.xfers[|v.xfers|].soc)
    && (v.ssIrq ==> after.irqs[|v.irqs|])
  }

  /** A read of what was announced, and nothing else, leads from `v` to `after`. */
  predicate DidRead(v: View, after: View, ul: nat, length: nat, up: Upper, ret: int) {
    && NextIs(v, after, HostOf(RxXfer(ul, length, None)))
    && var x := after.xfers[|v.xfers|];
       && after == AfterRead(v, x, after.irqs[|v.irqs|], up.Gives(ul))
       && (ret == 0 <==> ReadGood(x))
       && (x.ret != 0 ==> ret == x.ret)
  }

  /** A write leads from `v` to `after`, followed by the read it announced exactly if it carried PRD and succeeded. */
  predicate DidTx(v: View, after: View, tx: Tx, up: Upper, ret: int) {
    && NextIs(v, after, HostOf(TxXfer(tx, v.ssIrq)))
    && var w := after.xfers[|v.xfers|];
       var m := AfterWrite(v, tx, w, after.irqs[|v.irqs|]);
       if w.ret == 0 && v.ssIrq then DidRead(m, after, w.soc.ul, w.soc.length, up, ret)
       else after == m && ret == w.ret
  }

  /** An empty pre-read leads from `v` to `after`, followed by the read it announced exactly if it succeeded. */
  predicate DidPreRead(v: View, after: View, up: Upper, ret: int) {
    && NextIs(v, after, HostOf(PreXfer))
    && var p := after.xfers[|v.xfers|];
       var m := AfterExchange(v, p, after.irqs[|v.irqs|]);
       if p.ret == 0 then DidRead(m, after, p.soc.ul, p.soc.length, up, ret)
       else after == m && ret == p.ret
  }

  lemma ReadIsDone(v: View, after: View, x: Xfer, irq: bool, ul: nat, length: nat, up: Upper, ret: int)
    requires |v.xfers| == |v.irqs| && x.host == HostOf(RxXfer(ul, length, None)) && Plausible(x.ret, x.soc)
    requires (v.ssIrq ==> irq) && after == AfterRead(v, x, irq, up.Gives(ul))
    requires (ret == 0 <==> ReadGood(x)) && (x.ret != 0 ==> ret == x.ret)
    ensures DidRead(v, after, ul, length, up, ret)
  {
  }

  class Transfer {
    var host: Host
    var soc: Soc
    var ssIrq: bool
    var ssReady: bool
    var ssBusy: bool
    var waitingSsReady: bool
    var xfers: seq<Xfer>
    ghost var tries: seq<int>
    ghost var irqs: seq<bool>
    ghost var effects: seq<Effect>

    ghost predicate Valid()
      reads this
    {
      ReadsAnnounced(xfers) && |irqs| == |xfers|
    }

    ghost function Now(): View
      reads this
    {
      View(xfers, irqs, ssIrq, effects)
    }

    constructor ()
      ensures Valid() && Now() == View([], [], false, [])
    {
      host := Host(false, false, false, 0, 0);
      soc := ZERO_SOC;
      ssIrq, ssReady, ssBusy, waitingSsReady := false, false, false, false;
      xfers, tries, irqs, effects := [], [], [], [];
    }

    /** The interrupt handlers, at any time: they set SS_IRQ and move the ready and busy bits. */
    method Interrupts()
      modifies this`ssIrq, this`ssReady, this`ssBusy
      ensures old(ssIrq) ==> ssIrq
    {
      var rings: bool := *;
      if rings {
        ssIrq := true;
      }
      ssReady, ssBusy := *, *;
    }

    /**
     `hsspi_wait_ss_ready`: the ready line and the wait's outcome are inputs; `line` is the line as read last, `busy`
     and `ready` the bits as tested.
     */
    method WaitSsReady() returns (ret: int, ghost line: bool, ghost busy: bool, ghost ready: bool)
      modifies this`waitingSsReady, this`ssIrq, this`ssReady, this`ssBusy
      ensures old(ssIrq) ==> ssIrq
      ensures ret <= 0 && (ret == 0 ==> line)
      ensures ret == 0 ==> if waitingSsReady then !busy else ready
    {
      waitingSsReady := true;
      line, ready := false, false;
      Interrupts();
      busy := ssBusy;
      if !ssBusy {
        ssReady := false;
        var lineHigh: bool := *;
        line := lineHigh;
        if lineHigh {
          return 0, true, busy, ready;
        }
      }
      Interrupts();
      var waited: int := *;
      if waited == 0 {
        return -EAGAIN, line, busy, ready;
      }
      if waited < 0 {
        return waited, line, busy, ready;
      }
      // The wait ends without timeout only when it finds the bit set; it takes it.
      ready := true;
      ssReady := false;
      Interrupts();
      var stillHigh: bool := *;
      line := stillHigh;
      if !stillHigh {
        return -EAGAIN, false, busy, ready;
      }
      waitingSsReady := false;
      ret := 0;
    }

    /**
     `spi_xfer`: at most five attempts, of which `transfers` came to a transfer; success only on a header that is ready
     and has its low nibble clear, and an empty header when there was no transfer.
     */
    method SpiXfer() returns (ret: int, ghost transfers: nat)
      modifies this`soc, this`ssIrq, this`ssReady, this`ssBusy, this`waitingSsReady, this`xfers, this`tries, this`irqs
      ensures RetriesRight(tries, ret)
      ensures 1 <= |tries| <= 5 && (ret == -11 ==> |tries| == 5) && (ret == 0 ==> soc.rdy && soc.low == 0)
      ensures transfers <= |tries| && (transfers == 0 ==> ret < 0 && soc == Soc(false, false, false, false, 0, 0, 0))
      ensures Plausible(ret, soc) && (old(ssIrq) ==> ssIrq)
      ensures Now() == AfterExchange(old(Now()), Xfer(host, ret, soc), ssIrq)
      ensures !waitingSsReady
    {
      var retry := ATTEMPTS;
      soc := ZERO_SOC;
      tries, transfers := [], 0;
      ret := -EAGAIN;
      while ret == -EAGAIN && retry > 0
        invariant xfers == old(xfers) && irqs == old(irqs) && (old(ssIrq) ==> ssIrq)
        invariant 0 <= retry <= ATTEMPTS
        invariant ret == -EAGAIN ==> |tries| == ATTEMPTS - retry
        invariant tries == [] ==> ret == -EAGAIN && retry == ATTEMPTS
        invariant tries != [] ==> |tries| <= ATTEMPTS && tries[|tries| - 1] == ret
        invariant forall i :: 0 <= i < |tries| - 1 ==> tries[i] == -EAGAIN
        invariant Plausible(ret, soc)
        invariant transfers <= |tries| && (transfers == 0 ==> ret < 0 && soc == ZERO_SOC)
        decreases retry, ret == -EAGAIN
      {
        ghost var line, busy, ready;
        ret, line, busy, ready := WaitSsReady();
        if ret >= 0 {
          ssBusy := true;
          Interrupts();
          soc, ret := *, *;
          transfers := transfers + 1;
          if ret == 0 && (!soc.rdy || soc.low != 0) {
            ret := -EAGAIN;
          }
        }
        tries := tries + [ret];
        if ret == -EAGAIN {
          retry := retry - 1;
        }
      }
      waitingSsReady := false;
      xfers := xfers + [Xfer(host, ret, soc)];
      irqs := irqs + [ssIrq];
    }

    /** `check_soc_flag` for a read: output active and no error. */
    predicate ReadFlagsGood()
      reads this`soc
    {
      soc.oa && !soc.err
    }

    /**
     `hsspi_rx`: reads what the last pre-read announced, into a block of the layer if it is registered and gives one,
     and re-enables SS_IRQ when no more data waits.
     */
    method Rx(ul: nat, length: nat, up: Upper) returns (ret: int)
      requires Valid()
      requires xfers != [] && Announces(xfers[|xfers| - 1], ul, length)
      modifies this
      ensures Valid() && DidRead(old(Now()), Now(), ul, length, up, ret)
    {
      host := Host(false, false, true, ul, length);
      var layer := if ul < LAYERS && ul < |up.layers| then up.layers[ul] else None;
      var block := layer.Some? && up.grants;
      ghost var transfers;
      ret, transfers := SpiXfer();
      ghost var x := Xfer(host, ret, soc);
      AppendKeepsAnnounced(old(xfers), x);
      hide ReadsAnnounced, DidRead, Plausible;
      ghost var irq := ssIrq;
      if block {
        effects := effects + [ReceivedBy(ul, ret)];
      }
      if ret == 0 {
        if !ReadFlagsGood() {
          ret := -1;
        }
        if soc.ul != ul || soc.length != length {
          ret := -1;
        }
        if !soc.odw {
          var wasSet := ssIrq;
          ssIrq := false;
          if wasSet {
            effects := effects + [LineEnabled];
          }
        }
      }
      ReadIsDone(old(Now()), Now(), x, irq, ul, length, up, ret);
    }

    /** `hsspi_tx`: a write, then the announced read if SS_IRQ was pending and the write succeeded. */
    method Tx(tx: Tx, up: Upper) returns (ret: int)
      requires Valid()
      modifies this
      ensures Valid() && DidTx(old(Now()), Now(), tx, up, ret)
    {
      host := Host(true, ssIrq, false, tx.layer.id, tx.length);
      ghost var transfers;
      ret, transfers := SpiXfer();
      AppendKeepsAnnounced(old(xfers), xfers[|xfers| - 1]);
      effects := effects + [SentBy(tx, ret)];
      if ret != 0 {
        return;
      }
      if host.prd {
        ret := Rx(soc.ul, soc.length, up);
      }
    }

    /** `hsspi_pre_read`: an empty pre-read, then the announced read if it succeeded. */
    method PreRead(up: Upper) returns (ret: int)
      requires Valid()
      modifies this
      ensures Valid() && DidPreRead(old(Now()), Now(), up, ret)
    {
      host := Host(false, true, false, 0, 0);
      ghost var transfers;
      ret, transfers := SpiXfer();
      AppendKeepsAnnounced(old(xfers), xfers[|xfers| - 1]);
      if ret != 0 {
        return;
      }
      ret := Rx(soc.ul, soc.length, up);
    }
  }
}
