/**
 The HSSPI transfer engine as a transition system: callers, the SS_IRQ handler and the one worker thread
 interleave freely. Each label is one locked region, one bit operation, one test of the stop request, one call back
 or one SPI exchange; a label whose actor is not at that point leaves the state as it is, so every label sequence is
 an interleaving.
 */
module HsspiEngine {
  import opened HsspiCore
  import C = HsspiCore

  /** A host header: write, pre-read and read flags, upper layer and length. */
  datatype Host = Host(wr: bool, prd: bool, rd: bool, ul: nat, length: nat)

  /** A device header: output data waiting, output active, ready, error, the four low flag bits. */
  datatype Soc = Soc(odw: bool, oa: bool, rdy: bool, err: bool, low: nat, ul: nat, length: nat)

  /** One completed call of the SPI exchange function. */
  datatype Xfer = Xfer(host: Host, ret: int, soc: Soc)

  /** A layer held by the worker during a read, with the registration it was found under. */
  datatype Held = Held(layer: Layer, gen: nat)

  datatype Worker =
    | Idle
    | Checked(empty: bool, running: bool)
    | NothingWaits
    | Go
    | Taking
    | Exited
    | Completing(call: nat)
    | TxTaken(tx: Tx)
    | TxXfer(tx: Tx, prd: bool)
    | TxXferDone(tx: Tx, prd: bool, ret: int, soc: Soc)
    | TxSent(prd: bool, ret: int, soc: Soc)
    | PreXfer
    | PreXferDone(ret: int, soc: Soc)
    | RxStart(ul: nat, length: nat)
    | RxLooked(ul: nat, length: nat, held: Option<Held>)
    | RxXfer(ul: nat, length: nat, held: Option<Held>)
    | RxXferDone(ul: nat, length: nat, held: Option<Held>, ret: int, soc: Soc)
    | RxReceived(ul: nat, length: nat, ret: int, soc: Soc)
    | Cleared

  /** Where the SS_IRQ handler is: outside, entered, or between the disable and the bit being set. */
  datatype Handler = Outside | Entered | Masked

  /** How far `hsspi_deinit` has come: its locked checks passed, then the thread was told to stop. */
  datatype Teardown = Alive | Passed | ShouldStop

  datatype Kind = ForUnregister(layer: Layer, gen: nat) | ForStop
  datatype Phase = Queued | Completed | Returned
  datatype Call = Call(kind: Kind, phase: Phase)

  /** `accepted`, `sent`, `xfers`, `gens` and `calls` record history; nothing in the code reads them. */
  datatype State = State(
    core: Core,
    worker: Worker,
    teardown: Teardown,
    ssIrq: bool,
    depth: int,
    handler: Handler,
    accepted: seq<Tx>,
    sent: seq<Tx>,
    xfers: seq<Xfer>,
    gens: map<Layer, nat>,
    calls: map<nat, Call>)
  {
    /** How many times a layer has been registered. */
    function Gen(l: Layer): nat {
      if l in gens then gens[l] else 0
    }
  }

  datatype CallerLabel =
    | Register(layer: Layer)
    | Unregister(layer: Layer, call: nat)
    | Stop(call: nat)
    | Return(call: nat)
    | Start
    | Send(layer: Layer, blk: nat, length: nat)
    | CheckDeinit
    | StopThread

  datatype HandlerLabel = Enter | Disable | SetBit

  /** The thread function: waiting, taking a job, completing a completion. */
  datatype LoopLabel = Check | TestBit | TestStop | Signal | Proceed | Take | Complete

  /** The transmit and pre-read functions, and the end of any SPI exchange. */
  datatype TransmitLabel = Header | Exchange(ret: int, soc: Soc) | Sent | AfterTx | AfterPre

  datatype ReceiveLabel = Lookup | Get(got: bool) | Received | ClearBit | Enable

  datatype Label =
    | ByCaller(c: CallerLabel)
    | ByHandler(h: HandlerLabel)
    | ByLoop(w: LoopLabel)
    | ByTransmit(t: TransmitLabel)
    | ByReceive(r: ReceiveLabel)

  const Init: State :=
    State(INITIAL, Idle, Alive, false, 0, Outside, [], [], [], map[], map[])

  /** `spi_xfer` returns 0 only on a header with RDY set and the low nibble clear. */
  predicate Plausible(ret: int, soc: Soc) {
    ret == 0 ==> soc.rdy && soc.low == 0
  }

  // ------------------------------------------------------------------ callers

  /** A call identifier names one call; reusing one does nothing. */
  function CallerStep(s: State, l: CallerLabel): (r: State)
    requires s.core.WellFormed()
    ensures r.core.WellFormed()
  {
    match l
    case Register(y) =>
      var (core, ret) := C.Register(s.core, y);
      if ret == 0 then s.(core := core, gens := s.gens[y := s.Gen(y) + 1]) else s
    case Unregister(y, c) =>
      var (core, ret) := C.Unregister(s.core, y, c);
      if ret == 0 && c !in s.calls
      then s.(core := core, calls := s.calls[c := Call(ForUnregister(y, s.Gen(y)), Queued)])
      else s
    case Stop(c) =>
      if c in s.calls then s
      else s.(core := C.Stop(s.core, c), calls := s.calls[c := Call(ForStop, Queued)])
    case Return(c) =>
      if c in s.calls && s.calls[c].phase == Completed
      then s.(calls := s.calls[c := s.calls[c].(phase := Returned)])
      else s
    case Start => s.(core := C.Start(s.core))
    case Send(y, b, n) =>
      var tx := NextTx(s, y, b, n);
      var (core, ret) := C.Send(s.core, tx);
      if ret == 0 then s.(core := core, accepted := s.accepted + [tx]) else s
    case CheckDeinit => if C.CanDeinit(s.core) && s.teardown.Alive? then s.(teardown := Passed) else s
    case StopThread => if s.teardown.Passed? then s.(teardown := ShouldStop) else s
  }

  function NextTx(s: State, y: Layer, blk: nat, length: nat): Tx {
    Tx(|s.accepted|, blk, length, y, s.Gen(y))
  }

  // ------------------------------------------------------------------ the interrupt handler

  function HandlerStep(s: State, l: HandlerLabel): State {
    match l
    case Enter => if s.handler == Outside && s.depth == 0 then s.(handler := Entered) else s
    case Disable => if s.handler == Entered then s.(handler := Masked, depth := s.depth + 1) else s
    case SetBit => if s.handler == Masked then s.(handler := Outside, ssIrq := true) else s
  }

  // ------------------------------------------------------------------ the worker thread

  function TakeWork(s: State): State {
    match C.GetWork(s.core)
    case (None, _) => s.(worker := PreXfer)
    case (Some(WorkDone(c)), core) => s.(core := core, worker := Completing(c))
    case (Some(WorkTx(tx)), core) => s.(core := core, worker := TxTaken(tx))
  }

  function LoopStep(s: State, l: LoopLabel): (r: State)
    requires s.core.WellFormed()
    ensures r.core.WellFormed()
  {
    match l
    case Check =>
      if s.worker.Idle? then s.(worker := Checked(s.core.work == [], s.core.state == Running)) else s
    case TestBit =>
      if s.worker.Checked?
      then s.(worker := if !s.worker.empty || (s.worker.running && s.ssIrq) then Go else NothingWaits)
      else s
    case TestStop => if s.worker.NothingWaits? then s.(worker := if s.teardown.ShouldStop? then Go else Idle) else s
    case Signal => if s.worker.Idle? then s.(worker := Exited) else s
    case Proceed => if s.worker.Go? then s.(worker := if s.teardown.ShouldStop? then Exited else Taking) else s
    case Take => if s.worker.Taking? then TakeWork(s) else s
    case Complete =>
      if s.worker.Completing? && s.worker.call in s.calls then
        var c := s.worker.call;
        s.(worker := Idle, calls := s.calls[c := s.calls[c].(phase := Completed)])
      else s
  }

  /** The header of the exchange the worker is in. */
  function HostOf(w: Worker): Host {
    match w
    case TxXfer(tx, prd) => Host(true, prd, false, tx.layer.id, tx.length)
    case PreXfer => Host(false, true, false, 0, 0)
    case RxXfer(ul, length, _) => Host(false, false, true, ul, length)
    case _ => Host(false, false, false, 0, 0)
  }

  function AfterXfer(w: Worker, ret: int, soc: Soc): Worker {
    match w
    case TxXfer(tx, prd) => TxXferDone(tx, prd, ret, soc)
    case PreXfer => PreXferDone(ret, soc)
    case RxXfer(ul, length, held) => RxXferDone(ul, length, held, ret, soc)
    case _ => w
  }

  function TransmitStep(s: State, l: TransmitLabel): State {
    match l
    case Header => if s.worker.TxTaken? then s.(worker := TxXfer(s.worker.tx, s.ssIrq)) else s
    case Exchange(ret, soc) =>
      if (s.worker.TxXfer? || s.worker.PreXfer? || s.worker.RxXfer?) && Plausible(ret, soc)
      then s.(worker := AfterXfer(s.worker, ret, soc), xfers := s.xfers + [Xfer(HostOf(s.worker), ret, soc)])
      else s
    case Sent =>
      if s.worker.TxXferDone?
      then s.(worker := TxSent(s.worker.prd, s.worker.ret, s.worker.soc), sent := s.sent + [s.worker.tx])
      else s
    case AfterTx =>
      if s.worker.TxSent? then
        s.(worker := if s.worker.ret == 0 && s.worker.prd then RxStart(s.worker.soc.ul, s.worker.soc.length) else Idle)
      else s
    case AfterPre =>
      if s.worker.PreXferDone? then
        s.(worker := if s.worker.ret == 0 then RxStart(s.worker.soc.ul, s.worker.soc.length) else Idle)
      else s
  }

  function Find(s: State, ul: nat): Option<Held>
    requires s.core.WellFormed()
  {
    if ul < LAYERS && s.core.layers[ul].Some?
    then Some(Held(s.core.layers[ul].value, s.Gen(s.core.layers[ul].value)))
    else None
  }

  function ReceiveStep(s: State, l: ReceiveLabel): State
    requires s.core.WellFormed()
  {
    match l
    case Lookup =>
      if s.worker.RxStart? then s.(worker := RxLooked(s.worker.ul, s.worker.length, Find(s, s.worker.ul))) else s
    case Get(got) =>
      if s.worker.RxLooked?
      then s.(worker := RxXfer(s.worker.ul, s.worker.length, if got then s.worker.held else None))
      else s
    case Received =>
      if s.worker.RxXferDone?
      then s.(worker := RxReceived(s.worker.ul, s.worker.length, s.worker.ret, s.worker.soc))
      else s
    case ClearBit =>
      if s.worker.RxReceived? then
        if s.worker.ret == 0 && !s.worker.soc.odw && s.ssIrq then s.(worker := Cleared, ssIrq := false)
        else s.(worker := Idle)
      else s
    case Enable => if s.worker.Cleared? then s.(worker := Idle, depth := s.depth - 1) else s
  }

  function Step(s: State, l: Label): (r: State)
    requires s.core.WellFormed()
    ensures r.core.WellFormed()
  {
    match l
    case ByCaller(c) => CallerStep(s, c)
    case ByHandler(h) => HandlerStep(s, h)
    case ByLoop(w) => LoopStep(s, w)
    case ByTransmit(t) => TransmitStep(s, t)
    case ByReceive(r) => ReceiveStep(s, r)
  }

  /** The state after a run: any sequence of labels from the initial state. */
  function Exec(ls: seq<Label>): (s: State)
    ensures s.core.WellFormed()
  {
    if ls == [] then Init else Step(Exec(ls[..|ls| - 1]), ls[|ls| - 1])
  }

  /** A run that goes on from a state. */
  function Play(s: State, ls: seq<Label>): (r: State)
    requires s.core.WellFormed()
    ensures r.core.WellFormed()
    decreases |ls|
  {
    if ls == [] then s else Play(Step(s, ls[0]), ls[1..])
  }

  lemma PlayOne(s: State, l: Label, ls: seq<Label>)
    requires s.core.WellFormed()
    ensures Play(s, [l] + ls) == Play(Step(s, l), ls)
  {
    assert ([l] + ls)[1..] == ls;
  }

  lemma {:induction false} PlayThen(s: State, a: seq<Label>, b: seq<Label>)
    requires s.core.WellFormed()
    ensures Play(s, a + b) == Play(Play(s, a), b)
    decreases |a|
  {
    hide Step;
    if a == [] {
      assert a + b == b;
    } else {
      PlayThen(Step(s, a[0]), a[1..], b);
      assert a + b == [a[0]] + (a[1..] + b);
      PlayOne(s, a[0], a[1..] + b);
    }
  }

  /** Going on from the initial state is a whole run. */
  lemma {:induction false} PlayFromInit(ls: seq<Label>)
    ensures Play(Init, ls) == Exec(ls)
  {
    hide Step;
    if ls != [] {
      var a, l := ls[..|ls| - 1], ls[|ls| - 1];
      PlayFromInit(a);
      PlayThen(Init, a, [l]);
      assert ls == a + [l];
      PlayOne(Exec(a), l, []);
      assert [l] + [] == [l];
    }
  }
}
