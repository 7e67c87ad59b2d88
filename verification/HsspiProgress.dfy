/** What the HSSPI engine gets done: no wake-up is lost, every block is sent, every waiting call is served. */
module HsspiProgress {
  import opened HsspiCore
  import opened HsspiEngine
  import opened HsspiSafety
  import opened HsspiBarrier
  import opened HsspiRuns

  // ------------------------------------------------------------------ no lost wake-up

  /** Steps of callers and of the interrupt handler, other than telling the thread to stop. */
  predicate Others(ls: seq<Label>) {
    forall i :: 0 <= i < |ls| ==> (ls[i].ByCaller? && ls[i] != ByCaller(StopThread)) || ls[i].ByHandler?
  }

  /** They leave the worker where it is; the bit can come up but not go, and jobs only join the queue behind. */
  predicate OthersFrame(s: State, r: State) {
    && r.core.WellFormed() && r.worker == s.worker && (s.ssIrq ==> r.ssIrq)
    && (!s.teardown.ShouldStop? ==> !r.teardown.ShouldStop?)
    && s.core.work <= r.core.work
  }

  lemma OthersStep(s: State, l: Label)
    requires s.core.WellFormed() && Others([l])
    ensures OthersFrame(s, Step(s, l))
  {
    assert [l][0] == l;
    match l
    case ByCaller(c) => CallerFrame(s, c);
    case ByHandler(h) => HandlerFrame(s, h);
    case _ =>
  }

  lemma {:induction false} OthersKeep(s: State, ls: seq<Label>)
    requires s.core.WellFormed() && Others(ls)
    ensures OthersFrame(s, Play(s, ls))
    decreases |ls|
  {
    hide Step;
    if ls != [] {
      assert Others([ls[0]]);
      OthersStep(s, ls[0]);
      OthersKeep(Step(s, ls[0]), ls[1..]);
    }
  }

  /** Something waits for the worker: a job, or a pending interrupt of a running engine. */
  predicate SomethingWaits(s: State) {
    s.core.work != [] || (s.core.state == Running && s.ssIrq)
  }

  /** What taking up work from queue `q` leads to: its first job, or else a pre-read. */
  predicate TakesUp(q: seq<Work>, r: State) {
    if q == [] then r.worker == PreXfer && r.core.work == []
    else
      && r.core.work == q[1..]
      && r.worker == if q[0].WorkTx? then TxTaken(q[0].tx) else Completing(q[0].call)
  }

  lemma CheckSees(s: State)
    requires s.core.WellFormed() && s.worker.Idle?
    ensures Step(s, ByLoop(Check)) == s.(worker := Checked(s.core.work == [], s.core.state == Running))
  {
  }

  lemma TestBitGoes(s: State)
    requires s.core.WellFormed() && s.worker.Checked?
    ensures Step(s, ByLoop(TestBit)).worker.Go? <==> !s.worker.empty || (s.worker.running && s.ssIrq)
    ensures Step(s, ByLoop(TestBit)) == s.(worker := Step(s, ByLoop(TestBit)).worker)
  {
  }

  lemma ProceedTakes(s: State)
    requires s.core.WellFormed() && s.worker.Go? && !s.teardown.ShouldStop?
    ensures Step(s, ByLoop(Proceed)) == s.(worker := Taking)
  {
  }

  lemma TakeTakes(s: State)
    requires s.core.WellFormed() && s.worker.Taking?
    ensures TakesUp(s.core.work, Step(s, ByLoop(Take)))
  {
    TakeFrame(s);
    hide TakeWork;
  }

  /**
   No wake-up is lost: whatever callers and the handler do between the worker's steps, a stop included, a worker that
   something waits for takes up the first job, or makes a pre-read if there is none.
   */
  lemma NoLostWakeup(s: State, a: seq<Label>, b: seq<Label>, c: seq<Label>)
    requires s.core.WellFormed() && s.worker.Idle? && !s.teardown.ShouldStop? && SomethingWaits(s)
    requires Others(a) && Others(b) && Others(c)
    ensures var checked := Play(Step(s, ByLoop(Check)), a);
            var tested := Play(Step(checked, ByLoop(TestBit)), b);
            var found := Play(Step(tested, ByLoop(Proceed)), c);
            s.core.work <= found.core.work && TakesUp(found.core.work, Step(found, ByLoop(Take)))
  {
    CheckSees(s);
    var s1 := Step(s, ByLoop(Check));
    OthersKeep(s1, a);
    var s2 := Play(s1, a);
    TestBitGoes(s2);
    var s3 := Step(s2, ByLoop(TestBit));
    OthersKeep(s3, b);
    var s4 := Play(s3, b);
    hide Step, Play;
    ProceedTakes(s4);
    var s5 := Step(s4, ByLoop(Proceed));
    OthersKeep(s5, c);
    TakeTakes(Play(s5, c));
  }

  /** With nobody else moving: a pending interrupt of a running engine leads to a pre-read. */
  lemma PendingInterruptIsServed(s: State)
    requires s.core.WellFormed() && s.worker.Idle? && s.core.work == [] && s.core.state == Running && s.ssIrq
    requires s.teardown.Alive?
    ensures var s1 := Step(s, ByLoop(Check));
            var s2 := Step(s1, ByLoop(TestBit));
            var s3 := Step(s2, ByLoop(Proceed));
            Step(s3, ByLoop(Take)) == s.(worker := PreXfer)
  {
    CheckSees(s);
    TestBitGoes(Step(s, ByLoop(Check)));
    ProceedTakes(Step(Step(s, ByLoop(Check)), ByLoop(TestBit)));
  }

  /** A worker nothing waits for goes round in its wait: with the engine stopped an interrupt alone does not wake it. */
  lemma NothingIsServed(s: State)
    requires s.core.WellFormed() && s.worker.Idle? && s.core.work == [] && !s.teardown.ShouldStop?
    requires s.core.state != Running || !s.ssIrq
    ensures var s1 := Step(s, ByLoop(Check));
            var s2 := Step(s1, ByLoop(TestBit));
            var s3 := Step(s2, ByLoop(Proceed));
            Step(s3, ByLoop(Take)) == s2 == s.(worker := NothingWaits) && Step(s2, ByLoop(TestStop)) == s
  {
  }

  /** A thread told to stop ends without taking a job, whether or not one waits. */
  lemma StoppedThreadEnds(s: State)
    requires s.core.WellFormed() && s.worker.Idle? && s.teardown.ShouldStop?
    ensures var s1 := Step(s, ByLoop(Check));
            var s2 := Step(s1, ByLoop(TestBit));
            var s3 := Step(s2, ByLoop(TestStop));
            Step(s3, ByLoop(Proceed)) == s.(worker := Exited)
  {
  }

  /** An interrupt that finds the line enabled disables it and sets the bit. */
  lemma InterruptIsSeen(s: State)
    requires s.core.WellFormed() && s.handler == Outside && s.depth == 0
    ensures Step(Step(Step(s, ByHandler(Enter)), ByHandler(Disable)), ByHandler(SetBit))
         == s.(ssIrq := true, depth := 1)
  {
  }

  /** A good read with no more data waiting clears the bit and enables the line; any other leaves both. */
  lemma ReadEnds(s: State)
    requires s.core.WellFormed() && s.worker.RxXferDone?
    ensures var r := Step(Step(Step(s, ByReceive(Received)), ByReceive(ClearBit)), ByReceive(Enable));
            r == if s.worker.ret == 0 && !s.worker.soc.odw && s.ssIrq
                 then s.(worker := Idle, ssIrq := false, depth := s.depth - 1)
                 else s.(worker := Idle)
  {
  }

  /** The checks pass exactly for a stopped engine with six empty slots; only then can the thread be stopped. */
  lemma TeardownNeedsQuiet(s: State)
    requires s.core.WellFormed() && s.teardown.Alive?
    ensures Step(s, ByCaller(StopThread)) == s
    ensures var r := Step(s, ByCaller(CheckDeinit));
            && r == s.(teardown := r.teardown) && (r.teardown.Passed? || r == s)
            && (r.teardown.Passed? <==>
                  && s.core.state != Running
                  && s.core.layers == [None, None, None, None, None, None])
            && (r.teardown.Passed? ==> Step(r, ByCaller(StopThread)) == s.(teardown := ShouldStop))
  {
    var six := s.core.layers;
    if forall i :: 0 <= i < |six| ==> six[i].None? {
      assert six == [None, None, None, None, None, None];
    } else {
      assert six != [None, None, None, None, None, None];
    }
  }

  // ------------------------------------------------------------------ no completion is lost

  /** Every call still waiting has its completion in the queue, or in the worker's hands. */
  ghost predicate Awaited(s: State) {
    forall c :: c in s.calls && s.calls[c].phase == Queued ==>
      WorkDone(c) in s.core.work || s.worker == Completing(c)
  }

  lemma CallerKeepsAwaited(s: State, l: CallerLabel)
    requires s.core.WellFormed() && Awaited(s)
    ensures Awaited(CallerStep(s, l))
  {
    CallerFrame(s, l);
    var r := CallerStep(s, l);
    forall c | c in r.calls && r.calls[c].phase == Queued
      ensures WorkDone(c) in r.core.work || r.worker == Completing(c)
    {
      if c in s.calls && s.calls[c].phase == Queued {
        assert WorkDone(c) in s.core.work || s.worker == Completing(c);
      } else {
        assert r.core.work == s.core.work + [WorkDone(c)];
      }
    }
  }

  lemma TakeKeepsAwaited(s: State)
    requires Awaited(s) && s.worker.Taking?
    ensures Awaited(TakeWork(s))
  {
    TakeFrame(s);
    var r, q := TakeWork(s), s.core.work;
    hide TakeWork;
    if q != [] {
      assert q == [q[0]] + q[1..];
    }
    forall c | c in r.calls && r.calls[c].phase == Queued
      ensures WorkDone(c) in r.core.work || r.worker == Completing(c)
    {
      assert WorkDone(c) in q;
    }
  }

  lemma LoopKeepsAwaited(s: State, l: LoopLabel)
    requires s.core.WellFormed() && Awaited(s)
    ensures Awaited(LoopStep(s, l))
  {
    LoopFrame(s, l);
    if l == Take && s.worker.Taking? {
      TakeKeepsAwaited(s);
    }
    hide TakeWork;
  }

  lemma StepKeepsAwaited(s: State, l: Label)
    requires s.core.WellFormed() && Awaited(s)
    ensures Awaited(Step(s, l))
  {
    hide CallerStep, HandlerStep, LoopStep;
    match l
    case ByCaller(c) => CallerKeepsAwaited(s, c);
    case ByHandler(h) => HandlerFrame(s, h);
    case ByLoop(w) => LoopKeepsAwaited(s, w);
    case ByTransmit(t) => TransmitFrame(s, t);
    case ByReceive(r) => ReceiveFrame(s, r);
  }

  lemma {:induction false} ReachableIsAwaited(ls: seq<Label>)
    ensures Awaited(Exec(ls))
  {
    if ls != [] {
      hide Step, Awaited;
      ReachableIsAwaited(ls[..|ls| - 1]);
      StepKeepsAwaited(Exec(ls[..|ls| - 1]), ls[|ls| - 1]);
    }
  }

  // ------------------------------------------------------------------ the worker drains its queue

  /** What the device answers to the exchange of each number. */
  type Device = nat -> (int, Soc)

  ghost predicate Answering(device: Device) {
    forall k :: Plausible(device(k).0, device(k).1)
  }

  predicate WorkerOnly(ls: seq<Label>) {
    forall i :: 0 <= i < |ls| ==> ls[i].ByLoop? || ls[i].ByTransmit? || ls[i].ByReceive?
  }

  /** What the worker does next. */
  function Next(s: State, device: Device): Label {
    match s.worker
    case Idle => ByLoop(Check)
    case Checked(_, _) => ByLoop(TestBit)
    case NothingWaits => ByLoop(TestStop)
    case Go => ByLoop(Proceed)
    case Taking => ByLoop(Take)
    case Completing(_) => ByLoop(Complete)
    case TxTaken(_) => ByTransmit(Header)
    case TxXferDone(_, _, _, _) => ByTransmit(Sent)
    case TxSent(_, _, _) => ByTransmit(AfterTx)
    case PreXferDone(_, _) => ByTransmit(AfterPre)
    case RxStart(_, _) => ByReceive(Lookup)
    case RxLooked(_, _, _) => ByReceive(Get(true))
    case RxXferDone(_, _, _, _, _) => ByReceive(Received)
    case RxReceived(_, _, _, _) => ByReceive(ClearBit)
    case Cleared => ByReceive(Enable)
    case _ => ByTransmit(Exchange(device(|s.xfers|).0, device(|s.xfers|).1))
  }

  /** Steps to the worker's next job; the states of a transfer come before the idle one. */
  function Rank(w: Worker): nat {
    match w
    case Taking => 1
    case Go => 2
    case Checked(false, _) => 3
    case Idle => 4
    case NothingWaits => 5
    case Checked(true, _) => 6
    case Cleared => 7
    case Completing(_) => 7
    case RxReceived(_, _, _, _) => 8
    case RxXferDone(_, _, _, _, _) => 9
    case RxXfer(_, _, _) => 10
    case RxLooked(_, _, _) => 11
    case RxStart(_, _) => 12
    case TxSent(_, _, _) => 13
    case PreXferDone(_, _) => 13
    case TxXferDone(_, _, _, _) => 14
    case PreXfer => 14
    case TxXfer(_, _) => 15
    case TxTaken(_) => 16
    case Exited => 0
  }

  predicate Drained(s: State) {
    s.worker.Idle? && s.core.work == []
  }

  /** A bound on the worker's steps until it is idle with an empty queue. */
  function Left(s: State): nat {
    var last := s.core.work == [] && (s.worker.Taking? || s.worker.Go? || s.worker.Checked?);
    if Drained(s) then 0 else 20 * |s.core.work| + Rank(s.worker) + (if last then 20 else 0)
  }

  /** A thread that has neither ended nor been told to. */
  predicate Up(s: State) {
    !s.teardown.ShouldStop? && !s.worker.Exited?
  }

  /** What the worker's steps leave alone. */
  predicate WorkerFrame(s: State, r: State, device: Device) {
    && r.core.layers == s.core.layers && r.core.state == s.core.state
    && r.accepted == s.accepted && r.gens == s.gens && r.teardown == s.teardown
    && s.xfers <= r.xfers
    && forall k :: |s.xfers| <= k < |r.xfers| ==> (r.xfers[k].ret, r.xfers[k].soc) == device(k)
  }

  lemma WorkerFrameThen(s: State, m: State, r: State, device: Device)
    requires WorkerFrame(s, m, device) && WorkerFrame(m, r, device)
    ensures WorkerFrame(s, r, device)
  {
    forall k | |s.xfers| <= k < |r.xfers|
      ensures (r.xfers[k].ret, r.xfers[k].soc) == device(k)
    {
      if k < |m.xfers| {
        assert r.xfers[k] == m.xfers[k];
      }
    }
  }

  lemma LoopDrains(s: State, device: Device)
    requires s.core.WellFormed() && Waiting(s) && Up(s) && !Drained(s) && Next(s, device).ByLoop?
    ensures var r := Step(s, Next(s, device)); Left(r) < Left(s) && Up(r) && WorkerFrame(s, r, device)
  {
    LoopFrame(s, Next(s, device).w);
    TakeFrame(s);
    hide TakeWork;
  }

  lemma TransmitDrains(s: State, device: Device)
    requires s.core.WellFormed() && Answering(device) && Up(s) && Next(s, device).ByTransmit?
    ensures var r := Step(s, Next(s, device)); Left(r) < Left(s) && Up(r) && WorkerFrame(s, r, device)
  {
    TransmitFrame(s, Next(s, device).t);
  }

  lemma ReceiveDrains(s: State, device: Device)
    requires s.core.WellFormed() && Up(s) && Next(s, device).ByReceive?
    ensures var r := Step(s, Next(s, device)); Left(r) < Left(s) && Up(r) && WorkerFrame(s, r, device)
  {
    ReceiveFrame(s, Next(s, device).r);
  }

  /** Every step of the worker brings it nearer to an empty queue, whatever the device answers. */
  lemma NextDrains(s: State, device: Device)
    requires Safe(s) && Answering(device) && Up(s) && !Drained(s)
    ensures var l := Next(s, device);
            && WorkerOnly([l]) && Safe(Step(s, l))
            && Left(Step(s, l)) < Left(s) && Up(Step(s, l)) && WorkerFrame(s, Step(s, l), device)
  {
    var l := Next(s, device);
    StepKeepsSafe(s, l);
    assert Waiting(s);
    hide Step, Safe, Left, WorkerFrame, Waiting;
    if l.ByLoop? {
      LoopDrains(s, device);
    } else if l.ByTransmit? {
      TransmitDrains(s, device);
    } else {
      ReceiveDrains(s, device);
    }
  }

  /** Left to itself the worker comes to an empty queue in a bounded number of steps, whatever the device answers. */
  lemma {:induction false} WorkerDrains(s: State, device: Device) returns (ls: seq<Label>, r: State)
    requires Safe(s) && Awaited(s) && Answering(device) && Up(s)
    ensures WorkerOnly(ls) && |ls| <= Left(s) && r == Play(s, ls)
    ensures Safe(r) && Awaited(r) && Drained(r) && WorkerFrame(s, r, device)
    decreases Left(s)
  {
    hide Step, Safe, Awaited, Answering, Next, Left, WorkerFrame;
    if Drained(s) {
      ls, r := [], s;
      FrameOfNothing(s, device);
    } else {
      var l := Next(s, device);
      NextDrains(s, device);
      StepOfSafe(s, l);
      var rest;
      rest, r := WorkerDrains(Step(s, l), device);
      WorkerFrameThen(s, Step(s, l), r, device);
      PlayOne(s, l, rest);
      ls := [l] + rest;
    }
  }

  lemma FrameOfNothing(s: State, device: Device)
    ensures WorkerFrame(s, s, device)
  {
  }

  lemma StepOfSafe(s: State, l: Label)
    requires Safe(s) && Awaited(s)
    ensures s.core.WellFormed() && Step(s, l).core.WellFormed() && Awaited(Step(s, l))
  {
    StepKeepsAwaited(s, l);
  }

  /**
   After any run that leaves the thread alive, the worker alone, in at most 20 steps for each job and 26 more, has given
   back every accepted block and served every waiting call, whatever the device answers.
   */
  lemma EverythingIsServed(run: seq<Label>, device: Device) returns (ls: seq<Label>)
    requires Up(Exec(run)) && Answering(device)
    ensures WorkerOnly(ls) && |ls| <= 20 * |Exec(run).core.work| + 26
    ensures var s, r := Exec(run), Exec(run + ls);
            && r.worker == Idle && r.core.work == []
            && r.sent == r.accepted == s.accepted
            && (forall c :: c in r.calls ==> r.calls[c].phase != Queued)
            && WorkerFrame(s, r, device)
  {
    var s := Exec(run);
    var r;
    ReachableIsSafe(run);
    ReachableIsAwaited(run);
    hide Safe, Awaited, Step, Exec;
    ls, r := WorkerDrains(s, device);
    PlayFromInit(run);
    PlayFromInit(run + ls);
    PlayThen(Init, run, ls);
    DrainedMeans(r);
  }

  lemma DrainedMeans(r: State)
    requires Safe(r) && Awaited(r) && Drained(r)
    ensures r.sent == r.accepted && forall c :: c in r.calls ==> r.calls[c].phase != Queued
  {
  }
}
