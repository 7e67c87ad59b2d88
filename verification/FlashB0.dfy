/** What a flashing run is meant to put on the wire. */
module FlashPlan {
  import opened Words
  import opened FlashSpec
  import opened RomHandle
  import opened Stitching

  /** One segment to send: its command, the response its first chunk is sent on, and that of every later one. */
  datatype Load = Load(cmd: seq<byte>, first: byte, next: byte, data: seq<byte>)

  /** The command that starts flashing, by life-cycle state. */
  function LoadCommand(lcsState: nat): byte {
    if lcsState == LCS_SECURE then LOAD_OEM else LOAD_ICV
  }

  function Marked(chunks: seq<seq<byte>>, l: Load): (ws: seq<Write>)
    ensures |ws| == |chunks|
  {
    seq(|chunks|, i requires 0 <= i < |chunks| => Write(l.cmd, chunks[i], if i == 0 then l.first else l.next))
  }

  /** The writes of one segment. */
  function LoadWrites(l: Load, n: nat): (ws: seq<Write>)
    requires n > 0
  {
    Marked(Chunks(l.data, n), l)
  }

  lemma LoadWriteAt(l: Load, n: nat, k: nat)
    requires n > 0 && k < |Chunks(l.data, n)|
    ensures k < |LoadWrites(l, n)|
    ensures LoadWrites(l, n)[k] == Write(l.cmd, Chunks(l.data, n)[k], if k == 0 then l.first else l.next)
  {
  }

  /** After `k` writes of a segment, `sent` bytes of it have gone. */
  ghost predicate Gone(l: Load, n: nat, sent: nat, k: nat)
    requires n > 0
  {
    && sent <= |l.data| && k <= |LoadWrites(l, n)|
    && Chunks(l.data, n)[k..] == Chunks(l.data[sent..], n)
    && (k == 0 <==> sent == 0)
  }

  lemma NoneGone(l: Load, n: nat)
    requires n > 0
    ensures Gone(l, n, 0, 0)
  {
    hide Chunks;
    assert l.data[0..] == l.data;
  }

  /** The next write of a segment that has not gone entirely. */
  lemma NextWrite(l: Load, n: nat, sent: nat, k: nat)
    requires n > 0 && Gone(l, n, sent, k) && sent < |l.data|
    ensures var m := if |l.data| - sent > n then n else |l.data| - sent;
            && k < |LoadWrites(l, n)| && Gone(l, n, sent + m, k + 1)
            && LoadWrites(l, n)[..k + 1] == LoadWrites(l, n)[..k]
                  + [Write(l.cmd, l.data[sent..sent + m], if k == 0 then l.first else l.next)]
  {
    NextChunk(l.data, sent, n);
    hide Chunks;
    TakeOne(Chunks(l.data, n), k);
    TakeOne(LoadWrites(l, n), k);
    LoadWriteAt(l, n, k);
  }

  lemma AllGone(l: Load, n: nat, k: nat)
    requires n > 0 && Gone(l, n, |l.data|, k)
    ensures k == |LoadWrites(l, n)| && LoadWrites(l, n)[..k] == LoadWrites(l, n)
  {
  }

  /** The writes of a list of segments, one segment after the other. */
  function Plan(loads: seq<Load>, n: nat): (ws: seq<Write>)
    requires n > 0
  {
    if loads == [] then [] else LoadWrites(loads[0], n) + Plan(loads[1..], n)
  }

  function Segs(loads: seq<Load>): (parts: seq<seq<byte>>) {
    seq(|loads|, i requires 0 <= i < |loads| => loads[i].data)
  }

  /** A plan carries exactly its segments. */
  lemma {:induction false} PlanMakesUpParts(loads: seq<Load>, n: nat)
    requires n > 0
    ensures Concat(Datas(Plan(loads, n))) == Concat(Segs(loads))
  {
    if loads != [] {
      hide Chunks;
      PlanMakesUpParts(loads[1..], n);
      ChunksMakeUpData(loads[0].data, n);
      var ws := LoadWrites(loads[0], n);
      assert Datas(ws) == Chunks(loads[0].data, n);
      CarriedAppend(ws, Plan(loads[1..], n));
      assert Segs(loads) == [loads[0].data] + Segs(loads[1..]);
    }
  }

  lemma {:induction false} PlanAppend(a: seq<Load>, b: seq<Load>, n: nat)
    requires n > 0
    ensures Plan(a + b, n) == Plan(a, n) + Plan(b, n)
  {
    PlanUnfold(a, n);
    PlanUnfold(a + b, n);
    hide LoadWrites, Plan;
    if a == [] {
      assert a + b == b;
    } else {
      PlanAppend(a[1..], b, n);
      assert (a + b)[0] == a[0] && (a + b)[1..] == a[1..] + b;
      ThreeParts(LoadWrites(a[0], n), Plan(a[1..], n), Plan(b, n));
    }
  }

  lemma ThreeParts<T>(a: seq<T>, b: seq<T>, c: seq<T>)
    ensures a + (b + c) == (a + b) + c
  {
  }

  lemma PlanUnfold(loads: seq<Load>, n: nat)
    requires n > 0
    ensures Plan(loads, n) == if loads == [] then [] else LoadWrites(loads[0], n) + Plan(loads[1..], n)
  {
  }

  lemma FourLoads(ls: seq<Load>, n: nat)
    requires n > 0 && |ls| == 4
    ensures Plan(ls, n)
         == LoadWrites(ls[0], n) + (LoadWrites(ls[1], n) + (LoadWrites(ls[2], n) + LoadWrites(ls[3], n)))
  {
    hide LoadWrites, Plan;
    PlanUnfold(ls, n);
    PlanUnfold(ls[1..], n);
    PlanUnfold(ls[1..][1..], n);
    assert ls[1..][1..][1..] == [ls[3]];
    PlanOne(ls[3], n);
  }

  lemma PlanOne(l: Load, n: nat)
    requires n > 0
    ensures Plan([l], n) == LoadWrites(l, n)
  {
    hide LoadWrites;
    assert Plan([l][1..], n) == [];
  }

  /** The first `k` writes of segment `i`, behind all segments before it, begin the plan. */
  lemma PlanBegins(loads: seq<Load>, n: nat, i: nat, k: nat)
    requires n > 0 && i < |loads| && k <= |LoadWrites(loads[i], n)|
    ensures |Plan(loads[..i], n)| + k <= |Plan(loads, n)|
    ensures Plan(loads, n)[..|Plan(loads[..i], n)| + k] == Plan(loads[..i], n) + LoadWrites(loads[i], n)[..k]
    ensures Plan(loads[..i + 1], n) == Plan(loads[..i], n) + LoadWrites(loads[i], n)
  {
    hide Plan, LoadWrites;
    PlanAppend(loads[..i], [loads[i]], n);
    PlanOne(loads[i], n);
    assert loads[..i + 1] == loads[..i] + [loads[i]];
    PlanAppend(loads[..i + 1], loads[i + 1..], n);
    assert loads == loads[..i + 1] + loads[i + 1..];
  }

  /** The data bytes on the wire, headers and commands left out. */
  function DataOnWire(wire: seq<Frame>, h: nat): seq<byte> {
    Concat(Datas(Writes(wire, h)))
  }

  lemma {:induction false} CommandsCarryNothing(ws: seq<Write>)
    requires forall i :: 0 <= i < |ws| ==> ws[i].data == []
    ensures Concat(Datas(ws)) == []
  {
    if ws != [] {
      CommandsCarryNothing(ws[1..]);
      assert Datas(ws)[1..] == Datas(ws[1..]);
    }
  }

  /**
   If the first `k` writes of some commands followed by a plan were made, the data on the wire grew by an initial
   part of the segments; if all were made, by all of them.
   */
  lemma WireCarries(before: seq<Frame>, after: seq<Frame>, h: nat, commands: seq<Write>, loads: seq<Load>, n: nat,
                    k: nat)
    requires n > 0 && k <= |commands + Plan(loads, n)|
    requires forall i :: 0 <= i < |commands| ==> commands[i].data == []
    requires Writes(after, h) == Writes(before, h) + (commands + Plan(loads, n))[..k]
    ensures DataOnWire(before, h) <= DataOnWire(after, h) <= DataOnWire(before, h) + Concat(Segs(loads))
    ensures k == |commands + Plan(loads, n)| ==> DataOnWire(after, h) == DataOnWire(before, h) + Concat(Segs(loads))
  {
    hide Writes, Plan, Concat, Datas, Segs;
    var all := commands + Plan(loads, n);
    PlanMakesUpParts(loads, n);
    CommandsCarryNothing(commands);
    CarriedAppend(commands, Plan(loads, n));
    CarriedAppend(Writes(before, h), all[..k]);
    CarriedAppend(all[..k], all[k..]);
    assert all == all[..k] + all[k..];
    var was, grown, rest := DataOnWire(before, h), Concat(Datas(all[..k])), Concat(Datas(all[k..]));
    assert Concat(Segs(loads)) == grown + rest;
    assert was + (grown + rest) == (was + grown) + rest;
    if k == |all| {
      assert all[..k] == all;
    }
  }

  lemma CarriedAppend(a: seq<Write>, b: seq<Write>)
    ensures Concat(Datas(a + b)) == Concat(Datas(a)) + Concat(Datas(b))
  {
    assert Datas(a + b) == Datas(a) + Datas(b);
    ConcatAppend(Datas(a), Datas(b));
  }

  lemma {:induction false} PartFits(parts: seq<seq<byte>>, i: nat)
    requires AllShort(parts) && i < |parts|
    ensures |parts[i]| <= |Stitch(parts)|
  {
    hide Word32;
    if i > 0 {
      PartFits(parts[1..], i - 1);
    }
  }
}

/** `qmrom_b0.c`: polling the device and flashing it chunk by chunk. */
module FlashB0 {
  import opened Errno
  import opened Words
  import opened FlashSpec
  import opened FlashPlan
  import opened Stitching
  import opened Unstitching
  import opened RomHandle

  const CHUNK_SIZE: nat := 1008
  const DATA_AT: nat := 5
  const READY: byte := 0x20
  const CERT_DATA: byte := 0x10
  const IMAGE_DATA: byte := 0x0F

  /** From `a` to `b` the device was polled: with empty frames, and again only while no flag showed. */
  ghost predicate Polled(a: seq<Frame>, b: seq<Frame>) {
    && |a| < |b| && b[..|a|] == a
    && forall i :: |a| <= i < |b| ==> IsPoll(b[i]) && (i > |a| ==> b[i].flags == 0)
  }

  /** Polls with empty frames until a flag shows, at most `retries + 1` times. */
  method PollSoc(h: RomHandle)
    requires h.Valid()
    modifies h`wire, h.hstc, h.sstc
    ensures h.Valid() && Polled(old(h.wire), h.wire) && h.wire[|old(h.wire)|].flags == old(h.sstc[0])
    ensures |h.wire| <= |old(h.wire)| + h.retries + 1
    ensures h.sstc[0] == 0 ==> |h.wire| == |old(h.wire)| + h.retries + 1
    ensures h.sstc[4] == old(h.sstc[4])
    ensures Quiet(old(h.wire), h.wire, DATA_AT)
  {
    var retries: int := h.retries;
    h.Fill(0, [0, 0, 0, 0]);
    assert h.hstc[..4] == [0, 0, 0, 0];
    var again := true;
    while again
      invariant h.Valid() && -1 <= retries <= h.retries && (again ==> retries >= 0)
      invariant |h.wire| == |old(h.wire)| + h.retries - retries
      invariant |h.wire| == |old(h.wire)| ==> again && h.wire == old(h.wire) && h.sstc[0] == old(h.sstc[0])
      invariant |h.wire| > |old(h.wire)| ==>
                  && Polled(old(h.wire), h.wire) && h.wire[|old(h.wire)|].flags == old(h.sstc[0])
                  && (again <==> retries >= 0 && h.sstc[0] == 0)
      invariant h.sstc[4] == old(h.sstc[4])
      invariant h.hstc[..4] == [0, 0, 0, 0]
      decreases retries + 1
    {
      var _ := h.SpiTransfer(STC_HEADER);
      again := retries != 0 && h.sstc[0] == 0;
      retries := retries - 1;
    }
  }

  /**
   The device's flags decide the next frame: data waiting is announced by a pre-read, active output is read, and
   otherwise it is polled.
   */
  predicate Reacts(f: Frame) {
    if f.flags / 0x80 == 1 then IsPreRead(f)
    else if (f.flags / 0x40) % 2 == 1 then IsRead(f)
    else IsPoll(f)
  }

  ghost predicate Reacting(a: seq<Frame>, b: seq<Frame>) {
    |a| <= |b| && b[..|a|] == a && forall i :: |a| < i < |b| ==> Reacts(b[i])
  }

  lemma PollingReacts(a: seq<Frame>, b: seq<Frame>)
    requires Polled(a, b)
    ensures Reacting(a, b)
  {
  }

  lemma ReactsOn(a: seq<Frame>, b: seq<Frame>, c: seq<Frame>)
    requires Reacting(a, b) && |a| < |b| <= |c| && c[..|b|] == b
    requires forall i :: |b| <= i < |c| ==> Reacts(c[i])
    ensures Reacting(a, c)
  {
    assert c[..|a|] == c[..|b|][..|a|];
    forall i | |a| < i < |c|
      ensures Reacts(c[i])
    {
      if i < |b| {
        assert c[i] == c[..|b|][i];
      }
    }
  }

  /** One turn of waiting: does what the flags ask for. Only a read can fail. */
  method React(h: RomHandle) returns (rc: int)
    requires h.Valid()
    modifies h`wire, h.hstc, h.sstc
    ensures h.Valid() && |old(h.wire)| <= |h.wire| <= |old(h.wire)| + h.retries + 1
    ensures h.wire[..|old(h.wire)|] == old(h.wire)
    ensures forall i :: |old(h.wire)| <= i < |h.wire| ==> Reacts(h.wire[i])
    ensures rc == 0 ==> |h.wire| > |old(h.wire)|
    ensures Quiet(old(h.wire), h.wire, DATA_AT)
  {
    rc := 0;
    if OutWaiting(h.sstc[0]) {
      var _ := h.PreRead();
    } else if OutActive(h.sstc[0]) {
      rc := h.Read();
    } else {
      PollSoc(h);
    }
  }

  /**
   Waits for the READY flags; at most `(retries + 1)^2` transfers whatever the device answers, and every frame after
   the first is the one its flags ask for. `failed` if a read failed; without that, giving up comes only after
   `retries + 1` transfers.
   */
  method WaitReady(h: RomHandle) returns (rc: int, ghost failed: bool)
    requires h.Valid()
    modifies h`wire, h.hstc, h.sstc
    ensures h.Valid() && Reacting(old(h.wire), h.wire)
    ensures |h.wire| <= |old(h.wire)| + (h.retries + 1) * (h.retries + 1)
    ensures Quiet(old(h.wire), h.wire, DATA_AT)
    ensures rc == 0 ==> h.sstc[0] == 0x20
    ensures rc != 0 && !failed ==> rc == -8011 && h.sstc[0] != 0x20 && |h.wire| > |old(h.wire)| + h.retries
  {
    hide Times, Reacts;
    failed := false;
    var retries: int := h.retries;
    PollSoc(h);
    PollingReacts(old(h.wire), h.wire);
    ghost var n := h.retries + 1;
    ghost var turns := 1;
    TimesStep(0, n);
    while retries != 0 && h.sstc[0] != READY
      invariant h.Valid() && 0 <= retries <= h.retries && turns == h.retries - retries + 1
      invariant |old(h.wire)| + turns <= |h.wire| <= |old(h.wire)| + Times(turns, n)
      invariant Reacting(old(h.wire), h.wire)
      invariant Quiet(old(h.wire), h.wire, DATA_AT)
      decreases retries
    {
      retries := retries - 1;
      ghost var before := h.wire;
      TimesStep(turns, n);
      turns := turns + 1;
      rc := React(h);
      ReactsOn(old(h.wire), before, h.wire);
      QuietThen(old(h.wire), before, h.wire, DATA_AT);
      if rc != 0 {
        failed := true;
        TimesUpTo(turns, n, n);
        return;
      }
    }
    TimesUpTo(turns, n, n);
    rc := if h.sstc[0] == READY then 0 else SPI_ERR_WAIT_READY_TIMEOUT;
  }

  /** The four segments, each with its command and the response the device asks for it with. */
  function Loads(s: Segments): (ls: seq<Load>)
    ensures |ls| == 4 && Segs(ls) == s.Parts()
  {
    [ Load([CERT_DATA], WAITING_FOR_FIRST_KEY_CERT, WAITING_FOR_FIRST_KEY_CERT, s.key1),
      Load([CERT_DATA], WAITING_FOR_SECOND_KEY_CERT, WAITING_FOR_SECOND_KEY_CERT, s.key2),
      Load([CERT_DATA], WAITING_FOR_CONTENT_CERT, WAITING_FOR_CONTENT_CERT, s.cert),
      Load([IMAGE_DATA], WAITING_FOR_SEC_FILE_DATA, WAITING_FOR_SEC_FILE_DATA, s.image)
    ]
  }

  /** Everything a flashing run writes: the load command, on whatever response `r` was last, and the segments. */
  function Program(lcsState: nat, r: byte, s: Segments): (ws: seq<Write>) {
    [Write([LoadCommand(lcsState)], [], r)] + Plan(Loads(s), CHUNK_SIZE)
  }

  /** The program in numbers: what is sent for which response, and in chunks of how many bytes. */
  lemma ProgramInNumbers(lcsState: nat, r: byte, s: Segments)
    ensures Program(lcsState, r, s)
         == [Write([if lcsState == 5 then 1 else 0], [], r)]
            + (LoadWrites(Load([0x10], 0x11, 0x11, s.key1), 1008)
               + (LoadWrites(Load([0x10], 0x12, 0x12, s.key2), 1008)
                  + (LoadWrites(Load([0x10], 0x13, 0x13, s.cert), 1008)
                     + LoadWrites(Load([0x0F], 0x06, 0x06, s.image), 1008))))
  {
    hide LoadWrites;
    FourLoads(Loads(s), CHUNK_SIZE);
  }

  /**
   Sends `data` in chunks, each only after the device announced `exp`. What was sent, also on an error, is an
   initial part of the chunks, `k` of them; `wrong` if the device then announced something else.
   */
  method FlashData(h: RomHandle, data: seq<byte>, cmd: byte, exp: byte)
    returns (rc: int, ghost k: nat, ghost wrong: bool)
    requires h.Valid() && |data| < HALF
    modifies h`wire, h.hstc, h.sstc
    ensures h.Valid()
    ensures Carried(old(h.wire), h.wire, Load([cmd], exp, exp, data), k)
    ensures rc == 0 ==> k == |LoadWrites(Load([cmd], exp, exp, data), CHUNK_SIZE)|
    ensures wrong ==> h.sstc[4] != exp && rc == if h.sstc[4] == 0x15 then -9005 else -10001
    ensures rc != 0 ==> wrong || k > 0
  {
    hide LoadWrites, Writes, Careful, Gone;
    ghost var load := Load([cmd], exp, exp, data);
    var sent := 0;
    rc, k, wrong := 0, 0, false;
    NoneGone(load, CHUNK_SIZE);
    NothingYet(h.wire, load);
    while sent < |data|
      invariant h.Valid() && sent <= |data| && Gone(load, CHUNK_SIZE, sent, k) && rc == 0 && !wrong
      invariant Carried(old(h.wire), h.wire, load, k)
      decreases |data| - sent
    {
      var txBytes := |data| - sent;
      if txBytes > CHUNK_SIZE {
        txBytes := CHUNK_SIZE;
      }
      NextWrite(load, CHUNK_SIZE, sent, k);
      ghost var before := h.wire;
      var handed;
      rc, handed := SendChunk(h, data[sent..sent + txBytes], cmd, exp);
      CarriedThen(old(h.wire), before, h.wire, load, k, handed, data[sent..sent + txBytes]);
      if handed {
        k := k + 1;
      }
      wrong := !handed;
      if rc != 0 {
        return;
      }
      sent := sent + txBytes;
    }
    AllGone(load, CHUNK_SIZE, k);
  }

  /** The wire grew by the first `k` writes of a segment, each right after asking. */
  ghost predicate Carried(a: seq<Frame>, b: seq<Frame>, load: Load, k: nat) {
    && k <= |LoadWrites(load, CHUNK_SIZE)| && Careful(a, b, DATA_AT)
    && Writes(b, DATA_AT) == Writes(a, DATA_AT) + LoadWrites(load, CHUNK_SIZE)[..k]
  }

  lemma NothingYet(a: seq<Frame>, load: Load)
    ensures Carried(a, a, load, 0)
  {
    hide LoadWrites, Writes;
  }

  lemma CarriedThen(a: seq<Frame>, b: seq<Frame>, c: seq<Frame>, load: Load, k: nat, handed: bool, chunk: seq<byte>)
    requires Carried(a, b, load, k) && Careful(b, c, DATA_AT)
    requires var w := if handed then [Write(load.cmd, chunk, load.next)] else [];
             Writes(c, DATA_AT) == Writes(b, DATA_AT) + w
    requires handed ==> k < |LoadWrites(load, CHUNK_SIZE)|
                        && LoadWrites(load, CHUNK_SIZE)[..k + 1]
                           == LoadWrites(load, CHUNK_SIZE)[..k] + [Write(load.cmd, chunk, load.next)]
    ensures Carried(a, c, load, if handed then k + 1 else k)
  {
    hide LoadWrites, Writes, Careful;
    CarefulThen(a, b, c, DATA_AT);
  }

  /** One turn of the flashing loop; `handed` says whether the chunk went on the wire. */
  method SendChunk(h: RomHandle, chunk: seq<byte>, cmd: byte, exp: byte) returns (rc: int, handed: bool)
    requires h.Valid() && 0 < |chunk| <= CHUNK_SIZE
    modifies h`wire, h.hstc, h.sstc
    ensures h.Valid() && Careful(old(h.wire), h.wire, DATA_AT)
    ensures !handed ==> h.sstc[4] != exp && rc == if h.sstc[4] == 0x15 then -9005 else -10001
    ensures Writes(h.wire, DATA_AT)
         == Writes(old(h.wire), DATA_AT) + (if handed then [Write([cmd], chunk, exp)] else [])
  {
    hide Writes, Careful;
    Exchange(h);
    QuietKeepsWrites(old(h.wire), h.wire, DATA_AT);
    QuietIsCareful(old(h.wire), h.wire, DATA_AT);
    if h.sstc[4] != exp {
      return ResponseError(h.sstc[4]), false;
    }
    ghost var ready := h.wire;
    rc := h.WriteData([cmd], chunk);
    WroteMore(ready, h.wire, Write([cmd], chunk, exp));
    WroteCarefully(ready, h.wire, Write([cmd], chunk, exp));
    CarefulThen(old(h.wire), ready, h.wire, DATA_AT);
    handed := true;
  }

  /** Polls, then pre-reads and reads the device's response. */
  method Exchange(h: RomHandle)
    requires h.Valid()
    modifies h`wire, h.hstc, h.sstc
    ensures h.Valid() && AskedLast(h.wire, WordAt(h.sstc[..], 2))
    ensures Quiet(old(h.wire), h.wire, DATA_AT)
  {
    PollSoc(h);
    ghost var polled := h.wire;
    var _ := h.PreRead();
    QuietThen(old(h.wire), polled, h.wire, DATA_AT);
    ghost var announced := h.wire;
    var _ := h.Read();
    QuietThen(old(h.wire), announced, h.wire, DATA_AT);
  }

  /** Flashes segment `i` of a firmware whose earlier segments were written after `base`. */
  method FlashSegment(h: RomHandle, loads: seq<Load>, i: nat, cmd: byte, exp: byte, ghost base: seq<Write>)
    returns (rc: int, ghost n: nat)
    requires h.Valid() && i < |loads| && |loads[i].data| < HALF
    requires loads[i] == Load([cmd], exp, exp, loads[i].data)
    requires Writes(h.wire, DATA_AT) == base + Plan(loads[..i], CHUNK_SIZE)
    modifies h`wire, h.hstc, h.sstc
    ensures h.Valid() && Careful(old(h.wire), h.wire, DATA_AT)
    ensures n <= |Plan(loads, CHUNK_SIZE)|
    ensures Writes(h.wire, DATA_AT) == base + Plan(loads, CHUNK_SIZE)[..n]
    ensures rc == 0 ==> Writes(h.wire, DATA_AT) == base + Plan(loads[..i + 1], CHUNK_SIZE)
    ensures rc == 0 ==> n == |Plan(loads[..i + 1], CHUNK_SIZE)|
  {
    hide LoadWrites, Plan, Writes, Careful;
    ghost var k, wrong;
    rc, k, wrong := FlashData(h, loads[i].data, cmd, exp);
    PlanBegins(loads, CHUNK_SIZE, i, k);
    n := |Plan(loads[..i], CHUNK_SIZE)| + k;
    ghost var ws := LoadWrites(loads[i], CHUNK_SIZE);
    assert k == |ws| ==> ws[..k] == ws;
  }

  /** The four segments. */
  method FlashSegments(h: RomHandle, s: Segments) returns (rc: int, ghost n: nat)
    requires h.Valid() && s.Short()
    requires |s.key1| < HALF && |s.key2| < HALF && |s.cert| < HALF && |s.image| < HALF
    modifies h`wire, h.hstc, h.sstc
    ensures h.Valid() && Careful(old(h.wire), h.wire, DATA_AT)
    ensures n <= |Plan(Loads(s), CHUNK_SIZE)| && (rc == 0 ==> n == |Plan(Loads(s), CHUNK_SIZE)|)
    ensures Writes(h.wire, DATA_AT) == Writes(old(h.wire), DATA_AT) + Plan(Loads(s), CHUNK_SIZE)[..n]
  {
    hide LoadWrites, Writes, Careful;
    var loads := Loads(s);
    ghost var base := Writes(h.wire, DATA_AT);
    assert loads[..0] == [] && loads[..4] == loads;
    assert Plan(loads[..0], CHUNK_SIZE) == [];
    hide Plan;
    rc, n := FlashSegment(h, loads, 0, CERT_DATA, WAITING_FOR_FIRST_KEY_CERT, base);
    if rc != 0 {
      return;
    }
    ghost var w := h.wire;
    rc, n := FlashSegment(h, loads, 1, CERT_DATA, WAITING_FOR_SECOND_KEY_CERT, base);
    CarefulThen(old(h.wire), w, h.wire, DATA_AT);
    if rc != 0 {
      return;
    }
    w := h.wire;
    rc, n := FlashSegment(h, loads, 2, CERT_DATA, WAITING_FOR_CONTENT_CERT, base);
    CarefulThen(old(h.wire), w, h.wire, DATA_AT);
    if rc != 0 {
      return;
    }
    w := h.wire;
    rc, n := FlashSegment(h, loads, 3, IMAGE_DATA, WAITING_FOR_SEC_FILE_DATA, base);
    CarefulThen(old(h.wire), w, h.wire, DATA_AT);
  }

  /**
   `qmrom_b0_flash_unstitched_fw`; what was written, also on an error, is an initial part of the program, `n` writes
   of it. A certificate of the wrong kind is refused before anything is sent.
   */
  method FlashUnstitched(h: RomHandle, s: Segments) returns (rc: int, ghost r: byte, ghost n: nat)
    requires h.Valid() && s.Short()
    requires |s.key1| < HALF && |s.key2| < HALF && |s.cert| < HALF && |s.image| < HALF
    modifies h`wire, h.hstc, h.sstc
    ensures h.Valid() && Careful(old(h.wire), h.wire, DATA_AT)
    ensures n <= |Program(h.lcsState, r, s)| && (rc == 0 ==> n == |Program(h.lcsState, r, s)|)
    ensures Writes(h.wire, DATA_AT) == Writes(old(h.wire), DATA_AT) + Program(h.lcsState, r, s)[..n]
    ensures |s.key1| > HBK_LOC && !KindAllowed(s.key1[HBK_LOC], h.lcsState) ==>
              rc == -22 && h.wire == old(h.wire)
  {
    hide Plan, Writes, Careful;
    n, r := 0, h.sstc[4];
    var flashCmd := if h.lcsState == LCS_SECURE then LOAD_OEM else LOAD_ICV;
    QuietIsCareful(old(h.wire), h.wire, DATA_AT);
    rc := h.CheckKind(s.key1);
    if rc != 0 {
      return;
    }
    ghost var failed;
    rc, failed := WaitReady(h);
    QuietKeepsWrites(old(h.wire), h.wire, DATA_AT);
    QuietIsCareful(old(h.wire), h.wire, DATA_AT);
    if rc != 0 {
      return;
    }
    ghost var ready := h.wire;
    n, r := 1, h.sstc[4];
    rc := h.WriteCommand([flashCmd]);
    ghost var w := Write([flashCmd], [], r);
    WroteMore(ready, h.wire, w);
    WroteCarefully(ready, h.wire, w);
    CarefulThen(old(h.wire), ready, h.wire, DATA_AT);
    assert Program(h.lcsState, r, s)[..1] == [w];
    if rc != 0 {
      return;
    }
    ghost var begun, m := h.wire, 0;
    rc, m := FlashSegments(h, s);
    CarefulThen(old(h.wire), begun, h.wire, DATA_AT);
    n := 1 + m;
    assert Program(h.lcsState, r, s)[..n] == [w] + Plan(Loads(s), CHUNK_SIZE)[..m];
  }

  /**
   `qmrom_b0_flash_fw`: on success the file is a stitched firmware, the writes are the program for its segments, and
   the data bytes on the wire are the file without its four length words; on any failure what was written is an
   initial part of that. Every frame is one the device can parse, and data is only sent right after asking.
   */
  method FlashFirmware(h: RomHandle, file: seq<byte>, beyond: nat -> byte, alloc: (nat, nat) -> bool)
    returns (rc: int, ghost r: byte, ghost n: nat)
    requires h.Valid() && |file| < HALF && Bounded(alloc)
    modifies h`wire, h.hstc, h.sstc
    ensures h.Valid() && Careful(old(h.wire), h.wire, DATA_AT)
    ensures match Unstitch(file, beyond, h.revision, alloc)
            case Failed(e) => rc == e && h.wire == old(h.wire)
            case Unstitched(s) =>
              && s.Short() && File(s) == file
              && n <= |Program(h.lcsState, r, s)| && (rc == 0 ==> n == |Program(h.lcsState, r, s)|)
              && Writes(h.wire, DATA_AT) == Writes(old(h.wire), DATA_AT) + Program(h.lcsState, r, s)[..n]
              && (rc == 0 ==>
                    DataOnWire(h.wire, DATA_AT) == DataOnWire(old(h.wire), DATA_AT) + Concat(s.Parts()))
              && DataOnWire(old(h.wire), DATA_AT) <= DataOnWire(h.wire, DATA_AT)
                 <= DataOnWire(old(h.wire), DATA_AT) + Concat(s.Parts())
  {
    QuietIsCareful(h.wire, h.wire, DATA_AT);
    hide Unstitch, Plan, Writes, DataOnWire, Stitch, Concat, Careful;
    r, n := 0, 0;
    var u := UnstitchFile(file, beyond, h.revision, alloc);
    if u.Failed? {
      return u.error, r, n;
    }
    var s := u.segments;
    SmallAcceptedIsStitched(file, beyond, h.revision, alloc);
    PartFits(s.Parts(), 0);
    PartFits(s.Parts(), 1);
    PartFits(s.Parts(), 2);
    PartFits(s.Parts(), 3);
    rc, r, n := FlashUnstitched(h, s);
    WireCarries(old(h.wire), h.wire, DATA_AT, [Write([LoadCommand(h.lcsState)], [], r)], Loads(s), CHUNK_SIZE, n);
  }
}
