/** `qmrom_c0.c`: the same firmware, with 32-bit commands, larger chunks and the response checked after each chunk. */
module FlashC0 {
  import opened Errno
  import opened Words
  import opened FlashSpec
  import opened FlashPlan
  import opened Stitching
  import opened Unstitching
  import opened RomHandle

  const CHUNK_SIZE: nat := 2040
  const DATA_AT: nat := 8
  const READY: byte := 0x22
  const USE_INDIRECT_RRAM_WR: byte := 0x06
  const IMAGE_DATA: byte := 0x12
  const CERT_DATA: byte := 0x13

  datatype FirstResponse = NotReached | Got(resp: byte)

  /** A command as the 32-bit word it is sent as. */
  function Cmd32(cmd: byte): (w: seq<byte>)
    ensures |w| == 4
  {
    [cmd, 0, 0, 0]
  }

  /** From `a` to `b` the device was only polled, each time after the flags were cleared or had shown nothing. */
  ghost predicate Polled(a: seq<Frame>, b: seq<Frame>) {
    |a| <= |b| && b[..|a|] == a && forall i :: |a| <= i < |b| ==> IsPoll(b[i]) && b[i].flags == 0
  }

  /** Polls while the device is ready to be polled and shows no flag; transfers nothing when it is not. */
  method PollSoc(h: RomHandle)
    requires h.Valid()
    modifies h`wire, h.hstc, h.sstc
    ensures h.Valid() && Polled(old(h.wire), h.wire) && |h.wire| <= |old(h.wire)| + h.retries + 1
    ensures h.sstc[0] != 0 ==> |h.wire| > |old(h.wire)|
    ensures h.sstc[4] == old(h.sstc[4])
    ensures Quiet(old(h.wire), h.wire, DATA_AT)
  {
    var retries: int := h.retries;
    h.Fill(0, [0, 0, 0, 0]);
    assert h.hstc[..4] == [0, 0, 0, 0];
    h.sstc[0] := 0;
    var again := true;
    while again
      invariant h.Valid() && -1 <= retries <= h.retries && (again ==> retries >= 0 && h.sstc[0] == 0)
      invariant Polled(old(h.wire), h.wire) && |h.wire| <= |old(h.wire)| + h.retries - retries
      invariant h.hstc[..4] == [0, 0, 0, 0] && h.sstc[4] == old(h.sstc[4])
      invariant h.sstc[0] != 0 ==> |h.wire| > |old(h.wire)|
      decreases retries + 1
    {
      var lineReady: bool := *;
      if lineReady {
        var _ := h.SpiTransfer(STC_HEADER);
      }
      again := retries != 0 && h.sstc[0] == 0;
      retries := retries - 1;
    }
  }

  /**
   Frame `i` is the one the device's flags asked for: data waiting is announced by a pre-read and read, active output
   is read, and otherwise the device is polled with its flags cleared.
   */
  predicate Reacts(wire: seq<Frame>, i: nat)
    requires i < |wire|
  {
    var f := wire[i];
    || (IsPoll(f) && f.flags == 0)
    || (IsPreRead(f) && f.flags / 0x80 == 1)
    || (IsRead(f) && ((i > 0 && IsPreRead(wire[i - 1])) || (f.flags / 0x80 == 0 && (f.flags / 0x40) % 2 == 1)))
  }

  ghost predicate Reacting(a: seq<Frame>, b: seq<Frame>) {
    |a| <= |b| && b[..|a|] == a && forall i :: |a| <= i < |b| ==> Reacts(b, i)
  }

  lemma PollingReacts(a: seq<Frame>, b: seq<Frame>)
    requires Polled(a, b)
    ensures Reacting(a, b) && Quiet(a, b, DATA_AT)
  {
  }

  lemma PolledOn(a: seq<Frame>, b: seq<Frame>, c: seq<Frame>)
    requires Polled(a, b) && Polled(b, c)
    ensures Polled(a, c)
  {
    assert c[..|a|] == c[..|b|][..|a|];
    forall i | |a| <= i < |b|
      ensures IsPoll(c[i]) && c[i].flags == 0
    {
      assert c[i] == c[..|b|][i] == b[i];
    }
  }

  lemma ReactsOn(a: seq<Frame>, b: seq<Frame>, c: seq<Frame>)
    requires Reacting(a, b) && Reacting(b, c)
    ensures Reacting(a, c)
  {
    assert c[..|a|] == c[..|b|][..|a|];
    forall i | |a| <= i < |c|
      ensures Reacts(c, i)
    {
      if i < |b| {
        assert Reacts(b, i) && c[i] == c[..|b|][i] == b[i];
        assert i > 0 ==> c[i - 1] == c[..|b|][i - 1] == b[i - 1];
      }
    }
  }

  /** A pre-read and a read, which is left out when the announced bytes do not fit. */
  method ReadAnnounced(h: RomHandle) returns (rc: int)
    requires h.Valid()
    modifies h`wire, h.hstc, h.sstc
    ensures h.Valid() && AskedLast(h.wire, WordAt(h.sstc[..], 2))
    ensures |old(h.wire)| < |h.wire| <= |old(h.wire)| + 2 && h.wire[..|old(h.wire)|] == old(h.wire)
    ensures IsPreRead(h.wire[|old(h.wire)|]) && h.wire[|old(h.wire)|].flags == old(h.sstc[0])
    ensures |h.wire| == |old(h.wire)| + 1 ==> rc == -8010
    ensures |h.wire| == |old(h.wire)| + 2 ==> IsRead(h.wire[|old(h.wire)| + 1])
    ensures old(h.sstc[0]) / 0x80 == 1 ==> Reacting(old(h.wire), h.wire)
    ensures Quiet(old(h.wire), h.wire, DATA_AT)
  {
    var _ := h.PreRead();
    ghost var announced := h.wire;
    rc := h.Read();
    QuietThen(old(h.wire), announced, h.wire, DATA_AT);
  }

  /** One turn of waiting; `direct` when active output was read, whose result is then the answer. */
  method React(h: RomHandle) returns (rc: int, direct: bool)
    requires h.Valid()
    modifies h`wire, h.hstc, h.sstc
    ensures h.Valid() && Reacting(old(h.wire), h.wire) && |h.wire| <= |old(h.wire)| + h.retries + 2
    ensures direct <==> old(h.sstc[0]) / 0x80 == 0 && (old(h.sstc[0]) / 0x40) % 2 == 1
    ensures Quiet(old(h.wire), h.wire, DATA_AT)
  {
    rc, direct := 0, false;
    if OutWaiting(h.sstc[0]) {
      var _ := ReadAnnounced(h);
    } else if OutActive(h.sstc[0]) {
      rc := h.Read();
      direct := true;
    } else {
      PollSoc(h);
      PollingReacts(old(h.wire), h.wire);
    }
  }

  /**
   Waits for the READY flags; at most `(retries + 1) * (retries + 2)` transfers whatever the device answers, and every
   frame is the one its flags ask for. `direct` if active output was read: then nothing is known of the flags.
   */
  method WaitReady(h: RomHandle) returns (rc: int, direct: bool)
    requires h.Valid()
    modifies h`wire, h.hstc, h.sstc
    ensures h.Valid() && Reacting(old(h.wire), h.wire)
    ensures |h.wire| <= |old(h.wire)| + (h.retries + 1) * (h.retries + 2)
    ensures Quiet(old(h.wire), h.wire, DATA_AT)
    ensures !direct ==> rc == if h.sstc[0] == 0x22 then 0 else -8011
  {
    hide Times, Reacting;
    direct := false;
    var retries: int := h.retries;
    PollSoc(h);
    PollingReacts(old(h.wire), h.wire);
    ghost var n := h.retries + 2;
    ghost var turns := 1;
    TimesStep(0, n);
    while retries != 0 && h.sstc[0] != READY
      invariant h.Valid() && 0 <= retries <= h.retries && turns == h.retries - retries + 1
      invariant |old(h.wire)| <= |h.wire| <= |old(h.wire)| + Times(turns, n)
      invariant Reacting(old(h.wire), h.wire) && Quiet(old(h.wire), h.wire, DATA_AT)
      decreases retries
    {
      retries := retries - 1;
      ghost var before := h.wire;
      TimesStep(turns, n);
      turns := turns + 1;
      rc, direct := React(h);
      ReactsOn(old(h.wire), before, h.wire);
      QuietThen(old(h.wire), before, h.wire, DATA_AT);
      if direct {
        TimesUpTo(turns, n - 1, n);
        return;
      }
    }
    TimesUpTo(turns, n - 1, n);
    rc := if h.sstc[0] == READY then 0 else SPI_ERR_WAIT_READY_TIMEOUT;
  }

  /**
   Polls until data is waiting and reads it; `answered` says whether it came to that. The count of turns is below 0
   once the loop has given up, so the error is always -1.
   */
  method PollCommandResponse(h: RomHandle) returns (rc: int, ghost answered: bool)
    requires h.Valid()
    modifies h`wire, h.hstc, h.sstc
    ensures h.Valid() && Reacting(old(h.wire), h.wire)
    ensures answered ==> AskedLast(h.wire, WordAt(h.sstc[..], 2))
    ensures !answered ==> rc == -1 && Polled(old(h.wire), h.wire)
    ensures Quiet(old(h.wire), h.wire, DATA_AT)
  {
    hide Polled, Reacting, Quiet;
    var retries: int := h.retries;
    answered := false;
    PollSoc(h);
    var again := true;
    while again
      invariant h.Valid() && -1 <= retries <= h.retries && (again <==> retries >= 0)
      invariant Polled(old(h.wire), h.wire)
      decreases retries + 1
    {
      ghost var before := h.wire;
      if OutWaiting(h.sstc[0]) {
        PollingReacts(old(h.wire), before);
        rc := ReadAnnounced(h);
        ReactsOn(old(h.wire), before, h.wire);
        QuietThen(old(h.wire), before, h.wire, DATA_AT);
        answered := true;
        return;
      }
      PollSoc(h);
      PolledOn(old(h.wire), before, h.wire);
      again := retries != 0;
      retries := retries - 1;
    }
    PollingReacts(old(h.wire), h.wire);
    rc := if retries > 0 then 0 else -1;
  }

  /** Polls, then asks for the response. */
  method Exchange(h: RomHandle)
    requires h.Valid()
    modifies h`wire, h.hstc, h.sstc
    ensures h.Valid() && AskedLast(h.wire, WordAt(h.sstc[..], 2))
    ensures Quiet(old(h.wire), h.wire, DATA_AT)
  {
    PollSoc(h);
    ghost var polled := h.wire;
    var _ := ReadAnnounced(h);
    QuietThen(old(h.wire), polled, h.wire, DATA_AT);
  }

  /** The response after a segment checked to the end; an empty one leaves the response as it was. */
  function Answer(data: seq<byte>, before: byte, exp: byte): byte {
    if data == [] then before else exp
  }

  /** The four segments, each chunk sent on the response to the one before. */
  function Loads(s: Segments): (ls: seq<Load>)
    ensures |ls| == 4 && Segs(ls) == s.Parts()
  {
    var r1 := Answer(s.key1, WAITING_FOR_FIRST_KEY_CERT, WAITING_FOR_SECOND_KEY_CERT);
    var r2 := Answer(s.key2, r1, WAITING_FOR_CONTENT_CERT);
    var r3 := Answer(s.cert, r2, WAITING_FOR_SEC_FILE_DATA);
    [ Load(Cmd32(CERT_DATA), WAITING_FOR_FIRST_KEY_CERT, WAITING_FOR_SECOND_KEY_CERT, s.key1),
      Load(Cmd32(CERT_DATA), r1, WAITING_FOR_CONTENT_CERT, s.key2),
      Load(Cmd32(CERT_DATA), r2, WAITING_FOR_SEC_FILE_DATA, s.cert),
      Load(Cmd32(IMAGE_DATA), r3, WAITING_FOR_SEC_FILE_DATA, s.image)
    ]
  }

  /** The write mode and the load command, on whatever responses were last. */
  function Preamble(lcsState: nat, r0: byte, r1: byte): (ws: seq<Write>)
    ensures |ws| == 2 && forall i :: 0 <= i < |ws| ==> ws[i].data == []
  {
    [Write(Cmd32(USE_INDIRECT_RRAM_WR), [], r0), Write(Cmd32(LoadCommand(lcsState)), [], r1)]
  }

  /** From `a` to `b` the wire only grew, and data was only sent right after asking, except in frame `d`. */
  ghost predicate CarefulFrom(a: seq<Frame>, b: seq<Frame>, d: nat) {
    && |a| <= |b| && b[..|a|] == a
    && forall i :: |a| <= i < |b| && IsWrite(b[i], DATA_AT) && |b[i].tx| > DATA_AT ==>
         i == d || (i > d && Asked(b, i))
  }

  lemma CarefulFromThen(a: seq<Frame>, b: seq<Frame>, c: seq<Frame>, d: nat)
    requires CarefulFrom(a, b, d) && Careful(b, c, DATA_AT) && d <= |b|
    ensures CarefulFrom(a, c, d)
  {
    assert c[..|a|] == c[..|b|][..|a|];
    forall i | |a| <= i < |c| && IsWrite(c[i], DATA_AT) && |c[i].tx| > DATA_AT
      ensures i == d || (i > d && Asked(c, i))
    {
      if i < |b| {
        assert c[i] == c[..|b|][i] == b[i];
        assert c[..i] == c[..|b|][..i] == b[..i];
      }
    }
  }

  lemma NoDataThenFrom(a: seq<Frame>, b: seq<Frame>, c: seq<Frame>, d: nat)
    requires NoData(a, b) && CarefulFrom(b, c, d)
    ensures CarefulFrom(a, c, d)
  {
    assert c[..|a|] == c[..|b|][..|a|];
    forall i | |a| <= i < |b| && IsWrite(c[i], DATA_AT)
      ensures |c[i].tx| == DATA_AT
    {
      assert c[i] == c[..|b|][i] == b[i];
    }
  }

  lemma NothingFrom(a: seq<Frame>, b: seq<Frame>, d: nat)
    requires NoData(a, b)
    ensures CarefulFrom(a, b, d)
  {
  }

  /** From `a` to `b` the wire only grew, and no data was sent. */
  ghost predicate NoData(a: seq<Frame>, b: seq<Frame>) {
    && |a| <= |b| && b[..|a|] == a
    && forall i :: |a| <= i < |b| && IsWrite(b[i], DATA_AT) ==> |b[i].tx| == DATA_AT
  }

  lemma NoDataThen(a: seq<Frame>, b: seq<Frame>, c: seq<Frame>)
    requires NoData(a, b) && (NoData(b, c) || Quiet(b, c, DATA_AT))
    ensures NoData(a, c)
  {
    assert c[..|a|] == c[..|b|][..|a|];
    forall i | |a| <= i < |c| && IsWrite(c[i], DATA_AT)
      ensures |c[i].tx| == DATA_AT
    {
      if i < |b| {
        assert c[i] == c[..|b|][i] == b[i];
      }
    }
  }

  /** The wire grew by commands, and otherwise by frames that are no writes. */
  ghost predicate Commands(a: seq<Frame>, b: seq<Frame>, ws: seq<Write>) {
    NoData(a, b) && Writes(b, DATA_AT) == Writes(a, DATA_AT) + ws
  }

  lemma NoCommands(a: seq<Frame>)
    ensures Commands(a, a, [])
  {
    hide Writes;
  }

  lemma CommandsThenQuiet(a: seq<Frame>, b: seq<Frame>, c: seq<Frame>, ws: seq<Write>)
    requires Commands(a, b, ws) && Quiet(b, c, DATA_AT)
    ensures Commands(a, c, ws)
  {
    hide Writes;
    NoDataThen(a, b, c);
    QuietKeepsWrites(b, c, DATA_AT);
  }

  lemma CommandsThen(a: seq<Frame>, b: seq<Frame>, c: seq<Frame>, ws: seq<Write>, w: Write)
    requires Commands(a, b, ws) && Wrote(b, c, w) && w.data == [] && |w.cmd| == 4
    ensures Commands(a, c, ws + [w])
  {
    WroteMore(b, c, w);
    hide Writes;
    assert |c[|b|].tx| == DATA_AT;
    assert NoData(b, c);
    NoDataThen(a, b, c);
  }

  /**
   A turn that starts when `announced` bytes are announced: its first frame is the chunk, and every later one is sent
   right after asking.
   */
  ghost predicate InTurn(a: seq<Frame>, announced: u16, b: seq<Frame>) {
    CarefulFrom(a, b, |a|) && (|b| > |a| ==> b[|a|].announced == announced)
  }

  lemma NextTurn(start: seq<Frame>, b: seq<Frame>, announced: u16, c: seq<Frame>)
    requires CarefulFrom(start, b, |start|) && (b == start || AskedLast(b, announced)) && InTurn(b, announced, c)
    ensures CarefulFrom(start, c, |start|)
  {
    if b != start {
      assert b == c[..|b|];
      assert Careful(b, c, DATA_AT);
      CarefulFromThen(start, b, c, |start|);
    }
  }

  /** One chunk, on whatever response the device gave last. */
  method SendChunk(h: RomHandle, chunk: seq<byte>, cmd: byte) returns (rc: int)
    requires h.Valid() && 0 < |chunk| <= CHUNK_SIZE
    modifies h`wire, h.hstc, h.sstc
    ensures h.Valid() && InTurn(old(h.wire), old(WordAt(h.sstc[..], 2)), h.wire) && |h.wire| > |old(h.wire)|
    ensures Writes(h.wire, DATA_AT) == Writes(old(h.wire), DATA_AT) + [Write(Cmd32(cmd), chunk, old(h.sstc[4]))]
  {
    ghost var ready, w := h.wire, Write(Cmd32(cmd), chunk, h.sstc[4]);
    rc := h.WriteData(Cmd32(cmd), chunk);
    WroteMore(ready, h.wire, w);
  }

  /**
   One turn of the flashing loop: a chunk and, unless it is the last one of all, the device's response to it. `checked`
   says whether that was asked for.
   */
  method SendAndCheck(h: RomHandle, chunk: seq<byte>, cmd: byte, exp: byte, last: bool)
    returns (rc: int, ghost checked: bool)
    requires h.Valid() && 0 < |chunk| <= CHUNK_SIZE
    modifies h`wire, h.hstc, h.sstc
    ensures h.Valid() && InTurn(old(h.wire), old(WordAt(h.sstc[..], 2)), h.wire) && |h.wire| > |old(h.wire)|
    ensures Writes(h.wire, DATA_AT) == Writes(old(h.wire), DATA_AT) + [Write(Cmd32(cmd), chunk, old(h.sstc[4]))]
    ensures rc == 0 ==> checked == !last
    ensures checked ==> AskedLast(h.wire, WordAt(h.sstc[..], 2))
    ensures checked ==> rc == if h.sstc[4] == exp then 0 else if h.sstc[4] == 0x15 then -9005 else -10001
  {
    hide Writes, CarefulFrom, Cmd32;
    checked := false;
    rc := SendChunk(h, chunk, cmd);
    if rc != 0 {
      return;
    }
    if last {
      return;
    }
    ghost var before := h.wire;
    Exchange(h);
    checked := true;
    QuietKeepsWrites(before, h.wire, DATA_AT);
    QuietIsCareful(before, h.wire, DATA_AT);
    CarefulFromThen(old(h.wire), before, h.wire, |old(h.wire)|);
    if h.sstc[4] != exp {
      return ResponseError(h.sstc[4]), checked;
    }
  }

  /** The wire grew by the first `k` writes of a segment, every one but the first right after asking. */
  ghost predicate Carried(a: seq<Frame>, announced: u16, b: seq<Frame>, load: Load, k: nat) {
    && k <= |LoadWrites(load, CHUNK_SIZE)| && InTurn(a, announced, b) && (|b| == |a| ==> k == 0)
    && Writes(b, DATA_AT) == Writes(a, DATA_AT) + LoadWrites(load, CHUNK_SIZE)[..k]
  }

  lemma NothingYet(a: seq<Frame>, announced: u16, load: Load)
    ensures Carried(a, announced, a, load, 0)
  {
    hide LoadWrites, Writes;
  }

  lemma CarriedThen(a: seq<Frame>, was: u16, b: seq<Frame>, announced: u16, c: seq<Frame>, load: Load, k: nat, w: Write)
    requires Carried(a, was, b, load, k) && InTurn(b, announced, c) && |c| > |b|
    requires if k == 0 then b == a && announced == was else AskedLast(b, announced)
    requires Writes(c, DATA_AT) == Writes(b, DATA_AT) + [w]
    requires k < |LoadWrites(load, CHUNK_SIZE)|
    requires LoadWrites(load, CHUNK_SIZE)[..k + 1] == LoadWrites(load, CHUNK_SIZE)[..k] + [w]
    ensures Carried(a, was, c, load, k + 1)
  {
    hide LoadWrites, Writes;
    NextTurn(a, b, announced, c);
    assert |b| > |a| ==> c[|a|] == c[..|b|][|a|];
  }

  /**
   Sends `data` in chunks; from the second on, each only after the device answered `exp` to the one before. With
   `skipLastCheck` the answer to the last one is not waited for. What was sent is the first `k` chunks, all on success;
   `checked` if the last thing done was to ask for a response.
   */
  method FlashData(h: RomHandle, data: seq<byte>, cmd: byte, exp: byte, skipLastCheck: bool)
    returns (rc: int, ghost k: nat, ghost checked: bool)
    requires h.Valid() && |data| < HALF
    modifies h`wire, h.hstc, h.sstc
    ensures h.Valid()
    ensures Carried(old(h.wire), old(WordAt(h.sstc[..], 2)), h.wire, Load(Cmd32(cmd), old(h.sstc[4]), exp, data), k)
    ensures rc == 0 ==> k == |LoadWrites(Load(Cmd32(cmd), old(h.sstc[4]), exp, data), CHUNK_SIZE)|
    ensures data == [] ==> rc == 0 && h.wire == old(h.wire) && h.sstc[..] == old(h.sstc[..])
    ensures rc == 0 && data != [] ==> checked == !skipLastCheck
    ensures checked ==> AskedLast(h.wire, WordAt(h.sstc[..], 2))
    ensures checked ==> rc == if h.sstc[4] == exp then 0 else if h.sstc[4] == 0x15 then -9005 else -10001
  {
    hide LoadWrites, Writes, CarefulFrom, Carried, Gone, Cmd32;
    ghost var load := Load(Cmd32(cmd), h.sstc[4], exp, data);
    ghost var was := WordAt(h.sstc[..], 2);
    var sent := 0;
    rc, k, checked := 0, 0, false;
    NoneGone(load, CHUNK_SIZE);
    NothingYet(h.wire, was, load);
    while sent < |data|
      invariant h.Valid() && sent <= |data| && Gone(load, CHUNK_SIZE, sent, k) && rc == 0
      invariant Carried(old(h.wire), was, h.wire, load, k)
      invariant k == 0 <==> sent == 0
      invariant k == 0 ==> !checked && h.wire == old(h.wire) && h.sstc[..] == old(h.sstc[..])
      invariant k > 0 && skipLastCheck ==> sent < |data|
      invariant k > 0 ==> checked && h.sstc[4] == exp && AskedLast(h.wire, WordAt(h.sstc[..], 2))
      decreases |data| - sent
    {
      var txBytes := |data| - sent;
      if txBytes > CHUNK_SIZE {
        txBytes := CHUNK_SIZE;
      }
      NextWrite(load, CHUNK_SIZE, sent, k);
      ghost var before, announced, resp := h.wire, WordAt(h.sstc[..], 2), h.sstc[4];
      assert k == 0 ==> h.sstc[..][4] == load.first;
      rc, checked := SendAndCheck(h, data[sent..sent + txBytes], cmd, exp, skipLastCheck && sent + txBytes == |data|);
      ghost var w := Write(load.cmd, data[sent..sent + txBytes], resp);
      CarriedThen(old(h.wire), was, before, announced, h.wire, load, k, w);
      k := k + 1;
      if rc != 0 {
        return;
      }
      sent := sent + txBytes;
      if skipLastCheck && sent == |data| {
        break;
      }
    }
    AllGone(load, CHUNK_SIZE, k);
  }

  /** Flashes segment `i` of a firmware whose earlier segments were written after `base`. */
  method FlashSegment(h: RomHandle, loads: seq<Load>, i: nat, cmd: byte, exp: byte, skipLastCheck: bool,
                      ghost base: seq<Write>, ghost start: seq<Frame>)
    returns (rc: int, ghost n: nat)
    requires h.Valid() && i < |loads| && |loads[i].data| < HALF
    requires loads[i] == Load(Cmd32(cmd), h.sstc[4], exp, loads[i].data)
    requires Writes(h.wire, DATA_AT) == base + Plan(loads[..i], CHUNK_SIZE)
    requires CarefulFrom(start, h.wire, |start|)
    requires h.wire == start || AskedLast(h.wire, WordAt(h.sstc[..], 2))
    modifies h`wire, h.hstc, h.sstc
    ensures h.Valid() && CarefulFrom(start, h.wire, |start|)
    ensures n <= |Plan(loads, CHUNK_SIZE)|
    ensures Writes(h.wire, DATA_AT) == base + Plan(loads, CHUNK_SIZE)[..n]
    ensures rc == 0 ==> Writes(h.wire, DATA_AT) == base + Plan(loads[..i + 1], CHUNK_SIZE)
    ensures rc == 0 ==> n == |Plan(loads[..i + 1], CHUNK_SIZE)|
    ensures rc == 0 && !skipLastCheck ==> h.sstc[4] == Answer(loads[i].data, loads[i].first, exp)
    ensures rc == 0 && !skipLastCheck ==> h.wire == start || AskedLast(h.wire, WordAt(h.sstc[..], 2))
  {
    hide LoadWrites, Plan, Writes, CarefulFrom, AskedLast;
    ghost var k, checked;
    ghost var before, announced := h.wire, WordAt(h.sstc[..], 2);
    rc, k, checked := FlashData(h, loads[i].data, cmd, exp, skipLastCheck);
    NextTurn(start, before, announced, h.wire);
    PlanBegins(loads, CHUNK_SIZE, i, k);
    n := |Plan(loads[..i], CHUNK_SIZE)| + k;
    ghost var ws := LoadWrites(loads[i], CHUNK_SIZE);
    assert k == |ws| ==> ws[..k] == ws;
  }

  /** The four segments, once the device has asked for the first. */
  method FlashSegments(h: RomHandle, s: Segments) returns (rc: int, ghost n: nat)
    requires h.Valid() && s.Short() && h.sstc[4] == WAITING_FOR_FIRST_KEY_CERT
    requires |s.key1| < HALF && |s.key2| < HALF && |s.cert| < HALF && |s.image| < HALF
    modifies h`wire, h.hstc, h.sstc
    ensures h.Valid() && CarefulFrom(old(h.wire), h.wire, |old(h.wire)|)
    ensures n <= |Plan(Loads(s), CHUNK_SIZE)| && (rc == 0 ==> n == |Plan(Loads(s), CHUNK_SIZE)|)
    ensures Writes(h.wire, DATA_AT) == Writes(old(h.wire), DATA_AT) + Plan(Loads(s), CHUNK_SIZE)[..n]
  {
    hide LoadWrites, Writes, AskedLast;
    var loads := Loads(s);
    ghost var base, start := Writes(h.wire, DATA_AT), h.wire;
    assert loads[..0] == [] && loads[..4] == loads;
    assert Plan(loads[..0], CHUNK_SIZE) == [];
    assert CarefulFrom(start, start, |start|);
    hide Plan, CarefulFrom;
    rc, n := FlashSegment(h, loads, 0, CERT_DATA, WAITING_FOR_SECOND_KEY_CERT, false, base, start);
    if rc != 0 {
      return;
    }
    rc, n := FlashSegment(h, loads, 1, CERT_DATA, WAITING_FOR_CONTENT_CERT, false, base, start);
    if rc != 0 {
      return;
    }
    rc, n := FlashSegment(h, loads, 2, CERT_DATA, WAITING_FOR_SEC_FILE_DATA, false, base, start);
    if rc != 0 {
      return;
    }
    rc, n := FlashSegment(h, loads, 3, IMAGE_DATA, WAITING_FOR_SEC_FILE_DATA, true, base, start);
  }

  /**
   The write mode and the flash command; `m` of the two were written, both on success. `first` is the device's answer
   to the second, if it came to that.
   */
  method BeginFlash(h: RomHandle, s: Segments)
    returns (rc: int, first: FirstResponse, ghost r0: byte, ghost r1: byte, ghost m: nat)
    requires h.Valid()
    modifies h`wire, h.hstc, h.sstc
    ensures h.Valid() && m <= 2 && (rc == 0 ==> m == 2)
    ensures Commands(old(h.wire), h.wire, Preamble(h.lcsState, r0, r1)[..m])
    ensures if rc == 0 then first == Got(h.sstc[4]) else first == NotReached
    ensures |s.key1| > HBK_LOC && !KindAllowed(s.key1[HBK_LOC], h.lcsState) ==>
              rc == -22 && h.wire == old(h.wire)
  {
    hide Writes, Quiet, NoData, Reacting, Polled, Commands, Wrote;
    first, m := NotReached, 0;
    r0, r1 := h.sstc[4], h.sstc[4];
    NoCommands(h.wire);
    rc := h.CheckKind(s.key1);
    if rc != 0 {
      return;
    }
    var direct;
    rc, direct := WaitReady(h);
    CommandsThenQuiet(old(h.wire), old(h.wire), h.wire, []);
    if rc != 0 {
      return;
    }
    ghost var w := h.wire;
    m, r0 := 1, h.sstc[4];
    rc := h.WriteCommand(Cmd32(USE_INDIRECT_RRAM_WR));
    ghost var p := Write(Cmd32(USE_INDIRECT_RRAM_WR), [], r0);
    CommandsThen(old(h.wire), w, h.wire, [], p);
    assert [] + [p] == [p] == Preamble(h.lcsState, r0, r1)[..1];
    if rc != 0 {
      return;
    }
    w := h.wire;
    Exchange(h);
    ghost var asked := h.wire;
    PollSoc(h);
    QuietThen(w, asked, h.wire, DATA_AT);
    CommandsThenQuiet(old(h.wire), w, h.wire, [p]);
    w := h.wire;
    m, r1 := 2, h.sstc[4];
    var flashCmd := if h.lcsState == LCS_SECURE then LOAD_OEM else LOAD_ICV;
    rc := h.WriteCommand(Cmd32(flashCmd));
    CommandsThen(old(h.wire), w, h.wire, [p], Write(Cmd32(flashCmd), [], r1));
    assert [p] + [Write(Cmd32(flashCmd), [], r1)] == Preamble(h.lcsState, r0, r1)[..2];
    if rc != 0 {
      return;
    }
    w := h.wire;
    ghost var answered;
    rc, answered := PollCommandResponse(h);
    CommandsThenQuiet(old(h.wire), w, h.wire, Preamble(h.lcsState, r0, r1)[..2]);
    rc, first := 0, Got(h.sstc[4]);
  }

  /** Everything a flashing run writes. */
  function Program(lcsState: nat, r0: byte, r1: byte, s: Segments): (ws: seq<Write>) {
    Preamble(lcsState, r0, r1) + Plan(Loads(s), CHUNK_SIZE)
  }

  /** The program in numbers, when no certificate is empty: what is sent on which response, and in what chunks. */
  lemma ProgramInNumbers(lcsState: nat, r0: byte, r1: byte, s: Segments)
    requires s.key1 != [] && s.key2 != [] && s.cert != []
    ensures Program(lcsState, r0, r1, s)
         == [Write([0x06, 0, 0, 0], [], r0), Write([if lcsState == 5 then 1 else 0, 0, 0, 0], [], r1)]
            + (LoadWrites(Load([0x13, 0, 0, 0], 0x11, 0x12, s.key1), 2040)
               + (LoadWrites(Load([0x13, 0, 0, 0], 0x12, 0x13, s.key2), 2040)
                  + (LoadWrites(Load([0x13, 0, 0, 0], 0x13, 0x06, s.cert), 2040)
                     + LoadWrites(Load([0x12, 0, 0, 0], 0x06, 0x06, s.image), 2040))))
  {
    hide LoadWrites;
    FourLoads(Loads(s), CHUNK_SIZE);
  }

  /** What a run on segments `s` achieves. */
  ghost predicate Flashed(
    before: seq<Frame>, after: seq<Frame>, rc: int, first: FirstResponse, s: Segments, program: seq<Write>, n: nat)
  {
    && n <= |program|
    && Writes(after, DATA_AT) == Writes(before, DATA_AT) + program[..n]
    && (rc == 0 ==> first.Got?)
    && (rc == 0 && first == Got(WAITING_FOR_FIRST_KEY_CERT) ==>
          n == |program| && DataOnWire(after, DATA_AT) == DataOnWire(before, DATA_AT) + Concat(s.Parts()))
    && (first.Got? && first.resp != WAITING_FOR_FIRST_KEY_CERT ==>
          rc == 0 && n == 2 && DataOnWire(after, DATA_AT) == DataOnWire(before, DATA_AT))
    && DataOnWire(before, DATA_AT) <= DataOnWire(after, DATA_AT) <= DataOnWire(before, DATA_AT) + Concat(s.Parts())
  }

  lemma CommandsOnly(before: seq<Frame>, after: seq<Frame>, commands: seq<Write>)
    requires Writes(after, DATA_AT) == Writes(before, DATA_AT) + commands
    requires forall i :: 0 <= i < |commands| ==> commands[i].data == []
    ensures DataOnWire(after, DATA_AT) == DataOnWire(before, DATA_AT)
  {
    hide Writes, Concat, Datas;
    CarriedAppend(Writes(before, DATA_AT), commands);
    CommandsCarryNothing(commands);
  }

  /** The segments of a firmware: `first` is the device's answer to the load command, if it came to that. */
  method FlashParts(h: RomHandle, s: Segments)
    returns (rc: int, first: FirstResponse, ghost r0: byte, ghost r1: byte, ghost n: nat, ghost d: nat)
    requires h.Valid() && s.Short()
    requires |s.key1| < HALF && |s.key2| < HALF && |s.cert| < HALF && |s.image| < HALF
    modifies h`wire, h.hstc, h.sstc
    ensures h.Valid() && CarefulFrom(old(h.wire), h.wire, d)
    ensures Flashed(old(h.wire), h.wire, rc, first, s, Program(h.lcsState, r0, r1, s), n)
  {
    hide Plan, Writes, DataOnWire, Concat, Quiet, Loads, NoData, CarefulFrom, Polled;
    rc, first, r0, r1, n := BeginFlash(h, s);
    d := |h.wire|;
    NothingFrom(old(h.wire), h.wire, d);
    ghost var program := Program(h.lcsState, r0, r1, s);
    assert program[..n] == Preamble(h.lcsState, r0, r1)[..n];
    WireCarries(old(h.wire), h.wire, DATA_AT, Preamble(h.lcsState, r0, r1), Loads(s), CHUNK_SIZE, n);
    CommandsOnly(old(h.wire), h.wire, program[..n]);
    if rc != 0 {
      return;
    }
    if first != Got(WAITING_FOR_FIRST_KEY_CERT) {
      return;
    }
    ghost var begun, m := h.wire, 0;
    PollSoc(h);
    QuietKeepsWrites(begun, h.wire, DATA_AT);
    NoDataThen(old(h.wire), begun, h.wire);
    ghost var polled := h.wire;
    d := |polled|;
    rc, m := FlashSegments(h, s);
    NoDataThenFrom(old(h.wire), polled, h.wire, d);
    n := 2 + m;
    assert program[..n] == Preamble(h.lcsState, r0, r1) + Plan(Loads(s), CHUNK_SIZE)[..m];
    WireCarries(old(h.wire), h.wire, DATA_AT, Preamble(h.lcsState, r0, r1), Loads(s), CHUNK_SIZE, n);
  }

  /**
   `qmrom_c0_flash_fw`. The writes are always an initial part of the program for the file's segments. The return value
   0 means all of it was written, unless the device's first response was not the one that asks for the first key:
   then 0 is returned although no data was sent. Every frame is one the device can parse; frame `d` is the first with
   data, and every later one is only sent right after asking for the response.
   */
  method FlashFirmware(h: RomHandle, file: seq<byte>, beyond: nat -> byte, alloc: (nat, nat) -> bool)
    returns (rc: int, first: FirstResponse, ghost r0: byte, ghost r1: byte, ghost n: nat, ghost d: nat)
    requires h.Valid() && |file| < HALF && Bounded(alloc)
    modifies h`wire, h.hstc, h.sstc
    ensures h.Valid() && CarefulFrom(old(h.wire), h.wire, d)
    ensures match Unstitch(file, beyond, h.revision, alloc)
            case Failed(e) => rc == e && h.wire == old(h.wire)
            case Unstitched(s) =>
              && s.Short() && File(s) == file
              && Flashed(old(h.wire), h.wire, rc, first, s, Program(h.lcsState, r0, r1, s), n)
  {
    d := |h.wire|;
    assert CarefulFrom(h.wire, h.wire, d);
    hide Unstitch, Stitch, Flashed, Program, CarefulFrom;
    first, r0, r1, n := NotReached, 0, 0, 0;
    var u := UnstitchFile(file, beyond, h.revision, alloc);
    if u.Failed? {
      return u.error, first, r0, r1, n, d;
    }
    var s := u.segments;
    SmallAcceptedIsStitched(file, beyond, h.revision, alloc);
    PartFits(s.Parts(), 0);
    PartFits(s.Parts(), 1);
    PartFits(s.Parts(), 2);
    PartFits(s.Parts(), 3);
    rc, first, r0, r1, n, d := FlashParts(h, s);
  }
}
