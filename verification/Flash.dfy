/** Cutting data into chunks, and reading back from a wire log what was sent. */
module FlashSpec {
  import opened Words

  /** `data` in chunks of `n` bytes, the last one shorter if need be. */
  function Chunks(data: seq<byte>, n: nat): (cs: seq<seq<byte>>)
    requires n > 0
  {
    if |data| == 0 then []
    else if |data| <= n then [data]
    else [data[..n]] + Chunks(data[n..], n)
  }

  lemma {:induction false} ChunksMakeUpData(data: seq<byte>, n: nat)
    requires n > 0
    ensures Concat(Chunks(data, n)) == data
  {
    if |data| > n {
      ChunksMakeUpData(data[n..], n);
    } else if |data| > 0 {
      ConcatOne(data);
    }
  }

  /** As many chunks as it takes; all but the last are full, and none is empty or too long. */
  lemma {:induction false} ChunkSizes(data: seq<byte>, n: nat)
    requires n > 0
    ensures var c := |Chunks(data, n)|; if data == [] then c == 0 else (c - 1) * n < |data| <= c * n
    ensures forall i :: 0 <= i < |Chunks(data, n)| - 1 ==> |Chunks(data, n)[i]| == n
    ensures forall i :: 0 <= i < |Chunks(data, n)| ==> 0 < |Chunks(data, n)[i]| <= n
  {
    if |data| > n {
      var rest := Chunks(data[n..], n);
      ChunkSizes(data[n..], n);
      var r := |rest|;
      assert (r - 1) * n + n == r * n && r * n + n == (r + 1) * n;
      assert |Chunks(data, n)| == r + 1;
      forall i | 0 <= i < |Chunks(data, n)|
        ensures 0 < |Chunks(data, n)[i]| <= n && (i < |Chunks(data, n)| - 1 ==> |Chunks(data, n)[i]| == n)
      {
        if i > 0 {
          assert Chunks(data, n)[i] == rest[i - 1];
        }
      }
    }
  }

  lemma NextChunk(data: seq<byte>, sent: nat, n: nat)
    requires sent < |data| && n > 0
    ensures var m := if |data| - sent > n then n else |data| - sent;
            Chunks(data[sent..], n) == [data[sent..sent + m]] + Chunks(data[sent + m..], n)
  {
    var rest := data[sent..];
    if |rest| > n {
      assert rest[..n] == data[sent..sent + n] && rest[n..] == data[sent + n..];
    } else {
      assert data[sent..sent + |rest|] == rest;
    }
  }

  lemma NoMoreChunks(data: seq<byte>, sent: nat, n: nat)
    requires sent == |data| && n > 0
    ensures Chunks(data[sent..], n) == []
  {
  }

  lemma TakeOne<T>(list: seq<T>, k: nat)
    requires k < |list|
    ensures list[k..][0] == list[k] && list[k..][1..] == list[k + 1..]
    ensures list[..k + 1] == list[..k] + [list[k]]
  {
  }

  /** Turns of a loop, and the transfers made in one of them. */
  function Times(a: nat, b: nat): nat { a * b }

  lemma TimesStep(a: nat, b: nat)
    ensures Times(a + 1, b) == Times(a, b) + b && Times(0, b) == 0
  {
  }

  lemma TimesUpTo(a: nat, b: nat, n: nat)
    requires a <= b
    ensures Times(a, n) <= b * n
  {
  }

  // ------------------------------------------------------------------ the wire

  const STC_HEADER: nat := 4
  const HOST_WRITE: byte := 0x80

  /**
   One SPI transfer: the bytes handed over, and what the device had answered last: its flags, the number of bytes it
   announced, and its response byte.
   */
  datatype Frame = Frame(tx: seq<byte>, flags: byte, announced: u16, resp: byte)

  /** An empty frame. */
  predicate IsPoll(f: Frame) {
    f.tx == [0, 0, 0, 0]
  }

  predicate IsPreRead(f: Frame) {
    f.tx == [0x40, 1, 0, 0]
  }

  /** A read of as many bytes as the device announced. */
  predicate IsRead(f: Frame) {
    |f.tx| == 4 + f.announced && f.tx[0] == 0x20 && f.tx[1] == 1 && WordAt(f.tx, 2) == f.announced
  }

  /** A frame the device can parse: four header bytes, of which the last two count the bytes behind them. */
  predicate Proper(f: Frame) {
    || IsPoll(f) || IsPreRead(f) || IsRead(f)
    || (|f.tx| > 4 && f.tx[0] == 0x80 && f.tx[1] == 1 && WordAt(f.tx, 2) == |f.tx| - 4)
  }

  /** The wire ends with the device being asked for its response: a pre-read and, if it can be, the read announced. */
  predicate AskedLast(wire: seq<Frame>, announced: u16) {
    || (|wire| >= 1 && IsPreRead(wire[|wire| - 1]) && announced > 2048)
    || (|wire| >= 2 && IsPreRead(wire[|wire| - 2]) && IsRead(wire[|wire| - 1]))
  }

  /** Frame `i` was sent right after asking. */
  predicate Asked(wire: seq<Frame>, i: nat)
    requires i < |wire|
  {
    AskedLast(wire[..i], wire[i].announced)
  }

  /** From `a` to `b` the wire only grew, and data was only sent right after asking. */
  ghost predicate Careful(a: seq<Frame>, b: seq<Frame>, h: nat) {
    && |a| <= |b| && b[..|a|] == a
    && forall i :: |a| <= i < |b| && IsWrite(b[i], h) && |b[i].tx| > h ==> Asked(b, i)
  }

  lemma CarefulThen(a: seq<Frame>, b: seq<Frame>, c: seq<Frame>, h: nat)
    requires Careful(a, b, h) && Careful(b, c, h)
    ensures Careful(a, c, h)
  {
    assert c[..|a|] == c[..|b|][..|a|];
    forall i | |a| <= i < |c| && IsWrite(c[i], h) && |c[i].tx| > h
      ensures Asked(c, i)
    {
      if i < |b| {
        assert c[i] == c[..|b|][i] == b[i];
        assert c[..i] == c[..|b|][..i] == b[..i];
      }
    }
  }

  lemma QuietIsCareful(a: seq<Frame>, b: seq<Frame>, h: nat)
    requires Quiet(a, b, h)
    ensures Careful(a, b, h)
  {
  }

  /** A write frame as the device sees it: a command, the data behind it, and the response that came before it. */
  datatype Write = Write(cmd: seq<byte>, data: seq<byte>, resp: byte)

  /** A write with a command of `h` bytes, header included. */
  predicate IsWrite(f: Frame, h: nat) {
    |f.tx| >= h >= STC_HEADER && f.tx[0] == HOST_WRITE
  }

  function WriteOf(f: Frame, h: nat): Write
    requires IsWrite(f, h)
  {
    Write(f.tx[STC_HEADER..h], f.tx[h..], f.resp)
  }

  /** The writes on the wire, in order. */
  function Writes(wire: seq<Frame>, h: nat): (ws: seq<Write>) {
    if wire == [] then []
    else
      var f := wire[|wire| - 1];
      Writes(wire[..|wire| - 1], h) + (if IsWrite(f, h) then [WriteOf(f, h)] else [])
  }

  /** The data of a list of writes, one item for each. */
  function Datas(ws: seq<Write>): (ds: seq<seq<byte>>)
    ensures |ds| == |ws|
  {
    seq(|ws|, i requires 0 <= i < |ws| => ws[i].data)
  }

  /** `b` is `a` and one more frame, which is the write `w`. */
  ghost predicate Wrote(a: seq<Frame>, b: seq<Frame>, w: Write) {
    var h := STC_HEADER + |w.cmd|;
    && |b| == |a| + 1 && b[..|a|] == a
    && IsWrite(b[|a|], h) && WriteOf(b[|a|], h) == w
    && b[|a|].tx[1] == 1 && WordAt(b[|a|].tx, 2) == |w.cmd| + |w.data|
  }

  lemma WroteMore(a: seq<Frame>, b: seq<Frame>, w: Write)
    requires Wrote(a, b, w)
    ensures Writes(b, STC_HEADER + |w.cmd|) == Writes(a, STC_HEADER + |w.cmd|) + [w]
  {
  }

  /** From `a` to `b` the wire only grew, by frames that are no writes. */
  ghost predicate Quiet(a: seq<Frame>, b: seq<Frame>, h: nat) {
    |a| <= |b| && b[..|a|] == a && forall i :: |a| <= i < |b| ==> !IsWrite(b[i], h)
  }

  lemma {:induction false} QuietKeepsWrites(a: seq<Frame>, b: seq<Frame>, h: nat)
    requires Quiet(a, b, h)
    ensures Writes(b, h) == Writes(a, h)
    decreases |b|
  {
    if |a| < |b| {
      var c := b[..|b| - 1];
      assert c[..|a|] == a;
      QuietKeepsWrites(a, c, h);
    } else {
      assert a == b;
    }
  }

  /** A write right after asking, or without data. */
  lemma WroteCarefully(a: seq<Frame>, b: seq<Frame>, w: Write)
    requires Wrote(a, b, w) && (w.data == [] || AskedLast(a, b[|a|].announced))
    ensures Careful(a, b, STC_HEADER + |w.cmd|)
  {
  }

  lemma QuietThen(a: seq<Frame>, b: seq<Frame>, c: seq<Frame>, h: nat)
    requires Quiet(a, b, h) && Quiet(b, c, h)
    ensures Quiet(a, c, h)
  {
    assert c[..|a|] == c[..|b|][..|a|];
  }
}

/** The ROM handle: its two frame buffers, written and read in place, and everything put on the wire. */
module RomHandle {
  import opened Errno
  import opened Words
  import opened FlashSpec

  const MAX_STC_FRAME_LEN: nat := 2048
  const BUFFER_SIZE: nat := MAX_STC_FRAME_LEN + 4
  const HOST_PRE_READ: byte := 0x40
  const HOST_READ: byte := 0x20
  const SPI_PROTO_WRONG_RESP: int := -10001
  const PEG_ERR_FIRST_KEY_CERT_OR_FW_VER: int := -9005
  const SPI_ERR_INVALID_STC_LEN: int := -8010
  const SPI_ERR_WAIT_READY_TIMEOUT: int := -8011

  // Commands and responses common to the B0 and C0 ROM codes.
  const LOAD_ICV: byte := 0
  const LOAD_OEM: byte := 1
  const WAITING_FOR_SEC_FILE_DATA: byte := 0x06
  const WAITING_FOR_FIRST_KEY_CERT: byte := 0x11
  const WAITING_FOR_SECOND_KEY_CERT: byte := 0x12
  const WAITING_FOR_CONTENT_CERT: byte := 0x13
  const ERR_FIRST_KEY_CERT_OR_FW_VER: byte := 0x15

  // Key certificate kinds and life-cycle states.
  const HBK_LOC: nat := 12
  const HBK_ICV: byte := 0
  const HBK_OEM: byte := 1
  const LCS_MANUFACTURE: nat := 0
  const LCS_SECURE: nat := 5

  predicate OutWaiting(flags: byte) { flags / 0x80 == 1 }
  predicate OutActive(flags: byte) { (flags / 0x40) % 2 == 1 }

  /** An ICV certificate needs a device in manufacture, an OEM one a secured device. */
  predicate KindAllowed(kind: byte, lcsState: nat) {
    (kind == HBK_ICV ==> lcsState == LCS_MANUFACTURE) && (kind == HBK_OEM ==> lcsState == LCS_SECURE)
  }

  /** The error a wrong response is reported as. */
  function ResponseError(resp: byte): (rc: int)
    ensures rc != 0
  {
    if resp == ERR_FIRST_KEY_CERT_OR_FW_VER then PEG_ERR_FIRST_KEY_CERT_OR_FW_VER else SPI_PROTO_WRONG_RESP
  }

  lemma HeaderWord(b: seq<byte>, n: nat)
    requires 4 <= n <= |b|
    ensures WordAt(b[..n], 2) == WordAt(b, 2)
  {
  }

  lemma SameWord(a: seq<byte>, b: seq<byte>)
    requires 4 <= |a| && 4 <= |b| && a[..4] == b[..4]
    ensures WordAt(a, 2) == WordAt(b, 2) && a[0] == b[0] && a[1] == b[1]
  {
    assert a[2] == a[..4][2] && a[3] == a[..4][3] && b[2] == b[..4][2] && b[3] == b[..4][3];
    assert a[0] == a[..4][0] && a[1] == a[..4][1] && b[0] == b[..4][0] && b[1] == b[..4][1];
  }

  class RomHandle {
    const hstc: array<byte>
    const sstc: array<byte>
    const retries: nat
    const revision: nat
    const lcsState: nat
    var wire: seq<Frame>

    /** Every frame put on the wire so far is one the device can parse. */
    ghost predicate Valid()
      reads this
    {
      && hstc != sstc && hstc.Length == BUFFER_SIZE && sstc.Length == BUFFER_SIZE
      && forall i :: 0 <= i < |wire| ==> Proper(wire[i])
    }

    /** The next frame of `size` bytes. */
    function Next(size: nat): (f: Frame)
      requires size <= hstc.Length && 5 <= sstc.Length
      reads hstc, sstc
      ensures |f.tx| == size
    {
      Frame(hstc[..size], sstc[0], WordAt(sstc[..], 2), sstc[4])
    }

    constructor (commsRetries: nat, chipRevision: nat, lifeCycle: nat)
      ensures Valid() && wire == [] && fresh(hstc) && fresh(sstc)
      ensures retries == commsRetries && revision == chipRevision && lcsState == lifeCycle
    {
      hstc := new byte[BUFFER_SIZE];
      sstc := new byte[BUFFER_SIZE];
      retries, revision, lcsState := commsRetries, chipRevision, lifeCycle;
      wire := [];
    }

    /** One transfer of `size` bytes; the reply and the status are the device's. */
    method SpiTransfer(size: nat) returns (rc: int)
      requires Valid() && STC_HEADER <= size <= BUFFER_SIZE && Proper(Next(size))
      modifies this`wire, sstc
      ensures Valid() && wire == old(wire) + [old(Next(size))]
      ensures forall i :: size <= i < BUFFER_SIZE ==> sstc[i] == old(sstc[i])
    {
      wire := wire + [Next(size)];
      assert |seq(size, _ => 0)| == size;
      var reply: seq<byte> :| |reply| == size;
      forall i | 0 <= i < size {
        sstc[i] := reply[i];
      }
      rc := *;
    }

    method SetHeader(flags: byte, len: u16)
      requires Valid()
      modifies hstc
      ensures hstc[0] == flags && hstc[1] == 1 && WordAt(hstc[..], 2) == len
      ensures forall i :: 4 <= i < BUFFER_SIZE ==> hstc[i] == old(hstc[i])
    {
      hstc[0], hstc[1] := flags, 1;
      hstc[2], hstc[3] := len % 0x100, len / 0x100;
    }

    /** Copies bytes into the outgoing frame. */
    method Fill(at: nat, data: seq<byte>)
      requires Valid() && at + |data| <= BUFFER_SIZE
      modifies hstc
      ensures hstc[..] == old(hstc[..at]) + data + old(hstc[at + |data|..])
    {
      forall i | at <= i < at + |data| {
        hstc[i] := data[i - at];
      }
    }

    method PreRead() returns (rc: int)
      requires Valid()
      modifies this`wire, hstc, sstc
      ensures Valid() && |wire| == |old(wire)| + 1 && wire[..|old(wire)|] == old(wire) && sstc[4] == old(sstc[4])
      ensures IsPreRead(wire[|old(wire)|]) && wire[|old(wire)|].flags == old(sstc[0])
      ensures forall h :: Quiet(old(wire), wire, h)
    {
      SetHeader(HOST_PRE_READ, 0);
      hstc[4] := 0;
      assert hstc[..4] == [0x40, 1, 0, 0];
      rc := SpiTransfer(STC_HEADER);
    }

    /** Reads as many bytes as the device announced, or nothing if they do not fit the frame buffers. */
    method Read() returns (rc: int)
      requires Valid()
      modifies this`wire, hstc, sstc
      ensures Valid()
      ensures old(WordAt(sstc[..], 2)) > 2048 ==> rc == -8010 && wire == old(wire) && sstc[..] == old(sstc[..])
      ensures old(WordAt(sstc[..], 2)) <= 2048 ==>
                && |wire| == |old(wire)| + 1 && wire[..|old(wire)|] == old(wire) && IsRead(wire[|old(wire)|])
                && wire[|old(wire)|].announced == old(WordAt(sstc[..], 2))
                && wire[|old(wire)|].flags == old(sstc[0])
      ensures forall h :: Quiet(old(wire), wire, h)
    {
      var rdSize := WordAt(sstc[..], 2);
      if rdSize > MAX_STC_FRAME_LEN {
        return SPI_ERR_INVALID_STC_LEN;
      }
      forall i | 0 <= i < STC_HEADER + rdSize {
        hstc[i] := 0;
      }
      SetHeader(HOST_READ, rdSize);
      HeaderWord(hstc[..], STC_HEADER + rdSize);
      rc := SpiTransfer(STC_HEADER + rdSize);
    }

    /** A command of one or four bytes and no data. */
    method WriteCommand(cmd: seq<byte>) returns (rc: int)
      requires Valid() && (|cmd| == 1 || |cmd| == 4)
      modifies this`wire, hstc, sstc
      ensures Valid() && Wrote(old(wire), wire, Write(cmd, [], old(sstc[4])))
    {
      SetHeader(HOST_WRITE, |cmd|);
      ghost var header := hstc[..];
      Fill(STC_HEADER, cmd);
      HeaderWord(hstc[..], STC_HEADER + |cmd|);
      assert hstc[..4] == header[..4];
      SameWord(header, hstc[..]);
      rc := SpiTransfer(STC_HEADER + |cmd|);
    }

    /** `qmrom_write_size_cmd` and its 32-bit form: a command followed by data, in one frame. */
    method WriteData(cmd: seq<byte>, data: seq<byte>) returns (rc: int)
      requires Valid() && (|cmd| == 1 || |cmd| == 4)
      requires 0 < |data| && |cmd| + |data| <= MAX_STC_FRAME_LEN - STC_HEADER
      modifies this`wire, hstc, sstc
      ensures Valid() && Wrote(old(wire), wire, Write(cmd, data, old(sstc[4])))
      ensures wire[|old(wire)|].announced == old(WordAt(sstc[..], 2))
      ensures |wire[|old(wire)|].tx| <= MAX_STC_FRAME_LEN
    {
      SetHeader(HOST_WRITE, |data| + |cmd|);
      ghost var header := hstc[..];
      Fill(STC_HEADER, cmd);
      ghost var mid := hstc[..];
      assert mid[STC_HEADER..STC_HEADER + |cmd|] == cmd && mid[..4] == header[..4];
      Fill(STC_HEADER + |cmd|, data);
      ghost var tx := hstc[..STC_HEADER + |cmd| + |data|];
      assert tx == mid[..STC_HEADER + |cmd|] + data;
      assert tx[STC_HEADER..STC_HEADER + |cmd|] == mid[STC_HEADER..STC_HEADER + |cmd|];
      assert tx[..4] == mid[..4];
      SameWord(header, tx);
      rc := SpiTransfer(STC_HEADER + |cmd| + |data|);
    }

    /** The life-cycle checks that come before anything is sent. */
    method CheckKind(key1: seq<byte>) returns (rc: int)
      ensures rc == 0 || rc == -22
      ensures |key1| > 12 ==> (rc == 0 <==> (key1[12] == 0 ==> lcsState == 0) && (key1[12] == 1 ==> lcsState == 5))
      ensures |key1| > HBK_LOC ==> (rc == 0 <==> KindAllowed(key1[HBK_LOC], lcsState))
    {
      // With a key shorter than this the code reads past it.
      var kind: byte := *;
      if |key1| > HBK_LOC {
        kind := key1[HBK_LOC];
      }
      if kind == HBK_ICV && lcsState != LCS_MANUFACTURE {
        return -EINVAL;
      }
      if kind == HBK_OEM && lcsState != LCS_SECURE {
        return -EINVAL;
      }
      rc := 0;
    }
  }
}
