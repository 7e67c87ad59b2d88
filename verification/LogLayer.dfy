/** The log layer: trace notifications from the device go into the shipped ring buffer. */
module LogLayer {
  import opened Words
  import opened TraceRing
  import RB = RingBuffer

  const TRACE_RB_SIZE: nat := 0xFFFFF
  const LOG_CID_TRACE_NTF: nat := 0
  const LOG_HEADER_SIZE: nat := 4

  datatype Parsed = Dropped | Other(cmd: nat) | Trace(body: seq<byte>)

  /** What a received block means: a header of two words, command and body size, then the body. */
  function Parse(blk: seq<byte>, status: int): Parsed {
    if status != 0 || |blk| < LOG_HEADER_SIZE then Dropped
    else
      var size := WordAt(blk, 2);
      if |blk| < LOG_HEADER_SIZE + size then Dropped
      else if WordAt(blk, 0) == LOG_CID_TRACE_NTF then Trace(blk[LOG_HEADER_SIZE..LOG_HEADER_SIZE + size])
      else Other(WordAt(blk, 0))
  }

  function TracePacket(body: seq<byte>): seq<byte>
    requires |body| < 0x1_0000
  {
    [0, 0] + Word16(|body|) + body
  }

  /** A trace packet is parsed back to its body, whatever padding follows it. */
  lemma ParseTracePacket(body: seq<byte>, padding: seq<byte>)
    requires |body| < 0x1_0000
    ensures Parse(TracePacket(body) + padding, 0) == Trace(body)
  {
    var blk := TracePacket(body) + padding;
    WordRoundTrip([0, 0], |body|, body + padding);
    assert blk == [0, 0] + Word16(|body|) + (body + padding);
    assert blk[2] == Word16(|body|)[0] && blk[3] == Word16(|body|)[1];
    assert blk[4..4 + |body|] == body;
  }

  /** Byte by byte: exactly which blocks carry a trace, and which. */
  lemma TraceIff(blk: seq<byte>, status: int, body: seq<byte>)
    ensures Parse(blk, status) == Trace(body)
            <==> && status == 0 && |blk| >= 4 && blk[0] == 0 && blk[1] == 0
                 && |body| == blk[2] as int + 0x100 * blk[3] as int
                 && 4 + |body| <= |blk| && body == blk[4..4 + |body|]
  {
  }

  /** Every trace that passes the length guard meets the ring buffer's demands, in any run. */
  lemma GuardAdmitsPush(blk: seq<byte>, status: int, s: Ring)
    requires |blk| < 0x1_0000 && Parse(blk, status).Trace? && s.size == TRACE_RB_SIZE
    ensures |Parse(blk, status).body| <= 65531
    ensures Parse(blk, status).body != [] ==> Fits(s, Parse(blk, status).body)
  {
  }

  class LogLayer {
    var rb: RB.RingBuffer

    ghost predicate Valid()
      reads this, rb, rb.buf
    {
      rb.Valid() && rb.ring.size == TRACE_RB_SIZE
    }

    constructor (memory: array<byte>)
      requires memory.Length == TRACE_RB_SIZE
      ensures fresh(rb) && rb.buf == memory && rb.ring == Init(TRACE_RB_SIZE)
      ensures Valid() <==> WordAt(memory[..], 0) == 0
    {
      rb := new RB.RingBuffer(memory);
    }

    /** `log_received`: a block of at most 65535 bytes; no assumption on its contents. */
    method Received(blk: seq<byte>, status: int)
      requires Valid() && |blk| < 0x1_0000
      modifies rb`head, rb`tail, rb`rdtail, rb`ring, rb.buf
      ensures Valid()
      ensures var p := Parse(blk, status);
              if p.Trace? && p.body != [] then
                && rb.ring == Push(old(rb.ring), p.body)
                && IsSuffix(rb.Log(), old(rb.Log()) + [p.body])
              else unchanged(rb) && rb.buf[..] == old(rb.buf[..])
    {
      if status != 0 {
        return;
      }
      if |blk| < LOG_HEADER_SIZE {
        return;
      }
      var cmd, size := WordAt(blk, 0), WordAt(blk, 2);
      if |blk| < LOG_HEADER_SIZE + size {
        return;
      }
      if cmd == LOG_CID_TRACE_NTF {
        GuardAdmitsPush(blk, status, rb.ring);
        PushSize(rb.ring, blk, status);
        var _ := rb.Append(blk[LOG_HEADER_SIZE..LOG_HEADER_SIZE + size]);
      }
    }
  }

  lemma PushSize(s: Ring, blk: seq<byte>, status: int)
    requires Inv(s) && s.size == TRACE_RB_SIZE && |blk| < 0x1_0000 && Parse(blk, status).Trace?
    ensures Parse(blk, status).body != [] ==> Push(s, Parse(blk, status).body).size == s.size
  {
    GuardAdmitsPush(blk, status, s);
    if Parse(blk, status).body != [] {
      MakeRoomReachesMid(s, Parse(blk, status).body);
    }
  }
}
