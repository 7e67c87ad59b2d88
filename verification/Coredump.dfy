/** Rebuilding a core dump from a header and body chunks, as a state machine over received blocks. */
module CoredumpSpec {
  import opened Words

  const HEADER_NTF: byte := 0
  const BODY_NTF: byte := 1
  const NACK: byte := 0
  const ACK: byte := 1
  const HEADER_BODY_SIZE: nat := 6

  // The allocator never grants this much, so a write index plus a chunk stays below 2^32.
  const ALLOCATION_LIMIT: nat := 0x8000_0000

  /** `stored` is the buffer up to the write index; `replies` the status bytes handed to the send function. */
  datatype Dump = Dump(
    hasMemory: bool, size: u32, crc: u16, status: byte, stored: seq<byte>, timer: bool, replies: seq<byte>)

  const INITIAL: Dump := Dump(false, 0, 0, NACK, [], false, [])

  /** The 16-bit sum of the stored bytes. */
  function Sum16(s: seq<byte>): (sum: u16) {
    if s == [] then 0 else (Sum16(s[..|s| - 1]) as int + s[|s| - 1] as int) % 0x1_0000
  }

  /** The sum of the bytes, without a bound. */
  function ByteSum(s: seq<byte>): (sum: nat) {
    if s == [] then 0 else s[0] as nat + ByteSum(s[1..])
  }

  lemma {:induction false} ByteSumAppend(a: seq<byte>, c: seq<byte>)
    ensures ByteSum(a + c) == ByteSum(a) + ByteSum(c)
  {
    if a == [] {
      assert a + c == c;
    } else {
      ByteSumAppend(a[1..], c);
      assert (a + c)[1..] == a[1..] + c;
    }
  }

  lemma ReducedAdd(x: nat, y: nat)
    ensures (x % 0x1_0000 + y) % 0x1_0000 == (x + y) % 0x1_0000
  {
    var p := x / 0x1_0000;
    assert x + y == x % 0x1_0000 + y + p * 0x1_0000;
  }

  lemma SumsNext(a: seq<byte>, c: byte)
    ensures Sum16(a + [c]) == (Sum16(a) as int + c as int) % 0x1_0000
    ensures ByteSum(a + [c]) == ByteSum(a) + c as int
  {
    assert (a + [c])[..|a|] == a;
    ByteSumAppend(a, [c]);
    assert [c][1..] == [];
  }

  /** The sum is that of the bytes, reduced to 16 bits. */
  lemma {:induction false} SumIsReduced(s: seq<byte>)
    ensures Sum16(s) == ByteSum(s) % 0x1_0000
  {
    if s != [] {
      var a, c := s[..|s| - 1], s[|s| - 1];
      SumIsReduced(a);
      SumsNext(a, c);
      assert s == a + [c];
      hide Sum16, ByteSum;
      ReducedAdd(ByteSum(a), c);
    }
  }

  /** It can be taken in parts. */
  lemma SumInParts(a: seq<byte>, b: byte, c: seq<byte>)
    ensures Sum16([]) == 0 && Sum16([b]) == b
    ensures Sum16(a + c) == (Sum16(a) as int + Sum16(c) as int) % 0x1_0000
  {
    SumIsReduced(a);
    SumIsReduced(c);
    SumIsReduced(a + c);
    ByteSumAppend(a, c);
    SumOfOne(b);
    hide Sum16, ByteSum;
    ReducedAdd(ByteSum(a), ByteSum(c));
    ReducedAdd(ByteSum(c), Sum16(a));
  }

  lemma SumOfOne(b: byte)
    ensures Sum16([]) == 0 && Sum16([b]) == b
  {
    assert [b][..0] == [];
  }

  function OnHeader(d: Dump, size: u32, crc: u16, granted: bool): Dump {
    if granted && 0 < size < ALLOCATION_LIMIT
    then d.(hasMemory := true, size := size, crc := crc, status := NACK, stored := [])
    else d.(hasMemory := false, size := 0, crc := 0, status := NACK, stored := [])
  }

  predicate Accepts(d: Dump, body: seq<byte>) {
    d.hasMemory && (|body| + |d.stored|) % 0x1_0000_0000 <= d.size
  }

  function OnBody(d: Dump, body: seq<byte>): Dump {
    if !Accepts(d, body) then d
    else
      var n := d.(stored := d.stored + body);
      if |n.stored| == n.size then
        var status := if Sum16(n.stored) == n.crc then ACK else n.status;
        n.(status := status, replies := n.replies + [status])
      else n.(timer := true)
  }

  function OnBlock(d: Dump, blk: seq<byte>, status: int, granted: bool): Dump {
    if status != 0 || |blk| < 1 then d
    else
      var e := d.(timer := false);
      if blk[0] == HEADER_NTF then
        if |blk| - 1 < HEADER_BODY_SIZE then e
        else OnHeader(e, LongAt(blk, 1), WordAt(blk, 5), granted)
      else if blk[0] == BODY_NTF then OnBody(e, blk[1..])
      else e
  }

  /** The receive timer expires: the current status is sent. */
  function OnTimer(d: Dump): Dump {
    if d.timer then d.(timer := false, replies := d.replies + [d.status]) else d
  }

  /** What every reachable state satisfies; an ACK status means complete data with a matching sum. */
  predicate Inv(d: Dump) {
    && |d.stored| <= d.size
    && (if d.hasMemory then 0 < d.size < ALLOCATION_LIMIT else d.size == 0 && d.status == NACK)
    && (d.status == NACK || d.status == ACK)
    && (d.status == ACK ==> |d.stored| == d.size && Sum16(d.stored) == d.crc)
  }

  lemma BlockKeepsInv(d: Dump, blk: seq<byte>, status: int, granted: bool)
    requires Inv(d) && |blk| < 0x1_0000
    ensures Inv(OnBlock(d, blk, status, granted))
  {
    if blk != [] && |d.stored| == d.size {
      assert |blk[1..]| == 0 ==> d.stored + blk[1..] == d.stored;
    }
  }

  /**
   A block in numbers. After a failed transfer, or empty, it changes nothing; any other stops the timer, and one that is
   neither a header nor a body that fits does no more.
   */
  lemma OtherOutcome(d: Dump, blk: seq<byte>, status: int, granted: bool)
    requires Inv(d) && |blk| < 0x1_0000
    ensures status != 0 || blk == [] ==> OnBlock(d, blk, status, granted) == d
    ensures status == 0 && blk != [] && (if blk[0] == 0 then |blk| < 7 else
              blk[0] == 1 ==> !d.hasMemory || |d.stored| + |blk| - 1 > d.size) ==>
              OnBlock(d, blk, status, granted) == d.(timer := false)
  {
  }

  /** Block 0 starts a dump of the size its next four bytes give, if there can be memory for it. */
  lemma HeaderOutcome(d: Dump, blk: seq<byte>, granted: bool)
    requires 7 <= |blk| && blk[0] == 0
    ensures var e := OnBlock(d, blk, 0, granted);
            var size := blk[1] as int + 0x100 * blk[2] as int + 0x1_0000 * blk[3] as int + 0x100_0000 * blk[4] as int;
            && e.stored == [] && e.status == 0 && !e.timer && e.replies == d.replies
            && e.hasMemory == (granted && 0 < size < 0x8000_0000)
            && (e.hasMemory ==> e.size == size && e.crc == blk[5] as int + 0x100 * blk[6] as int)
  {
  }

  lemma AcceptsIffFits(d: Dump, body: seq<byte>)
    requires Inv(d) && |body| < 0x1_0000
    ensures Accepts(d, body) <==> d.hasMemory && |d.stored| + |body| <= d.size
  {
  }

  /**
   Block 1 adds its body if that still fits: the one that completes the dump is answered with 1 if the sums agree, and
   any other starts the timer.
   */
  lemma BodyOutcome(d: Dump, blk: seq<byte>, granted: bool)
    requires Inv(d) && 1 <= |blk| < 0x1_0000 && blk[0] == 1
    requires d.hasMemory && |d.stored| + |blk| - 1 <= d.size
    ensures var e := OnBlock(d, blk, 0, granted);
            && e.stored == d.stored + blk[1..] && e.hasMemory && e.size == d.size && e.crc == d.crc
            && if |e.stored| < d.size then e.timer && e.replies == d.replies && e.status == d.status
               else
                 && !e.timer && e.replies == d.replies + [e.status]
                 && (e.status == 1 <==> ByteSum(e.stored) % 0x1_0000 == d.crc)
  {
    SumIsReduced(d.stored + blk[1..]);
    AcceptsIffFits(d, blk[1..]);
    hide Sum16, ByteSum, Accepts;
    if |d.stored| == d.size {
      assert d.stored + blk[1..] == d.stored;
    }
  }

  /** The timer sends the status once, if it runs. */
  lemma TimerOutcome(d: Dump)
    ensures OnTimer(d).replies == if d.timer then d.replies + [d.status] else d.replies
    ensures OnTimer(d) == d.(timer := false, replies := OnTimer(d).replies) && OnTimer(OnTimer(d)) == OnTimer(d)
  {
  }

  // ------------------------------------------------------------------ runs

  /** A received block with its transfer status and the allocator's answer, or the timer. */
  datatype Event = Block(blk: seq<byte>, status: int, granted: bool) | Timer

  ghost predicate Sized(es: seq<Event>) {
    forall i :: 0 <= i < |es| ==> es[i].Block? ==> |es[i].blk| < 0x1_0000
  }

  function Apply(d: Dump, e: Event): Dump {
    match e
    case Block(blk, status, granted) => OnBlock(d, blk, status, granted)
    case Timer => OnTimer(d)
  }

  function Run(d: Dump, es: seq<Event>): Dump {
    if es == [] then d else Apply(Run(d, es[..|es| - 1]), es[|es| - 1])
  }

  /** A block that starts a new dump. */
  predicate IsHeader(e: Event) {
    e.Block? && e.status == 0 && |e.blk| > HEADER_BODY_SIZE && e.blk[0] == HEADER_NTF
  }

  /** A block that carries a body. */
  predicate IsBody(e: Event) {
    e.Block? && e.status == 0 && e.blk != [] && e.blk[0] == BODY_NTF
  }

  /** A body block the layer stores. */
  predicate TakesBody(d: Dump, e: Event) {
    IsBody(e) && Accepts(d, e.blk[1..])
  }

  /** The bodies accepted since the last header of a run. */
  function Bodies(d: Dump, es: seq<Event>): seq<seq<byte>> {
    if es == [] then []
    else
      var before, e := es[..|es| - 1], es[|es| - 1];
      if IsHeader(e) then []
      else if TakesBody(Run(d, before), e) then Bodies(d, before) + [e.blk[1..]]
      else Bodies(d, before)
  }

  lemma ApplyKeepsInv(d: Dump, e: Event)
    requires Inv(d) && (e.Block? ==> |e.blk| < 0x1_0000)
    ensures Inv(Apply(d, e))
  {
    if e.Block? {
      BlockKeepsInv(d, e.blk, e.status, e.granted);
    }
  }

  /**
   A reply, sent on completion or by the timer, is the status of the state that sends it; so an ACK goes out
   only over complete data whose sum matches the header.
   */
  lemma AckIsHonest(d: Dump, e: Event)
    requires Inv(d) && (e.Block? ==> |e.blk| < 0x1_0000)
    ensures var f := Apply(d, e);
            && (f.replies != d.replies ==> f.replies == d.replies + [f.status])
            && (f.replies == d.replies + [ACK] ==>
                  f.hasMemory && |f.stored| == f.size && Sum16(f.stored) == f.crc)
  {
    ApplyKeepsInv(d, e);
    var f := Apply(d, e);
    if f.replies == d.replies + [ACK] {
      assert f.replies[|d.replies|] == ACK;
    }
  }

  /** How one event changes what is stored. */
  lemma ApplyStores(d: Dump, e: Event)
    requires Inv(d) && (e.Block? ==> |e.blk| < 0x1_0000)
    ensures Inv(Apply(d, e))
    ensures Apply(d, e).stored
         == if IsHeader(e) then []
            else if TakesBody(d, e) then d.stored + e.blk[1..]
            else d.stored
  {
    ApplyKeepsInv(d, e);
  }

  /** In every reachable state the stored prefix is what the bodies accepted since the last header add up to. */
  lemma {:induction false} StoredIsBodies(es: seq<Event>)
    requires Sized(es)
    ensures Inv(Run(INITIAL, es))
    ensures Run(INITIAL, es).stored == Concat(Bodies(INITIAL, es))
  {
    if es != [] {
      hide Apply, Inv, IsHeader, TakesBody;
      var before, e := es[..|es| - 1], es[|es| - 1];
      StoredIsBodies(before);
      ApplyStores(Run(INITIAL, before), e);
      if e.Block? && e.blk != [] {
        ConcatAppend(Bodies(INITIAL, before), [e.blk[1..]]);
        ConcatOne(e.blk[1..]);
      }
    }
  }

  // ------------------------------------------------------------------ reassembly

  function HeaderBlock(size: u32, crc: u16): seq<byte> {
    [HEADER_NTF] + Word32(size) + Word16(crc)
  }

  /** The bodies that arrive in a run, in order. */
  function Arriving(es: seq<Event>): (bodies: seq<seq<byte>>) {
    if es == [] then []
    else
      var e := es[|es| - 1];
      Arriving(es[..|es| - 1]) + (if IsBody(e) then [e.blk[1..]] else [])
  }

  lemma HeaderIsRead(size: u32, crc: u16)
    ensures LongAt(HeaderBlock(size, crc), 1) == size && WordAt(HeaderBlock(size, crc), 5) == crc
  {
    var b := HeaderBlock(size, crc);
    LongRoundTrip([HEADER_NTF], size, Word16(crc));
    WordRoundTrip([HEADER_NTF] + Word32(size), crc, []);
    assert b == [HEADER_NTF] + Word32(size) + Word16(crc) + [];
  }

  /** Bodies received into memory: all stored, and judged if they complete the dump. */
  ghost predicate Filled(d: Dump, size: u32, crc: u16, stored: seq<byte>) {
    && Inv(d) && d.hasMemory && d.size == size && d.crc == crc && d.stored == stored
    && (|stored| < size ==> d.status == NACK)
    && (|stored| == size ==>
          && (d.status == ACK <==> Sum16(stored) == crc)
          && d.replies != [] && d.replies[|d.replies| - 1] == d.status)
  }

  /** Whatever arrives but a header: a body that fits is stored, anything else leaves stored bytes and verdict. */
  lemma OneEvent(d: Dump, size: u32, crc: u16, stored: seq<byte>, e: Event)
    requires Filled(d, size, crc, stored) && !IsHeader(e) && (e.Block? ==> |e.blk| < 0x1_0000)
    requires IsBody(e) ==> |stored| + |e.blk[1..]| <= size
    ensures Filled(Apply(d, e), size, crc, if IsBody(e) then stored + e.blk[1..] else stored)
  {
    ApplyKeepsInv(d, e);
    if IsBody(e) && |stored| == size {
      assert stored + e.blk[1..] == stored;
    }
  }

  /** Bodies that still fit are stored one after the other, whatever comes between them. */
  lemma {:induction false} BodiesAdd(d: Dump, es: seq<Event>)
    requires Filled(d, d.size, d.crc, []) && d.size > 0
    requires Sized(es) && forall i :: 0 <= i < |es| ==> !IsHeader(es[i])
    requires |Concat(Arriving(es))| <= d.size
    ensures Filled(Run(d, es), d.size, d.crc, Concat(Arriving(es)))
  {
    if es != [] {
      hide Apply, Filled, Concat, IsHeader;
      var n := |es| - 1;
      var before, e := es[..n], es[n];
      if IsBody(e) {
        ConcatAppend(Arriving(before), [e.blk[1..]]);
        ConcatOne(e.blk[1..]);
      } else {
        assert Arriving(es) == Arriving(before);
      }
      BodiesAdd(d, before);
      OneEvent(Run(d, before), d.size, d.crc, Concat(Arriving(before)), e);
    }
  }

  /**
   After any history, a header naming a non-empty dump's size, followed by any events without another header whose
   bodies add up to the dump, leaves exactly the dump. It is acknowledged if and only if the header carried the dump's
   sum, which is that of its bytes modulo 65536, and that is the last reply. Timer expiries, failed transfers and
   unknown blocks may come in between.
   */
  lemma Reassembly(history: seq<Event>, dump: seq<byte>, crc: u16, es: seq<Event>)
    requires Sized(history) && Sized(es)
    requires 0 < |dump| < ALLOCATION_LIMIT && Concat(Arriving(es)) == dump
    requires forall i :: 0 <= i < |es| ==> !IsHeader(es[i])
    ensures var d := Run(Apply(Run(INITIAL, history), Block(HeaderBlock(|dump|, crc), 0, true)), es);
            && d.stored == dump
            && (d.status == ACK <==> crc == Sum16(dump))
            && (d.status == 1 <==> crc == ByteSum(dump) % 0x1_0000)
            && d.replies != [] && d.replies[|d.replies| - 1] == d.status
  {
    SumIsReduced(dump);
    StoredIsBodies(history);
    HeaderIsRead(|dump|, crc);
    var d := Apply(Run(INITIAL, history), Block(HeaderBlock(|dump|, crc), 0, true));
    hide Arriving, Run;
    BodiesAdd(d, es);
  }
}

/** The core dump layer: its fields and its buffer, updated in place. */
module CoredumpLayer {
  import opened Words
  import opened CoredumpSpec

  class CoredumpLayer {
    var data: array?<byte>
    var wrIdx: u32
    var size: u32
    var crc: u16
    var status: byte
    var timer: bool
    var replies: seq<byte>

    ghost predicate Valid()
      reads this, data
    {
      && (data != null ==> data.Length == size)
      && (if data == null then wrIdx == 0 else wrIdx <= data.Length)
      && Inv(View())
    }

    /** The state the fields stand for. */
    ghost function View(): Dump
      requires data == null || wrIdx <= data.Length
      reads this, data
    {
      Dump(data != null, size, crc, status, if data == null then [] else data[..wrIdx], timer, replies)
    }

    constructor ()
      ensures Valid() && View() == INITIAL
    {
      data := null;
      wrIdx, size, crc, status := 0, 0, 0, NACK;
      timer, replies := false, [];
    }

    /** `coredump_get_checksum`: 16-bit addition over the stored bytes. */
    method GetChecksum() returns (sum: u16)
      requires Valid() && data != null
      ensures sum == Sum16(View().stored)
    {
      sum := 0;
      var idx: u32 := 0;
      while idx < wrIdx
        invariant idx <= wrIdx
        invariant sum == Sum16(data[..idx])
      {
        assert data[..idx + 1][..idx] == data[..idx];
        sum := (sum as int + data[idx] as int) % 0x1_0000;
        idx := idx + 1;
      }
    }

    /** `coredump_header_ntf_received`; `granted` is the allocator's answer. */
    method HeaderReceived(newSize: u32, newCrc: u16, granted: bool)
      requires Valid()
      modifies this
      ensures Valid() && View() == OnHeader(old(View()), newSize, newCrc, granted)
    {
      wrIdx := 0;
      size := newSize;
      crc := newCrc;
      status := NACK;
      if granted && 0 < newSize < ALLOCATION_LIMIT {
        data := new byte[newSize];
      } else {
        data := null;
        size := 0;
        crc := 0;
      }
    }

    /** `coredump_body_ntf_received`: true if the body was rejected. */
    method BodyReceived(body: seq<byte>) returns (rejected: bool)
      requires Valid() && |body| < 0xFFFF
      modifies this`wrIdx, data
      ensures rejected <==> !Accepts(old(View()), body)
      ensures data == old(data) && (data == null || wrIdx <= data.Length) && (rejected ==> wrIdx == old(wrIdx))
      ensures View() == if rejected then old(View()) else old(View()).(stored := old(View()).stored + body)
    {
      if data == null {
        return true;
      }
      var end: u32 := (|body| + wrIdx as int) % 0x1_0000_0000;
      if end > size {
        return true;
      }
      ghost var before := data[..wrIdx];
      forall i | 0 <= i < |body| {
        data[wrIdx + i] := body[i];
      }
      assert data[..wrIdx + |body|] == before + body;
      wrIdx := wrIdx + |body|;
      rejected := false;
    }

    /** `coredump_received`. */
    method Received(blk: seq<byte>, transferStatus: int, granted: bool)
      requires Valid() && |blk| < 0x1_0000
      modifies this, data
      ensures Valid() && View() == OnBlock(old(View()), blk, transferStatus, granted)
    {
      BlockKeepsInv(View(), blk, transferStatus, granted);
      if transferStatus != 0 {
        return;
      }
      if |blk| < 1 {
        return;
      }
      timer := false;
      var body := blk[1..];
      if blk[0] == HEADER_NTF {
        if |body| < HEADER_BODY_SIZE {
          return;
        }
        HeaderReceived(LongAt(blk, 1), WordAt(blk, 5), granted);
      } else if blk[0] == BODY_NTF {
        var rejected := BodyReceived(body);
        if rejected {
          return;
        }
        if wrIdx == size {
          var sum := GetChecksum();
          if sum == crc {
            status := ACK;
          }
          replies := replies + [status];
        } else {
          timer := true;
        }
      }
    }

    /** `corredump_on_expired_timer`. */
    method TimerExpired()
      requires Valid()
      modifies this`timer, this`replies
      ensures Valid() && View() == OnTimer(old(View()))
    {
      if timer {
        timer := false;
        replies := replies + [status];
      }
    }
  }
}
