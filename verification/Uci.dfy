/** Cutting a received block into UCI packets. */
module UciSplit {
  import opened Words

  const HEADER_SIZE: nat := 4

  /** `get_payload_size_from_header`: one length byte in a control packet, two in any other. */
  function PayloadSize(header: seq<byte>): (n: nat)
    requires |header| >= HEADER_SIZE
  {
    var isData := (header[0] / 0x20) % 8 == 0;
    var isControl := !isData && header[0] / 0x80 == 0;
    if isControl then header[3] else header[3] as int * 0x100 + header[2] as int
  }

  function Declared(packet: seq<byte>): (n: nat)
    requires |packet| >= HEADER_SIZE
  {
    HEADER_SIZE + PayloadSize(packet)
  }

  predicate WellFormed(packet: seq<byte>) {
    |packet| >= HEADER_SIZE && |packet| == Declared(packet)
  }

  /** Another packet follows the one at the start of `data`. */
  predicate MoreFollows(data: seq<byte>) {
    |data| >= HEADER_SIZE && |data| > Declared(data)
  }

  /** The pieces a block is queued as when `grants` more packets can be allocated. */
  function Pieces(data: seq<byte>, grants: nat): (ps: seq<seq<byte>>)
    decreases grants
  {
    if MoreFollows(data) && grants > 0
    then [data[..Declared(data)]] + Pieces(data[Declared(data)..], grants - 1)
    else [data]
  }

  lemma PiecesStep(data: seq<byte>, at: nat, grants: nat)
    requires at <= |data| && MoreFollows(data[at..]) && grants > 0
    ensures var n := Declared(data[at..]);
            Pieces(data[at..], grants) == [data[at..at + n]] + Pieces(data[at + n..], grants - 1)
  {
    var n := Declared(data[at..]);
    assert data[at..][..n] == data[at..at + n] && data[at..][n..] == data[at + n..];
  }

  /** For any bytes and any allocation failure the pieces make up the block. */
  lemma {:induction false} PiecesPartition(data: seq<byte>, grants: nat)
    ensures Pieces(data, grants) != []
    ensures Concat(Pieces(data, grants)) == data
    decreases grants
  {
    if MoreFollows(data) && grants > 0 {
      PiecesPartition(data[Declared(data)..], grants - 1);
    } else {
      assert Concat([data]) == data + Concat([]);
    }
  }

  /** Every piece but the last is exactly as long as its own header declares. */
  lemma {:induction false} PiecesDeclared(data: seq<byte>, grants: nat, i: nat)
    requires i < |Pieces(data, grants)| - 1
    ensures WellFormed(Pieces(data, grants)[i])
    decreases grants
  {
    var n := Declared(data);
    assert data[..n][..HEADER_SIZE] == data[..HEADER_SIZE];
    if i > 0 {
      PiecesDeclared(data[n..], grants - 1, i - 1);
    }
  }

  /** If the allocations did not run out, the last piece cannot be cut any further. */
  lemma {:induction false} LastPieceIsUncut(data: seq<byte>, grants: nat)
    requires |Pieces(data, grants)| <= grants
    ensures !MoreFollows(Pieces(data, grants)[|Pieces(data, grants)| - 1])
    decreases grants
  {
    if MoreFollows(data) {
      var rest := Pieces(data[Declared(data)..], grants - 1);
      PiecesPartition(data[Declared(data)..], grants - 1);
      LastPieceIsUncut(data[Declared(data)..], grants - 1);
      assert Pieces(data, grants)[|rest|] == rest[|rest| - 1];
    }
  }

  ghost predicate AllWellFormed(ps: seq<seq<byte>>) {
    forall i :: 0 <= i < |ps| ==> WellFormed(ps[i])
  }

  /** Receiving well-formed packets back to back queues exactly those packets. */
  lemma {:induction false} SplitRoundTrip(ps: seq<seq<byte>>, grants: nat)
    requires ps != [] && AllWellFormed(ps) && grants >= |ps| - 1
    ensures Pieces(Concat(ps), grants) == ps
    decreases |ps|
  {
    var rest := ps[1..];
    FirstPacket(ps);
    if rest == [] {
      assert Concat(ps) == ps[0] + Concat(rest) == ps[0];
    } else {
      NotEmpty(rest);
      SplitRoundTrip(rest, grants - 1);
    }
  }

  lemma FirstPacket(ps: seq<seq<byte>>)
    requires ps != [] && AllWellFormed(ps)
    ensures var data := Concat(ps);
            && |data| >= HEADER_SIZE && Declared(data) == |ps[0]| <= |data|
            && data[..|ps[0]|] == ps[0] && data[|ps[0]|..] == Concat(ps[1..])
  {
    assert Concat(ps)[..HEADER_SIZE] == ps[0][..HEADER_SIZE];
  }

  lemma NotEmpty(ps: seq<seq<byte>>)
    requires ps != [] && AllWellFormed(ps)
    ensures |Concat(ps)| > 0
  {
  }

  // ------------------------------------------------------------------ the three kinds of packets, byte by byte

  lemma PacketIsCut(packet: seq<byte>, rest: seq<byte>, grants: nat)
    requires WellFormed(packet) && rest != [] && grants > 0
    ensures Pieces(packet + rest, grants) == [packet] + Pieces(rest, grants - 1)
  {
    var data := packet + rest;
    assert data[..HEADER_SIZE] == packet[..HEADER_SIZE];
    assert data[0] == packet[0] && data[2] == packet[2] && data[3] == packet[3];
    assert data[..|packet|] == packet && data[|packet|..] == rest;
  }

  /** A data packet counts its payload in two bytes, the low one first: it is cut off what follows. */
  lemma DataPacketIsCut(h0: byte, h1: byte, p: seq<byte>, rest: seq<byte>, grants: nat)
    requires h0 < 0x20 && |p| < 0x1_0000 && rest != [] && grants > 0
    ensures var packet: seq<byte> := [h0, h1, |p| % 0x100, |p| / 0x100] + p;
            Pieces(packet + rest, grants) == [packet] + Pieces(rest, grants - 1)
  {
    PacketIsCut([h0, h1, |p| % 0x100, |p| / 0x100] + p, rest, grants);
  }

  /** A control packet counts it in its last header byte, whatever the byte before. */
  lemma ControlPacketIsCut(h0: byte, h1: byte, h2: byte, p: seq<byte>, rest: seq<byte>, grants: nat)
    requires 0x20 <= h0 < 0x80 && |p| < 0x100 && rest != [] && grants > 0
    ensures var packet: seq<byte> := [h0, h1, h2, |p|] + p;
            Pieces(packet + rest, grants) == [packet] + Pieces(rest, grants - 1)
  {
    PacketIsCut([h0, h1, h2, |p|] + p, rest, grants);
  }

  /** A packet of no defined kind counts it as a data packet does. */
  lemma OtherPacketIsCut(h0: byte, h1: byte, p: seq<byte>, rest: seq<byte>, grants: nat)
    requires 0x80 <= h0 && |p| < 0x1_0000 && rest != [] && grants > 0
    ensures var packet: seq<byte> := [h0, h1, |p| % 0x100, |p| / 0x100] + p;
            Pieces(packet + rest, grants) == [packet] + Pieces(rest, grants - 1)
  {
    PacketIsCut([h0, h1, |p| % 0x100, |p| / 0x100] + p, rest, grants);
  }

  /** A block with no more bytes than its header announces, or with less than a header, stays whole. */
  lemma TruncatedStaysWhole(h0: byte, h1: byte, h2: byte, h3: byte, p: seq<byte>, grants: nat)
    requires |p| <= if 0x20 <= h0 < 0x80 then h3 as int else h2 as int + 0x100 * h3 as int
    ensures var block := [h0, h1, h2, h3] + p;
            Pieces(block, grants) == [block] && forall n :: 0 <= n < 4 ==> Pieces(block[..n], grants) == [block[..n]]
  {
  }

  /** Only those packets: two well-formed lists with the same bytes are the same list. */
  lemma SplitIsInjective(ps: seq<seq<byte>>, qs: seq<seq<byte>>)
    requires ps != [] && qs != [] && AllWellFormed(ps) && AllWellFormed(qs) && Concat(ps) == Concat(qs)
    ensures ps == qs
  {
    SplitRoundTrip(ps, |ps| + |qs|);
    SplitRoundTrip(qs, |ps| + |qs|);
  }
}

/** Packets that alias one block's memory, and the list they wait in. */
module UciLifetime {
  import opened Words

  /**
   A queued packet: `length` bytes at `offset` in `buf`. The owner is the packet the memory was allocated for;
   the others only point into it.
   */
  datatype Packet = Packet(buf: array<byte>, offset: nat, length: nat, owner: bool)

  /** The block `uci_received` is still cutting, if it is running. */
  datatype Pending = Nothing | Cutting(buf: array<byte>)

  ghost predicate OwnerBehind(list: seq<Packet>, i: int)
    requires 0 <= i < |list|
  {
    exists j :: i < j < |list| && list[j].owner && list[j].buf == list[i].buf
  }

  /**
   Every packet points into live memory; one that does not own it has its owner behind it in the list or
   still being cut; nothing behind an owner points into the owner's memory.
   */
  ghost predicate Sound(list: seq<Packet>, pending: Pending, live: set<array<byte>>) {
    && (forall i :: 0 <= i < |list| ==>
          list[i].buf in live && list[i].offset + list[i].length <= list[i].buf.Length)
    && (forall i :: 0 <= i < |list| && !list[i].owner ==> OwnerBehind(list, i) || pending == Cutting(list[i].buf))
    && (forall i, j :: 0 <= i < j < |list| && list[i].owner ==> list[j].buf != list[i].buf)
    && (pending.Cutting? ==>
          pending.buf in live && forall i :: 0 <= i < |list| && list[i].owner ==> list[i].buf != pending.buf)
  }

  lemma AppendAlias(list: seq<Packet>, p: Packet, live: set<array<byte>>)
    requires Sound(list, Cutting(p.buf), live) && !p.owner && p.offset + p.length <= p.buf.Length
    ensures Sound(list + [p], Cutting(p.buf), live)
  {
    var r := list + [p];
    forall i | 0 <= i < |r| && !r[i].owner
      ensures OwnerBehind(r, i) || r[i].buf == p.buf
    {
      if i < |list| && OwnerBehind(list, i) {
        var j :| i < j < |list| && list[j].owner && list[j].buf == list[i].buf;
        assert r[j].owner;
      }
    }
  }

  lemma AppendOwner(list: seq<Packet>, p: Packet, live: set<array<byte>>)
    requires Sound(list, Cutting(p.buf), live) && p.owner && p.offset + p.length <= p.buf.Length
    ensures Sound(list + [p], Nothing, live)
  {
    var r := list + [p];
    forall i | 0 <= i < |r| && !r[i].owner
      ensures OwnerBehind(r, i)
    {
      if OwnerBehind(list, i) {
        var j :| i < j < |list| && list[j].owner && list[j].buf == list[i].buf;
        assert r[j].owner;
      } else {
        assert r[|list|].owner;
      }
    }
  }

  /** Whatever is being cut meanwhile, removing the head keeps the list sound, and freeing the head's memory too. */
  lemma RemoveHead(list: seq<Packet>, pending: Pending, live: set<array<byte>>)
    requires Sound(list, pending, live) && list != []
    ensures Sound(list[1..], pending, live)
    ensures list[0].owner ==> Sound(list[1..], pending, live - {list[0].buf})
    ensures !list[0].owner ==> OwnerBehind(list, 0) || pending == Cutting(list[0].buf)
  {
    var r := list[1..];
    forall i | 0 <= i < |r| && !r[i].owner
      ensures OwnerBehind(r, i) || pending == Cutting(r[i].buf)
    {
      if OwnerBehind(list, i + 1) {
        var j :| i + 1 < j < |list| && list[j].owner && list[j].buf == list[i + 1].buf;
        assert r[j - 1].owner;
      }
    }
  }

  /** A new block's memory is pointed into by nothing yet. */
  lemma BeginCut(list: seq<Packet>, buf: array<byte>, live: set<array<byte>>)
    requires Sound(list, Nothing, live) && buf !in live
    ensures Sound(list, Cutting(buf), live + {buf})
  {
  }

  datatype Option<T> = None | Some(value: T)

  /**
   The list, the block being cut, the packet the one reader has taken and not yet freed, and the live memory, as the
   receiver, the reader and the clearing of the list change them in turns.
   */
  datatype State = State(list: seq<Packet>, pending: Pending, held: Option<Packet>, live: set<array<byte>>)

  datatype Event =
    | Begin(buf: array<byte>)
    | Cut(offset: nat, length: nat)
    | Finish(offset: nat, length: nat)
    | Take
    | FreeTaken
    | Discard

  function Freed(p: Packet, live: set<array<byte>>): set<array<byte>> {
    if p.owner then live - {p.buf} else live
  }

  ghost function Step(s: State, e: Event): State {
    match e
    case Begin(buf) =>
      if s.pending == Nothing && buf !in s.live then s.(pending := Cutting(buf), live := s.live + {buf}) else s
    case Cut(offset, length) =>
      if s.pending.Cutting? && offset + length <= s.pending.buf.Length
      then s.(list := s.list + [Packet(s.pending.buf, offset, length, false)]) else s
    case Finish(offset, length) =>
      if s.pending.Cutting? && offset + length <= s.pending.buf.Length
      then s.(list := s.list + [Packet(s.pending.buf, offset, length, true)], pending := Nothing) else s
    case Take =>
      if s.held.None? && s.list != [] then s.(list := s.list[1..], held := Some(s.list[0])) else s
    case FreeTaken =>
      if s.held.Some? then s.(held := None, live := Freed(s.held.value, s.live)) else s
    case Discard =>
      if s.list == [] then s else s.(list := s.list[1..], live := Freed(s.list[0], s.live))
  }

  ghost function Run(s: State, es: seq<Event>): State
    decreases |es|
  {
    if es == [] then s else Step(Run(s, es[..|es| - 1]), es[|es| - 1])
  }

  lemma RunMore(s: State, es: seq<Event>, e: Event)
    ensures Run(s, es + [e]) == Step(Run(s, es), e)
  {
    assert (es + [e])[..|es|] == es;
  }

  lemma {:induction false} RunThen(s: State, a: seq<Event>, b: seq<Event>)
    ensures Run(s, a + b) == Run(Run(s, a), b)
    decreases |b|
  {
    hide Step;
    if b == [] {
      assert a + b == a;
    } else {
      var c, e := b[..|b| - 1], b[|b| - 1];
      RunThen(s, a, c);
      assert a + b == (a + c) + [e];
      RunMore(s, a + c, e);
    }
  }

  /** A taken packet that owns memory is alone in pointing into it. */
  ghost predicate Alone(s: State) {
    s.held.Some? && s.held.value.owner ==>
      && s.held.value.buf in s.live
      && s.pending != Cutting(s.held.value.buf)
      && forall i :: 0 <= i < |s.list| ==> s.list[i].buf != s.held.value.buf
  }

  ghost predicate AllSound(s: State) {
    Sound(s.list, s.pending, s.live) && Alone(s)
  }

  /** Freeing memory nothing points into. */
  lemma FreeUnused(list: seq<Packet>, pending: Pending, live: set<array<byte>>, buf: array<byte>)
    requires Sound(list, pending, live) && pending != Cutting(buf)
    requires forall i :: 0 <= i < |list| ==> list[i].buf != buf
    ensures Sound(list, pending, live - {buf})
  {
  }

  lemma StepKeepsSound(s: State, e: Event)
    requires AllSound(s)
    ensures AllSound(Step(s, e))
  {
    match e
    case Begin(buf) => if s.pending == Nothing && buf !in s.live { BeginCut(s.list, buf, s.live); }
    case Cut(offset, length) =>
      if s.pending.Cutting? && offset + length <= s.pending.buf.Length {
        AppendAlias(s.list, Packet(s.pending.buf, offset, length, false), s.live);
      }
    case Finish(offset, length) =>
      if s.pending.Cutting? && offset + length <= s.pending.buf.Length {
        AppendOwner(s.list, Packet(s.pending.buf, offset, length, true), s.live);
      }
    case Take => if s.list != [] { RemoveHead(s.list, s.pending, s.live); }
    case FreeTaken =>
      if s.held.Some? && s.held.value.owner {
        FreeUnused(s.list, s.pending, s.live, s.held.value.buf);
      }
    case Discard => if s.list != [] { RemoveHead(s.list, s.pending, s.live); }
  }

  /** In every interleaving of receiving, reading and clearing, no queued packet dangles. */
  lemma {:induction false} AlwaysSound(s: State, es: seq<Event>)
    requires AllSound(s)
    ensures AllSound(Run(s, es))
    decreases |es|
  {
    if es != [] {
      hide AllSound, Step;
      AlwaysSound(s, es[..|es| - 1]);
      StepKeepsSound(Run(s, es[..|es| - 1]), es[|es| - 1]);
    }
  }

  /** Somebody will free this memory: a queued packet, the reader, or the receiver still cutting it. */
  ghost predicate Kept(s: State, buf: array<byte>) {
    || s.pending == Cutting(buf)
    || (s.held.Some? && s.held.value.owner && s.held.value.buf == buf)
    || exists j :: 0 <= j < |s.list| && s.list[j].owner && s.list[j].buf == buf
  }

  ghost predicate NoLeak(s: State) {
    forall buf :: buf in s.live ==> Kept(s, buf)
  }

  lemma StepKeepsKept(s: State, e: Event, buf: array<byte>)
    requires Kept(s, buf) && buf in Step(s, e).live
    ensures Kept(Step(s, e), buf)
  {
    var r := Step(s, e);
    if exists j :: 0 <= j < |s.list| && s.list[j].owner && s.list[j].buf == buf {
      var j :| 0 <= j < |s.list| && s.list[j].owner && s.list[j].buf == buf;
      if r.list == s.list || |r.list| > |s.list| {
        assert r.list[j].owner && r.list[j].buf == buf;
      } else if j > 0 {
        assert r.list[j - 1].owner && r.list[j - 1].buf == buf;
      }
    } else if e.Finish? && r != s && s.pending == Cutting(buf) {
      assert r.list[|s.list|].owner;
    }
  }

  lemma StepKeepsNoLeak(s: State, e: Event)
    requires NoLeak(s)
    ensures NoLeak(Step(s, e))
  {
    var r := Step(s, e);
    forall buf | buf in r.live
      ensures Kept(r, buf)
    {
      if buf in s.live {
        StepKeepsKept(s, e, buf);
      }
    }
  }

  /** In every interleaving no memory is lost: once nothing is queued, held or being cut, none is live. */
  lemma {:induction false} NothingLeaks(s: State, es: seq<Event>)
    requires NoLeak(s)
    ensures NoLeak(Run(s, es))
    ensures var r := Run(s, es); r.list == [] && r.held == None && r.pending == Nothing ==> r.live == {}
    decreases |es|
  {
    if es != [] {
      hide NoLeak, Step;
      NothingLeaks(s, es[..|es| - 1]);
      StepKeepsNoLeak(Run(s, es[..|es| - 1]), es[|es| - 1]);
    }
    var r := Run(s, es);
    if r.list == [] && r.held == None && r.pending == Nothing {
      NothingKeptNothingLive(r);
    }
  }

  lemma NothingKeptNothingLive(s: State)
    requires NoLeak(s) && s.list == [] && s.held == None && s.pending == Nothing
    ensures s.live == {}
  {
    assert forall buf: array<byte> :: !Kept(s, buf);
  }

  /** A taken alias whose owner is still queued or being cut. */
  ghost predicate Backed(s: State) {
    s.held.Some? && !s.held.value.owner ==>
      || s.pending == Cutting(s.held.value.buf)
      || exists j :: 0 <= j < |s.list| && s.list[j].owner && s.list[j].buf == s.held.value.buf
  }

  /** The reader may copy from the packet it holds. */
  ghost predicate HeldIsLive(s: State) {
    s.held.Some? ==> s.held.value.buf in s.live
  }

  /** Clearing the head would free the memory the reader is copying from. */
  predicate Orphans(s: State) {
    s.held.Some? && s.list != [] && s.list[0].owner && s.list[0].buf == s.held.value.buf
  }

  /** Clearing the head breaks the reader exactly when it takes the owner from under it. */
  lemma DiscardKeepsHeldIff(s: State)
    requires AllSound(s) && HeldIsLive(s)
    ensures HeldIsLive(Step(s, Discard)) <==> !Orphans(s)
  {
  }

  /** The list is never cleared of the owner of a packet the reader holds. */
  ghost predicate Calm(s: State, es: seq<Event>) {
    forall i :: 0 <= i < |es| && es[i] == Discard ==> !Orphans(Run(s, es[..i]))
  }

  lemma StepKeepsBacked(s: State, e: Event)
    requires AllSound(s) && Backed(s) && (e == Discard ==> !Orphans(s))
    ensures Backed(Step(s, e))
  {
    var r := Step(s, e);
    if r.held.Some? && !r.held.value.owner {
      var buf := r.held.value.buf;
      if s.held == r.held && exists j :: 0 <= j < |s.list| && s.list[j].owner && s.list[j].buf == buf {
        var j :| 0 <= j < |s.list| && s.list[j].owner && s.list[j].buf == buf;
        assert r.list[if e == Discard then j - 1 else j].owner;
      } else if s.held == r.held {
        if r.pending != Cutting(buf) {
          assert r.list[|s.list|].owner;
        }
      } else {
        TakenIsBacked(s);
      }
    }
  }

  lemma TakenIsBacked(s: State)
    requires AllSound(s) && s.held.None? && s.list != [] && !s.list[0].owner
    ensures Backed(Step(s, Take))
  {
    var r := Step(s, Take);
    if s.pending != Cutting(s.list[0].buf) {
      assert OwnerBehind(s.list, 0);
      var j :| 0 < j < |s.list| && s.list[j].owner && s.list[j].buf == s.list[0].buf;
      assert r.list[j - 1].owner;
    }
  }

  /**
   With one reader, and the list not cleared of the owner of what it holds, the memory it copies from stays live in
   every interleaving, also while the block is still being cut.
   */
  lemma {:induction false} HeldStaysLive(s: State, es: seq<Event>)
    requires AllSound(s) && s.held == None && Calm(s, es)
    ensures Backed(Run(s, es)) && HeldIsLive(Run(s, es))
    decreases |es|
  {
    AlwaysSound(s, es);
    if es != [] {
      var before := es[..|es| - 1];
      AlwaysSound(s, before);
      assert Calm(s, before) by {
        forall i | 0 <= i < |before| && before[i] == Discard
          ensures !Orphans(Run(s, before[..i]))
        {
          assert before[..i] == es[..i];
        }
      }
      hide Step, AllSound, Backed, Calm;
      HeldStaysLive(s, before);
      assert es[..|before|] == before;
      CalmLast(s, es);
      StepKeepsBacked(Run(s, before), es[|before|]);
    }
    BackedIsLive(Run(s, es));
  }

  lemma CalmLast(s: State, es: seq<Event>)
    requires Calm(s, es) && es != []
    ensures es[|es| - 1] == Discard ==> !Orphans(Run(s, es[..|es| - 1]))
  {
  }

  lemma BackedIsLive(s: State)
    requires AllSound(s) && Backed(s)
    ensures HeldIsLive(s)
  {
  }

  /** The reader may copy at every point of a run. */
  ghost predicate AlwaysLive(s: State, es: seq<Event>) {
    forall i :: 0 <= i <= |es| ==> HeldIsLive(Run(s, es[..i]))
  }

  /** The condition is exact: the reader's memory is live all along a run if and only if the run is calm. */
  lemma LiveIffCalm(s: State, es: seq<Event>)
    requires AllSound(s) && s.held == None
    ensures AlwaysLive(s, es) <==> Calm(s, es)
  {
    if Calm(s, es) {
      forall i | 0 <= i <= |es|
        ensures HeldIsLive(Run(s, es[..i]))
      {
        CalmPrefix(s, es, i);
        HeldStaysLive(s, es[..i]);
      }
    }
    if AlwaysLive(s, es) {
      forall i | 0 <= i < |es| && es[i] == Discard
        ensures !Orphans(Run(s, es[..i]))
      {
        AlwaysSound(s, es[..i]);
        assert es[..i + 1] == es[..i] + [Discard];
        RunMore(s, es[..i], Discard);
        assert HeldIsLive(Run(s, es[..i + 1]));
        DiscardKeepsHeldIff(Run(s, es[..i]));
      }
    }
  }

  lemma CalmPrefix(s: State, es: seq<Event>, n: nat)
    requires Calm(s, es) && n <= |es|
    ensures Calm(s, es[..n])
  {
    forall i | 0 <= i < n && es[..n][i] == Discard
      ensures !Orphans(Run(s, es[..n][..i]))
    {
      assert es[..n][..i] == es[..i];
    }
  }

  // ------------------------------------------------------------------ clearing the whole list

  /** The memory the packets of a list own. */
  ghost function Owned(list: seq<Packet>): set<array<byte>> {
    set i | 0 <= i < |list| && list[i].owner :: list[i].buf
  }

  lemma OwnedMore(list: seq<Packet>, p: Packet)
    ensures Owned(list + [p]) == if p.owner then Owned(list) + {p.buf} else Owned(list)
  {
    var r := list + [p];
    assert forall i :: 0 <= i < |list| ==> r[i] == list[i];
    if p.owner {
      assert r[|list|].owner;
    }
    forall b | b in Owned(list)
      ensures b in Owned(r)
    {
      var i :| 0 <= i < |list| && list[i].owner && list[i].buf == b;
      assert r[i].owner;
    }
  }

  function Discards(n: nat): (es: seq<Event>)
    ensures |es| == n
  {
    seq(n, _ => Discard)
  }

  /** Clearing `n` packets frees exactly the memory they own. */
  lemma {:induction false} DiscardsFree(s: State, n: nat)
    requires n <= |s.list|
    ensures Run(s, Discards(n)) == s.(list := s.list[n..], live := s.live - Owned(s.list[..n]))
  {
    if n == 0 {
      assert Discards(0) == [];
    } else {
      DiscardsFree(s, n - 1);
      assert Discards(n) == Discards(n - 1) + [Discard];
      RunMore(s, Discards(n - 1), Discard);
      hide Run;
      assert s.list[..n] == s.list[..n - 1] + [s.list[n - 1]];
      OwnedMore(s.list[..n - 1], s.list[n - 1]);
      assert s.list[n - 1..][0] == s.list[n - 1] && s.list[n - 1..][1..] == s.list[n..];
    }
  }

  /**
   For the whole of `clear_rx_list`, before which a caller can check it: the packet the reader holds stays live if
   and only if no queued packet owns its memory.
   */
  lemma ClearKeepsHeldIff(s: State)
    requires HeldIsLive(s)
    ensures HeldIsLive(Run(s, Discards(|s.list|))) <==> (s.held.Some? ==> s.held.value.buf !in Owned(s.list))
  {
    DiscardsFree(s, |s.list|);
    assert s.list[..|s.list|] == s.list;
  }

  /** A block of two packets, received into an empty list; the reader takes the first. */
  function TwoPackets(b: array<byte>): seq<Event> {
    [Begin(b)] + [Cut(0, 4)] + [Finish(4, 4)] + [Take]
  }

  /** The condition can fail: clearing the list now frees the memory the reader is copying from. */
  lemma ClearingUnderTheReader(b: array<byte>)
    requires b.Length == 8
    ensures var s := State([], Nothing, None, {});
            && AllSound(s) && Orphans(Run(s, TwoPackets(b))) && HeldIsLive(Run(s, TwoPackets(b)))
            && !HeldIsLive(Run(s, TwoPackets(b) + [Discard]))
  {
    var s := State([], Nothing, None, {});
    var p, q := Packet(b, 0, 4, false), Packet(b, 4, 4, true);
    assert Run(s, []) == s;
    RunMore(s, [], Begin(b));
    assert [] + [Begin(b)] == [Begin(b)];
    RunMore(s, [Begin(b)], Cut(0, 4));
    RunMore(s, [Begin(b)] + [Cut(0, 4)], Finish(4, 4));
    RunMore(s, [Begin(b)] + [Cut(0, 4)] + [Finish(4, 4)], Take);
    RunMore(s, TwoPackets(b), Discard);
    hide Run;
    assert Run(s, [Begin(b)]) == State([], Cutting(b), None, {b});
    assert Run(s, [Begin(b)] + [Cut(0, 4)]) == State([p], Cutting(b), None, {b});
    assert Run(s, [Begin(b)] + [Cut(0, 4)] + [Finish(4, 4)]) == State([p, q], Nothing, None, {b});
    assert Run(s, TwoPackets(b)) == State([q], Nothing, Some(p), {b});
  }
}

/** The UCI layer: its receive list, updated in place. */
module UciLayer {
  import opened Errno
  import opened Words
  import opened UciSplit
  import opened UciLifetime

  datatype ReadResult = Read(packet: Packet) | Failed(error: int)

  ghost predicate Points(p: Packet, blk: array<byte>, data: seq<byte>, text: seq<byte>, owner: bool) {
    && p.buf == blk && p.owner == owner
    && p.offset + p.length <= |data|
    && data[p.offset..p.offset + p.length] == text
  }

  /** `list` is `before` followed by packets for `texts`, pointing into `blk`; with `closed` the last owns it. */
  ghost predicate QueuedAs(
    list: seq<Packet>, before: seq<Packet>, blk: array<byte>, data: seq<byte>, texts: seq<seq<byte>>, closed: bool)
  {
    && |list| == |before| + |texts|
    && list[..|before|] == before
    && forall k :: 0 <= k < |texts| ==>
         Points(list[|before| + k], blk, data, texts[k], closed && k == |texts| - 1)
  }

  lemma QueueMore(list: seq<Packet>, before: seq<Packet>, blk: array<byte>, data: seq<byte>, texts: seq<seq<byte>>,
                  p: Packet, text: seq<byte>, closed: bool)
    requires QueuedAs(list, before, blk, data, texts, false) && Points(p, blk, data, text, closed)
    ensures QueuedAs(list + [p], before, blk, data, texts + [text], closed)
  {
    assert (list + [p])[..|before|] == list[..|before|];
  }

  /** Queuing one more alias keeps step with the pieces of the block. */
  lemma QueueCut(list: seq<Packet>, before: seq<Packet>, data: seq<byte>, texts: seq<seq<byte>>, left: nat,
                 grants: nat, p: Packet) returns (left': nat, texts': seq<seq<byte>>)
    requires QueuedAs(list, before, p.buf, data, texts, false)
    requires p.offset <= |data| && MoreFollows(data[p.offset..]) && left > 0
    requires p.length == Declared(data[p.offset..]) && !p.owner
    requires Pieces(data, grants) == texts + Pieces(data[p.offset..], left)
    ensures left' == left - 1 && p.offset + p.length <= |data|
    ensures QueuedAs(list + [p], before, p.buf, data, texts', false)
    ensures Pieces(data, grants) == texts' + Pieces(data[p.offset + p.length..], left')
  {
    hide Pieces;
    var text := data[p.offset..p.offset + p.length];
    PiecesStep(data, p.offset, left);
    QueueMore(list, before, p.buf, data, texts, p, text, false);
    left', texts' := left - 1, texts + [text];
  }

  /** What `uci_received` does in the life of packets: a block begun, cut any number of times and finished. */
  predicate IsReceipt(es: seq<Event>, blk: array<byte>) {
    && |es| >= 2 && es[0] == Begin(blk) && es[|es| - 1].Finish?
    && forall i :: 0 < i < |es| - 1 ==> es[i].Cut?
  }

  /** Beginning and finishing around some cuts. */
  lemma ReceiptRuns(s: State, blk: array<byte>, cuts: seq<Event>, m: State, last: Event)
    requires s.pending == Nothing && blk !in s.live
    requires m == Run(s.(pending := Cutting(blk), live := s.live + {blk}), cuts)
    ensures Run(s, [Begin(blk)] + cuts + [last]) == Step(m, last)
  {
    RunMore(s, [], Begin(blk));
    assert [] + [Begin(blk)] == [Begin(blk)];
    RunThen(s, [Begin(blk)], cuts);
    RunMore(s, [Begin(blk)] + cuts, last);
  }

  class UciLayer {
    var rxList: seq<Packet>
    ghost var pending: Pending
    ghost var live: set<array<byte>>

    ghost predicate Valid()
      reads this
    {
      Sound(rxList, pending, live)
    }

    /** The state of all packets, while the reader holds `h`. */
    ghost function With(h: Option<Packet>): State
      reads this
    {
      State(rxList, pending, h, live)
    }

    constructor ()
      ensures Valid() && rxList == [] && pending == Nothing
    {
      rxList, pending, live := [], Nothing, {};
    }

    /** `uci_packet_free`: only an owner has memory to give back. */
    method Free(p: Packet)
      modifies this`live
      ensures live == Freed(p, old(live))
    {
      if p.owner {
        live := live - {p.buf};
      }
    }

    /**
     The cutting loop of `uci_received`: queues every packet that another one follows, until an allocation
     fails. Returns how far it got.
     */
    method CutAliases(blk: array<byte>, grants: nat)
      returns (readn: nat, ghost left: nat, ghost done: seq<seq<byte>>, ghost cuts: seq<Event>)
      requires Valid() && pending == Cutting(blk)
      modifies this`rxList
      ensures Valid()
      ensures forall i :: 0 <= i < |cuts| ==> cuts[i].Cut?
      ensures forall h :: Run(State(old(rxList), old(pending), h, old(live)), cuts) == With(h)
      ensures readn <= blk.Length && !(MoreFollows(blk[..][readn..]) && left > 0)
      ensures Pieces(blk[..], grants) == done + Pieces(blk[..][readn..], left)
      ensures QueuedAs(rxList, old(rxList), blk, blk[..], done, false)
    {
      hide Sound, Pieces, PayloadSize;
      ghost var data := blk[..];
      readn := 0;
      left, done, cuts := grants, [], [];
      var granted: nat := grants;
      assert data[0..] == data;
      while blk.Length - readn >= HEADER_SIZE
        invariant data == blk[..] && readn <= blk.Length && granted == left
        invariant Sound(rxList, pending, live)
        invariant forall i :: 0 <= i < |cuts| ==> cuts[i].Cut?
        invariant forall h :: Run(State(old(rxList), old(pending), h, old(live)), cuts) == With(h)
        invariant Pieces(data, grants) == done + Pieces(data[readn..], left)
        invariant QueuedAs(rxList, old(rxList), blk, data, done, false)
        decreases blk.Length - readn
      {
        var payloadSize := PayloadSize(blk[readn..]);
        assert blk[readn..] == data[readn..];
        if blk.Length - readn <= HEADER_SIZE + payloadSize {
          break;
        }
        if granted == 0 {
          break;
        }
        granted := granted - 1;
        var next := Packet(blk, readn, HEADER_SIZE + payloadSize, false);
        AppendAlias(rxList, next, live);
        left, done := QueueCut(rxList, old(rxList), data, done, left, grants, next);
        forall h: Option<Packet>
          ensures Run(State(old(rxList), old(pending), h, old(live)), cuts + [Cut(readn, next.length)])
               == State(rxList + [next], pending, h, live)
        {
          RunMore(State(old(rxList), old(pending), h, old(live)), cuts, Cut(readn, next.length));
        }
        cuts := cuts + [Cut(readn, next.length)];
        rxList := rxList + [next];
        readn := readn + next.length;
      }
    }

    /**
     `uci_received`: queues a block's packets; the allocation after the first `grants` fails. On a transfer
     error the block is freed instead. `es` is what this is in the life of packets, whatever the reader holds.
     */
    method Received(blk: array<byte>, status: int, grants: nat) returns (ghost es: seq<Event>)
      requires Valid() && pending == Nothing && blk !in live && blk.Length < 0x1_0000
      modifies this
      ensures Valid() && pending == Nothing
      ensures status != 0 ==> rxList == old(rxList) && live == old(live) && es == []
      ensures status == 0 ==>
                && live == old(live) + {blk}
                && QueuedAs(rxList, old(rxList), blk, blk[..], Pieces(blk[..], grants), true)
                && IsReceipt(es, blk)
      ensures forall h :: Run(State(old(rxList), old(pending), h, old(live)), es) == With(h)
    {
      es := [];
      BeginCut(rxList, blk, live);
      pending := Cutting(blk);
      live := live + {blk};
      if status != 0 {
        Free(Packet(blk, 0, blk.Length, true));
        pending := Nothing;
        assert live == old(live);
        return;
      }
      var readn, left, done, cuts := CutAliases(blk, grants);
      hide Sound, QueuedAs;
      var last := Packet(blk, readn, blk.Length - readn, true);
      assert blk[..][readn..blk.Length] == blk[..][readn..];
      AppendOwner(rxList, last, live);
      QueueMore(rxList, old(rxList), blk, blk[..], done, last, blk[..][readn..], true);
      es := [Begin(blk)] + cuts + [Finish(readn, last.length)];
      ghost var list := rxList;
      assert forall h :: Run(State(old(rxList), Cutting(blk), h, live), cuts) == State(list, Cutting(blk), h, live);
      rxList := rxList + [last];
      pending := Nothing;
      forall h: Option<Packet>
        ensures Run(State(old(rxList), old(pending), h, old(live)), es) == With(h)
      {
        ReceiptRuns(State(old(rxList), old(pending), h, old(live)), blk, cuts, State(list, Cutting(blk), h, live),
                    Finish(readn, last.length));
      }
    }

    /** `uci_layer_read` without blocking: the first packet, if it fits the reader's buffer. */
    method ReadPacket(maxSize: nat) returns (r: ReadResult)
      requires Valid()
      modifies this`rxList
      ensures Valid()
      ensures old(rxList) == [] ==> r == Failed(-11) && rxList == []
      ensures old(rxList) != [] && old(rxList)[0].length > maxSize ==> r == Failed(-90) && rxList == old(rxList)
      ensures old(rxList) != [] && old(rxList)[0].length <= maxSize ==>
                r == Read(old(rxList)[0]) && rxList == old(rxList)[1..]
      ensures r.Read? ==> r.packet.buf in live
      ensures r.Read? ==> Step(State(old(rxList), old(pending), None, old(live)), Take) == With(Some(r.packet))
      ensures r.Read? && r.packet.owner ==> Sound(rxList, pending, live - {r.packet.buf})
      ensures r.Read? && !r.packet.owner && pending != Cutting(r.packet.buf) ==>
                exists j :: 0 <= j < |rxList| && rxList[j].owner && rxList[j].buf == r.packet.buf
    {
      if rxList == [] {
        return Failed(-EAGAIN);
      }
      var p := rxList[0];
      if p.length > maxSize {
        return Failed(-EMSGSIZE);
      }
      RemoveHead(rxList, pending, live);
      if !p.owner && pending != Cutting(p.buf) {
        var j :| 0 < j < |rxList| && rxList[j].owner && rxList[j].buf == p.buf;
        assert rxList[1..][j - 1].owner && rxList[1..][j - 1].buf == p.buf;
      }
      rxList := rxList[1..];
      r := Read(p);
    }

    /** One turn of `clear_rx_list`: the head is removed and freed; no remaining packet points into freed memory. */
    method DiscardHead()
      requires Valid() && rxList != []
      modifies this`rxList, this`live
      ensures Valid() && rxList == old(rxList)[1..]
      ensures live == Freed(old(rxList)[0], old(live))
    {
      var p := rxList[0];
      RemoveHead(rxList, pending, live);
      rxList := rxList[1..];
      Free(p);
    }

    /**
     `clear_rx_list`: frees exactly the memory the packets of the list own. It is a run of discards, whatever the
     reader holds.
     */
    method ClearRxList()
      requires Valid()
      modifies this`rxList, this`live
      ensures Valid() && rxList == []
      ensures live == old(live) - Owned(old(rxList))
      ensures forall h :: Run(State(old(rxList), old(pending), h, old(live)), Discards(|old(rxList)|)) == With(h)
    {
      ghost var all := rxList;
      ghost var n := 0;
      while rxList != []
        invariant Valid()
        invariant n <= |all| && rxList == all[n..]
        invariant live == old(live) - Owned(all[..n])
        decreases |rxList|
      {
        assert all[..n + 1] == all[..n] + [rxList[0]];
        OwnedMore(all[..n], rxList[0]);
        n := n + 1;
        DiscardHead();
      }
      assert all[..n] == all;
      forall h: Option<Packet>
        ensures Run(State(old(rxList), old(pending), h, old(live)), Discards(|all|)) == With(h)
      {
        DiscardsFree(State(old(rxList), old(pending), h, old(live)), |all|);
      }
    }
  }
}
