/** How a ring of entries is laid out in bytes. */
module TraceLayout {
  import opened Words
  import opened TraceRing

  /** The bytes of a chain: for each entry its size word, then its payload. */
  function Chain(ps: seq<Payload>): (b: seq<byte>) {
    if ps == [] then [] else EntryBytes(ps[0]) + Chain(ps[1..])
  }

  function EntryBytes(p: Payload): (b: seq<byte>)
    ensures |b| == EntrySize(p)
  {
    Word16(|p|) + p
  }

  lemma {:induction false} ChainLength(ps: seq<Payload>)
    ensures |Chain(ps)| == Span(ps)
  {
    if ps != [] {
      ChainLength(ps[1..]);
    }
  }

  lemma {:induction false} ChainAppend(a: seq<Payload>, c: seq<Payload>)
    ensures Chain(a + c) == Chain(a) + Chain(c)
  {
    if a == [] {
      assert a + c == c;
    } else {
      ChainAppend(a[1..], c);
      assert (a + c)[1..] == a[1..] + c;
    }
  }

  lemma ChainOne(p: Payload)
    ensures Chain([p]) == EntryBytes(p)
  {
  }

  ghost predicate Holds(b: seq<byte>, at: nat, ps: seq<Payload>) {
    Sits(b, at, Chain(ps))
  }

  /** The bytes of a buffer agree with a ring. */
  ghost predicate Represents(b: seq<byte>, s: Ring) {
    && |b| == s.size
    && 2 <= s.size
    && Holds(b, 0, s.low)
    && (s.tail.Low? && s.low == [] ==> WordAt(b, 0) == 0)
    && (s.tail.High? ==>
          && Span(s.high) <= s.mark
          && s.mark + 2 <= s.size
          && Holds(b, s.mark - Span(s.high), s.high)
          && WordAt(b, s.mark) == 0)
  }

  /** `x` sits in `b` at an offset. */
  ghost predicate Sits(b: seq<byte>, at: nat, x: seq<byte>) {
    at + |x| <= |b| && b[at..at + |x|] == x
  }

  lemma SitsAppend(b: seq<byte>, at: nat, x: seq<byte>, y: seq<byte>)
    ensures Sits(b, at, x + y) <==> Sits(b, at, x) && Sits(b, at + |x|, y)
  {
    if Sits(b, at, x + y) {
      var c := b[at..at + |x + y|];
      assert b[at..at + |x|] == c[..|x|] == x;
      assert b[at + |x|..at + |x| + |y|] == c[|x|..] == y;
    }
  }

  lemma HoldsAppend(b: seq<byte>, at: nat, a: seq<Payload>, c: seq<Payload>)
    ensures Holds(b, at, a + c) <==> Holds(b, at, a) && Holds(b, at + Span(a), c)
  {
    ChainAppend(a, c);
    ChainLength(a);
    SitsAppend(b, at, Chain(a), Chain(c));
  }

  lemma HoldsParts(b: seq<byte>, at: nat, ps: seq<Payload>, a: seq<Payload>, c: seq<Payload>)
    requires Holds(b, at, ps) && ps == a + c
    ensures Holds(b, at, a) && Holds(b, at + Span(a), c)
  {
    HoldsAppend(b, at, a, c);
  }

  lemma HoldsSplit(b: seq<byte>, at: nat, ps: seq<Payload>, i: nat)
    requires Holds(b, at, ps) && i <= |ps|
    ensures Holds(b, at, ps[..i]) && Holds(b, at + Span(ps[..i]), ps[i..])
  {
    HoldsParts(b, at, ps, ps[..i], ps[i..]);
  }

  /** The first entry of a chain can be read back. */
  lemma HoldsFirst(b: seq<byte>, at: nat, ps: seq<Payload>)
    requires Holds(b, at, ps) && ps != []
    ensures at + 2 + |ps[0]| <= |b|
    ensures WordAt(b, at) == |ps[0]|
    ensures Sits(b, at + 2, ps[0])
    ensures Holds(b, at + EntrySize(ps[0]), ps[1..])
  {
    HoldsSplit(b, at, ps, 1);
    var p := ps[0];
    assert ps[..1] == [p];
    ChainOne(p);
    SpanSingle([p]);
    var c := b[at..at + EntrySize(p)];
    assert c == Word16(|p|) + p;
    assert b[at] == c[0] && b[at + 1] == c[1];
    assert b[at + 2..at + 2 + |p|] == c[2..];
  }

  /** Entry `i` of a chain, at its offset. */
  lemma EntryAt(b: seq<byte>, at: nat, ps: seq<Payload>, i: nat)
    requires Holds(b, at, ps) && i < |ps|
    ensures var o, p := at + Span(ps[..i]), ps[i];
            && o + 2 + |p| == at + Span(ps[..i + 1]) <= at + Span(ps) <= |b|
            && WordAt(b, o) == |p|
            && Sits(b, o + 2, p)
  {
    HoldsSplit(b, at, ps, i);
    HoldsFirst(b, at + Span(ps[..i]), ps[i..]);
    SpanStep(ps, i);
    SpanSplit(ps, i + 1);
    ChainLength(ps);
  }

  /** Only cursors at the same boundary share an offset. */
  lemma SameOffset(s: Ring, e: nat)
    requires Mid(s, e)
    ensures s.Offset(s.tail) == s.Offset(s.rdtail) <==> s.tail == s.rdtail
  {
    match s.rdtail
    case Low(r) =>
      SpanSplit(s.low, r);
      if s.tail.Low? {
        SpanSplit(s.low[..r], if s.tail.i <= r then s.tail.i else r);
        if s.tail.i <= r {
          assert s.low[..r][..s.tail.i] == s.low[..s.tail.i];
          SpanPositive(s.low[..r][s.tail.i..]);
        } else {
          SpanPositive(s.low[..1]);
        }
      }
    case High(r) =>
      SpanSplit(s.high, r);
      SpanPositive(s.high[..r]);
      assert s.high[0..] == s.high;
  }
}

/** The ring buffer itself: a byte array with three indices, updated in place. */
module RingBuffer {
  import opened Words
  import opened TraceRing
  import opened TraceLayout

  datatype Entry = None | Some(payload: seq<byte>)

  lemma HoldsFrame(b: seq<byte>, c: seq<byte>, at: nat, ps: seq<Payload>)
    requires Holds(b, at, ps) && |c| == |b|
    requires forall i :: at <= i < at + Span(ps) && i < |b| ==> c[i] == b[i]
    ensures Holds(c, at, ps)
  {
    ChainLength(ps);
  }

  /** Writing the end marker and restarting at 0. */
  lemma WrapIsRepresented(b: seq<byte>, c: seq<byte>, s: Ring, p: Payload)
    requires Inv(s) && Represents(b, s) && Fits(s, p) && Wraps(s, p)
    requires |c| == |b| && (forall i :: 0 <= i < s.Head() ==> c[i] == b[i])
    requires WordAt(c, s.Head()) == 0
    ensures Represents(c, Placed(s, p))
  {
    var t := if s.tail.Low? then s.tail.i else 0;
    HoldsFrame(b, c, 0, s.low);
    HoldsSplit(c, 0, s.low, t);
    SpanSplit(s.low, t);
  }

  lemma EvictIsRepresented(b: seq<byte>, s: Ring, e: nat)
    requires Mid(s, e) && Overruns(s, e) && Represents(b, s)
    ensures Represents(b, Evict(s))
  {
    if s.high != [] {
      HoldsFirst(b, s.mark - Span(s.high), s.high);
    } else {
      MarkerPassed(s, e);
    }
  }

  /** Writing an entry at `head`. */
  lemma AppendIsRepresented(b: seq<byte>, c: seq<byte>, s: Ring, p: Payload)
    requires Mid(s, EntrySize(p)) && !Overruns(s, EntrySize(p)) && Represents(b, s)
    requires |c| == |b| && Sits(c, s.Head(), EntryBytes(p))
    requires forall i :: 0 <= i < |b| && !(s.Head() <= i < s.Head() + EntrySize(p)) ==> c[i] == b[i]
    ensures Represents(c, s.(low := s.low + [p]))
  {
    HoldsFrame(b, c, 0, s.low);
    ChainOne(p);
    HoldsAppend(c, 0, s.low, [p]);
    if s.tail.High? {
      HoldsFrame(b, c, s.mark - Span(s.high), s.high);
    }
  }

  /** The buffer's bytes and indices stand for a ring. */
  ghost predicate Agrees(b: seq<byte>, size: nat, head: nat, tail: nat, rdtail: nat, s: Ring) {
    && size == s.size
    && s.InRange(s.tail) && s.InRange(s.rdtail)
    && (s.rdtail.High? ==> s.tail.High?)
    && Represents(b, s)
    && head == s.Head()
    && tail == s.Offset(s.tail)
    && rdtail == s.Offset(s.rdtail)
  }

  /** Fresh memory stands for the empty ring exactly when its first size word reads as zero. */
  lemma InitAgrees(b: seq<byte>, size: nat)
    requires 2 < |b| == size
    ensures Inv(Init(size))
    ensures Agrees(b, size, 0, 0, 0, Init(size)) <==> WordAt(b, 0) == 0
  {
    assert b[0..0] == [];
  }

  /** Where `__rb_skip` moves an index, going by the size words it finds. */
  function SkipIndex(b: seq<byte>, tail: nat): nat
    requires tail + 2 <= |b|
  {
    if WordAt(b, tail) != 0 then tail + 2 + WordAt(b, tail)
    else if tail == 0 then 0
    else 2 + WordAt(b, 0)
  }

  /** The guard of the eviction loop. */
  predicate InTheWay(head: nat, tail: nat, e: nat) {
    head <= tail && head + e >= tail
  }

  /** An index into the buffer, or none: the size word to be read next lies outside. */
  datatype Index = At(offset: nat) | Outside

  /** Where the eviction loop's `k` first skips take an index that starts at 0. */
  function TailAfter(b: seq<byte>, k: nat): Index {
    if k == 0 then At(0)
    else
      match TailAfter(b, k - 1)
      case Outside => Outside
      case At(t) => if t + 2 <= |b| then At(SkipIndex(b, t)) else Outside
  }

  /** On an empty ring the loop of a push of `e` bytes goes on after `k` turns: a skip that finds nothing ends it. */
  predicate GoesOn(b: seq<byte>, e: nat, k: nat) {
    TailAfter(b, k).At? && InTheWay(0, TailAfter(b, k).offset, e) && (k > 0 ==> TailAfter(b, k).offset != 0)
  }

  /** That loop ends after `k` turns. */
  ghost predicate EndsAfter(b: seq<byte>, e: nat, k: nat) {
    k > 0 && TailAfter(b, k).At? && !GoesOn(b, e, k) && forall j: nat :: j < k ==> GoesOn(b, e, j)
  }

  /** Skipping stays at 0 on a zero size word, and never comes back to it on any other. */
  lemma {:induction false} TailStaysIffZero(b: seq<byte>, k: nat)
    requires 2 <= |b| && k > 0
    ensures TailAfter(b, k) == At(0) <==> WordAt(b, 0) == 0
  {
    if k > 1 {
      TailStaysIffZero(b, k - 1);
    } else {
      assert TailAfter(b, 0) == At(0);
    }
  }

  /** What a push into an empty ring leaves: the entry at 0, both tails where the loop left them. */
  ghost predicate FirstPush(b: seq<byte>, c: seq<byte>, p: Payload, tail: nat) {
    && |c| == |b| && Sits(c, 0, EntryBytes(p))
    && (forall i :: EntrySize(p) <= i < |b| ==> c[i] == b[i])
    && exists k :: EndsAfter(b, EntrySize(p), k) && TailAfter(b, k) == At(tail)
  }

  /**
   The first push into fresh memory `b` ends, with exactly the pushed entry held, if and only if the first size
   word of `b` is zero.
   */
  lemma FirstPushHoldsIffZero(b: seq<byte>, p: Payload)
    requires |b| > 3 * EntrySize(p) + 2
    ensures var c, s := EntryBytes(p) + b[EntrySize(p)..], Push(Init(|b|), p);
            && s.Log() == [p]
            && ((exists t :: FirstPush(b, c, p, t) && Agrees(c, |b|, EntrySize(p), t, t, s)) <==> WordAt(b, 0) == 0)
  {
    var c, s, e := EntryBytes(p) + b[EntrySize(p)..], Push(Init(|b|), p), EntrySize(p);
    FirstRing(|b|, p);
    assert s.low[..0] == [];
    forall t | FirstPush(b, c, p, t) && Agrees(c, |b|, e, t, t, s)
      ensures WordAt(b, 0) == 0
    {
      var k :| EndsAfter(b, e, k) && TailAfter(b, k) == At(t);
      TailStaysIffZero(b, k);
    }
    if WordAt(b, 0) == 0 {
      TailStaysIffZero(b, 1);
      assert TailAfter(b, 0) == At(0);
      assert EndsAfter(b, e, 1);
      assert FirstPush(b, c, p, 0);
      ChainOne(p);
      SpanSingle([p]);
    }
  }

  /** The ring after a push into an empty one. */
  lemma FirstRing(size: nat, p: Payload)
    requires size > 3 * EntrySize(p) + 2
    ensures Push(Init(size), p) == Ring(size, [p], [], 0, Low(0), Low(0), EntrySize(p))
  {
    assert [] + [p] == [p];
  }

  /** With these first bytes the loop of the first push never ends: it comes back to offset 3 for ever. */
  lemma {:induction false} GarbageFirstWord(b: seq<byte>, e: nat, k: nat)
    requires 5 <= |b| && 3 <= e && WordAt(b, 0) == 1 && WordAt(b, 3) == 0
    ensures k > 0 ==> TailAfter(b, k) == At(3)
    ensures GoesOn(b, e, k) && !EndsAfter(b, e, k)
  {
    if k > 1 {
      GarbageFirstWord(b, e, k - 1);
    } else if k == 1 {
      assert TailAfter(b, 0) == At(0);
    }
  }

  /** What a size query finds at a cursor: the length of the next entry, and where that entry starts. */
  function NextAt(s: Ring, c: Cursor): (int, int)
    requires s.InRange(c)
  {
    if s.From(c) == [] then (0, s.Offset(c))
    else (|s.From(c)[0]|, if c == High(|s.high|) then 0 else s.Offset(c))
  }

  /** A cursor is at `head` exactly when nothing follows it. */
  lemma AtHead(s: Ring, c: Cursor)
    requires Inv(s) && s.InRange(c) && (c.High? ==> s.tail.High?)
    ensures s.Offset(c) == s.Head() <==> s.From(c) == []
  {
    match c
    case Low(i) =>
      SpanSplit(s.low, i);
      SpanPositive(s.low[i..]);
    case High(i) =>
      SpanSplit(s.high, i);
  }

  /** The next entry of a cursor lies where `NextAt` says it starts. */
  ghost predicate Under(b: seq<byte>, s: Ring, c: Cursor)
    requires s.InRange(c) && s.From(c) != []
  {
    var (n, at) := NextAt(s, c);
    0 <= at && at + 2 + n <= s.size == |b| && WordAt(b, at) == n && Sits(b, at + 2, s.From(c)[0])
  }

  lemma UnderLow(b: seq<byte>, s: Ring, i: nat)
    requires Represents(b, s) && i < |s.low|
    ensures s.From(Low(i)) != [] && Under(b, s, Low(i))
  {
    EntryAt(b, 0, s.low, i);
    assert s.From(Low(i))[0] == s.low[i];
  }

  lemma UnderHigh(b: seq<byte>, s: Ring, i: nat)
    requires Represents(b, s) && s.tail.High? && i < |s.high|
    ensures s.From(High(i)) != [] && Under(b, s, High(i))
  {
    EntryAt(b, s.mark - Span(s.high), s.high, i);
    SpanSplit(s.high, i);
    assert s.From(High(i))[0] == s.high[i];
  }

  lemma UnderMarker(b: seq<byte>, s: Ring)
    requires Represents(b, s) && s.low != []
    ensures s.From(High(|s.high|)) != [] && Under(b, s, High(|s.high|))
  {
    EntryAt(b, 0, s.low, 0);
    assert s.From(High(|s.high|)) == s.low;
  }

  lemma EntryUnder(b: seq<byte>, s: Ring, c: Cursor)
    requires Represents(b, s) && s.InRange(c) && (c.High? ==> s.tail.High?) && s.From(c) != []
    ensures Under(b, s, c)
  {
    match c
    case Low(i) => UnderLow(b, s, i);
    case High(i) => if i < |s.high| { UnderHigh(b, s, i); } else { UnderMarker(b, s); }
  }

  lemma MarkerUnder(s: Ring)
    requires Inv(s) && s.tail.High?
    ensures s.Offset(High(|s.high|)) == s.mark && s.mark > 0
  {
    assert s.high[|s.high|..] == [];
  }

  /** What the two size reads of the code find. */
  lemma SizesUnder(b: seq<byte>, size: nat, head: nat, tail: nat, rdtail: nat, s: Ring, c: Cursor)
    requires Inv(s) && Agrees(b, size, head, tail, rdtail, s)
    requires s.InRange(c) && (c.High? ==> s.tail.High?)
    ensures s.Offset(c) == head <==> s.From(c) == []
    ensures s.From(c) != [] ==>
              && 0 <= s.Offset(c) && s.Offset(c) + 2 <= size
              && NextAt(s, c) == if WordAt(b, s.Offset(c)) == 0 then (WordAt(b, 0), 0)
                                 else (WordAt(b, s.Offset(c)), s.Offset(c))
    ensures s.From(c) != [] && s.Offset(c) == 0 ==> WordAt(b, 0) != 0
  {
    AtHead(s, c);
    if s.From(c) != [] {
      EntryUnder(b, s, c);
      if c == High(|s.high|) {
        MarkerUnder(s);
      }
    }
  }

  /** Only the reader index moves. */
  lemma RetargetAgrees(b: seq<byte>, size: nat, head: nat, tail: nat, rdtail: nat, s: Ring, c: Cursor)
    requires Agrees(b, size, head, tail, rdtail, s)
    requires s.InRange(c) && (c.High? ==> s.tail.High?)
    ensures 0 <= s.Offset(c) && Agrees(b, size, head, tail, s.Offset(c), s.(rdtail := c))
  {
    if c.High? {
      SpanSplit(s.high, c.i);
    }
  }

  lemma PastMarkerOffset(s: Ring)
    requires s.low != []
    ensures NextAt(s, High(|s.high|)) == (|s.low[0]|, 0)
    ensures s.Offset(Low(1)) == 2 + |s.low[0]|
  {
    SpanStep(s.low, 0);
    assert s.From(High(|s.high|)) == s.low;
  }

  /** Moving past the next entry, on indices and on cursors. */
  lemma PopOffset(s: Ring)
    requires Inv(s)
    ensures Pop(s) == s.(rdtail := Pop(s).rdtail)
    ensures s.InRange(Pop(s).rdtail) && (Pop(s).rdtail.High? ==> s.tail.High?)
    ensures s.Offset(Pop(s).rdtail)
         == if s.Unread() == [] then s.Offset(s.rdtail)
            else NextAt(s, s.rdtail).1 + 2 + NextAt(s, s.rdtail).0
  {
    if s.rdtail.Low? {
      if s.rdtail.i < |s.low| { SpanStep(s.low, s.rdtail.i); }
    } else if s.rdtail.i < |s.high| {
      SpanStep(s.high, s.rdtail.i);
    } else {
      PastMarkerOffset(s);
    }
  }

  /** The end-of-buffer check of a push, on indices and on cursors. */
  lemma PlacedAgrees(b: seq<byte>, c: seq<byte>, size: nat, head: nat, tail: nat, rdtail: nat, s: Ring, p: Payload)
    requires Inv(s) && Fits(s, p) && Wraps(s, p) && Agrees(b, size, head, tail, rdtail, s)
    requires |c| == |b| && head + 2 <= |c| && WordAt(c, head) == 0
    requires forall i :: 0 <= i < head ==> c[i] == b[i]
    ensures Agrees(c, size, 0, if tail >= head then 0 else tail, if rdtail >= head then 0 else rdtail, Placed(s, p))
  {
    WrapIsRepresented(b, c, s, p);
    PlacedOffsets(s, p);
  }

  lemma PlacedOffsets(s: Ring, p: Payload)
    requires Inv(s) && Fits(s, p) && Wraps(s, p)
    ensures var w := Placed(s, p);
            && w.InRange(w.tail) && w.InRange(w.rdtail) && w.tail.High?
            && w.Offset(w.tail) == (if s.Offset(s.tail) >= s.Head() then 0 else s.Offset(s.tail))
            && w.Offset(w.rdtail) == (if s.Offset(s.rdtail) >= s.Head() then 0 else s.Offset(s.rdtail))
  {
    var t := if s.tail.Low? then s.tail.i else 0;
    SpanSplit(s.low, t);
    SpanPositive(s.low);
    SpanPositive(s.low[t..]);
    match s.rdtail
    case High(r) => SpanSplit(s.high, r);
    case Low(r) =>
      SpanSplit(s.low, r);
      SpanPositive(s.low[r..]);
      if t <= r < |s.low| {
        assert s.low[t..][r - t..] == s.low[r..];
      }
  }

  /** The guard of the eviction loop. */
  lemma GuardMeansOverrun(s: Ring, e: nat)
    requires Mid(s, e) && 2 <= e
    ensures s.Head() <= s.Offset(s.tail) && s.Head() + e >= s.Offset(s.tail)
            <==> Overruns(s, e) || (s.tail.Low? && s.low == [])
    ensures s.tail.Low? && s.low == [] ==> s.Offset(s.tail) == 0 && s.Offset(s.rdtail) == 0
    ensures s.tail.Low? ==> !Overruns(s, e)
    ensures !Overruns(s, e) ==> EvictFor(s, e) == s
  {
    if s.tail.Low? && s.low != [] {
      SpanSplit(s.low, s.tail.i);
      SpanPositive(s.low[s.tail.i..]);
    } else if s.tail.High? {
      assert s.high[0..] == s.high;
    }
  }

  /** One turn of the eviction loop, on indices and on cursors. */
  lemma EvictAgrees(b: seq<byte>, size: nat, head: nat, tail: nat, rdtail: nat, s: Ring, e: nat)
    requires Mid(s, e) && Overruns(s, e) && Agrees(b, size, head, tail, rdtail, s)
    ensures Evict(s).InRange(Evict(s).tail) && 0 <= Evict(s).Offset(Evict(s).tail)
    ensures var t := Evict(s).Offset(Evict(s).tail);
            Agrees(b, size, head, t, if tail == rdtail then t else rdtail, Evict(s))
  {
    EvictIsRepresented(b, s, e);
    EvictKeepsMid(s, e);
    SameOffset(s, e);
    if s.high == [] {
      MarkerPassed(s, e);
    } else {
      assert s.high[1..][0..] == s.high[1..];
      if s.rdtail.High? && s.rdtail.i > 0 {
        assert s.high[1..][s.rdtail.i - 1..] == s.high[s.rdtail.i..];
      }
    }
  }

  lemma SkipEntry(b: seq<byte>, s: Ring)
    requires Represents(b, s) && s.tail == High(0) && s.high != []
    ensures var t, n := s.Offset(s.tail), |s.high[0]|;
            0 <= t && t + 2 + n <= |b| && WordAt(b, t) == n && Evict(s).Offset(Evict(s).tail) == t + 2 + n
  {
    EntryAt(b, s.mark - Span(s.high), s.high, 0);
    SpanStep(s.high, 0);
    assert s.high[0..] == s.high;
    assert s.high[1..][0..] == s.high[1..];
  }

  lemma SkipMarker(b: seq<byte>, s: Ring)
    requires Represents(b, s) && s.tail == High(0) && s.high == [] && s.low != [] && s.mark > 0
    ensures var n := |s.low[0]|;
            && s.Offset(s.tail) == s.mark && s.mark + 2 <= |b| && WordAt(b, s.mark) == 0
            && 2 + n <= |b| && WordAt(b, 0) == n && Evict(s).Offset(Evict(s).tail) == 2 + n
  {
    EntryAt(b, 0, s.low, 0);
    SpanStep(s.low, 0);
  }

  /** Writing an entry, on indices and on cursors. */
  lemma AppendAgrees(b: seq<byte>, c: seq<byte>, size: nat, head: nat, tail: nat, rdtail: nat, s: Ring, p: Payload)
    requires Mid(s, EntrySize(p)) && !Overruns(s, EntrySize(p)) && Agrees(b, size, head, tail, rdtail, s)
    requires |c| == |b| && Sits(c, head, EntryBytes(p))
    requires forall i :: 0 <= i < |b| && !(head <= i < head + EntrySize(p)) ==> c[i] == b[i]
    ensures Agrees(c, size, head + EntrySize(p), tail, rdtail, s.(low := s.low + [p]))
  {
    AppendIsRepresented(b, c, s, p);
    SpanAppend(s.low, [p]);
    SpanSingle([p]);
    if s.tail.Low? { assert (s.low + [p])[..s.tail.i] == s.low[..s.tail.i]; }
    if s.rdtail.Low? { assert (s.low + [p])[..s.rdtail.i] == s.low[..s.rdtail.i]; }
  }

  /** What one turn of the loop means for the ring. */
  lemma EvictTurn(b: seq<byte>, size: nat, head: nat, tail: nat, rdtail: nat, s: Ring, e: nat)
    requires Mid(s, e) && Overruns(s, e) && Agrees(b, size, head, tail, rdtail, s)
    ensures Mid(Evict(s), e) && EvictFor(Evict(s), e) == EvictFor(s, e)
    ensures 0 <= Evict(s).Offset(Evict(s).tail)
    ensures var t := Evict(s).Offset(Evict(s).tail);
            Agrees(b, size, head, t, if tail == rdtail then t else rdtail, Evict(s))
    ensures s.tail.High? && (Evict(s).tail.High? ==> |Evict(s).high| < |s.high|)
  {
    EvictAgrees(b, size, head, tail, rdtail, s, e);
    EvictKeepsMid(s, e);
  }

  /** Everything one skip reads, in bytes. */
  lemma SkipReads(b: seq<byte>, size: nat, head: nat, tail: nat, rdtail: nat, s: Ring, e: nat)
    requires Mid(s, e) && Agrees(b, size, head, tail, rdtail, s)
    requires Overruns(s, e) || (s.tail.Low? && s.low == [])
    ensures 2 <= size == |b| && tail + 2 <= size
    ensures s.tail.Low? ==> tail == 0 && WordAt(b, 0) == 0
    ensures s.tail.High? ==>
              && Evict(s).InRange(Evict(s).tail)
              && SkipIndex(b, tail) == Evict(s).Offset(Evict(s).tail)
              && SkipIndex(b, tail) <= size
              && (WordAt(b, tail) == 0 ==> tail != 0)
  {
    if s.tail.High? {
      if s.high == [] {
        MarkerPassed(s, e);
        SkipMarker(b, s);
      } else {
        SkipEntry(b, s);
      }
    }
  }

  lemma HeadBounds(b: seq<byte>, size: nat, head: nat, tail: nat, rdtail: nat, s: Ring)
    requires Inv(s) && Agrees(b, size, head, tail, rdtail, s)
    ensures |b| == size && head == s.Head() && head + 2 < size && tail <= size && rdtail <= size && Wrappable(s)
  {
    if s.tail.Low? {
      SpanSplit(s.low, s.tail.i);
    }
    if s.rdtail.Low? {
      SpanSplit(s.low, s.rdtail.i);
    } else {
      SpanSplit(s.high, s.rdtail.i);
    }
  }

  lemma RoomBounds(b: seq<byte>, size: nat, head: nat, tail: nat, rdtail: nat, s: Ring, e: nat)
    requires Mid(s, e) && Agrees(b, size, head, tail, rdtail, s)
    ensures |b| == size && head + e + 2 < size
  {
  }

  lemma GrownAgrees(b: seq<byte>, size: nat, head: nat, tail: nat, rdtail: nat, s: Ring, p: Payload)
    requires Inv(s) && !Wraps(s, p) && Agrees(b, size, head, tail, rdtail, s)
    ensures Agrees(b, size, head, tail, rdtail, Placed(s, p))
  {
  }

  /** What the three steps of a push amount to. */
  lemma PushInOneGo(s: Ring, p: Payload)
    requires Inv(s) && Fits(s, p)
    ensures Wrappable(s)
    ensures var r := EvictFor(Placed(s, p), EntrySize(p)); Push(s, p) == r.(low := r.low + [p])
    ensures Inv(Push(s, p)) && Push(s, p).InRange(Push(s, p).tail) && Push(s, p).InRange(Push(s, p).rdtail)
    ensures IsSuffix(Push(s, p).Log(), s.Log() + [p])
    ensures IsSuffix(Push(s, p).Unread(), s.Unread() + [p]) <==> !Rewinds(s, p)
  {
    PushKeepsNewestLog(s, p);
    PushReaderView(s, p);
  }

  class RingBuffer {
    var buf: array<byte>
    var size: u32
    var head: u32
    var tail: u32
    var rdtail: u32
    ghost var ring: Ring

    ghost predicate Valid()
      reads this, buf
    {
      Inv(ring) && Agrees(buf[..], size, head, tail, rdtail, ring)
    }

    /** The entries from the eviction index round to `head`. */
    ghost function Log(): seq<Payload>
      reads this, buf
      requires Valid()
    {
      ring.Log()
    }

    /** The entries from the reader index round to `head`. */
    ghost function Unread(): seq<Payload>
      reads this, buf
      requires Valid()
    {
      ring.Unread()
    }

    /** `memory` is what the allocator returned; it stands for the empty ring if its first size word is zero. */
    constructor (memory: array<byte>)
      requires memory.Length < 0x1_0000_0000
      ensures buf == memory && size == memory.Length && head == tail == rdtail == 0 && ring == Init(memory.Length)
      ensures Valid() <==> memory.Length > 2 && WordAt(memory[..], 0) == 0
    {
      buf := memory;
      size := memory.Length;
      head, tail, rdtail := 0, 0, 0;
      ring := Init(memory.Length);
      new;
      if size > 2 {
        InitAgrees(buf[..], size);
      }
    }

    method CanPop() returns (can: bool)
      requires Valid()
      ensures can <==> Unread() != []
    {
      can := rdtail != head;
      AtHead(ring, ring.rdtail);
    }

    /** The size of the entry at `at`, and `at` moved past a marker. */
    method NextSizeAt(at: u32, ghost c: Cursor) returns (n: u16, next: u32)
      requires Valid() && ring.InRange(c) && (c.High? ==> ring.tail.High?) && at == ring.Offset(c)
      ensures (n, next) == NextAt(ring, c)
    {
      SizesUnder(buf[..], size, head, tail, rdtail, ring, c);
      hide Inv, Represents, Span;
      n, next := 0, at;
      if next == head {
        return;
      }
      n := buf[next] as int + 0x100 * buf[next + 1] as int;
      if n == 0 {
        if next == 0 {
          return;
        }
        next := 0;
        n := buf[next] as int + 0x100 * buf[next + 1] as int;
      }
    }

    /** The entry at `at`, copied out, and the index past it. */
    method PopAt(at: u32, ghost c: Cursor) returns (entry: Entry, next: u32)
      requires Valid() && ring.InRange(c) && (c.High? ==> ring.tail.High?) && at == ring.Offset(c)
      ensures ring.From(c) == [] ==> entry == None && next == at
      ensures ring.From(c) != [] ==>
                entry == Some(ring.From(c)[0]) && next == NextAt(ring, c).1 + 2 + NextAt(ring, c).0
    {
      hide Inv, Represents, Span;
      var len;
      len, next := NextSizeAt(at, c);
      if len == 0 {
        return None, next;
      }
      EntryUnder(buf[..], ring, c);
      next := next + 2;
      entry := Some(buf[next..next + len]);
      next := next + len;
    }

    /** Inside a push of `e` bytes: the indices agree with the ring, room is still being made. */
    ghost predicate Making(e: nat)
      reads this, buf
    {
      Mid(ring, e) && Agrees(buf[..], size, head, tail, rdtail, ring)
    }

    /** Restarts at 0 if the entry and a marker do not fit before the end. */
    method Place(entrySize: u16, ghost p: Payload)
      requires Valid() && Fits(ring, p) && entrySize == EntrySize(p)
      modifies this`head, this`tail, this`rdtail, this`ring, buf
      ensures Making(entrySize) && ring == Placed(old(ring), p)
    {
      hide Inv, Mid, Represents;
      HeadBounds(buf[..], size, head, tail, rdtail, ring);
      PlacedIsMid(ring, p);
      var availableToEnd: u32 := size - head;
      if availableToEnd <= entrySize + 2 {
        ghost var before := buf[..];
        buf[head], buf[head + 1] := 0, 0;
        PlacedAgrees(before, buf[..], size, head, tail, rdtail, ring, p);
        if tail >= head {
          tail := 0;
        }
        if rdtail >= head {
          rdtail := 0;
        }
        head := 0;
      } else {
        GrownAgrees(buf[..], size, head, tail, rdtail, ring, p);
      }
      ring := Placed(ring, p);
    }

    /** `__rb_skip`: moves the eviction index past one entry, unless the ring is empty. */
    method Skip(ghost e: nat) returns (skipped: bool)
      requires Making(e) && (Overruns(ring, e) || (ring.tail.Low? && ring.low == []))
      modifies this`tail
      ensures skipped <==> ring.tail.High?
      ensures tail == if skipped then Evict(ring).Offset(Evict(ring).tail) else old(tail)
    {
      hide Inv, Mid, Represents, Overruns;
      SkipReads(buf[..], size, head, tail, rdtail, ring, e);
      var n := buf[tail] as int + 0x100 * buf[tail + 1] as int;
      if n == 0 {
        if tail == 0 {
          return false;
        }
        tail := 0;
        n := buf[tail] as int + 0x100 * buf[tail + 1] as int;
      }
      tail := tail + (2 + n);
      return true;
    }

    /** The eviction loop. */
    method EvictOldest(entrySize: u16)
      requires Making(entrySize) && 2 <= entrySize
      modifies this`tail, this`rdtail, this`ring
      ensures Making(entrySize) && !Overruns(ring, entrySize)
      ensures ring == EvictFor(old(ring), entrySize)
    {
      hide Inv, Mid, Represents, Overruns, Evict, EvictFor;
      GuardMeansOverrun(ring, entrySize);
      while head <= tail && head + entrySize >= tail
        invariant Making(entrySize)
        invariant EvictFor(ring, entrySize) == EvictFor(old(ring), entrySize)
        decreases ring.tail.High?, |ring.high|
      {
        GuardMeansOverrun(ring, entrySize);
        ghost var t, r := tail, rdtail;
        var equalTails := tail == rdtail;
        var skipped := Skip(entrySize);
        if equalTails {
          rdtail := tail;
        }
        if !skipped {
          break;
        }
        EvictTurn(buf[..], size, head, t, r, ring, entrySize);
        ring := Evict(ring);
      }
      GuardMeansOverrun(ring, entrySize);
    }

    /** Writes the size word and the payload at `head`. */
    method Write(data: seq<byte>, ghost p: Payload)
      requires Making(EntrySize(p)) && !Overruns(ring, EntrySize(p)) && data == p
      modifies this`head, this`ring, buf
      ensures Agrees(buf[..], size, head, tail, rdtail, ring)
      ensures ring == old(ring).(low := old(ring).low + [p])
    {
      hide Inv, Mid, Represents, Overruns;
      RoomBounds(buf[..], size, head, tail, rdtail, ring, EntrySize(p));
      ghost var before, start := buf[..], head;
      var len: u16 := |data|;
      buf[head], buf[head + 1] := len % 0x100, len / 0x100;
      head := head + 2;
      forall i | 0 <= i < len {
        buf[head + i] := data[i];
      }
      assert buf[start..start + EntrySize(p)] == EntryBytes(p);
      AppendAgrees(before, buf[..], size, start, tail, rdtail, ring, p);
      head := head + len;
      ring := ring.(low := ring.low + [p]);
    }

    /** `rb_push`: adds an entry, dropping the oldest ones whose room it needs. */
    method Append(data: seq<byte>) returns (ret: int)
      requires Valid()
      requires |data| <= 65533 && (data != [] ==> Fits(ring, data))
      modifies this`head, this`tail, this`rdtail, this`ring, buf
      ensures Valid()
      ensures data == [] ==> ret == 1 && unchanged(this) && buf[..] == old(buf[..])
      ensures data != [] ==> ret == 0 && ring == Push(old(ring), data)
      ensures data != [] ==> IsSuffix(Log(), old(Log()) + [data])
      ensures data != [] ==> (IsSuffix(Unread(), old(Unread()) + [data]) <==> !Rewinds(old(ring), data))
    {
      hide Inv, Mid, Represents, Overruns, Span, Placed, EvictFor, Push, Fits;
      if |data| == 0 {
        return 1;
      }
      ghost var p: Payload := data;
      PushInOneGo(ring, p);
      var len: u16 := |data|;
      var entrySize: u16 := (2 + len) % 0x1_0000;
      Place(entrySize, p);
      EvictOldest(entrySize);
      Write(data, p);
      ret := 0;
    }

    /** The size the reader will get next; a reader on the marker is moved to the new lap. */
    method ReaderNextSize() returns (n: u16)
      requires Valid()
      modifies this`rdtail, this`ring
      ensures Valid() && ring == NextSize(old(ring))
      ensures Log() == old(Log()) && Unread() == old(Unread())
      ensures n == if Unread() == [] then 0 else |Unread()[0]|
    {
      RetargetAgrees(buf[..], size, head, tail, rdtail, ring, NextSize(ring).rdtail);
      NextSizeKeepsView(ring);
      n, rdtail := NextSizeAt(rdtail, ring.rdtail);
      ring := NextSize(ring);
    }

    /** Hands the reader the first unread entry and removes it; the held entries stay. */
    method ReaderPop() returns (entry: Entry)
      requires Valid()
      modifies this`rdtail, this`ring
      ensures Valid() && ring == Pop(old(ring))
      ensures Log() == old(Log())
      ensures old(Unread()) == [] ==> entry == None && Unread() == []
      ensures old(Unread()) != [] ==> entry == Some(old(Unread())[0]) && Unread() == old(Unread())[1..]
    {
      hide Represents, Span;
      PopOffset(ring);
      RetargetAgrees(buf[..], size, head, tail, rdtail, ring, Pop(ring).rdtail);
      PopTakesFirst(ring);
      entry, rdtail := PopAt(rdtail, ring.rdtail);
      ring := Pop(ring);
    }

    /** Rewinds the reader to the oldest held entry. */
    method ReaderReset()
      requires Valid()
      modifies this`rdtail, this`ring
      ensures Valid() && ring == Reset(old(ring))
      ensures Log() == old(Log()) && Unread() == Log()
    {
      RetargetAgrees(buf[..], size, head, tail, rdtail, ring, ring.tail);
      ResetShowsLog(ring);
      rdtail := tail;
      ring := Reset(ring);
    }
  }
}
