/**
 The trace ring buffer seen as lists of entries instead of bytes.

 The bytes `[0, head)` hold the entries of the current lap (`low`). Once the writer has
 wrapped and as long as older entries survive, `[tail, mark)` holds what is left of the
 previous lap (`high`) and a zero size word sits at `mark`.
 */
module TraceRing {
  import opened Words

  // A 16-bit entry size (2 + length) must not wrap, so 65533 is the longest payload.
  type Payload = p: seq<byte> | 0 < |p| <= 65533 witness [0]

  /** Position of an index: the i-th entry boundary of the current or of the previous lap. */
  datatype Cursor = Low(i: nat) | High(i: nat)

  datatype Ring = Ring(
    size: nat,
    low: seq<Payload>,
    high: seq<Payload>,
    mark: nat,
    tail: Cursor,
    rdtail: Cursor,
    largest: nat)
  {
    function Head(): nat { Span(low) }

    /** The byte offset a cursor stands for. */
    function Offset(c: Cursor): int
      requires InRange(c)
    {
      match c
      case Low(i) => Span(low[..i])
      case High(i) => mark - Span(high[i..])
    }

    predicate InRange(c: Cursor) {
      match c
      case Low(i) => i <= |low|
      case High(i) => i <= |high|
    }

    /** The entries met when walking from a cursor round to `head`. */
    function From(c: Cursor): seq<Payload>
      requires InRange(c)
    {
      match c
      case Low(i) => low[i..]
      case High(i) => high[i..] + low
    }

    /** Everything still held: what the reader gets after a reset. */
    function Log(): seq<Payload>
      requires InRange(tail)
    {
      From(tail)
    }

    /** What the reader has still to pop. */
    function Unread(): seq<Payload>
      requires InRange(rdtail)
    {
      From(rdtail)
    }
  }

  function EntrySize(p: Payload): nat { 2 + |p| }

  /** Bytes taken by a chain of entries. */
  function Span(ps: seq<Payload>): nat {
    if ps == [] then 0 else EntrySize(ps[0]) + Span(ps[1..])
  }

  lemma {:induction false} SpanAppend(a: seq<Payload>, b: seq<Payload>)
    ensures Span(a + b) == Span(a) + Span(b)
  {
    if a == [] {
      assert a + b == b;
    } else {
      SpanAppend(a[1..], b);
      assert (a + b)[1..] == a[1..] + b;
    }
  }

  lemma SpanSplit(ps: seq<Payload>, i: nat)
    requires i <= |ps|
    ensures Span(ps) == Span(ps[..i]) + Span(ps[i..])
  {
    SpanAppend(ps[..i], ps[i..]);
    assert ps == ps[..i] + ps[i..];
  }

  lemma SpanStep(ps: seq<Payload>, i: nat)
    requires i < |ps|
    ensures Span(ps[..i + 1]) == Span(ps[..i]) + EntrySize(ps[i])
    ensures Span(ps[i..]) == EntrySize(ps[i]) + Span(ps[i + 1..])
  {
    assert ps[..i + 1] == ps[..i] + [ps[i]];
    SpanAppend(ps[..i], [ps[i]]);
    assert ps[i..][1..] == ps[i + 1..];
  }

  lemma SpanSingle(ps: seq<Payload>)
    ensures |ps| == 1 ==> Span(ps) == EntrySize(ps[0])
  {
  }

  lemma SpanPositive(ps: seq<Payload>)
    ensures Span(ps) == 0 <==> ps == []
  {
  }

  ghost predicate AllWithin(ps: seq<Payload>, e: nat) {
    forall i :: 0 <= i < |ps| ==> EntrySize(ps[i]) <= e
  }

  // ------------------------------------------------------------------ layout invariant

  /** The layout every operation keeps. */
  ghost predicate Inv(s: Ring) {
    && s.size > 3 * s.largest + 2
    && AllWithin(s.low, s.largest)
    && AllWithin(s.high, s.largest)
    && s.Head() + 2 < s.size
    && s.InRange(s.rdtail)
    && (match s.tail
        case Low(t) =>
          && s.high == []
          && t <= 1
          && (if s.low == [] then t == 0 else t < |s.low|)
          && s.rdtail.Low?
        case High(t) =>
          && t == 0
          && s.low != []
          && Lap(s)
          && s.Head() < s.mark - Span(s.high))
  }

  /** The previous lap ends at a marker that lies within two entries of the buffer's end. */
  ghost predicate Lap(s: Ring) {
    s.mark + 2 <= s.size <= s.mark + s.largest + 2
  }

  // ------------------------------------------------------------------ operations

  function Init(size: nat): Ring {
    Ring(size, [], [], 0, Low(0), Low(0), 0)
  }

  /** No room before the end for the entry and a marker. */
  predicate Wraps(s: Ring, p: Payload) {
    s.size - s.Head() <= EntrySize(p) + 2
  }

  ghost predicate Fits(s: Ring, p: Payload) {
    s.size > 3 * EntrySize(p) + 2
  }

  function Grown(s: Ring, p: Payload): nat {
    if s.largest < EntrySize(p) then EntrySize(p) else s.largest
  }

  predicate Wrappable(s: Ring) {
    s.tail.Low? ==> s.tail.i <= 1 && s.tail.i <= |s.low| && s.rdtail.Low?
  }

  /** The current lap becomes the previous one; indices at or past the old head restart at 0. */
  function Wrap(s: Ring): Ring
    requires Wrappable(s)
  {
    var t := if s.tail.Low? then s.tail.i else 0;
    var toZero := s.rdtail.High? || s.rdtail.i == 0 || s.rdtail.i == |s.low|;
    s.(low := [], high := s.low[t..], mark := s.Head(), tail := High(0),
       rdtail := if toZero then (if t == 0 then High(0) else Low(0)) else High(s.rdtail.i - t))
  }

  /** One step of the eviction loop. On the marker it also drops the first entry of the new lap. */
  function Evict(s: Ring): Ring
    requires s.tail.High?
  {
    if s.high == [] then
      s.(tail := Low(1), rdtail := if s.rdtail.High? then Low(1) else s.rdtail)
    else
      s.(high := s.high[1..],
         rdtail := if s.rdtail.High? && s.rdtail.i > 0 then High(s.rdtail.i - 1) else s.rdtail)
  }

  /** An entry of `e` bytes written at `head` would reach the tail. */
  predicate Overruns(s: Ring, e: nat) {
    s.tail.High? && s.Head() + e >= s.mark - Span(s.high)
  }

  function EvictFor(s: Ring, e: nat): Ring
    decreases s.tail.High?, |s.high|
  {
    if Overruns(s, e) then EvictFor(Evict(s), e) else s
  }

  /** The ring after the end-of-buffer check, before anything is evicted. */
  function Placed(s: Ring, p: Payload): Ring
    requires Wrappable(s)
  {
    var g := s.(largest := Grown(s, p));
    if Wraps(s, p) then Wrap(g) else g
  }

  function MakeRoom(s: Ring, p: Payload): Ring
    requires Wrappable(s)
  {
    EvictFor(Placed(s, p), EntrySize(p))
  }

  function Push(s: Ring, p: Payload): Ring
    requires Wrappable(s)
  {
    var r := MakeRoom(s, p);
    r.(low := r.low + [p])
  }

  /** Asking for the next size moves a reader that sits on the marker to the new lap. */
  function NextSize(s: Ring): Ring {
    if s.rdtail == High(|s.high|) then s.(rdtail := Low(0)) else s
  }

  function Pop(s: Ring): Ring
    requires s.InRange(s.rdtail)
  {
    var n := NextSize(s);
    match n.rdtail
    case Low(i) => if i < |n.low| then n.(rdtail := Low(i + 1)) else n
    case High(i) => n.(rdtail := High(i + 1))
  }

  function Reset(s: Ring): Ring {
    s.(rdtail := s.tail)
  }

  // ------------------------------------------------------------------ the eviction loop

  /** What holds at every turn of the eviction loop while making room for `e` bytes. */
  ghost predicate Mid(s: Ring, e: nat) {
    && e <= s.largest
    && s.size > 3 * s.largest + 2
    && AllWithin(s.low, s.largest)
    && AllWithin(s.high, s.largest)
    && s.Head() + e + 2 < s.size
    && s.InRange(s.rdtail)
    && (match s.tail
        case Low(t) =>
          && s.high == []
          && t <= 1
          && (if s.low == [] then t == 0 else t < |s.low|)
          && s.rdtail.Low?
        case High(t) =>
          && t == 0
          && Lap(s)
          && Span(s.high) <= s.mark
          && (s.low != [] ==> s.Head() < s.mark - Span(s.high))
          && (s.mark == Span(s.high) ==> s.rdtail.High?))
  }

  /** If the marker must be passed, the new lap already holds two entries to walk on. */
  lemma MarkerPassed(s: Ring, e: nat)
    requires Mid(s, e) && Overruns(s, e) && s.high == []
    ensures |s.low| >= 2
  {
    SpanSingle(s.low);
  }

  lemma EvictKeepsMid(s: Ring, e: nat)
    requires Mid(s, e) && Overruns(s, e)
    ensures Mid(Evict(s), e)
    ensures IsSuffix(Evict(s).Log(), s.Log())
    ensures IsSuffix(Evict(s).Unread(), s.Unread())
    ensures s.rdtail == s.tail ==> Evict(s).rdtail == Evict(s).tail
    ensures s.Log() == [s.Log()[0]] + Evict(s).Log()
    ensures if s.rdtail == s.tail then s.Unread() == [s.Unread()[0]] + Evict(s).Unread()
            else Evict(s).Unread() == s.Unread()
  {
    if s.high == [] {
      MarkerPassed(s, e);
    } else {
      EvictOldKeepsMid(s, e);
      EvictOldViews(s);
    }
  }

  lemma EvictOldKeepsMid(s: Ring, e: nat)
    requires Mid(s, e) && Overruns(s, e) && s.high != []
    ensures Mid(Evict(s), e)
  {
    SpanStep(s.high, 0);
  }

  /** Dropping the oldest entry of the previous lap. */
  lemma EvictOldViews(s: Ring)
    requires s.tail == High(0) && s.high != [] && s.InRange(s.rdtail)
    ensures Evict(s).tail == High(0) && Evict(s).InRange(Evict(s).rdtail)
    ensures s.rdtail == s.tail ==> Evict(s).rdtail == Evict(s).tail
    ensures s.Log() == [s.Log()[0]] + Evict(s).Log()
    ensures if s.rdtail == s.tail then s.Unread() == [s.Unread()[0]] + Evict(s).Unread()
            else Evict(s).Unread() == s.Unread()
  {
    assert s.Log()[1..] == Evict(s).Log();
    if s.rdtail.High? && s.rdtail.i > 0 {
      assert s.high[1..][s.rdtail.i - 1..] == s.high[s.rdtail.i..];
    }
  }

  lemma {:induction false} EvictForKeepsMid(s: Ring, e: nat)
    requires Mid(s, e)
    ensures Mid(EvictFor(s, e), e)
    ensures !Overruns(EvictFor(s, e), e)
    ensures EvictFor(s, e).size == s.size && EvictFor(s, e).largest == s.largest && EvictFor(s, e).low == s.low
    ensures IsSuffix(EvictFor(s, e).Log(), s.Log())
    ensures IsSuffix(EvictFor(s, e).Unread(), s.Unread())
    ensures s.rdtail == s.tail ==> EvictFor(s, e).rdtail == EvictFor(s, e).tail
    decreases s.tail.High?, |s.high|
  {
    if Overruns(s, e) {
      EvictKeepsMid(s, e);
      EvictForKeepsMid(Evict(s), e);
      SuffixTransitive(EvictFor(s, e).Log(), Evict(s).Log(), s.Log());
      SuffixTransitive(EvictFor(s, e).Unread(), Evict(s).Unread(), s.Unread());
    }
  }

  // ------------------------------------------------------------------ one push

  lemma WithinSlice(ps: seq<Payload>, i: nat, e: nat, f: nat)
    requires i <= |ps| && AllWithin(ps, e) && e <= f
    ensures AllWithin(ps[i..], f)
  {
  }

  lemma PlacedIsMid(s: Ring, p: Payload)
    requires Inv(s) && Fits(s, p)
    ensures Mid(Placed(s, p), EntrySize(p))
  {
    WithinSlice(s.low, 0, s.largest, Grown(s, p));
    WithinSlice(s.high, 0, s.largest, Grown(s, p));
    if Wraps(s, p) {
      var t := if s.tail.Low? then s.tail.i else 0;
      SpanSplit(s.low, t);
      SpanPositive(s.low[..t]);
      WithinSlice(s.low, t, s.largest, Grown(s, p));
      assert s.low != [];
    }
  }

  lemma PlacedLog(s: Ring, p: Payload)
    requires Inv(s) && Fits(s, p)
    ensures Placed(s, p).InRange(Placed(s, p).tail)
    ensures IsSuffix(Placed(s, p).Log(), s.Log())
    ensures Placed(s, p).Log() == if Wraps(s, p) && s.tail.High? then s.low else s.Log()
    ensures Placed(s, p).Log() == s.Log() || Overruns(Placed(s, p), EntrySize(p))
  {
    if Wraps(s, p) {
      var w := Placed(s, p);
      if s.tail.High? {
        assert w.high == s.low && w.Log() == s.low;
        RightIsSuffix(s.high, s.low);
      } else {
        assert w.Log() == s.low[s.tail.i..];
      }
    }
  }

  lemma PlacedUnread(s: Ring, p: Payload)
    requires Inv(s) && Fits(s, p)
    ensures Placed(s, p).InRange(Placed(s, p).rdtail)
    ensures !Rewinds(s, p) ==> IsSuffix(Placed(s, p).Unread(), s.Unread())
    ensures Rewinds(s, p) ==> Placed(s, p).rdtail == Placed(s, p).tail
  {
    if Wraps(s, p) {
      SpanPositive(s.low);
      hide Span, AllWithin;
      if s.rdtail.High? {
        RightIsSuffix(s.high[s.rdtail.i..], s.low);
        assert Placed(s, p).Unread() == s.low;
      } else {
        WrapUnread(s, p, s.rdtail.i);
      }
    }
  }

  /** Wrapping under a reader in the current lap. */
  lemma WrapUnread(s: Ring, p: Payload, i: nat)
    requires Wrappable(s) && Wraps(s, p) && s.rdtail == Low(i) && i <= |s.low| && s.low != []
    requires s.tail.High? || s.high == []
    ensures Placed(s, p).InRange(Placed(s, p).rdtail)
    ensures !Rewinds(s, p) ==> IsSuffix(Placed(s, p).Unread(), s.Unread())
    ensures Rewinds(s, p) ==> Placed(s, p).rdtail == Placed(s, p).tail
  {
    var t := if s.tail.Low? then s.tail.i else 0;
    if 0 < i < |s.low| {
      assert s.low[t..][i - t..] == s.low[i..];
    }
  }

  lemma MakeRoomReachesMid(s: Ring, p: Payload)
    requires Inv(s) && Fits(s, p)
    ensures Mid(MakeRoom(s, p), EntrySize(p)) && MakeRoom(s, p).size == s.size && MakeRoom(s, p).largest == Grown(s, p)
    ensures !Overruns(MakeRoom(s, p), EntrySize(p))
    ensures IsSuffix(MakeRoom(s, p).Log(), s.Log())
    ensures !Rewinds(s, p) ==> IsSuffix(MakeRoom(s, p).Unread(), s.Unread())
    ensures Rewinds(s, p) ==> MakeRoom(s, p).rdtail == MakeRoom(s, p).tail
  {
    var w, r := Placed(s, p), MakeRoom(s, p);
    PlacedIsMid(s, p);
    PlacedLog(s, p);
    PlacedUnread(s, p);
    EvictForKeepsMid(w, EntrySize(p));
    SuffixTransitive(r.Log(), w.Log(), s.Log());
    if !Rewinds(s, p) {
      SuffixTransitive(r.Unread(), w.Unread(), s.Unread());
    }
  }

  /** Writing the entry once there is room. */
  lemma AppendKeepsInv(r: Ring, p: Payload)
    requires Mid(r, EntrySize(p)) && !Overruns(r, EntrySize(p))
    ensures Inv(r.(low := r.low + [p]))
    ensures r.(low := r.low + [p]).Log() == r.Log() + [p]
    ensures r.(low := r.low + [p]).Unread() == r.Unread() + [p]
  {
    SpanAppend(r.low, [p]);
  }

  lemma PushKeepsInv(s: Ring, p: Payload)
    requires Inv(s) && Fits(s, p)
    ensures Inv(Push(s, p))
  {
    MakeRoomReachesMid(s, p);
    AppendKeepsInv(MakeRoom(s, p), p);
  }

  /** Every push keeps a suffix of the held entries and adds the new one, wrapping or not. */
  lemma PushKeepsNewestLog(s: Ring, p: Payload)
    requires Inv(s) && Fits(s, p)
    ensures Inv(Push(s, p))
    ensures IsSuffix(Push(s, p).Log(), s.Log() + [p])
    ensures Push(s, p).Log() != [] && Push(s, p).Log()[|Push(s, p).Log()| - 1] == p
  {
    MakeRoomReachesMid(s, p);
    AppendKeepsInv(MakeRoom(s, p), p);
    SuffixAppend(MakeRoom(s, p).Log(), s.Log(), [p]);
  }

  // ------------------------------------------------------------------ the reader

  /** A push that wraps while the reader has caught up with `head` and the tail is at or restarts at 0. */
  predicate Rewinds(s: Ring, p: Payload) {
    Wraps(s, p) && s.rdtail == Low(|s.low|) && (s.tail.High? || s.tail == Low(0))
  }

  lemma {:induction false} FreshLapSurvives(s: Ring, e: nat)
    requires Mid(s, e) && s.tail.High? && s.low == [] && s.high != []
    ensures EvictFor(s, e).tail.High? && EvictFor(s, e).high != []
    decreases |s.high|
  {
    if Overruns(s, e) {
      EvictKeepsMid(s, e);
      assert Span(s.high) == EntrySize(s.high[0]) + Span(s.high[1..]);
      SpanSingle(s.high);
      FreshLapSurvives(Evict(s), e);
    }
  }

  /** A rewound reader meets old entries again. */
  lemma RewindRereads(s: Ring, p: Payload)
    requires Inv(s) && Fits(s, p) && Rewinds(s, p)
    ensures Inv(Push(s, p)) && |Push(s, p).Log()| >= 2
  {
    PlacedIsMid(s, p);
    MakeRoomReachesMid(s, p);
    AppendKeepsInv(MakeRoom(s, p), p);
    FreshLapSurvives(Placed(s, p), EntrySize(p));
  }

  /** The reader loses only from its old end, exactly when the push does not rewind it. */
  lemma PushReaderView(s: Ring, p: Payload)
    requires Inv(s) && Fits(s, p)
    ensures Inv(Push(s, p))
    ensures IsSuffix(Push(s, p).Unread(), s.Unread() + [p]) <==> !Rewinds(s, p)
    ensures Push(s, p).Unread() != [] && Push(s, p).Unread()[|Push(s, p).Unread()| - 1] == p
    ensures Rewinds(s, p) ==> Push(s, p).Unread() == Push(s, p).Log()
  {
    MakeRoomReachesMid(s, p);
    var r := MakeRoom(s, p);
    AppendKeepsInv(r, p);
    if Rewinds(s, p) {
      assert s.Unread() == [];
      RewindRereads(s, p);
    } else {
      SuffixAppend(r.Unread(), s.Unread(), [p]);
    }
  }

  /** A push that wraps over a reader left at 0 when the tail has moved on by one. */
  predicate LosesReader(s: Ring, p: Payload) {
    Wraps(s, p) && s.tail == Low(1) && s.rdtail == Low(0)
  }

  /** The end-of-buffer check alone drops nothing the reader has still to read, or leaves it at the tail. */
  lemma PlacedKeepsReader(s: Ring, p: Payload)
    requires Inv(s) && Fits(s, p)
    ensures Placed(s, p).InRange(Placed(s, p).rdtail)
    ensures LosesReader(s, p) ==> Placed(s, p).rdtail == Low(0) && Placed(s, p).high != []
    ensures !LosesReader(s, p) ==>
              Placed(s, p).Unread() == s.Unread() || Placed(s, p).rdtail == Placed(s, p).tail
  {
    hide Span, AllWithin;
    PlacedUnread(s, p);
    if Wraps(s, p) && s.rdtail.Low? && 0 < s.rdtail.i < |s.low| {
      var t := if s.tail.Low? then s.tail.i else 0;
      assert s.low[t..][s.rdtail.i - t..] == s.low[s.rdtail.i..];
    }
  }

  /** Nor does the eviction loop. */
  lemma {:induction false} EvictForKeepsReader(s: Ring, e: nat)
    requires Mid(s, e)
    ensures Mid(EvictFor(s, e), e)
    ensures EvictFor(s, e).Unread() == s.Unread() || EvictFor(s, e).rdtail == EvictFor(s, e).tail
    ensures s.rdtail == Low(0) && s.tail.High? && s.low == [] && s.high != [] ==>
              EvictFor(s, e).rdtail == Low(0) && EvictFor(s, e).tail.High?
    decreases s.tail.High?, |s.high|
  {
    EvictForKeepsMid(s, e);
    if Overruns(s, e) {
      EvictKeepsMid(s, e);
      EvictForKeepsReader(Evict(s), e);
      if s.rdtail == Low(0) && s.low == [] {
        assert s.high != [] ==> Evict(s).high != [] by {
          if s.high != [] {
            LapNotLast(s, e);
          }
        }
      }
    }
  }

  lemma LapNotLast(s: Ring, e: nat)
    requires Mid(s, e) && Overruns(s, e) && s.low == [] && s.high != []
    ensures |s.high| >= 2
  {
    SpanSingle(s.high);
  }

  /**
   What the reader has not read goes only from the old end, where the tail passes it, and the new entry joins; the one
   exception is a reader left at 0 that the writer wraps over, which is exact.
   */
  lemma PushKeepsReader(s: Ring, p: Payload)
    requires Inv(s) && Fits(s, p)
    ensures Inv(Push(s, p))
    ensures Push(s, p).Unread() == s.Unread() + [p] || Push(s, p).rdtail == Push(s, p).tail <==> !LosesReader(s, p)
  {
    var w, r := Placed(s, p), MakeRoom(s, p);
    PlacedIsMid(s, p);
    PlacedKeepsReader(s, p);
    MakeRoomReachesMid(s, p);
    EvictForKeepsReader(w, EntrySize(p));
    AppendKeepsInv(r, p);
    EvictForKeepsMid(w, EntrySize(p));
    hide Mid, Overruns, EvictFor, Placed, Wraps, AllWithin, Span;
    if LosesReader(s, p) {
      assert r.Unread() == [] && |s.Unread()| >= 2;
    }
  }

  // ------------------------------------------------------------------ retention

  /** Dropping one entry leaves much: what was in the way lay behind nearly the whole buffer. */
  lemma OneEvictionRetains(s: Ring, e: nat)
    requires Mid(s, e) && Overruns(s, e)
    ensures Evict(s).InRange(Evict(s).tail)
    ensures Span(Evict(s).Log()) + e + 2 * s.largest + 2 >= s.size
    ensures |Evict(s).Log()| < |s.Log()| && Evict(s).size == s.size && Evict(s).largest == s.largest
  {
    SpanAppend(s.high, s.low);
    if s.high == [] {
      MarkerPassed(s, e);
      SpanStep(s.low, 0);
    } else {
      SpanStep(s.high, 0);
      SpanAppend(s.high[1..], s.low);
    }
  }

  /** Whenever the eviction loop drops something, what it leaves is large. */
  lemma {:induction false} EvictionRetains(s: Ring, e: nat)
    requires Mid(s, e) && Overruns(s, e)
    ensures Mid(EvictFor(s, e), e)
    ensures Span(EvictFor(s, e).Log()) + e + 2 * s.largest + 2 >= s.size
    ensures |EvictFor(s, e).Log()| < |s.Log()|
    decreases s.tail.High?, |s.high|
  {
    var n := Evict(s);
    EvictKeepsMid(s, e);
    EvictForKeepsMid(s, e);
    OneEvictionRetains(s, e);
    Progress(s, e);
    EvictForStep(s, e);
    hide Evict, EvictFor, Overruns, Mid, Span;
    if Overruns(n, e) {
      EvictionRetains(n, e);
    }
  }

  lemma Progress(s: Ring, e: nat)
    requires Overruns(s, e)
    ensures s.tail.High? && (Evict(s).tail.High? ==> |Evict(s).high| < |s.high|)
  {
  }

  lemma EvictForStep(s: Ring, e: nat)
    requires Overruns(s, e)
    ensures EvictFor(s, e) == EvictFor(Evict(s), e)
    ensures !Overruns(Evict(s), e) ==> EvictFor(Evict(s), e) == Evict(s)
  {
  }

  /** The bytes still held once something has been dropped. */
  ghost predicate Retains(s: Ring)
    requires s.InRange(s.tail)
  {
    Span(s.Log()) + 2 * s.largest + 2 >= s.size
  }

  lemma MakeRoomRetains(s: Ring, p: Payload)
    requires Inv(s) && Fits(s, p)
    ensures MakeRoom(s, p).InRange(MakeRoom(s, p).tail)
    ensures MakeRoom(s, p).Log() == s.Log()
            || Span(MakeRoom(s, p).Log()) + EntrySize(p) + 2 * Grown(s, p) + 2 >= s.size
  {
    PlacedIsMid(s, p);
    PlacedLog(s, p);
    if Overruns(Placed(s, p), EntrySize(p)) {
      EvictionRetains(Placed(s, p), EntrySize(p));
    }
  }

  /** Pushes that drop nothing add their bytes; pushes that drop something leave at least the bound. */
  lemma PushRetention(s: Ring, p: Payload)
    requires Inv(s) && Fits(s, p)
    ensures Inv(Push(s, p))
    ensures Push(s, p).Log() == s.Log() + [p] || Retains(Push(s, p))
    ensures Retains(s) ==> Retains(Push(s, p))
  {
    var r := MakeRoom(s, p);
    MakeRoomReachesMid(s, p);
    MakeRoomRetains(s, p);
    AppendKeepsInv(r, p);
    SpanAppend(r.Log(), [p]);
    SpanSingle([p]);
  }

  /**
   Exactly when a push drops nothing. With room for the entry and a marker before the buffer's end it goes behind the
   last one, and must end before the oldest entry of the previous lap. Otherwise it starts a lap, and only the space of
   an entry the tail has already left makes room for it.
   */
  lemma PushKeepsAllIff(s: Ring, p: Payload)
    requires Inv(s) && Fits(s, p)
    ensures Inv(Push(s, p))
    ensures var wraps := Span(s.low) + |p| + 4 >= s.size;
            && Push(s, p).low == (if wraps then [p] else s.low + [p])
            && (Push(s, p).Log() == s.Log() + [p] <==>
                  if wraps then s.tail == Low(1) && |p| < |s.low[0]|
                  else s.tail.Low? || Span(s.low) + |p| + 2 < s.mark - Span(s.high))
  {
    var r := MakeRoom(s, p);
    MakeRoomReachesMid(s, p);
    AppendKeepsInv(r, p);
    MakeRoomKeepsAllIff(s, p);
    PlacedOverrunsIff(s, p);
    hide Mid, Inv, Overruns, AllWithin, Span, MakeRoom, Placed;
  }

  lemma MakeRoomKeepsAllIff(s: Ring, p: Payload)
    requires Inv(s) && Fits(s, p)
    ensures MakeRoom(s, p).InRange(MakeRoom(s, p).tail)
    ensures MakeRoom(s, p).low == if Wraps(s, p) then [] else s.low
    ensures MakeRoom(s, p).Log() == s.Log() <==> !Overruns(Placed(s, p), EntrySize(p))
  {
    var w := Placed(s, p);
    PlacedIsMid(s, p);
    PlacedLog(s, p);
    EvictForKeepsMid(w, EntrySize(p));
    if Overruns(w, EntrySize(p)) {
      EvictionRetains(w, EntrySize(p));
    }
    hide Mid, Inv, Overruns, AllWithin, Span, EvictFor;
  }

  lemma PlacedOverrunsIff(s: Ring, p: Payload)
    requires Inv(s) && Fits(s, p)
    ensures Wraps(s, p) <==> Span(s.low) + |p| + 4 >= s.size
    ensures !Overruns(Placed(s, p), EntrySize(p)) <==>
              if Wraps(s, p) then s.tail == Low(1) && |p| < |s.low[0]|
              else s.tail.Low? || Span(s.low) + |p| + 2 < s.mark - Span(s.high)
  {
    if Wraps(s, p) && s.tail == Low(1) {
      SpanSplit(s.low, 1);
      SpanSingle(s.low[..1]);
    }
  }

  // ------------------------------------------------------------------ the other operations

  lemma NextSizeKeepsView(s: Ring)
    requires Inv(s)
    ensures Inv(NextSize(s))
    ensures NextSize(s).Log() == s.Log() && NextSize(s).Unread() == s.Unread()
  {
  }

  /** A pop removes exactly the first unread entry and touches nothing the writer holds. */
  lemma PopTakesFirst(s: Ring)
    requires Inv(s)
    ensures Inv(Pop(s))
    ensures Pop(s).Log() == s.Log()
    ensures Pop(s).Unread() == if s.Unread() == [] then [] else s.Unread()[1..]
  {
    NextSizeKeepsView(s);
    var n := NextSize(s);
    if n.rdtail.High? {
      var i := n.rdtail.i;
      assert (n.high[i..] + n.low)[1..] == n.high[i + 1..] + n.low;
    } else if n.rdtail.i < |n.low| {
      assert n.low[n.rdtail.i..][1..] == n.low[n.rdtail.i + 1..];
    }
  }

  /** After a reset the reader sees exactly the held entries. */
  lemma ResetShowsLog(s: Ring)
    requires Inv(s)
    ensures Inv(Reset(s))
    ensures Reset(s).Unread() == s.Log() && Reset(s).Log() == s.Log()
  {
  }
}
