/** Whole runs of the trace ring buffer: any number of pushes, pops, size queries and resets in any order. */
module TraceRuns {
  import opened Words
  import opened TraceRing

  datatype Op = DoPush(p: Payload) | DoPop | DoNextSize | DoReset

  /** The ring with the history of what was pushed into it and popped from it since the start of the run. */
  datatype World = World(ring: Ring, pushed: seq<Payload>, popped: seq<Payload>)

  ghost predicate Admissible(s: Ring, ops: seq<Op>) {
    forall i :: 0 <= i < |ops| ==> ops[i].DoPush? ==> Fits(s, ops[i].p)
  }

  ghost function Do(w: World, op: Op): World
    requires Inv(w.ring)
  {
    match op
    case DoPush(p) => World(Push(w.ring, p), w.pushed + [p], w.popped)
    case DoPop =>
      if w.ring.Unread() == [] then w.(ring := Pop(w.ring))
      else World(Pop(w.ring), w.pushed, w.popped + [w.ring.Unread()[0]])
    case DoNextSize => w.(ring := NextSize(w.ring))
    case DoReset => w.(ring := Reset(w.ring))
  }

  /** The layout invariant holds after every admissible run. */
  ghost function Run(start: Ring, ops: seq<Op>): (w: World)
    requires Inv(start) && Admissible(start, ops)
    ensures Inv(w.ring) && w.ring.size == start.size
    ensures w.ring.InRange(w.ring.tail) && w.ring.InRange(w.ring.rdtail)
  {
    if ops == [] then World(start, [], [])
    else
      var w := Run(start, ops[..|ops| - 1]);
      var op := ops[|ops| - 1];
      DoKeepsInv(w, op);
      Do(w, op)
  }

  lemma DoKeepsInv(w: World, op: Op)
    requires Inv(w.ring) && (op.DoPush? ==> Fits(w.ring, op.p))
    ensures Inv(Do(w, op).ring) && Do(w, op).ring.size == w.ring.size
  {
    match op
    case DoPush(p) =>
      PushKeepsInv(w.ring, p);
      MakeRoomReachesMid(w.ring, p);
    case DoPop => PopTakesFirst(w.ring);
    case DoNextSize => NextSizeKeepsView(w.ring);
    case DoReset => ResetShowsLog(w.ring);
  }

  lemma InitIsEmpty(size: nat)
    requires size > 2
    ensures Inv(Init(size)) && Init(size).Log() == [] && Init(size).Unread() == []
  {
  }

  // ------------------------------------------------------------------ what is held

  /** The largest entry among those pushed, or `floor` if none is larger. */
  ghost function LargestOf(floor: nat, ps: seq<Payload>): nat {
    if ps == [] then floor
    else
      var m := LargestOf(floor, ps[..|ps| - 1]);
      if m < EntrySize(ps[|ps| - 1]) then EntrySize(ps[|ps| - 1]) else m
  }

  lemma LargestAppend(floor: nat, ps: seq<Payload>, p: Payload)
    ensures LargestOf(floor, ps + [p])
         == if LargestOf(floor, ps) < EntrySize(p) then EntrySize(p) else LargestOf(floor, ps)
  {
    assert (ps + [p])[..|ps|] == ps;
  }

  /** It bounds every entry, size word included, and is one of them or the floor. */
  lemma {:induction false} LargestIsMaximum(floor: nat, ps: seq<Payload>)
    ensures floor <= LargestOf(floor, ps) && forall i :: 0 <= i < |ps| ==> |ps[i]| + 2 <= LargestOf(floor, ps)
    ensures LargestOf(floor, ps) == floor || exists i :: 0 <= i < |ps| && |ps[i]| + 2 == LargestOf(floor, ps)
  {
    if ps != [] {
      var before, n := ps[..|ps| - 1], |ps| - 1;
      LargestIsMaximum(floor, before);
      assert forall i :: 0 <= i < n ==> before[i] == ps[i];
      if LargestOf(floor, before) != floor {
        var i :| 0 <= i < n && |before[i]| + 2 == LargestOf(floor, before);
        assert |ps[i]| + 2 == LargestOf(floor, before);
      }
      assert |ps[n]| + 2 == EntrySize(ps[n]);
    }
  }

  /** `held` is the end of `all`, and if it is not the whole of it the dropped part was needed. */
  ghost predicate KeepsNewest(s: Ring, all: seq<Payload>)
    requires s.InRange(s.tail)
  {
    && IsSuffix(s.Log(), all)
    && (s.Log() != all ==> Span(s.Log()) >= s.size - 2 * s.largest - 2)
  }

  lemma PushKeepsNewest(s: Ring, p: Payload, all: seq<Payload>)
    requires Inv(s) && Fits(s, p) && KeepsNewest(s, all)
    ensures Inv(Push(s, p)) && KeepsNewest(Push(s, p), all + [p])
  {
    PushKeepsNewestLog(s, p);
    PushRetention(s, p);
    MakeRoomReachesMid(s, p);
    SuffixAppend(s.Log(), all, [p]);
    SuffixTransitive(Push(s, p).Log(), s.Log() + [p], all + [p]);
  }

  lemma DoKeepsNewest(w: World, op: Op, all: seq<Payload>)
    requires Inv(w.ring) && (op.DoPush? ==> Fits(w.ring, op.p)) && KeepsNewest(w.ring, all)
    ensures Inv(Do(w, op).ring)
    ensures KeepsNewest(Do(w, op).ring, if op.DoPush? then all + [op.p] else all)
    ensures Do(w, op).ring.largest == if op.DoPush? then Grown(w.ring, op.p) else w.ring.largest
    ensures Do(w, op).pushed == if op.DoPush? then w.pushed + [op.p] else w.pushed
  {
    match op
    case DoPush(p) =>
      PushKeepsNewest(w.ring, p, all);
      MakeRoomReachesMid(w.ring, p);
      hide Inv, Mid, MakeRoom, KeepsNewest, Fits, Overruns;
    case DoPop => PopTakesFirst(w.ring);
    case DoNextSize => NextSizeKeepsView(w.ring);
    case DoReset => ResetShowsLog(w.ring);
  }

  lemma NothingDropped(s: Ring)
    requires Inv(s)
    ensures KeepsNewest(s, s.Log() + [])
  {
    assert s.Log() + [] == s.Log();
  }

  lemma {:induction false} LargestIsTracked(start: Ring, ops: seq<Op>)
    requires Inv(start) && Admissible(start, ops)
    ensures Run(start, ops).ring.largest == LargestOf(start.largest, Run(start, ops).pushed)
  {
    hide Do, Inv, KeepsNewest;
    if ops != [] {
      var w, op := Run(start, ops[..|ops| - 1]), ops[|ops| - 1];
      LargestIsTracked(start, ops[..|ops| - 1]);
      NothingDropped(w.ring);
      DoKeepsNewest(w, op, w.ring.Log() + []);
      if op.DoPush? {
        LargestAppend(start.largest, w.pushed, op.p);
      }
    }
  }

  /**
   The held entries are always the newest ones, and once one has been dropped all but
   `2 * largest + 2` bytes of the buffer stay in use.
   */
  lemma {:induction false} HeldEntries(start: Ring, ops: seq<Op>)
    requires Inv(start) && Admissible(start, ops)
    ensures KeepsNewest(Run(start, ops).ring, start.Log() + Run(start, ops).pushed)
  {
    NothingDropped(start);
    hide Do, KeepsNewest;
    if ops != [] {
      var w, op := Run(start, ops[..|ops| - 1]), ops[|ops| - 1];
      HeldEntries(start, ops[..|ops| - 1]);
      DoKeepsNewest(w, op, start.Log() + w.pushed);
      if op.DoPush? {
        assert (start.Log() + w.pushed) + [op.p] == start.Log() + (w.pushed + [op.p]);
      }
    }
  }

  /** The retention bound for runs from empty, with the largest entry pushed so far spelled out. */
  lemma RetentionBound(size: nat, ops: seq<Op>)
    requires size > 2 && Admissible(Init(size), ops)
    ensures Inv(Init(size))
    ensures var w := Run(Init(size), ops);
            && IsSuffix(w.ring.Log(), w.pushed)
            && (w.ring.Log() != w.pushed ==> Span(w.ring.Log()) >= size - 2 * LargestOf(0, w.pushed) - 2)
  {
    InitIsEmpty(size);
    HeldEntries(Init(size), ops);
    LargestIsTracked(Init(size), ops);
    var w := Run(Init(size), ops);
    assert [] + w.pushed == w.pushed;
  }

  // ------------------------------------------------------------------ what is read

  /** `idx` picks `a` out of `b` in order, no position twice. */
  ghost predicate Picks<T>(a: seq<T>, b: seq<T>, idx: seq<nat>) {
    && |idx| == |a|
    && (forall i :: 0 <= i < |idx| ==> idx[i] < |b| && a[i] == b[idx[i]])
    && (forall i, j :: 0 <= i < j < |idx| ==> idx[i] < idx[j])
  }

  /** The run has no reset, and no push that sends a caught-up reader back to old entries. */
  ghost predicate Forward(start: Ring, ops: seq<Op>)
    requires Inv(start) && Admissible(start, ops)
  {
    forall i :: 0 <= i < |ops| ==>
      && !ops[i].DoReset?
      && (ops[i].DoPush? ==> !Rewinds(Run(start, ops[..i]).ring, ops[i].p))
  }

  lemma ForwardPrefix(start: Ring, ops: seq<Op>)
    requires Inv(start) && Admissible(start, ops) && ops != [] && Forward(start, ops)
    ensures Forward(start, ops[..|ops| - 1])
    ensures !ops[|ops| - 1].DoReset?
    ensures ops[|ops| - 1].DoPush? ==> !Rewinds(Run(start, ops[..|ops| - 1]).ring, ops[|ops| - 1].p)
  {
    var init := ops[..|ops| - 1];
    forall i | 0 <= i < |init|
      ensures !init[i].DoReset? && (init[i].DoPush? ==> !Rewinds(Run(start, init[..i]).ring, init[i].p))
    {
      assert init[..i] == ops[..i] && init[i] == ops[i];
    }
  }

  /** `idx` shows `popped` to be read in order from `all`, of which the unread entries are the end. */
  ghost predicate Reads(unread: seq<Payload>, popped: seq<Payload>, all: seq<Payload>, idx: seq<nat>) {
    && IsSuffix(unread, all)
    && Picks(popped, all[..|all| - |unread|], idx)
  }

  lemma PushKeepsReads(s: Ring, p: Payload, popped: seq<Payload>, all: seq<Payload>, idx: seq<nat>)
    requires Inv(s) && Fits(s, p) && !Rewinds(s, p) && Reads(s.Unread(), popped, all, idx)
    ensures Inv(Push(s, p)) && Reads(Push(s, p).Unread(), popped, all + [p], idx)
  {
    PushReaderView(s, p);
    hide Inv, Push, Rewinds, Fits;
    SuffixAppend(s.Unread(), all, [p]);
    SuffixTransitive(Push(s, p).Unread(), s.Unread() + [p], all + [p]);
  }

  /** Reading the first unread entry. */
  lemma PopKeepsReads(unread: seq<Payload>, popped: seq<Payload>, all: seq<Payload>, idx: seq<nat>)
    requires Reads(unread, popped, all, idx) && unread != []
    ensures Reads(unread[1..], popped + [unread[0]], all, idx + [|all| - |unread|])
  {
    var n := |all| - |unread|;
    assert all[n] == all[n..][0];
    assert all[n + 1..] == all[n..][1..];
  }

  lemma NothingRead(unread: seq<Payload>)
    ensures Reads(unread, [], unread + [], [])
  {
    assert unread + [] == unread;
  }

  /** What an operation does to what was popped and to what is unread. */
  lemma DoReads(w: World, op: Op)
    requires Inv(w.ring) && (op.DoPush? ==> Fits(w.ring, op.p))
    ensures Inv(Do(w, op).ring)
    ensures Do(w, op).pushed == if op.DoPush? then w.pushed + [op.p] else w.pushed
    ensures var u, r := w.ring.Unread(), Do(w, op);
            match op
            case DoPush(p) => r.ring == Push(w.ring, p) && r.popped == w.popped
            case DoPop =>
              if u == [] then r.popped == w.popped && r.ring.Unread() == []
              else r.popped == w.popped + [u[0]] && r.ring.Unread() == u[1..]
            case DoNextSize => r.popped == w.popped && r.ring.Unread() == u
            case DoReset => r.popped == w.popped && r.ring.Unread() == w.ring.Log()
  {
    DoKeepsInv(w, op);
    match op
    case DoPush(p) =>
    case DoPop => PopTakesFirst(w.ring);
    case DoNextSize => NextSizeKeepsView(w.ring);
    case DoReset => ResetShowsLog(w.ring);
  }

  lemma DoKeepsReads(w: World, op: Op, all: seq<Payload>, idx: seq<nat>) returns (next: seq<nat>)
    requires Inv(w.ring) && Reads(w.ring.Unread(), w.popped, all, idx)
    requires !op.DoReset? && (op.DoPush? ==> Fits(w.ring, op.p) && !Rewinds(w.ring, op.p))
    ensures Inv(Do(w, op).ring)
    ensures Reads(Do(w, op).ring.Unread(), Do(w, op).popped, if op.DoPush? then all + [op.p] else all, next)
  {
    next := idx;
    DoReads(w, op);
    var unread := w.ring.Unread();
    match op
    case DoPush(p) => PushKeepsReads(w.ring, p, w.popped, all, idx);
    case DoPop =>
      if unread != [] {
        PopKeepsReads(unread, w.popped, all, idx);
        next := idx + [|all| - |unread|];
      }
    case DoNextSize =>
  }

  /**
   Reading is a lossy queue: the popped entries are picked in order and without repetition from what was
   unread at the start followed by what was pushed since, and the unread entries are what comes after all of them.
   */
  lemma {:induction false} ReaderIsLossyQueue(start: Ring, ops: seq<Op>) returns (idx: seq<nat>)
    requires Inv(start) && Admissible(start, ops) && Forward(start, ops)
    ensures Reads(Run(start, ops).ring.Unread(), Run(start, ops).popped, start.Unread() + Run(start, ops).pushed, idx)
  {
    NothingRead(start.Unread());
    hide Do, Reads, Rewinds;
    if ops == [] {
      idx := [];
    } else {
      ForwardPrefix(start, ops);
      idx := ReaderIsLossyQueue(start, ops[..|ops| - 1]);
      var w, op := Run(start, ops[..|ops| - 1]), ops[|ops| - 1];
      DoReads(w, op);
      idx := DoKeepsReads(w, op, start.Unread() + w.pushed, idx);
      if op.DoPush? {
        assert (start.Unread() + w.pushed) + [op.p] == start.Unread() + (w.pushed + [op.p]);
      }
    }
  }

  ghost function Pops(n: nat): (ops: seq<Op>) {
    seq(n, _ => DoPop)
  }

  /** What `n` pops leave of a queue `u`. */
  ghost predicate Drained(popped: seq<Payload>, unread: seq<Payload>, u: seq<Payload>, n: nat) {
    n <= |u| && popped == u[..n] && unread == u[n..]
  }

  lemma DrainOne(popped: seq<Payload>, unread: seq<Payload>, u: seq<Payload>, n: nat)
    requires Drained(popped, unread, u, n) && n < |u|
    ensures unread != [] && Drained(popped + [unread[0]], unread[1..], u, n + 1)
  {
  }

  /** Popping delivers the unread entries one by one. */
  lemma {:induction false} Drain(start: Ring, n: nat)
    requires Inv(start) && n <= |start.Unread()|
    ensures Drained(Run(start, Pops(n)).popped, Run(start, Pops(n)).ring.Unread(), start.Unread(), n)
  {
    if n == 0 {
      assert Pops(0) == [];
    } else {
      hide Do, Drained;
      Drain(start, n - 1);
      var w := Run(start, Pops(n - 1));
      DrainOne(w.popped, w.ring.Unread(), start.Unread(), n - 1);
      DoReads(w, DoPop);
      assert Pops(n)[..n - 1] == Pops(n - 1);
    }
  }

  /** From empty: a reset after any run makes the reader receive exactly the newest entries still held. */
  lemma ResetThenDrain(size: nat, ops: seq<Op>)
    requires size > 2 && Admissible(Init(size), ops)
    ensures Inv(Init(size))
    ensures var w := Run(Init(size), ops);
            var held := w.ring.Log();
            && Inv(Reset(w.ring))
            && IsSuffix(held, w.pushed)
            && Run(Reset(w.ring), Pops(|held|)).popped == held
            && Run(Reset(w.ring), Pops(|held|)).ring.Unread() == []
  {
    InitIsEmpty(size);
    var w := Run(Init(size), ops);
    HeldEntries(Init(size), ops);
    assert [] + w.pushed == w.pushed;
    ResetShowsLog(w.ring);
    Drain(Reset(w.ring), |w.ring.Log()|);
  }

  // ------------------------------------------------------------------ a rewound reader

  /** A run of one operation more. */
  lemma OneMore(start: Ring, ops: seq<Op>, op: Op)
    requires Inv(start) && Admissible(start, ops + [op])
    ensures Admissible(start, ops) && Run(start, ops + [op]) == Do(Run(start, ops), op)
  {
    assert (ops + [op])[..|ops|] == ops && (ops + [op])[|ops|] == op;
    assert forall i :: 0 <= i < |ops| ==> ops[i] == (ops + [op])[i];
  }

  /** Three entries fill a ring of 40 bytes, and popping them brings the reader up to `head`. */
  function FillAndPop(a: Payload, b: Payload, c: Payload): seq<Op> {
    [DoPush(a)] + [DoPush(b)] + [DoPush(c)] + [DoPop] + [DoPop] + [DoPop]
  }

  lemma EightBytes(p: Payload)
    requires |p| == 8
    ensures EntrySize(p) == 10 && Span([p]) == 10
  {
    assert Span([p]) == EntrySize(p) + Span([]);
  }

  /** Before the first wrap a push only appends. */
  lemma PlainPush(s: Ring, p: Payload)
    requires s.tail == Low(0) && s.rdtail.Low? && !Wraps(s, p)
    ensures Push(s, p) == s.(low := s.low + [p], largest := Grown(s, p))
  {
  }

  /** One more pop, by a reader in the current lap. */
  lemma PopOnce(start: Ring, ops: seq<Op>, i: nat)
    requires Inv(start) && Admissible(start, ops)
    requires Run(start, ops).ring.rdtail == Low(i) && i < |Run(start, ops).ring.low|
    ensures Admissible(start, ops + [DoPop])
    ensures var w := Run(start, ops);
            Run(start, ops + [DoPop]) == World(w.ring.(rdtail := Low(i + 1)), w.pushed, w.popped + [w.ring.low[i]])
  {
    OneMore(start, ops, DoPop);
  }

  lemma FillEnds(a: Payload, b: Payload, c: Payload)
    requires |a| == 8 && |b| == 8 && |c| == 8
    ensures var ops := [DoPush(a)] + [DoPush(b)] + [DoPush(c)];
            && Inv(Init(40)) && Admissible(Init(40), ops)
            && Run(Init(40), ops) == World(Ring(40, [a, b, c], [], 0, Low(0), Low(0), 10), [a, b, c], [])
  {
    var i := Init(40);
    InitIsEmpty(40);
    EightBytes(a);
    EightBytes(b);
    EightBytes(c);
    SpanAppend([a], [b]);
    hide Span, Push, Inv;
    assert Span([]) == 0 by { SpanPositive([]); }
    assert Run(i, []) == World(i, [], []);
    OneMore(i, [], DoPush(a));
    OneMore(i, [DoPush(a)], DoPush(b));
    OneMore(i, [DoPush(a)] + [DoPush(b)], DoPush(c));
    hide Run, Admissible;
    assert [] + [DoPush(a)] == [DoPush(a)];
    PlainPush(i, a);
    assert [] + [a] == [a] && [a] + [b] == [a, b] && [a, b] + [c] == [a, b, c];
    PlainPush(Ring(40, [a], [], 0, Low(0), Low(0), 10), b);
    PlainPush(Ring(40, [a, b], [], 0, Low(0), Low(0), 10), c);
  }

  lemma FillAndPopEnds(a: Payload, b: Payload, c: Payload)
    requires |a| == 8 && |b| == 8 && |c| == 8
    ensures Inv(Init(40)) && Admissible(Init(40), FillAndPop(a, b, c))
    ensures Run(Init(40), FillAndPop(a, b, c))
         == World(Ring(40, [a, b, c], [], 0, Low(0), Low(3), 10), [a, b, c], [a, b, c])
  {
    var i, fill := Init(40), [DoPush(a)] + [DoPush(b)] + [DoPush(c)];
    FillEnds(a, b, c);
    hide Run, Inv, Admissible;
    PopOnce(i, fill, 0);
    PopOnce(i, fill + [DoPop], 1);
    PopOnce(i, fill + [DoPop] + [DoPop], 2);
    assert [a, b, c] == [] + [a] + [b] + [c];
  }

  /**
   The exception is real: after this run the next push rewinds the reader, and the pop after it delivers `c` a second
   time.
   */
  lemma RewindHappens(a: Payload, b: Payload, c: Payload, d: Payload)
    requires |a| == 8 && |b| == 8 && |c| == 8 && |d| == 8
    ensures var i, ops := Init(40), FillAndPop(a, b, c);
            && Inv(i) && Admissible(i, ops + [DoPush(d)] + [DoPop])
            && Rewinds(Run(i, ops).ring, d)
            && Run(i, ops).popped == [a, b, c]
            && Run(i, ops + [DoPush(d)] + [DoPop]).popped == [a, b, c, c]
  {
    var i, ops := Init(40), FillAndPop(a, b, c);
    FillAndPopEnds(a, b, c);
    OneMore(i, ops, DoPush(d));
    OneMore(i, ops + [DoPush(d)], DoPop);
    hide Run;
    RewindingPush(a, b, c, d);
  }

  lemma RewindingPush(a: Payload, b: Payload, c: Payload, d: Payload)
    requires |a| == 8 && |b| == 8 && |c| == 8 && |d| == 8
    ensures var s := Ring(40, [a, b, c], [], 0, Low(0), Low(3), 10);
            Rewinds(s, d) && Push(s, d) == Ring(40, [d], [c], 30, High(0), High(0), 10)
  {
    EightBytes(a);
    EightBytes(b);
    EightBytes(c);
    EightBytes(d);
    SpanAppend([a], [b, c]);
    SpanAppend([b], [c]);
    assert [a] + [b, c] == [a, b, c] && [b] + [c] == [b, c];
    assert [a, b, c][1..] == [b, c] && [b, c][1..] == [c];
    var w := Ring(40, [], [a, b, c], 30, High(0), High(0), 10);
    hide Span;
    assert Span([]) == 0 by { SpanPositive([]); }
    assert EvictFor(w, 10) == EvictFor(Evict(w), 10);
    assert EvictFor(Evict(w), 10) == EvictFor(Evict(Evict(w)), 10) == Evict(Evict(w));
  }
}
