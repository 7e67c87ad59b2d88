/** Stitched firmware files: segments one after the other, each behind its 32-bit length. */
module Stitching {
  import opened Words

  const MODULUS: nat := 0x1_0000_0000
  const HALF: nat := 0x8000_0000

  ghost predicate AllShort(parts: seq<seq<byte>>) {
    forall i :: 0 <= i < |parts| ==> |parts[i]| < MODULUS
  }

  function Stitch(parts: seq<seq<byte>>): (file: seq<byte>)
    requires AllShort(parts)
  {
    if parts == [] then [] else Word32(|parts[0]|) + parts[0] + Stitch(parts[1..])
  }

  lemma {:induction false} StitchLength(parts: seq<seq<byte>>)
    requires AllShort(parts)
    ensures |Stitch(parts)| == 4 * |parts| + |Concat(parts)|
  {
    if parts != [] {
      StitchLength(parts[1..]);
    }
  }

  // ------------------------------------------------------------------ parsing with 32-bit offsets

  /** What reading the file at an offset yields: the file's byte, or whatever memory follows it. */
  function Peek(file: seq<byte>, beyond: nat -> byte, i: nat): byte {
    if i < |file| then file[i] else beyond(i - |file|)
  }

  /** Copying `n` bytes from an offset, whether or not they all belong to the file. */
  function Copy(file: seq<byte>, beyond: nat -> byte, at: nat, n: nat): (s: seq<byte>)
    ensures |s| == n
  {
    if at + n <= |file| then file[at..at + n] else Overread(file, beyond, at, n)
  }

  function Overread(file: seq<byte>, beyond: nat -> byte, at: nat, n: nat): (s: seq<byte>)
    ensures |s| == n
  {
    if n == 0 then [] else Overread(file, beyond, at, n - 1) + [Peek(file, beyond, at + n - 1)]
  }

  /** The length word at an offset. */
  function LengthAt(file: seq<byte>, beyond: nat -> byte, at: nat): (n: u32) {
    LongAt(Copy(file, beyond, at, 4), 0)
  }

  datatype Span = Span(start: u32, length: u32)
  datatype Parsed = Rejected | Accepted(spans: seq<Span>)

  /** The check of one length word; the sum of offset and length is taken in 32 bits. */
  predicate LengthFits(size: nat, at: u32, length: u32, last: bool) {
    var end := (at + length) % MODULUS + 4;
    if last then end == size else end <= size
  }

  /** The spans of `count` segments from an offset on. */
  function Parse(file: seq<byte>, beyond: nat -> byte, at: u32, count: nat): (p: Parsed)
    requires count > 0
    decreases count
  {
    var length := LengthAt(file, beyond, at);
    var start := (at + 4) % MODULUS;
    if !LengthFits(|file|, at, length, count == 1) then Rejected
    else if count == 1 then Accepted([Span(start, length)])
    else
      var rest := Parse(file, beyond, (start + length) % MODULUS, count - 1);
      if rest.Rejected? then Rejected else Accepted([Span(start, length)] + rest.spans)
  }

  function Texts(file: seq<byte>, beyond: nat -> byte, spans: seq<Span>): (texts: seq<seq<byte>>)
    ensures |texts| == |spans| && AllShort(texts)
  {
    if spans == [] then []
    else [Copy(file, beyond, spans[0].start, spans[0].length)] + Texts(file, beyond, spans[1..])
  }

  /** No offset plus length overflows 32 bits. */
  predicate NoWrap(file: seq<byte>, beyond: nat -> byte, at: nat, count: nat)
    decreases count
  {
    count == 0
    || (at + LengthAt(file, beyond, at) < MODULUS
        && NoWrap(file, beyond, at + 4 + LengthAt(file, beyond, at), count - 1))
  }

  lemma LengthOfStitched(before: seq<byte>, n: u32, after: seq<byte>, beyond: nat -> byte)
    ensures LengthAt(before + Word32(n) + after, beyond, |before|) == n
  {
    var file := before + Word32(n) + after;
    assert Copy(file, beyond, |before|, 4) == Word32(n);
    LongRoundTrip([], n, []);
    assert [] + Word32(n) + [] == Word32(n);
  }

  /** One step of parsing, where nothing wraps. */
  lemma ParseOne(file: seq<byte>, beyond: nat -> byte, at: nat, count: nat)
    requires count > 0 && at + LengthAt(file, beyond, at) < MODULUS && |file| < MODULUS
    ensures var n := LengthAt(file, beyond, at);
            && (Parse(file, beyond, at, count).Accepted? ==> at + 4 + n <= |file|)
            && (count == 1 ==>
                  Parse(file, beyond, at, count)
                    == if at + 4 + n == |file| then Accepted([Span(at + 4, n)]) else Rejected)
            && (count > 1 && at + 4 + n <= |file| ==>
                  var rest := Parse(file, beyond, at + 4 + n, count - 1);
                  Parse(file, beyond, at, count)
                    == if rest.Rejected? then Rejected else Accepted([Span(at + 4, n)] + rest.spans))
  {
    hide LengthAt;
    var n := LengthAt(file, beyond, at);
    assert (at + n) % MODULUS == at + n;
    if at + 4 + n <= |file| {
      assert (at + 4) % MODULUS == at + 4;
      assert (at + 4 + n) % MODULUS == at + 4 + n;
    }
  }

  /** Parsing what was stitched finds each part, in place. */
  lemma {:induction false} ParseStitched(before: seq<byte>, parts: seq<seq<byte>>, beyond: nat -> byte)
    requires parts != [] && AllShort(parts)
    requires |before| + |Stitch(parts)| < MODULUS
    ensures var file := before + Stitch(parts);
            var p := Parse(file, beyond, |before|, |parts|);
            p.Accepted? && Texts(file, beyond, p.spans) == parts
    decreases parts
  {
    hide LengthAt, Word32, Parse;
    var part, rest := parts[0], parts[1..];
    var file := before + Stitch(parts);
    var head := before + Word32(|part|) + part;
    assert file == before + Word32(|part|) + (part + Stitch(rest));
    assert file == head + Stitch(rest);
    LengthOfStitched(before, |part|, part + Stitch(rest), beyond);
    assert Copy(file, beyond, |before| + 4, |part|) == part;
    ParseOne(file, beyond, |before|, |parts|);
    TextsOf(file, beyond, Span(|before| + 4, |part|), []);
    if rest != [] {
      ParseStitched(head, rest, beyond);
      var q := Parse(file, beyond, |head|, |rest|);
      TextsOf(file, beyond, Span(|before| + 4, |part|), q.spans);
      assert [part] + rest == parts;
    }
  }

  lemma TextsOf(file: seq<byte>, beyond: nat -> byte, first: Span, rest: seq<Span>)
    ensures Texts(file, beyond, [first] + rest)
         == [Copy(file, beyond, first.start, first.length)] + Texts(file, beyond, rest)
  {
    assert ([first] + rest)[1..] == rest;
  }

  lemma StitchOf(first: seq<byte>, rest: seq<seq<byte>>)
    requires |first| < MODULUS && AllShort(rest)
    ensures AllShort([first] + rest)
    ensures Stitch([first] + rest) == Word32(|first|) + first + Stitch(rest)
  {
    assert ([first] + rest)[1..] == rest;
  }

  lemma NothingLeft(file: seq<byte>, beyond: nat -> byte)
    ensures Texts(file, beyond, []) == [] && Stitch([]) == []
  {
  }

  /** If no sum wraps, what is accepted is exactly a stitched file. */
  lemma {:induction false} AcceptedIsStitched(file: seq<byte>, beyond: nat -> byte, at: nat, count: nat)
    requires count > 0 && at < MODULUS && |file| < MODULUS
    requires NoWrap(file, beyond, at, count) && Parse(file, beyond, at, count).Accepted?
    ensures at <= |file|
    ensures file[at..] == Stitch(Texts(file, beyond, Parse(file, beyond, at, count).spans))
    decreases count
  {
    hide LengthAt, Word32, Parse, Stitch, Texts;
    NothingLeft(file, beyond);
    var n := LengthAt(file, beyond, at);
    ParseOne(file, beyond, at, count);
    LengthIsWord(file, beyond, at);
    var text := file[at + 4..at + 4 + n];
    var rest := if count == 1 then [] else Parse(file, beyond, at + 4 + n, count - 1).spans;
    if count > 1 {
      AcceptedIsStitched(file, beyond, at + 4 + n, count - 1);
    }
    TextsOf(file, beyond, Span(at + 4, n), rest);
    StitchOf(text, Texts(file, beyond, rest));
    assert file[at..] == file[at..at + 4] + text + file[at + 4 + n..];
    assert [Span(at + 4, n)] + rest == Parse(file, beyond, at, count).spans;
  }

  // ------------------------------------------------------------------ reads beyond the file

  /** Every length word that parsing looks at lies in the file. */
  predicate ReadsInside(file: seq<byte>, beyond: nat -> byte, at: u32, count: nat)
    decreases count
  {
    count == 0
    || (at + 4 <= |file|
        && (count > 1 && LengthFits(|file|, at, LengthAt(file, beyond, at), false) ==>
              ReadsInside(file, beyond, ((at + 4) % MODULUS + LengthAt(file, beyond, at)) % MODULUS, count - 1)))
  }

  lemma LengthInFile(file: seq<byte>, one: nat -> byte, other: nat -> byte, at: nat)
    requires at + 4 <= |file|
    ensures LengthAt(file, one, at) == LengthAt(file, other, at)
  {
  }

  /** Then what lies beyond the file does not matter: neither for the verdict nor for the spans. */
  lemma {:induction false} InsideIsIndependent(file: seq<byte>, one: nat -> byte, other: nat -> byte, at: u32,
                                               count: nat)
    requires count > 0 && ReadsInside(file, one, at, count)
    ensures ReadsInside(file, other, at, count)
    ensures Parse(file, one, at, count) == Parse(file, other, at, count)
    decreases count
  {
    LengthInFile(file, one, other, at);
    hide LengthAt, LengthFits;
    if count > 1 && LengthFits(|file|, at, LengthAt(file, one, at), false) {
      InsideIsIndependent(file, one, other, ((at + 4) % MODULUS + LengthAt(file, one, at)) % MODULUS, count - 1);
    }
  }

  /** Where no sum wraps, an accepted file is read inside. */
  lemma {:induction false} AcceptedReadsInside(file: seq<byte>, beyond: nat -> byte, at: nat, count: nat)
    requires count > 0 && at < MODULUS && |file| < MODULUS
    requires NoWrap(file, beyond, at, count) && Parse(file, beyond, at, count).Accepted?
    ensures ReadsInside(file, beyond, at, count)
    decreases count
  {
    hide LengthAt, Parse, LengthFits;
    var n := LengthAt(file, beyond, at);
    ParseOne(file, beyond, at, count);
    if count > 1 {
      AcceptedReadsInside(file, beyond, at + 4 + n, count - 1);
      assert ((at + 4) % MODULUS + n) % MODULUS == at + 4 + n;
    }
  }

  lemma CopyInFile(file: seq<byte>, one: nat -> byte, other: nat -> byte, at: nat, n: nat)
    requires at + n <= |file|
    ensures Copy(file, one, at, n) == Copy(file, other, at, n)
  {
  }

  /** And its segments are all its own bytes. */
  lemma {:induction false} AcceptedTextsInside(file: seq<byte>, one: nat -> byte, other: nat -> byte, at: nat,
                                               count: nat)
    requires count > 0 && at < MODULUS && |file| < MODULUS
    requires NoWrap(file, one, at, count) && Parse(file, one, at, count).Accepted?
    ensures var spans := Parse(file, one, at, count).spans; Texts(file, one, spans) == Texts(file, other, spans)
    decreases count
  {
    hide LengthAt, Parse, Texts, Copy;
    var n := LengthAt(file, one, at);
    ParseOne(file, one, at, count);
    CopyInFile(file, one, other, at + 4, n);
    NothingLeft(file, one);
    NothingLeft(file, other);
    var rest := if count == 1 then [] else Parse(file, one, at + 4 + n, count - 1).spans;
    if count > 1 {
      AcceptedTextsInside(file, one, other, at + 4 + n, count - 1);
    }
    TextsOf(file, one, Span(at + 4, n), rest);
    TextsOf(file, other, Span(at + 4, n), rest);
    assert [Span(at + 4, n)] + rest == Parse(file, one, at, count).spans;
  }

  /**
   A file too short for its second length word: it is read wholly from beyond the file, and whether the file is
   accepted depends on what lies there.
   */
  lemma SecondLengthOutside(file: seq<byte>, beyond: nat -> byte)
    requires |file| == 8 && file[..4] == [4, 0, 0, 0]
    ensures !ReadsInside(file, beyond, 0, 4)
    ensures beyond(0) == beyond(1) == beyond(2) == beyond(3) == 0 ==> Parse(file, beyond, 0, 4).Rejected?
    ensures beyond(0) == 0xFC && beyond(1) == beyond(2) == beyond(3) == 0xFF ==> Parse(file, beyond, 0, 4).Accepted?
  {
    assert file[0] == file[..4][0] && file[1] == file[..4][1] && file[2] == file[..4][2] && file[3] == file[..4][3];
    assert LengthAt(file, beyond, 0) == 4;
    OutsideWord(file, beyond);
    hide LengthAt;
    assert !ReadsInside(file, beyond, 8, 3);
    if LengthAt(file, beyond, 8) == 0xFFFF_FFFC {
      assert Parse(file, beyond, 8, 1).Accepted?;
      assert Parse(file, beyond, 8, 2).Accepted?;
      assert Parse(file, beyond, 8, 3).Accepted?;
    }
  }

  lemma OutsideWord(file: seq<byte>, beyond: nat -> byte)
    requires |file| == 8
    ensures LengthAt(file, beyond, 8)
         == beyond(0) as int + 0x100 * beyond(1) as int + 0x1_0000 * beyond(2) as int + 0x100_0000 * beyond(3) as int
  {
    var w := Overread(file, beyond, 8, 4);
    assert Overread(file, beyond, 8, 0) == [];
    assert Overread(file, beyond, 8, 1) == [beyond(0)];
    assert Overread(file, beyond, 8, 2) == [beyond(0), beyond(1)];
    assert Overread(file, beyond, 8, 3) == [beyond(0), beyond(1), beyond(2)];
    assert w == [beyond(0), beyond(1), beyond(2), beyond(3)];
  }

  lemma LengthIsWord(file: seq<byte>, beyond: nat -> byte, at: nat)
    requires at + 4 <= |file|
    ensures Word32(LengthAt(file, beyond, at)) == file[at..at + 4]
  {
    LongIsWord(file[at..at + 4]);
  }

  lemma LongIsWord(w: seq<byte>)
    requires |w| == 4
    ensures Word32(LongAt(w, 0)) == w
  {
    var lo, hi := WordAt(w, 0), WordAt(w, 2);
    WordOfBytes(w[0], w[1]);
    WordOfBytes(w[2], w[3]);
    hide WordAt, Word16;
    var n := LongAt(w, 0);
    assert n % 0x1_0000 == lo && n / 0x1_0000 == hi;
    assert w == Word16(lo) + Word16(hi);
  }

  lemma WordOfBytes(lo: byte, hi: byte)
    ensures Word16(lo + 0x100 * hi as int) == [lo, hi]
  {
  }

  /** A file whose lengths are all below 2^31 leaves no room for a wrap. */
  lemma {:induction false} ShortSpansDoNotWrap(file: seq<byte>, beyond: nat -> byte, at: nat, count: nat)
    requires count > 0 && at <= |file| < HALF
    requires Parse(file, beyond, at, count).Accepted?
    requires forall i :: 0 <= i < |Parse(file, beyond, at, count).spans| ==>
               Parse(file, beyond, at, count).spans[i].length < HALF
    ensures NoWrap(file, beyond, at, count)
    decreases count
  {
    hide LengthAt;
    var n := LengthAt(file, beyond, at);
    assert Parse(file, beyond, at, count).spans[0].length == n;
    ParseOne(file, beyond, at, count);
    if count > 1 {
      var rest := Parse(file, beyond, at + 4 + n, count - 1);
      assert Parse(file, beyond, at, count).spans[1..] == rest.spans;
      ShortSpansDoNotWrap(file, beyond, at + 4 + n, count - 1);
    }
  }

  /** A stitched file is parsed without any sum wrapping. */
  lemma {:induction false} StitchedDoesNotWrap(before: seq<byte>, parts: seq<seq<byte>>, beyond: nat -> byte)
    requires AllShort(parts) && |before| + |Stitch(parts)| < MODULUS
    ensures NoWrap(before + Stitch(parts), beyond, |before|, |parts|)
    decreases parts
  {
    if parts != [] {
      hide LengthAt, Word32;
      var part, rest := parts[0], parts[1..];
      var head := before + Word32(|part|) + part;
      var file := before + Stitch(parts);
      assert file == before + Word32(|part|) + (part + Stitch(rest)) == head + Stitch(rest);
      LengthOfStitched(before, |part|, part + Stitch(rest), beyond);
      StitchedDoesNotWrap(head, rest, beyond);
    }
  }
}

/** `qmrom_unstitch_fw`: a stitched file taken apart into two key certificates, content certificate and image. */
module Unstitching {
  import opened Errno
  import opened Words
  import opened Stitching

  const CHIP_REVISION_A0: nat := 0xA0

  datatype Segments = Segments(key1: seq<byte>, key2: seq<byte>, cert: seq<byte>, image: seq<byte>) {
    /** In file order. */
    function Parts(): (parts: seq<seq<byte>>)
      ensures |parts| == 4
    {
      [key1, key2, cert, image]
    }

    predicate Short() {
      |key1| < MODULUS && |key2| < MODULUS && |cert| < MODULUS && |image| < MODULUS
    }
  }

  datatype Result = Unstitched(segments: Segments) | Failed(error: int)

  /** The stitched file of four segments. */
  function File(s: Segments): seq<byte>
    requires s.Short()
  {
    Stitch(s.Parts())
  }

  /** All four buffers can be allocated; `alloc(i, n)` answers the i-th request, for `n` bytes of payload. */
  predicate Allocates(alloc: (nat, nat) -> bool, key1: nat, key2: nat, cert: nat, image: nat) {
    alloc(0, image) && alloc(1, cert) && alloc(2, key1) && alloc(3, key2)
  }

  function Unstitch(file: seq<byte>, beyond: nat -> byte, revision: nat, alloc: (nat, nat) -> bool): Result {
    if revision == CHIP_REVISION_A0 then Failed(-EINVAL)
    else if |file| < 8 then Failed(-EINVAL)
    else
      var p := Parse(file, beyond, 0, 4);
      if p.Rejected? then Failed(-EINVAL)
      else
        var t := Texts(file, beyond, p.spans);
        ParseCount(file, beyond, 0, 4);
        if Allocates(alloc, |t[0]|, |t[1]|, |t[2]|, |t[3]|) then Unstitched(Segments(t[0], t[1], t[2], t[3]))
        else Failed(-ENOMEM)
  }

  lemma {:induction false} ParseCount(file: seq<byte>, beyond: nat -> byte, at: u32, count: nat)
    requires count > 0
    ensures Parse(file, beyond, at, count).Accepted? ==> |Parse(file, beyond, at, count).spans| == count
    decreases count
  {
    hide LengthAt, LengthFits;
    if count > 1 {
      ParseCount(file, beyond, ((at + 4) % MODULUS + LengthAt(file, beyond, at)) % MODULUS, count - 1);
    }
  }

  lemma Refused(file: seq<byte>, beyond: nat -> byte, revision: nat, alloc: (nat, nat) -> bool)
    ensures revision == CHIP_REVISION_A0 || |file| < 8 || Parse(file, beyond, 0, 4).Rejected? ==>
              Unstitch(file, beyond, revision, alloc) == Failed(-EINVAL)
  {
  }

  /** What four spans in a row come to. */
  lemma FourFound(file: seq<byte>, beyond: nat -> byte, revision: nat, alloc: (nat, nat) -> bool,
                  a: Span, b: Span, c: Span, d: Span)
    requires revision != CHIP_REVISION_A0 && |file| >= 8
    requires Parse(file, beyond, 0, 4) == Accepted([a] + ([b] + ([c] + [d])))
    ensures Unstitch(file, beyond, revision, alloc)
         == if Allocates(alloc, a.length, b.length, c.length, d.length)
            then Unstitched(Segments(Copy(file, beyond, a.start, a.length), Copy(file, beyond, b.start, b.length),
                                     Copy(file, beyond, c.start, c.length), Copy(file, beyond, d.start, d.length)))
            else Failed(-ENOMEM)
  {
    hide Parse, Copy, Texts;
    NothingLeft(file, beyond);
    TextsOf(file, beyond, d, []);
    assert [d] + [] == [d];
    TextsOf(file, beyond, c, [d]);
    TextsOf(file, beyond, b, [c] + [d]);
    TextsOf(file, beyond, a, [b] + ([c] + [d]));
  }

  /** One segment of `qmrom_unstitch_fw`: checks the length word at `totLen`; the segment starts behind it. */
  method NextSegment(file: seq<byte>, beyond: nat -> byte, totLen: u32, count: nat)
    returns (ok: bool, start: u32, length: u32)
    requires count > 0
    ensures ok <==> LengthFits(|file|, totLen, length, count == 1)
    ensures length == LengthAt(file, beyond, totLen)
    ensures Parse(file, beyond, totLen, count)
         == if !ok then Rejected
            else if count == 1 then Accepted([Span(start, length)])
            else
              var rest := Parse(file, beyond, (start + length) % MODULUS, count - 1);
              if rest.Rejected? then Rejected else Accepted([Span(start, length)] + rest.spans)
  {
    length := LengthAt(file, beyond, totLen);
    var end: nat := (totLen + length) % MODULUS + 4;
    ok := if count == 1 then end == |file| else end <= |file|;
    start := (totLen + 4) % MODULUS;
  }

  /** `qmrom_unstitch_fw`, with its running 32-bit total; the buffers are requested in the code's order. */
  method UnstitchFile(file: seq<byte>, beyond: nat -> byte, revision: nat, alloc: (nat, nat) -> bool)
    returns (r: Result)
    ensures r == Unstitch(file, beyond, revision, alloc)
  {
    hide Unstitch, Parse, LengthAt, LengthFits, Copy;
    Refused(file, beyond, revision, alloc);
    if revision == CHIP_REVISION_A0 {
      return Failed(-EINVAL);
    }
    if |file| < 8 {
      return Failed(-EINVAL);
    }
    var totLen: u32 := 0;
    var ok, pKey1, key1Size := NextSegment(file, beyond, totLen, 4);
    if !ok {
      return Failed(-EINVAL);
    }
    totLen := (pKey1 + key1Size) % MODULUS;
    var pKey2, key2Size;
    ok, pKey2, key2Size := NextSegment(file, beyond, totLen, 3);
    if !ok {
      return Failed(-EINVAL);
    }
    totLen := (pKey2 + key2Size) % MODULUS;
    var pCert, certSize;
    ok, pCert, certSize := NextSegment(file, beyond, totLen, 2);
    if !ok {
      return Failed(-EINVAL);
    }
    totLen := (pCert + certSize) % MODULUS;
    var pImage, imageSize;
    ok, pImage, imageSize := NextSegment(file, beyond, totLen, 1);
    if !ok {
      return Failed(-EINVAL);
    }
    FourFound(file, beyond, revision, alloc, Span(pKey1, key1Size), Span(pKey2, key2Size), Span(pCert, certSize),
              Span(pImage, imageSize));
    if !alloc(0, imageSize) || !alloc(1, certSize) || !alloc(2, key1Size) || !alloc(3, key2Size) {
      return Failed(-ENOMEM);
    }
    r := Unstitched(Segments(Copy(file, beyond, pKey1, key1Size), Copy(file, beyond, pKey2, key2Size),
                             Copy(file, beyond, pCert, certSize), Copy(file, beyond, pImage, imageSize)));
  }

  /** Every outcome on a stitched file: a revision that has none, an allocation refused, or the segments. */
  lemma StitchedOutcome(s: Segments, beyond: nat -> byte, revision: nat, alloc: (nat, nat) -> bool)
    requires s.Short() && |File(s)| < MODULUS
    ensures Unstitch(File(s), beyond, revision, alloc)
         == if revision == 0xA0 then Failed(-22)
            else if alloc(0, |s.image|) && alloc(1, |s.cert|) && alloc(2, |s.key1|) && alloc(3, |s.key2|)
            then Unstitched(s)
            else Failed(-12)
  {
    StitchLength(s.Parts());
    ParseStitched([], s.Parts(), beyond);
    hide Parse, Texts, Stitch;
    assert [] + Stitch(s.Parts()) == Stitch(s.Parts());
  }

  /** Unstitching is the inverse of stitching. */
  lemma UnstitchOfStitched(s: Segments, beyond: nat -> byte, revision: nat, alloc: (nat, nat) -> bool)
    requires s.Short() && |File(s)| < MODULUS && revision != CHIP_REVISION_A0
    requires Allocates(alloc, |s.key1|, |s.key2|, |s.cert|, |s.image|)
    ensures Unstitch(File(s), beyond, revision, alloc) == Unstitched(s)
  {
    hide Unstitch, File;
    StitchedOutcome(s, beyond, revision, alloc);
  }

  /** An accepted file is the stitching of what came out of it exactly when no 32-bit sum wrapped. */
  lemma AcceptedIffNoWrap(file: seq<byte>, beyond: nat -> byte, revision: nat, alloc: (nat, nat) -> bool)
    requires |file| < MODULUS && Unstitch(file, beyond, revision, alloc).Unstitched?
    ensures Unstitch(file, beyond, revision, alloc).segments.Short()
    ensures File(Unstitch(file, beyond, revision, alloc).segments) == file <==> NoWrap(file, beyond, 0, 4)
  {
    hide Parse, Texts, Stitch, NoWrap;
    var s := Unstitch(file, beyond, revision, alloc).segments;
    var t := Texts(file, beyond, Parse(file, beyond, 0, 4).spans);
    ParseCount(file, beyond, 0, 4);
    assert s.Parts() == t;
    assert |t[0]| < MODULUS && |t[1]| < MODULUS && |t[2]| < MODULUS && |t[3]| < MODULUS;
    if NoWrap(file, beyond, 0, 4) {
      AcceptedIsStitched(file, beyond, 0, 4);
      assert file[0..] == file;
    }
    if File(s) == file {
      StitchedDoesNotWrap([], s.Parts(), beyond);
      assert [] + Stitch(s.Parts()) == file;
    }
  }

  ghost predicate IsStitched(file: seq<byte>) {
    exists s: Segments :: s.Short() && File(s) == file
  }

  /** Where no sum wraps, a file is refused as invalid exactly when it is not stitched from four segments. */
  lemma InvalidIffNotStitched(file: seq<byte>, beyond: nat -> byte, revision: nat, alloc: (nat, nat) -> bool)
    requires |file| < MODULUS && NoWrap(file, beyond, 0, 4) && revision != CHIP_REVISION_A0
    ensures Unstitch(file, beyond, revision, alloc) == Failed(-22) <==> !IsStitched(file)
    ensures Unstitch(file, beyond, revision, alloc).Failed? ==>
              Unstitch(file, beyond, revision, alloc).error in [-22, -12]
  {
    TwoErrors(file, beyond, revision, alloc);
    hide Unstitch, NoWrap, File;
    if IsStitched(file) {
      var s: Segments :| s.Short() && File(s) == file;
      StitchedOutcome(s, beyond, revision, alloc);
    } else if Unstitch(file, beyond, revision, alloc) != Failed(-22) {
      ParsedIsStitched(file, beyond);
    }
  }

  lemma TwoErrors(file: seq<byte>, beyond: nat -> byte, revision: nat, alloc: (nat, nat) -> bool)
    ensures Unstitch(file, beyond, revision, alloc) != Failed(-22) ==> Parse(file, beyond, 0, 4).Accepted?
    ensures Unstitch(file, beyond, revision, alloc).Failed? ==>
              Unstitch(file, beyond, revision, alloc).error in [-22, -12]
  {
    hide Parse, Texts, Copy;
  }

  lemma ParsedIsStitched(file: seq<byte>, beyond: nat -> byte)
    requires |file| < MODULUS && NoWrap(file, beyond, 0, 4) && Parse(file, beyond, 0, 4).Accepted?
    ensures IsStitched(file)
  {
    hide Parse, Texts, Stitch, NoWrap, IsStitched;
    ParseCount(file, beyond, 0, 4);
    AcceptedIsStitched(file, beyond, 0, 4);
    assert file[0..] == file;
    FourAreStitched(Texts(file, beyond, Parse(file, beyond, 0, 4).spans));
  }

  lemma FourAreStitched(t: seq<seq<byte>>)
    requires |t| == 4 && AllShort(t)
    ensures IsStitched(Stitch(t))
  {
    hide Stitch;
    var s := Segments(t[0], t[1], t[2], t[3]);
    assert s.Parts() == t;
    assert s.Short() && File(s) == Stitch(t);
  }

  /** The result on an accepted file in which no sum wraps depends on the file alone. */
  lemma AcceptedIsTheFilesOwn(file: seq<byte>, one: nat -> byte, other: nat -> byte, revision: nat,
                              alloc: (nat, nat) -> bool)
    requires |file| < MODULUS && NoWrap(file, one, 0, 4) && Parse(file, one, 0, 4).Accepted?
    ensures Unstitch(file, one, revision, alloc) == Unstitch(file, other, revision, alloc)
  {
    hide Parse, Texts, ReadsInside, NoWrap, Copy;
    AcceptedReadsInside(file, one, 0, 4);
    AcceptedTextsInside(file, one, other, 0, 4);
    InsideIsIndependent(file, one, other, 0, 4);
    ParseCount(file, one, 0, 4);
    ParseCount(file, other, 0, 4);
  }

  lemma LengthInside(file: seq<byte>, beyond: nat -> byte, at: nat)
    requires at + 4 <= |file|
    ensures LengthAt(file, beyond, at)
         == file[at] as int + 0x100 * file[at + 1] as int + 0x1_0000 * file[at + 2] as int
            + 0x100_0000 * file[at + 3] as int
  {
  }

  /**
   Acceptance alone does not make a file stitched: this one, of sixteen bytes, passes every check because the
   third length makes the offset wrap back to 4, where 8 is read as the fourth length.
   */
  lemma WrappedFileIsAccepted(file: seq<byte>, beyond: nat -> byte, revision: nat, alloc: (nat, nat) -> bool)
    requires file == [4, 0, 0, 0] + [8, 0, 0, 0] + [0, 0, 0, 0] + [0xF4, 0xFF, 0xFF, 0xFF]
    requires revision != CHIP_REVISION_A0 && Allocates(alloc, 4, 0, 0xFFFF_FFF4, 8)
    ensures var u := Unstitch(file, beyond, revision, alloc);
            u.Unstitched? && u.segments.Short() && File(u.segments) != file
  {
    WrappedParse(file, beyond);
    FourFound(file, beyond, revision, alloc, Span(4, 4), Span(12, 0), Span(16, 0xFFFF_FFF4), Span(8, 8));
    AcceptedIffNoWrap(file, beyond, revision, alloc);
  }

  lemma WrappedParse(file: seq<byte>, beyond: nat -> byte)
    requires file == [4, 0, 0, 0] + [8, 0, 0, 0] + [0, 0, 0, 0] + [0xF4, 0xFF, 0xFF, 0xFF]
    ensures Parse(file, beyond, 0, 4)
         == Accepted([Span(4, 4)] + ([Span(12, 0)] + ([Span(16, 0xFFFF_FFF4)] + [Span(8, 8)])))
    ensures !NoWrap(file, beyond, 0, 4)
  {
    LengthInside(file, beyond, 0);
    LengthInside(file, beyond, 4);
    LengthInside(file, beyond, 8);
    LengthInside(file, beyond, 12);
    hide LengthAt;
    assert Parse(file, beyond, 4, 1) == Accepted([Span(8, 8)]);
    assert Parse(file, beyond, 12, 2) == Accepted([Span(16, 0xFFFF_FFF4)] + [Span(8, 8)]);
    assert Parse(file, beyond, 8, 3) == Accepted([Span(12, 0)] + ([Span(16, 0xFFFF_FFF4)] + [Span(8, 8)]));
    assert !NoWrap(file, beyond, 12, 2);
    assert !NoWrap(file, beyond, 8, 3);
  }

  /** The kernel allocator refuses requests of 2 GiB and more. */
  ghost predicate Bounded(alloc: (nat, nat) -> bool) {
    forall i: nat, n: nat :: alloc(i, n) ==> n < HALF
  }

  /** With such an allocator, files below 2 GiB are accepted only if they are stitched. */
  lemma SmallAcceptedIsStitched(file: seq<byte>, beyond: nat -> byte, revision: nat, alloc: (nat, nat) -> bool)
    requires |file| < HALF && Bounded(alloc) && Unstitch(file, beyond, revision, alloc).Unstitched?
    ensures var s := Unstitch(file, beyond, revision, alloc).segments; s.Short() && File(s) == file
  {
    var p := Parse(file, beyond, 0, 4);
    ParseCount(file, beyond, 0, 4);
    TextLengths(file, beyond, p.spans);
    hide Parse, Texts, NoWrap;
    assert forall i :: 0 <= i < 4 ==> p.spans[i].length < HALF;
    ShortSpansDoNotWrap(file, beyond, 0, 4);
    AcceptedIffNoWrap(file, beyond, revision, alloc);
  }

  lemma {:induction false} TextLengths(file: seq<byte>, beyond: nat -> byte, spans: seq<Span>)
    ensures forall i :: 0 <= i < |spans| ==> |Texts(file, beyond, spans)[i]| == spans[i].length
  {
    if spans != [] {
      TextLengths(file, beyond, spans[1..]);
      hide Copy;
      forall i | 0 <= i < |spans|
        ensures |Texts(file, beyond, spans)[i]| == spans[i].length
      {
        if i > 0 {
          assert Texts(file, beyond, spans)[i] == Texts(file, beyond, spans[1..])[i - 1];
        }
      }
    }
  }

  /** For files below 2 GiB: accepted if and only if stitched from four segments that can be allocated. */
  lemma SmallAcceptedIff(file: seq<byte>, beyond: nat -> byte, revision: nat, alloc: (nat, nat) -> bool)
    requires |file| < HALF && Bounded(alloc) && revision != CHIP_REVISION_A0
    ensures Unstitch(file, beyond, revision, alloc).Unstitched?
            <==> exists s: Segments ::
                   s.Short() && File(s) == file && Allocates(alloc, |s.key1|, |s.key2|, |s.cert|, |s.image|)
  {
    if Unstitch(file, beyond, revision, alloc).Unstitched? {
      SmallAcceptedIsStitched(file, beyond, revision, alloc);
    }
    forall s: Segments | s.Short() && File(s) == file && Allocates(alloc, |s.key1|, |s.key2|, |s.cert|, |s.image|)
      ensures Unstitch(file, beyond, revision, alloc).Unstitched?
    {
      UnstitchOfStitched(s, beyond, revision, alloc);
    }
  }

  /**
   With such an allocator, for files below 2 GiB, what lies beyond the file decides neither whether it is accepted nor
   the segments; only the error number can depend on it.
   */
  lemma SmallResultIsTheFilesOwn(file: seq<byte>, one: nat -> byte, other: nat -> byte, revision: nat,
                                 alloc: (nat, nat) -> bool)
    requires |file| < HALF && Bounded(alloc)
    ensures var a, b := Unstitch(file, one, revision, alloc), Unstitch(file, other, revision, alloc);
            (a.Unstitched? <==> b.Unstitched?) && (a.Unstitched? ==> a == b)
  {
    if revision != CHIP_REVISION_A0 {
      hide Unstitch, Stitch;
      SmallAcceptedIff(file, one, revision, alloc);
      SmallAcceptedIff(file, other, revision, alloc);
      if Unstitch(file, one, revision, alloc).Unstitched? {
        var s: Segments :|
          s.Short() && File(s) == file && Allocates(alloc, |s.key1|, |s.key2|, |s.cert|, |s.image|);
        UnstitchOfStitched(s, one, revision, alloc);
        UnstitchOfStitched(s, other, revision, alloc);
      }
    }
  }

  /** And the error number does depend on it: the same file is refused in two ways. */
  lemma ErrorDependsOnBeyond(file: seq<byte>, beyond: nat -> byte, revision: nat, alloc: (nat, nat) -> bool)
    requires |file| == 8 && file[..4] == [4, 0, 0, 0] && revision != CHIP_REVISION_A0 && Bounded(alloc)
    ensures beyond(0) == beyond(1) == beyond(2) == beyond(3) == 0 ==>
              Unstitch(file, beyond, revision, alloc) == Failed(-EINVAL)
    ensures beyond(0) == 0xFC && beyond(1) == beyond(2) == beyond(3) == 0xFF ==>
              Unstitch(file, beyond, revision, alloc) == Failed(-ENOMEM)
  {
    SecondLengthOutside(file, beyond);
    hide Parse, Texts, Copy, Stitch;
    if Unstitch(file, beyond, revision, alloc).Unstitched? {
      SmallAcceptedIsStitched(file, beyond, revision, alloc);
      StitchLength(Unstitch(file, beyond, revision, alloc).segments.Parts());
    }
  }
}
