/** Machine integers and byte sequences shared by every component. */
module Words {

  type byte = x: int | 0 <= x < 0x100
  type u16 = x: int | 0 <= x < 0x1_0000
  type u32 = x: int | 0 <= x < 0x1_0000_0000

  /** The two little-endian bytes of a 16-bit word. */
  function Word16(n: u16): (w: seq<byte>)
    ensures |w| == 2
  {
    [n % 0x100, n / 0x100]
  }

  /** The 16-bit word stored at an offset. */
  function WordAt(b: seq<byte>, at: nat): (n: u16)
    requires at + 2 <= |b|
  {
    b[at] as int + 0x100 * b[at + 1] as int
  }

  /** The four little-endian bytes of a 32-bit word. */
  function Word32(n: u32): (w: seq<byte>)
    ensures |w| == 4
  {
    Word16(n % 0x1_0000) + Word16(n / 0x1_0000)
  }

  /** The 32-bit word stored at an offset. */
  function LongAt(b: seq<byte>, at: nat): (n: u32)
    requires at + 4 <= |b|
  {
    WordAt(b, at) as int + 0x1_0000 * WordAt(b, at + 2) as int
  }

  lemma WordRoundTrip(a: seq<byte>, n: u16, c: seq<byte>)
    ensures WordAt(a + Word16(n) + c, |a|) == n
  {
  }

  lemma LongRoundTrip(a: seq<byte>, n: u32, c: seq<byte>)
    ensures LongAt(a + Word32(n) + c, |a|) == n
  {
    var b := a + Word32(n) + c;
    assert b == a + Word16(n % 0x1_0000) + (Word16(n / 0x1_0000) + c);
    assert b == (a + Word16(n % 0x1_0000)) + Word16(n / 0x1_0000) + c;
    WordRoundTrip(a, n % 0x1_0000, Word16(n / 0x1_0000) + c);
    WordRoundTrip(a + Word16(n % 0x1_0000), n / 0x1_0000, c);
  }

  /** The low byte comes first; taking a word apart and reading it are inverse both ways. */
  lemma LittleEndian(b0: byte, b1: byte, b2: byte, b3: byte)
    ensures WordAt([b0, b1], 0) == b0 + 0x100 * b1 && Word16(b0 + 0x100 * b1) == [b0, b1]
    ensures LongAt([b0, b1, b2, b3], 0) == b0 + 0x100 * b1 + 0x1_0000 * b2 + 0x100_0000 * b3
    ensures Word32(b0 + 0x100 * b1 + 0x1_0000 * b2 + 0x100_0000 * b3) == [b0, b1, b2, b3]
  {
  }

  /** The concatenation of a list of byte strings. */
  function Concat(parts: seq<seq<byte>>): (s: seq<byte>) {
    if parts == [] then [] else parts[0] + Concat(parts[1..])
  }

  lemma {:induction false} ConcatAppend(a: seq<seq<byte>>, b: seq<seq<byte>>)
    ensures Concat(a + b) == Concat(a) + Concat(b)
  {
    ConcatUnfold(a);
    ConcatUnfold(a + b);
    hide Concat;
    if a == [] {
      assert a + b == b;
    } else {
      ConcatAppend(a[1..], b);
      assert (a + b)[0] == a[0] && (a + b)[1..] == a[1..] + b;
    }
  }

  lemma ConcatUnfold(parts: seq<seq<byte>>)
    ensures Concat(parts) == if parts == [] then [] else parts[0] + Concat(parts[1..])
  {
  }

  lemma ConcatOne(part: seq<byte>)
    ensures Concat([part]) == part
  {
    assert Concat([part]) == part + Concat([]);
  }

  /** `a` is a suffix of `b`. */
  ghost predicate IsSuffix<T>(a: seq<T>, b: seq<T>) {
    |a| <= |b| && b[|b| - |a|..] == a
  }

  lemma SuffixTransitive<T>(a: seq<T>, b: seq<T>, c: seq<T>)
    requires IsSuffix(a, b) && IsSuffix(b, c)
    ensures IsSuffix(a, c)
  {
    assert c[|c| - |a|..] == c[|c| - |b|..][|b| - |a|..];
  }

  lemma SuffixAppend<T>(a: seq<T>, b: seq<T>, c: seq<T>)
    requires IsSuffix(a, b)
    ensures IsSuffix(a + c, b + c)
  {
  }

  lemma RightIsSuffix<T>(a: seq<T>, b: seq<T>)
    ensures IsSuffix(b, a + b)
  {
    assert (a + b)[|a|..] == b;
  }
}

/** The error numbers the drivers return, negated. */
module Errno {
  const EAGAIN: int := 11
  const ENOMEM: int := 12
  const EBUSY: int := 16
  const EINVAL: int := 22
  const EMSGSIZE: int := 90
}
