/**
  The primitive layer of the class file decoder: fixed-width, big-endian
  reads from an in-memory byte sequence at a read position.

  The JVM decoder reads from a `DataInputStream`; here the stream is the whole
  input `data` and a natural-number position `pos`. Every reader either
  succeeds with the decoded value and the position just past what it
  consumed, or fails; it never reads a byte before `pos`.
*/
module ByteReader {

  type byte = b: int | 0 <= b < 0x100
  type u16 = x: int | 0 <= x < 0x1_0000
  type u32 = x: int | 0 <= x < 0x1_0000_0000
  type u64 = x: int | 0 <= x < 0x1_0000_0000_0000_0000

  /** Java's `Int` and `Long`, the types `readInt()` and `readLong()` return. */
  type i32 = x: int | -0x8000_0000 <= x < 0x8000_0000
  type i64 = x: int | -0x8000_0000_0000_0000 <= x < 0x8000_0000_0000_0000

  /**
    Why a decode stops. Each kind stands for the JVM exception the decoder
    would throw at that point.
  */
  datatype Error =
    | Truncated                       // EOFException: fewer bytes left than a read needs
    | BadMagic                        // the first u4 is not 0xCAFEBABE
    | InvalidConstantTag(tag: byte)   // a pool entry with a tag the decoder does not know
    | IndexOutOfBounds(index: u16)    // `constantPool[index]` past the end of the pool
    | NotUtf8(index: u16)             // an attribute name slot that is not a Utf8 entry (cast failure)
    | SizeMismatch                    // a fixed-shape attribute whose declared size is wrong
    | NegativeArraySize(size: int)    // a u4 length of 2^31 or more, turned negative by `toInt()`

  /** The outcome of one read: a value and the position after it, or an error. */
  datatype Read<+T> = Done(value: T, next: nat) | Fail(error: Error) {
    predicate IsFailure() { Fail? }
    function PropagateFailure<U>(): Read<U> requires Fail? { Fail(error) }
    function Extract(): (T, nat) requires Done? { (value, next) }
  }

  function Pow256(n: nat): (r: nat)
    ensures r >= 1
  {
    if n == 0 then 1 else 0x100 * Pow256(n - 1)
  }

  /** The unsigned number whose big-endian base-256 digits are `s`. */
  function BigEndian(s: seq<byte>): nat
  {
    if s == [] then 0 else BigEndian(s[..|s| - 1]) * 0x100 + s[|s| - 1]
  }

  lemma {:induction false} BigEndianBound(s: seq<byte>)
    ensures BigEndian(s) < Pow256(|s|)
  {
    if s != [] {
      BigEndianBound(s[..|s| - 1]);
    }
  }

  /** The `width` big-endian bytes of `v`: the writer-side partner of `BigEndian`. */
  function BigEndianBytes(v: nat, width: nat): (s: seq<byte>)
    ensures |s| == width
  {
    if width == 0 then [] else BigEndianBytes(v / 0x100, width - 1) + [v % 0x100]
  }

  lemma {:induction false} BigEndianRoundTrip(v: nat, width: nat)
    requires v < Pow256(width)
    ensures BigEndian(BigEndianBytes(v, width)) == v
  {
    if width > 0 {
      var q, r := v / 0x100, v % 0x100;
      var s := BigEndianBytes(v, width);
      assert s[..width - 1] == BigEndianBytes(q, width - 1) && s[width - 1] == r;
      DropLowByte(v, Pow256(width - 1));
      BigEndianRoundTrip(q, width - 1);
      assert BigEndian(s) == q * 0x100 + r;
    }
  }

  /** Dropping the low byte of a number below `0x100 * p` leaves a number below `p`. */
  lemma DropLowByte(v: nat, p: nat)
    requires v < 0x100 * p
    ensures v / 0x100 < p
  {
  }

  /** The other direction: the bytes of a number's value are the bytes it was read from. */
  lemma {:induction false} BigEndianBytesOf(s: seq<byte>)
    ensures BigEndianBytes(BigEndian(s), |s|) == s
  {
    if s != [] {
      var init := s[..|s| - 1];
      BigEndianBytesOf(init);
      var v := BigEndian(s);
      assert v / 0x100 == BigEndian(init);
      assert v % 0x100 == s[|s| - 1];
      assert s == init + [s[|s| - 1]];
    }
  }

  /**
    Reads an unsigned big-endian number of `width` bytes. It fails with
    `Truncated` exactly when fewer than `width` bytes are left.
  */
  function ReadUInt(data: seq<byte>, pos: nat, width: nat): (r: Read<nat>)
    ensures r.Done? <==> pos + width <= |data|
    ensures r.Done? ==> r.next == pos + width && r.value < Pow256(width)
    ensures r.Done? ==> r.value == BigEndian(data[pos..pos + width])
    ensures r.Fail? ==> r.error == Truncated
  {
    if pos + width <= |data| then
      BigEndianBound(data[pos..pos + width]);
      Done(BigEndian(data[pos..pos + width]), pos + width)
    else
      Fail(Truncated)
  }

  /** `readUnsignedByte`. */
  function ReadU8(data: seq<byte>, pos: nat): (r: Read<byte>)
    ensures r.Done? <==> pos + 1 <= |data|
    ensures r.Done? ==> r.next == pos + 1 && r.value == data[pos]
    ensures r.Fail? ==> r.error == Truncated
  {
    if pos < |data| then Done(data[pos], pos + 1) else Fail(Truncated)
  }

  /** `readUnsignedShort`. */
  function ReadU16(data: seq<byte>, pos: nat): (r: Read<u16>)
    ensures r.Done? <==> pos + 2 <= |data|
    ensures r.Done? ==> r.next == pos + 2 && r.value == BigEndian(data[pos..pos + 2])
    ensures r.Fail? ==> r.error == Truncated
  {
    var (v, next) :- ReadUInt(data, pos, 2);
    Done(v, next)
  }

  /** `readInt().toUInt()`: four bytes as an unsigned number. */
  function ReadU32(data: seq<byte>, pos: nat): (r: Read<u32>)
    ensures r.Done? <==> pos + 4 <= |data|
    ensures r.Done? ==> r.next == pos + 4 && r.value == BigEndian(data[pos..pos + 4])
    ensures r.Fail? ==> r.error == Truncated
  {
    var (v, next) :- ReadUInt(data, pos, 4);
    Done(v, next)
  }

  /** `readLong().toULong()`: eight bytes as an unsigned number. */
  function ReadU64(data: seq<byte>, pos: nat): (r: Read<u64>)
    ensures r.Done? <==> pos + 8 <= |data|
    ensures r.Done? ==> r.next == pos + 8 && r.value == BigEndian(data[pos..pos + 8])
    ensures r.Fail? ==> r.error == Truncated
  {
    var (v, next) :- ReadUInt(data, pos, 8);
    Done(v, next)
  }

  /** Java's `toInt()` on a `UInt`: the same 32 bits read as two's complement. */
  function ToInt32(u: u32): (x: i32)
    ensures x >= 0 <==> u < 0x8000_0000
    ensures x >= 0 ==> x == u
    ensures x % 0x1_0000_0000 == u
  {
    if u < 0x8000_0000 then u else u - 0x1_0000_0000
  }

  /** Java's `toLong()` on a `ULong`: the same 64 bits read as two's complement. */
  function ToInt64(u: u64): (x: i64)
    ensures x >= 0 <==> u < 0x8000_0000_0000_0000
    ensures x % 0x1_0000_0000_0000_0000 == u
  {
    if u < 0x8000_0000_0000_0000 then u else u - 0x1_0000_0000_0000_0000
  }

  /**
    `readFully` into a fresh array of `n` bytes: the next `n` bytes, or
    `Truncated` when fewer are left.
  */
  function ReadBytes(data: seq<byte>, pos: nat, n: nat): (r: Read<seq<byte>>)
    ensures r.Done? <==> pos + n <= |data|
    ensures r.Done? ==> r.next == pos + n && r.value == data[pos..pos + n]
    ensures r.Fail? ==> r.error == Truncated
  {
    if pos + n <= |data| then Done(data[pos..pos + n], pos + n) else Fail(Truncated)
  }

  /** `e` occurs in `data` starting at position `pos`. */
  predicate BytesAt(data: seq<byte>, pos: nat, e: seq<byte>)
  {
    pos + |e| <= |data| && data[pos..pos + |e|] == e
  }

  /** An occurrence of `a + b` is an occurrence of `a` followed by one of `b`. */
  lemma BytesAtConcat(data: seq<byte>, pos: nat, a: seq<byte>, b: seq<byte>)
    ensures BytesAt(data, pos, a + b) <==> BytesAt(data, pos, a) && BytesAt(data, pos + |a|, b)
  {
    if BytesAt(data, pos, a) && BytesAt(data, pos + |a|, b) {
      assert data[pos..pos + |a + b|] == data[pos..pos + |a|] + data[pos + |a|..pos + |a| + |b|];
    }
    if BytesAt(data, pos, a + b) {
      assert data[pos..pos + |a|] == (a + b)[..|a|];
      assert data[pos + |a|..pos + |a| + |b|] == (a + b)[|a|..];
    }
  }

  /**
    Reading `width` bytes where `BigEndianBytes(v, width)` occurs gives `v`
    back and consumes exactly those bytes, whatever surrounds them.
  */
  lemma ReadUIntOfEncoding(data: seq<byte>, pos: nat, v: nat, width: nat)
    requires v < Pow256(width) && BytesAt(data, pos, BigEndianBytes(v, width))
    ensures ReadUInt(data, pos, width) == Done(v, pos + width)
  {
    BigEndianRoundTrip(v, width);
  }

  /** A successful read consumed exactly the encoding of the value it returns. */
  lemma ReadUIntConsumed(data: seq<byte>, pos: nat, width: nat)
    requires ReadUInt(data, pos, width).Done?
    ensures data[pos..pos + width] == BigEndianBytes(ReadUInt(data, pos, width).value, width)
  {
    BigEndianBytesOf(data[pos..pos + width]);
  }

  lemma ReadU16OfEncoding(data: seq<byte>, pos: nat, v: u16)
    requires BytesAt(data, pos, BigEndianBytes(v, 2))
    ensures ReadU16(data, pos) == Done(v, pos + 2)
  {
    ReadUIntOfEncoding(data, pos, v, 2);
  }

  lemma ReadU32OfEncoding(data: seq<byte>, pos: nat, v: u32)
    requires BytesAt(data, pos, BigEndianBytes(v, 4))
    ensures ReadU32(data, pos) == Done(v, pos + 4)
  {
    ReadUIntOfEncoding(data, pos, v, 4);
  }

  lemma ReadU64OfEncoding(data: seq<byte>, pos: nat, v: u64)
    requires BytesAt(data, pos, BigEndianBytes(v, 8))
    ensures ReadU64(data, pos) == Done(v, pos + 8)
  {
    ReadUIntOfEncoding(data, pos, v, 8);
  }
}
