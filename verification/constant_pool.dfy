/**
  The constant pool (section 4.4 of the Java Virtual Machine Specification,
  Java SE 21 edition): a u2 count followed by tagged entries.

  Slot 0 of the decoded pool is a placeholder, so that pool indices in the
  rest of the class file address the list directly. A Long or Double entry
  takes two slots, and the decoder fills the second one with the same
  placeholder.
*/
module ConstantPool {
  import opened ByteReader

  /**
    One pool entry. Only `Utf8` keeps the tag byte it was read with, since
    the placeholder is a `Utf8` with tag 0; every other kind has one fixed
    tag, given by `Tag()`. Float and Double keep their raw IEEE 754 bits.
  */
  datatype Constant =
    | Utf8(tag: byte, bytes: seq<byte>)
    | Integer(intValue: i32)
    | Float(floatBits: u32)
    | Long(longValue: i64)
    | Double(doubleBits: u64)
    | Class(nameIndex: u16)
    | String(stringIndex: u16)
    | FieldRef(classIndex: u16, nameAndTypeIndex: u16)
    | MethodRef(classIndex: u16, nameAndTypeIndex: u16)
    | InterfaceMethodRef(classIndex: u16, nameAndTypeIndex: u16)
    | NameAndType(nameIndex: u16, descriptorIndex: u16)
    | MethodHandle(kind: byte, referenceIndex: u16)
    | MethodType(descriptorIndex: u16)
    | Dynamic(bootstrapMethodAttrIndex: u16, nameAndTypeIndex: u16)
    | InvokeDynamic(bootstrapMethodAttrIndex: u16, nameAndTypeIndex: u16)
    | Module(nameIndex: u16)
    | Package(nameIndex: u16)
  {
    function Tag(): byte
    {
      match this
      case Utf8(tag, _) => tag
      case Integer(_) => 3
      case Float(_) => 4
      case Long(_) => 5
      case Double(_) => 6
      case Class(_) => 7
      case String(_) => 8
      case FieldRef(_, _) => 9
      case MethodRef(_, _) => 10
      case InterfaceMethodRef(_, _) => 11
      case NameAndType(_, _) => 12
      case MethodHandle(_, _) => 15
      case MethodType(_) => 16
      case Dynamic(_, _) => 17
      case InvokeDynamic(_, _) => 18
      case Module(_) => 19
      case Package(_) => 20
    }

    /** Long and Double take two pool slots. */
    predicate IsWide()
    {
      Long? || Double?
    }

    /** What the decoder can produce for a real entry: a `Utf8` with tag 1 and at most 65535 bytes. */
    predicate WellFormed()
    {
      Utf8? ==> tag == 1 && |bytes| < 0x1_0000
    }
  }

  /** The entry in slot 0 and in the slot after each Long or Double. */
  const PLACEHOLDER: Constant := Utf8(0, [])

  /** The tags the decoder knows. */
  predicate KnownTag(tag: byte)
  {
    tag == 1 || 3 <= tag <= 12 || 15 <= tag <= 20
  }

  predicate WideTag(tag: byte)
  {
    tag == 5 || tag == 6
  }

  /** The payload size of each known tag except Utf8, whose payload is 2 + its length. */
  function FixedWidth(tag: byte): nat
  {
    if tag == 3 || tag == 4 then 4
    else if tag == 5 || tag == 6 then 8
    else if tag == 15 then 3
    else if 9 <= tag <= 12 || tag == 17 || tag == 18 then 4
    else 2
  }

  /**
    How many bytes after the tag an entry with this tag occupies at `pos`:
    for Utf8 the length field plus the length it holds (just the field when
    it is cut off).
  */
  function PayloadWidth(data: seq<byte>, pos: nat, tag: byte): nat
  {
    if tag == 1 then
      if pos + 2 <= |data| then 2 + BigEndian(data[pos..pos + 2]) else 2
    else
      FixedWidth(tag)
  }

  /** Two consecutive u2 fields, as the reference kinds hold. */
  function ReadU16Pair(data: seq<byte>, pos: nat): (r: Read<(u16, u16)>)
    ensures r.Done? <==> pos + 4 <= |data|
    ensures r.Done? ==> r.next == pos + 4
    ensures r.Fail? ==> r.error == Truncated
  {
    var (a, p1) :- ReadU16(data, pos);
    var (b, p2) :- ReadU16(data, p1);
    Done((a, b), p2)
  }

  /** A Utf8 payload: a u2 length, then that many bytes. */
  function ReadUtf8(data: seq<byte>, pos: nat): (r: Read<Constant>)
    ensures r.Done? <==> pos + PayloadWidth(data, pos, 1) <= |data|
    ensures r.Done? ==> r.next == pos + PayloadWidth(data, pos, 1)
    ensures r.Done? ==> r.value.Utf8? && r.value.tag == 1 && |r.value.bytes| < 0x1_0000
    ensures r.Fail? ==> r.error == Truncated
  {
    var (length, p1) :- ReadU16(data, pos);
    var (bytes, p2) :- ReadBytes(data, p1, length);
    Done(Utf8(1, bytes), p2)
  }

  /** The bytes of a decoded Utf8 entry are exactly the `length` bytes after its u2 length. */
  lemma ReadUtf8Bytes(data: seq<byte>, pos: nat)
    requires ReadUtf8(data, pos).Done?
    ensures var r := ReadUtf8(data, pos);
      && |r.value.bytes| == ReadU16(data, pos).value
      && r.value.bytes == data[pos + 2..r.next]
  {
  }

  /** The numeric payloads, tags 3 to 6: Integer, Float, Long and Double. */
  function ReadNumber(data: seq<byte>, pos: nat, tag: byte): (r: Read<Constant>)
    requires 3 <= tag <= 6
    ensures r.Done? <==> pos + FixedWidth(tag) <= |data|
    ensures r.Done? ==> r.next == pos + FixedWidth(tag) && r.value.Tag() == tag
    ensures r.Fail? ==> r.error == Truncated
  {
    if tag == 3 then
      var (u, p) :- ReadU32(data, pos);
      Done(Integer(ToInt32(u)), p)
    else if tag == 4 then
      var (u, p) :- ReadU32(data, pos);
      Done(Float(u), p)
    else if tag == 5 then
      var (u, p) :- ReadU64(data, pos);
      Done(Long(ToInt64(u)), p)
    else
      var (u, p) :- ReadU64(data, pos);
      Done(Double(u), p)
  }

  /** The payloads made of one pool index: Class, String, MethodType, Module and Package. */
  function ReadIndexConstant(data: seq<byte>, pos: nat, tag: byte): (r: Read<Constant>)
    requires tag == 7 || tag == 8 || tag == 16 || tag == 19 || tag == 20
    ensures r.Done? <==> pos + 2 <= |data|
    ensures r.Done? ==> r.next == pos + 2 && r.value.Tag() == tag
    ensures r.Fail? ==> r.error == Truncated
  {
    var (i, p) :- ReadU16(data, pos);
    var c :=
      if tag == 7 then Class(i)
      else if tag == 8 then String(i)
      else if tag == 16 then MethodType(i)
      else if tag == 19 then Module(i)
      else Package(i);
    Done(c, p)
  }

  /** The payloads made of two pool indices: the three refs, NameAndType, Dynamic and InvokeDynamic. */
  function ReadPairConstant(data: seq<byte>, pos: nat, tag: byte): (r: Read<Constant>)
    requires 9 <= tag <= 12 || tag == 17 || tag == 18
    ensures r.Done? <==> pos + 4 <= |data|
    ensures r.Done? ==> r.next == pos + 4 && r.value.Tag() == tag
    ensures r.Fail? ==> r.error == Truncated
  {
    var ((a, b), p) :- ReadU16Pair(data, pos);
    var c :=
      if tag == 9 then FieldRef(a, b)
      else if tag == 10 then MethodRef(a, b)
      else if tag == 11 then InterfaceMethodRef(a, b)
      else if tag == 12 then NameAndType(a, b)
      else if tag == 17 then Dynamic(a, b)
      else InvokeDynamic(a, b);
    Done(c, p)
  }

  /** A MethodHandle payload: a reference-kind byte, then a pool index. */
  function ReadMethodHandle(data: seq<byte>, pos: nat): (r: Read<Constant>)
    ensures r.Done? <==> pos + 3 <= |data|
    ensures r.Done? ==> r.next == pos + 3 && r.value == MethodHandle(data[pos], ReadU16(data, pos + 1).value)
    ensures r.Fail? ==> r.error == Truncated
  {
    var (kind, p1) :- ReadU8(data, pos);
    var (i, p2) :- ReadU16(data, p1);
    Done(MethodHandle(kind, i), p2)
  }

  /**
    The payload of one entry whose tag byte has already been read: the
    `when (tag)` of `readConstantPool`. An unknown tag fails before any
    payload byte is read; a known one fails only when the input runs out.
  */
  function ReadConstant(data: seq<byte>, pos: nat, tag: byte): (r: Read<Constant>)
    ensures !KnownTag(tag) ==> r == Fail(InvalidConstantTag(tag))
    ensures KnownTag(tag) && r.Fail? ==> r.error == Truncated
    ensures r.Done? <==> KnownTag(tag) && pos + PayloadWidth(data, pos, tag) <= |data|
    ensures r.Done? ==> r.next == pos + PayloadWidth(data, pos, tag)
    ensures r.Done? ==> r.value.Tag() == tag && r.value.WellFormed()
  {
    if tag == 1 then ReadUtf8(data, pos)
    else if 3 <= tag <= 6 then ReadNumber(data, pos, tag)
    else if tag == 7 || tag == 8 || tag == 16 || tag == 19 || tag == 20 then ReadIndexConstant(data, pos, tag)
    else if 9 <= tag <= 12 || tag == 17 || tag == 18 then ReadPairConstant(data, pos, tag)
    else if tag == 15 then ReadMethodHandle(data, pos)
    else Fail(InvalidConstantTag(tag))
  }

  /** One entry: its tag byte, then the payload that tag calls for. */
  function ReadEntry(data: seq<byte>, pos: nat): (r: Read<Constant>)
    ensures r.Done? ==> r.value.WellFormed() && pos < r.next <= |data|
  {
    var (tag, p) :- ReadU8(data, pos);
    ReadConstant(data, p, tag)
  }

  /**
    Slots `i` up to `count` of the pool, read from `pos` and appended to
    `pool`: the loop of `readConstantPool` as a recursive function. A Long
    or Double adds a placeholder and skips a slot, so the walk can step
    from `count - 1` to `count + 1`.
  */
  function ReadEntries(data: seq<byte>, pos: nat, count: nat, i: nat, pool: seq<Constant>): (r: Read<seq<Constant>>)
    ensures r.Done? ==> pos <= r.next && (pos <= |data| ==> r.next <= |data|)
    decreases count - i
  {
    if i >= count then
      Done(pool, pos)
    else
      var (c, p) :- ReadEntry(data, pos);
      if WideTag(c.Tag()) then
        ReadEntries(data, p, count, i + 2, pool + [c, PLACEHOLDER])
      else
        ReadEntries(data, p, count, i + 1, pool + [c])
  }

  /** `readConstantPool`: the count, then the entries from slot 1 on. */
  function ReadPool(data: seq<byte>, pos: nat): (r: Read<seq<Constant>>)
    ensures r.Done? ==> pos + 2 <= r.next <= |data|
  {
    var (count, p) :- ReadU16(data, pos);
    ReadEntries(data, p, count, 1, [PLACEHOLDER])
  }

  // ---------------------------------------------------------------------------
  // The shape of a decoded pool

  /**
    Slot 0 is the placeholder; a slot holds the placeholder exactly when it
    follows a Long or Double; every other slot is an entry the decoder can
    produce; and the pool does not end in a Long or Double.
  */
  predicate PoolShaped(pool: seq<Constant>)
  {
    && |pool| >= 1
    && pool[0] == PLACEHOLDER
    && (forall k :: 1 <= k < |pool| ==> (pool[k] == PLACEHOLDER <==> pool[k - 1].IsWide()))
    && (forall k :: 1 <= k < |pool| && pool[k] != PLACEHOLDER ==> pool[k].WellFormed())
    && !pool[|pool| - 1].IsWide()
  }

  /**
    The pool has `count` slots (one when `count` is 0), or `count + 1` when
    the entry in the last declared slot is a Long or Double.
  */
  predicate PoolFits(pool: seq<Constant>, count: nat)
  {
    || |pool| == (if count == 0 then 1 else count)
    || (count >= 2 && |pool| == count + 1 && pool[count - 1].IsWide())
  }

  /** A decoded entry is wide exactly when its tag says so, and is never the placeholder. */
  lemma DecodedEntry(c: Constant)
    requires c.WellFormed()
    ensures c.IsWide() <==> WideTag(c.Tag())
    ensures c != PLACEHOLDER
  {
  }

  lemma ShapedAppendWide(pool: seq<Constant>, c: Constant)
    requires PoolShaped(pool) && c.IsWide()
    ensures PoolShaped(pool + [c, PLACEHOLDER])
  {
    var pool' := pool + [c, PLACEHOLDER];
    forall k | 1 <= k < |pool'|
      ensures pool'[k] == PLACEHOLDER <==> pool'[k - 1].IsWide()
    {
      if k < |pool| {
        assert pool'[k] == pool[k] && pool'[k - 1] == pool[k - 1];
      }
    }
  }

  lemma ShapedAppendNarrow(pool: seq<Constant>, c: Constant)
    requires PoolShaped(pool) && c.WellFormed() && !c.IsWide()
    ensures PoolShaped(pool + [c])
  {
    DecodedEntry(c);
    var pool' := pool + [c];
    forall k | 1 <= k < |pool'|
      ensures pool'[k] == PLACEHOLDER <==> pool'[k - 1].IsWide()
    {
      if k < |pool| {
        assert pool'[k] == pool[k] && pool'[k - 1] == pool[k - 1];
      }
    }
  }

  /** A pool of `i` slots stays shaped and ends as `PoolFits` says. */
  lemma {:induction false} ReadEntriesShape(data: seq<byte>, pos: nat, count: nat, i: nat, pool: seq<Constant>)
    requires PoolShaped(pool) && |pool| == i && 1 <= i
    requires i <= count || (i == 1 && count == 0) || (count >= 1 && i == count + 1 && pool[count - 1].IsWide())
    ensures ReadEntries(data, pos, count, i, pool).Done? ==>
      var r := ReadEntries(data, pos, count, i, pool);
      PoolShaped(r.value) && PoolFits(r.value, count)
    decreases count - i
  {
    if i < count {
      var e := ReadEntry(data, pos);
      if e.Done? {
        DecodedEntry(e.value);
        if WideTag(e.value.Tag()) {
          var pool' := pool + [e.value, PLACEHOLDER];
          ShapedAppendWide(pool, e.value);
          assert pool'[i] == e.value;
          ReadEntriesShape(data, e.next, count, i + 2, pool');
        } else {
          var pool' := pool + [e.value];
          ShapedAppendNarrow(pool, e.value);
          ReadEntriesShape(data, e.next, count, i + 1, pool');
        }
      }
    }
  }

  /** Every decoded pool is shaped, and fits the count it was read with. */
  lemma ReadPoolShape(data: seq<byte>, pos: nat)
    ensures ReadPool(data, pos).Done? ==>
      PoolShaped(ReadPool(data, pos).value)
      && PoolFits(ReadPool(data, pos).value, BigEndian(data[pos..pos + 2]))
  {
    var c := ReadU16(data, pos);
    if c.Done? {
      ReadEntriesShape(data, c.next, c.value, 1, [PLACEHOLDER]);
    }
  }

  /**
    `readConstantPool` as the decoder runs it: a `while` loop over the slot
    index `i`, appending to a growing list. The list always has exactly `i`
    slots.
  */
  method ReadConstantPool(data: seq<byte>, pos: nat) returns (r: Read<seq<Constant>>)
    ensures r == ReadPool(data, pos)
    ensures r.Done? ==> PoolShaped(r.value) && PoolFits(r.value, BigEndian(data[pos..pos + 2]))
  {
    var countRead := ReadU16(data, pos);
    if countRead.Fail? {
      return Fail(countRead.error);
    }
    var count: nat := countRead.value;
    var p := countRead.next;
    var pool := [PLACEHOLDER];
    var i: nat := 1;
    while i < count
      invariant |pool| == i && 1 <= i
      invariant i <= count || (i == 1 && count == 0) || (count >= 1 && i == count + 1 && pool[count - 1].IsWide())
      invariant PoolShaped(pool)
      invariant ReadEntries(data, p, count, i, pool) == ReadPool(data, pos)
      decreases count - i
    {
      var tagRead := ReadU8(data, p);
      if tagRead.Fail? {
        return Fail(tagRead.error);
      }
      var tag := tagRead.value;
      var entryRead := ReadConstant(data, tagRead.next, tag);
      if entryRead.Fail? {
        return Fail(entryRead.error);
      }
      var c := entryRead.value;
      DecodedEntry(c);
      p := entryRead.next;
      if WideTag(tag) {
        ShapedAppendWide(pool, c);
        pool := pool + [c, PLACEHOLDER];
        i := i + 2;
      } else {
        ShapedAppendNarrow(pool, c);
        pool := pool + [c];
        i := i + 1;
      }
    }
    r := Done(pool, p);
  }

  // ---------------------------------------------------------------------------
  // Encoding: the writer-side partner of the reader

  /** The payload bytes of an entry, as they follow its tag byte. */
  function EncodeConstant(c: Constant): seq<byte>
  {
    match c
    case Utf8(_, bytes) => BigEndianBytes(|bytes|, 2) + bytes
    case Integer(v) => BigEndianBytes(v % 0x1_0000_0000, 4)
    case Float(bits) => BigEndianBytes(bits, 4)
    case Long(v) => BigEndianBytes(v % 0x1_0000_0000_0000_0000, 8)
    case Double(bits) => BigEndianBytes(bits, 8)
    case Class(i) => BigEndianBytes(i, 2)
    case String(i) => BigEndianBytes(i, 2)
    case FieldRef(a, b) => BigEndianBytes(a, 2) + BigEndianBytes(b, 2)
    case MethodRef(a, b) => BigEndianBytes(a, 2) + BigEndianBytes(b, 2)
    case InterfaceMethodRef(a, b) => BigEndianBytes(a, 2) + BigEndianBytes(b, 2)
    case NameAndType(a, b) => BigEndianBytes(a, 2) + BigEndianBytes(b, 2)
    case MethodHandle(kind, i) => [kind] + BigEndianBytes(i, 2)
    case MethodType(i) => BigEndianBytes(i, 2)
    case Dynamic(a, b) => BigEndianBytes(a, 2) + BigEndianBytes(b, 2)
    case InvokeDynamic(a, b) => BigEndianBytes(a, 2) + BigEndianBytes(b, 2)
    case Module(i) => BigEndianBytes(i, 2)
    case Package(i) => BigEndianBytes(i, 2)
  }

  /** An entry with its tag byte in front. */
  function EncodeEntry(c: Constant): seq<byte>
  {
    [c.Tag()] + EncodeConstant(c)
  }

  /** The slots one entry fills: a Long or Double is followed by a placeholder. */
  function SlotsOf(c: Constant): seq<Constant>
  {
    if c.IsWide() then [c, PLACEHOLDER] else [c]
  }

  /** The slots a list of entries fills. */
  function Slots(cs: seq<Constant>): seq<Constant>
  {
    if cs == [] then [] else SlotsOf(cs[0]) + Slots(cs[1..])
  }

  function EncodeEntries(cs: seq<Constant>): seq<byte>
  {
    if cs == [] then [] else EncodeEntry(cs[0]) + EncodeEntries(cs[1..])
  }

  /** A whole pool: its slot count (slot 0 included), then its entries. */
  function EncodePool(cs: seq<Constant>): seq<byte>
  {
    BigEndianBytes(1 + |Slots(cs)|, 2) + EncodeEntries(cs)
  }

  /** Reading a 32-bit two's-complement value back from its low 32 bits. */
  lemma ToInt32OfBits(v: i32)
    ensures 0 <= v % 0x1_0000_0000 < 0x1_0000_0000
    ensures ToInt32(v % 0x1_0000_0000) == v
  {
  }

  lemma ToInt64OfBits(v: i64)
    ensures 0 <= v % 0x1_0000_0000_0000_0000 < 0x1_0000_0000_0000_0000
    ensures ToInt64(v % 0x1_0000_0000_0000_0000) == v
  {
  }

  lemma ReadU16PairOfEncoding(data: seq<byte>, pos: nat, a: u16, b: u16)
    requires BytesAt(data, pos, BigEndianBytes(a, 2) + BigEndianBytes(b, 2))
    ensures ReadU16Pair(data, pos) == Done((a, b), pos + 4)
  {
    BytesAtConcat(data, pos, BigEndianBytes(a, 2), BigEndianBytes(b, 2));
    ReadU16OfEncoding(data, pos, a);
    ReadU16OfEncoding(data, pos + 2, b);
  }

  lemma ReadUtf8OfEncoding(data: seq<byte>, pos: nat, c: Constant)
    requires c.Utf8? && c.WellFormed() && BytesAt(data, pos, EncodeConstant(c))
    ensures ReadUtf8(data, pos) == Done(c, pos + |EncodeConstant(c)|)
  {
    BytesAtConcat(data, pos, BigEndianBytes(|c.bytes|, 2), c.bytes);
    ReadU16OfEncoding(data, pos, |c.bytes|);
  }

  lemma ReadNumberOfEncoding(data: seq<byte>, pos: nat, c: Constant)
    requires (c.Integer? || c.Float? || c.Long? || c.Double?) && BytesAt(data, pos, EncodeConstant(c))
    ensures 3 <= c.Tag() <= 6
    ensures ReadNumber(data, pos, c.Tag()) == Done(c, pos + |EncodeConstant(c)|)
  {
    match c
    case Integer(v) =>
      ToInt32OfBits(v);
      ReadU32OfEncoding(data, pos, v % 0x1_0000_0000);
    case Float(bits) =>
      ReadU32OfEncoding(data, pos, bits);
    case Long(v) =>
      ToInt64OfBits(v);
      ReadU64OfEncoding(data, pos, v % 0x1_0000_0000_0000_0000);
    case Double(bits) =>
      ReadU64OfEncoding(data, pos, bits);
  }

  lemma ReadIndexConstantOfEncoding(data: seq<byte>, pos: nat, c: Constant)
    requires c.Class? || c.String? || c.MethodType? || c.Module? || c.Package?
    requires BytesAt(data, pos, EncodeConstant(c))
    ensures c.Tag() == 7 || c.Tag() == 8 || c.Tag() == 16 || c.Tag() == 19 || c.Tag() == 20
    ensures ReadIndexConstant(data, pos, c.Tag()) == Done(c, pos + |EncodeConstant(c)|)
  {
    match c
    case Class(i) => ReadU16OfEncoding(data, pos, i);
    case String(i) => ReadU16OfEncoding(data, pos, i);
    case MethodType(i) => ReadU16OfEncoding(data, pos, i);
    case Module(i) => ReadU16OfEncoding(data, pos, i);
    case Package(i) => ReadU16OfEncoding(data, pos, i);
  }

  lemma ReadPairConstantOfEncoding(data: seq<byte>, pos: nat, c: Constant)
    requires c.FieldRef? || c.MethodRef? || c.InterfaceMethodRef? || c.NameAndType? || c.Dynamic? || c.InvokeDynamic?
    requires BytesAt(data, pos, EncodeConstant(c))
    ensures 9 <= c.Tag() <= 12 || c.Tag() == 17 || c.Tag() == 18
    ensures ReadPairConstant(data, pos, c.Tag()) == Done(c, pos + |EncodeConstant(c)|)
  {
    match c
    case FieldRef(a, b) => ReadU16PairOfEncoding(data, pos, a, b);
    case MethodRef(a, b) => ReadU16PairOfEncoding(data, pos, a, b);
    case InterfaceMethodRef(a, b) => ReadU16PairOfEncoding(data, pos, a, b);
    case NameAndType(a, b) => ReadU16PairOfEncoding(data, pos, a, b);
    case Dynamic(a, b) => ReadU16PairOfEncoding(data, pos, a, b);
    case InvokeDynamic(a, b) => ReadU16PairOfEncoding(data, pos, a, b);
  }

  lemma ReadMethodHandleOfEncoding(data: seq<byte>, pos: nat, c: Constant)
    requires c.MethodHandle? && BytesAt(data, pos, EncodeConstant(c))
    ensures ReadMethodHandle(data, pos) == Done(c, pos + |EncodeConstant(c)|)
  {
    BytesAtConcat(data, pos, [c.kind], BigEndianBytes(c.referenceIndex, 2));
    assert data[pos] == data[pos..pos + 1][0] == c.kind;
    ReadU16OfEncoding(data, pos + 1, c.referenceIndex);
  }

  /**
    Round trip of one entry: wherever the payload of a well-formed entry
    occurs, reading it with the entry's tag gives the entry back and stops
    right after those bytes.
  */
  lemma ReadConstantOfEncoding(data: seq<byte>, pos: nat, c: Constant)
    requires c.WellFormed() && BytesAt(data, pos, EncodeConstant(c))
    ensures ReadConstant(data, pos, c.Tag()) == Done(c, pos + |EncodeConstant(c)|)
  {
    if c.Utf8? {
      ReadUtf8OfEncoding(data, pos, c);
    } else if c.Integer? || c.Float? || c.Long? || c.Double? {
      ReadNumberOfEncoding(data, pos, c);
    } else if c.Class? || c.String? || c.MethodType? || c.Module? || c.Package? {
      ReadIndexConstantOfEncoding(data, pos, c);
    } else if c.MethodHandle? {
      ReadMethodHandleOfEncoding(data, pos, c);
    } else {
      ReadPairConstantOfEncoding(data, pos, c);
    }
  }

  /** All the entries of a list are well formed. */
  predicate AllWellFormed(cs: seq<Constant>)
  {
    forall c :: c in cs ==> c.WellFormed()
  }

  /** Round trip of one entry with its tag. */
  lemma ReadEntryOfEncoding(data: seq<byte>, pos: nat, c: Constant)
    requires c.WellFormed() && BytesAt(data, pos, EncodeEntry(c))
    ensures ReadEntry(data, pos) == Done(c, pos + |EncodeEntry(c)|)
  {
    BytesAtConcat(data, pos, [c.Tag()], EncodeConstant(c));
    assert data[pos] == data[pos..pos + 1][0] == c.Tag();
    ReadConstantOfEncoding(data, pos + 1, c);
  }

  /** One step of the pool walk: a decoded entry appends the slots it fills. */
  lemma ReadEntriesUnfold(data: seq<byte>, pos: nat, count: nat, pool: seq<Constant>, c: Constant, next: nat)
    requires |pool| < count && ReadEntry(data, pos) == Done(c, next)
    ensures ReadEntries(data, pos, count, |pool|, pool)
         == ReadEntries(data, next, count, |pool + SlotsOf(c)|, pool + SlotsOf(c))
  {
    DecodedEntry(c);
  }

  /** The encoding of a non-empty list is its head's encoding followed by its tail's. */
  lemma EncodedEntriesCons(data: seq<byte>, pos: nat, cs: seq<Constant>)
    requires cs != [] && BytesAt(data, pos, EncodeEntries(cs))
    ensures BytesAt(data, pos, EncodeEntry(cs[0]))
    ensures BytesAt(data, pos + |EncodeEntry(cs[0])|, EncodeEntries(cs[1..]))
    ensures |EncodeEntries(cs)| == |EncodeEntry(cs[0])| + |EncodeEntries(cs[1..])|
  {
    BytesAtConcat(data, pos, EncodeEntry(cs[0]), EncodeEntries(cs[1..]));
  }

  lemma SlotsCons(pool: seq<Constant>, cs: seq<Constant>)
    requires cs != []
    ensures |Slots(cs)| == |SlotsOf(cs[0])| + |Slots(cs[1..])|
    ensures pool + Slots(cs) == pool + SlotsOf(cs[0]) + Slots(cs[1..])
  {
    var head, tail := SlotsOf(cs[0]), Slots(cs[1..]);
    assert Slots(cs) == head + tail;
    assert pool + (head + tail) == pool + head + tail;
  }

  lemma {:induction false} ReadEntriesOfEncoding(
    data: seq<byte>, pos: nat, count: nat, pool: seq<Constant>, cs: seq<Constant>)
    requires AllWellFormed(cs) && |pool| + |Slots(cs)| == count
    requires BytesAt(data, pos, EncodeEntries(cs))
    ensures ReadEntries(data, pos, count, |pool|, pool) == Done(pool + Slots(cs), pos + |EncodeEntries(cs)|)
    decreases cs
  {
    if cs == [] {
      assert pool + Slots(cs) == pool;
    } else {
      var c, rest := cs[0], cs[1..];
      var next, pool' := pos + |EncodeEntry(c)|, pool + SlotsOf(c);
      EncodedEntriesCons(data, pos, cs);
      SlotsCons(pool, cs);
      assert c in cs && forall d :: d in rest ==> d in cs;
      ReadEntryOfEncoding(data, pos, c);
      ReadEntriesUnfold(data, pos, count, pool, c, next);
      ReadEntriesOfEncoding(data, next, count, pool', rest);
      assert pool' + Slots(rest) == pool + Slots(cs);
      assert next + |EncodeEntries(rest)| == pos + |EncodeEntries(cs)|;
    }
  }

  /**
    Round trip of a pool: a list of well-formed entries, written with the
    slot count it needs, reads back as slot 0's placeholder followed by the
    entries, each Long and Double followed by its placeholder.
  */
  lemma ReadPoolOfEncoding(data: seq<byte>, pos: nat, cs: seq<Constant>)
    requires AllWellFormed(cs)
    requires 1 + |Slots(cs)| < 0x1_0000
    requires BytesAt(data, pos, EncodePool(cs))
    ensures ReadPool(data, pos) == Done([PLACEHOLDER] + Slots(cs), pos + |EncodePool(cs)|)
  {
    BytesAtConcat(data, pos, BigEndianBytes(1 + |Slots(cs)|, 2), EncodeEntries(cs));
    ReadU16OfEncoding(data, pos, 1 + |Slots(cs)|);
    ReadEntriesOfEncoding(data, pos + 2, 1 + |Slots(cs)|, [PLACEHOLDER], cs);
  }
}
