/**
  Attributes (section 4.7 of the Java Virtual Machine Specification, Java
  SE 21 edition): a u2 name index into the constant pool, a u4 size, then
  a body whose layout depends on the name.

  The decoder recognises six names: ConstantValue, Code, Exceptions,
  Synthetic, Signature and SourceFile. Any other name, including the empty
  name of a placeholder slot, gives an `Unknown` attribute that keeps the
  body bytes as they are. Names are compared as bytes: every recognised
  name is ASCII, so that comparison agrees with comparing decoded text.
*/
module Attributes {
  import opened ByteReader
  import opened ConstantPool

  /** One row of a Code attribute's exception table. */
  datatype ExceptionEntry = ExceptionEntry(startPc: u16, endPc: u16, handlerPc: u16, catchType: u16)

  datatype Attribute =
    | Unknown(nameIndex: u16, info: seq<byte>)
    | ConstantValue(nameIndex: u16, constantValueIndex: u16)
    | Code(nameIndex: u16, maxStack: u16, maxLocals: u16, code: seq<byte>,
           exceptionTable: seq<ExceptionEntry>, attributes: seq<Attribute>)
    | Exceptions(nameIndex: u16, exceptionIndexTable: seq<u16>)
    | Synthetic(nameIndex: u16)
    | Signature(nameIndex: u16, signatureIndex: u16)
    | SourceFile(nameIndex: u16, sourceFileIndex: u16)

  /** The bytes of an ASCII string. */
  function Ascii(s: string): (r: seq<byte>)
    requires forall i :: 0 <= i < |s| ==> s[i] as int < 0x80
    ensures |r| == |s|
  {
    seq(|s|, i requires 0 <= i < |s| => s[i] as int)
  }

  const CONSTANT_VALUE: seq<byte> := Ascii("ConstantValue")
  const CODE: seq<byte> := Ascii("Code")
  const EXCEPTIONS: seq<byte> := Ascii("Exceptions")
  const SYNTHETIC: seq<byte> := Ascii("Synthetic")
  const SIGNATURE: seq<byte> := Ascii("Signature")
  const SOURCE_FILE: seq<byte> := Ascii("SourceFile")

  /** The six recognised names are pairwise different, so at most one branch applies. */
  lemma NamesDistinct()
    ensures CONSTANT_VALUE != CODE && CONSTANT_VALUE != EXCEPTIONS && CONSTANT_VALUE != SYNTHETIC
    ensures CONSTANT_VALUE != SIGNATURE && CONSTANT_VALUE != SOURCE_FILE
    ensures CODE != EXCEPTIONS && CODE != SYNTHETIC && CODE != SIGNATURE && CODE != SOURCE_FILE
    ensures EXCEPTIONS != SYNTHETIC && EXCEPTIONS != SIGNATURE && EXCEPTIONS != SOURCE_FILE
    ensures SYNTHETIC != SIGNATURE && SYNTHETIC != SOURCE_FILE && SIGNATURE != SOURCE_FILE
  {
    assert |CONSTANT_VALUE| == 13 && |CODE| == 4 && |EXCEPTIONS| == 10;
    assert |SYNTHETIC| == 9 && |SIGNATURE| == 9 && |SOURCE_FILE| == 10;
    assert SYNTHETIC[1] != SIGNATURE[1];
    assert EXCEPTIONS[0] != SOURCE_FILE[0];
  }

  /** The names the decoder dispatches on. */
  predicate KnownName(name: seq<byte>)
  {
    name == CONSTANT_VALUE || name == CODE || name == EXCEPTIONS
    || name == SYNTHETIC || name == SIGNATURE || name == SOURCE_FILE
  }

  /** `n` consecutive u2 values. */
  function ReadU16s(data: seq<byte>, pos: nat, n: nat): (r: Read<seq<u16>>)
    ensures r.Done? <==> n == 0 || pos + 2 * n <= |data|
    ensures r.Done? ==> r.next == pos + 2 * n && |r.value| == n
    ensures r.Done? ==> forall k :: 0 <= k < n ==> r.value[k] == BigEndian(data[pos + 2 * k..pos + 2 * k + 2])
    ensures r.Fail? ==> r.error == Truncated
    decreases n
  {
    if n == 0 then
      Done([], pos)
    else
      var (v, p) :- ReadU16(data, pos);
      var (rest, q) :- ReadU16s(data, p, n - 1);
      Done([v] + rest, q)
  }

  /** `e` is the row whose four u2 values are stored at `pos`. */
  predicate RowAt(data: seq<byte>, pos: nat, e: ExceptionEntry)
  {
    && pos + 8 <= |data|
    && e.startPc == BigEndian(data[pos..pos + 2])
    && e.endPc == BigEndian(data[pos + 2..pos + 4])
    && e.handlerPc == BigEndian(data[pos + 4..pos + 6])
    && e.catchType == BigEndian(data[pos + 6..pos + 8])
  }

  /** One exception-table row: four u2 values in the order start, end, handler, catch type. */
  function ReadExceptionEntry(data: seq<byte>, pos: nat): (r: Read<ExceptionEntry>)
    ensures r.Done? <==> pos + 8 <= |data|
    ensures r.Done? ==> r.next == pos + 8
    ensures r.Done? ==> RowAt(data, pos, r.value)
    ensures r.Fail? ==> r.error == Truncated
  {
    var (startPc, p1) :- ReadU16(data, pos);
    var (endPc, p2) :- ReadU16(data, p1);
    var (handlerPc, p3) :- ReadU16(data, p2);
    var (catchType, p4) :- ReadU16(data, p3);
    Done(ExceptionEntry(startPc, endPc, handlerPc, catchType), p4)
  }

  /** `n` exception-table rows of 8 bytes each, in file order. */
  function ReadExceptionTable(data: seq<byte>, pos: nat, n: nat): (r: Read<seq<ExceptionEntry>>)
    ensures r.Done? <==> n == 0 || pos + 8 * n <= |data|
    ensures r.Done? ==> r.next == pos + 8 * n && |r.value| == n
    ensures r.Done? ==> forall k :: 0 <= k < n ==> RowAt(data, pos + 8 * k, r.value[k])
    ensures r.Fail? ==> r.error == Truncated
    decreases n
  {
    if n == 0 then
      Done([], pos)
    else
      var (e, p) :- ReadExceptionEntry(data, pos);
      var (rest, q) :- ReadExceptionTable(data, p, n - 1);
      Done([e] + rest, q)
  }

  /**
    `readAttribute`. The name index and the size are read first; then the
    name is looked up, which fails when the index is past the end of the
    pool or the slot is not a Utf8 entry. The size, a u4 read as a signed
    32-bit `Int`, is checked only by the fixed-shape attributes and used
    only by `Unknown`.
  */
  function ReadAttribute(pool: seq<Constant>, data: seq<byte>, pos: nat): (r: Read<Attribute>)
    ensures r.Done? ==> pos + 6 <= r.next <= |data|
    ensures r.Done? ==> r.value.nameIndex == BigEndian(data[pos..pos + 2])
    ensures r.Done? ==> r.value.nameIndex < |pool| && pool[r.value.nameIndex].Utf8?
    decreases |data| - pos, 1, 0
  {
    var (nameIndex, p1) :- ReadU16(data, pos);
    var (rawSize, p2) :- ReadU32(data, p1);
    var size := ToInt32(rawSize);
    if nameIndex >= |pool| then
      Fail(IndexOutOfBounds(nameIndex))
    else if !pool[nameIndex].Utf8? then
      Fail(NotUtf8(nameIndex))
    else
      var name := pool[nameIndex].bytes;
      if name == CONSTANT_VALUE then
        var (index, p3) :- ReadU16(data, p2);
        if size != 2 then Fail(SizeMismatch) else Done(ConstantValue(nameIndex, index), p3)
      else if name == CODE then
        ReadCode(pool, data, p2, nameIndex)
      else if name == EXCEPTIONS then
        var (n, p3) :- ReadU16(data, p2);
        var (table, p4) :- ReadU16s(data, p3, n);
        Done(Exceptions(nameIndex, table), p4)
      else if name == SYNTHETIC then
        if size != 0 then Fail(SizeMismatch) else Done(Synthetic(nameIndex), p2)
      else if name == SIGNATURE then
        var (index, p3) :- ReadU16(data, p2);
        if size != 2 then Fail(SizeMismatch) else Done(Signature(nameIndex, index), p3)
      else if name == SOURCE_FILE then
        var (index, p3) :- ReadU16(data, p2);
        if size != 2 then Fail(SizeMismatch) else Done(SourceFile(nameIndex, index), p3)
      else if size < 0 then
        Fail(NegativeArraySize(size))
      else
        var (info, p3) :- ReadBytes(data, p2, size);
        Done(Unknown(nameIndex, info), p3)
  }

  /**
    The body of a Code attribute, from just after its size field:
    maxStack, maxLocals, a u4 code length and that many bytes, then the
    exception table and the nested attributes.
  */
  function ReadCode(pool: seq<Constant>, data: seq<byte>, pos: nat, nameIndex: u16): (r: Read<Attribute>)
    ensures r.Done? ==> pos + 12 <= r.next <= |data|
    ensures r.Done? ==> r.value.Code? && r.value.nameIndex == nameIndex
    decreases |data| - pos, 0, 1
  {
    if pos + 8 > |data| then Fail(Truncated) else
    var maxStack, maxLocals := ReadU16(data, pos).value, ReadU16(data, pos + 2).value;
    var length := ToInt32(ReadU32(data, pos + 4).value);
    if length < 0 then Fail(NegativeArraySize(length)) else
    var code := ReadBytes(data, pos + 8, length);
    if code.Fail? then Fail(code.error) else
    var tables := ReadCodeTables(pool, data, code.next);
    if tables.Fail? then Fail(tables.error) else
    var (table, attributes) := tables.value;
    Done(Code(nameIndex, maxStack, maxLocals, code.value, table, attributes), tables.next)
  }

  /**
    The end of a Code body: a u2 row count and the exception table, then a
    u2 count and the nested attributes.
  */
  function ReadCodeTables(pool: seq<Constant>, data: seq<byte>, pos: nat)
    : (r: Read<(seq<ExceptionEntry>, seq<Attribute>)>)
    ensures r.Done? ==> pos + 4 <= r.next <= |data|
    decreases |data| - pos, 0, 0
  {
    var n := ReadU16(data, pos);
    if n.Fail? then Fail(n.error) else
    var table := ReadExceptionTable(data, pos + 2, n.value);
    if table.Fail? then Fail(table.error) else
    var m := ReadU16(data, table.next);
    if m.Fail? then Fail(m.error) else
    var attributes := ReadAttributes(pool, data, m.next, m.value);
    if attributes.Fail? then Fail(attributes.error) else
    Done((table.value, attributes.value), attributes.next)
  }

  /** `(0 ..< n).map { readAttribute(constantPool, reader) }`: `n` attributes in file order. */
  function ReadAttributes(pool: seq<Constant>, data: seq<byte>, pos: nat, n: nat): (r: Read<seq<Attribute>>)
    ensures r.Done? ==> |r.value| == n && pos <= r.next && (pos <= |data| ==> r.next <= |data|)
    decreases |data| - pos, 2, n
  {
    if n == 0 then
      Done([], pos)
    else
      var (a, p) :- ReadAttribute(pool, data, pos);
      var (rest, q) :- ReadAttributes(pool, data, p, n - 1);
      Done([a] + rest, q)
  }

  // ---------------------------------------------------------------------------
  // What `readAttribute` does, case by case

  /** The u2 name index at the head of an attribute. */
  function NameIndexAt(data: seq<byte>, pos: nat): u16
    requires pos + 2 <= |data|
  {
    ReadU16(data, pos).value
  }

  /** The u4 size after the name index, as the signed 32-bit `Int` that `toInt()` gives. */
  function SizeAt(data: seq<byte>, pos: nat): i32
    requires pos + 6 <= |data|
  {
    ToInt32(ReadU32(data, pos + 2).value)
  }

  /** The attribute at `pos` is named by a Utf8 slot of the pool holding `name`. */
  predicate NamedBy(pool: seq<Constant>, data: seq<byte>, pos: nat, name: seq<byte>)
    requires pos + 2 <= |data|
  {
    NameIndexAt(data, pos) < |pool| && pool[NameIndexAt(data, pos)].Utf8?
    && pool[NameIndexAt(data, pos)].bytes == name
  }

  /**
    The header and the name lookup: fewer than six bytes fail as truncated;
    otherwise an index past the end of the pool, or a slot that is not a
    Utf8 entry, fails before any byte of the body is read.
  */
  lemma AttributeNameLookup(pool: seq<Constant>, data: seq<byte>, pos: nat)
    ensures pos + 6 > |data| ==> ReadAttribute(pool, data, pos) == Fail(Truncated)
    ensures pos + 6 <= |data| && NameIndexAt(data, pos) >= |pool|
      ==> ReadAttribute(pool, data, pos) == Fail(IndexOutOfBounds(NameIndexAt(data, pos)))
    ensures pos + 6 <= |data| && NameIndexAt(data, pos) < |pool| && !pool[NameIndexAt(data, pos)].Utf8?
      ==> ReadAttribute(pool, data, pos) == Fail(NotUtf8(NameIndexAt(data, pos)))
  {
  }

  /**
    Any other name keeps the body as raw bytes: a negative size fails, and
    otherwise the attribute takes exactly the `size` bytes after its header,
    or fails as truncated when fewer are left.
  */
  lemma UnknownAttribute(pool: seq<Constant>, data: seq<byte>, pos: nat)
    requires pos + 6 <= |data|
    requires NameIndexAt(data, pos) < |pool| && pool[NameIndexAt(data, pos)].Utf8?
    requires !KnownName(pool[NameIndexAt(data, pos)].bytes)
    ensures var r, size := ReadAttribute(pool, data, pos), SizeAt(data, pos);
      && (size < 0 ==> r == Fail(NegativeArraySize(size)))
      && (0 <= size && pos + 6 + size <= |data|
          ==> r == Done(Unknown(NameIndexAt(data, pos), data[pos + 6..pos + 6 + size]), pos + 6 + size))
      && (0 <= size && pos + 6 + size > |data| ==> r == Fail(Truncated))
  {
    var name := pool[NameIndexAt(data, pos)].bytes;
    assert name != CONSTANT_VALUE && name != CODE && name != EXCEPTIONS;
    assert name != SYNTHETIC && name != SIGNATURE && name != SOURCE_FILE;
  }

  /** The placeholder of slot 0, or of the slot after a Long or Double, names an `Unknown` attribute. */
  lemma PlaceholderNamesUnknown(pool: seq<Constant>, data: seq<byte>, pos: nat)
    requires pos + 6 <= |data|
    requires NameIndexAt(data, pos) < |pool| && pool[NameIndexAt(data, pos)] == PLACEHOLDER
    ensures var r := ReadAttribute(pool, data, pos);
      r.Done? ==> r.value == Unknown(NameIndexAt(data, pos), data[pos + 6..r.next])
  {
    UnknownAttribute(pool, data, pos);
  }

  /**
    ConstantValue, Signature and SourceFile: the u2 body is read before the
    size is checked, so a short input fails as truncated whatever the size
    says; then the size must be 2, and the attribute takes 8 bytes.
  */
  lemma FixedShapeAttribute(pool: seq<Constant>, data: seq<byte>, pos: nat, name: seq<byte>)
    requires pos + 6 <= |data|
    requires name == CONSTANT_VALUE || name == SIGNATURE || name == SOURCE_FILE
    requires NamedBy(pool, data, pos, name)
    ensures var r := ReadAttribute(pool, data, pos);
      && (pos + 8 > |data| ==> r == Fail(Truncated))
      && (pos + 8 <= |data| && SizeAt(data, pos) != 2 ==> r == Fail(SizeMismatch))
      && (pos + 8 <= |data| && SizeAt(data, pos) == 2 ==>
            var index, i := NameIndexAt(data, pos), ReadU16(data, pos + 6).value;
            && r.Done? && r.next == pos + 8
            && (name == CONSTANT_VALUE ==> r.value == ConstantValue(index, i))
            && (name == SIGNATURE ==> r.value == Signature(index, i))
            && (name == SOURCE_FILE ==> r.value == SourceFile(index, i)))
  {
    NamesDistinct();
  }

  /** Synthetic has no body: its size must be 0, and it takes the 6 header bytes only. */
  lemma SyntheticAttribute(pool: seq<Constant>, data: seq<byte>, pos: nat)
    requires pos + 6 <= |data| && NamedBy(pool, data, pos, SYNTHETIC)
    ensures var r := ReadAttribute(pool, data, pos);
      && (SizeAt(data, pos) != 0 ==> r == Fail(SizeMismatch))
      && (SizeAt(data, pos) == 0 ==> r == Done(Synthetic(NameIndexAt(data, pos)), pos + 6))
  {
    NamesDistinct();
  }

  /**
    Exceptions: a u2 count `n`, then `n` u2 class indices. The declared size
    plays no part: it appears nowhere in the outcome.
  */
  lemma ExceptionsAttribute(pool: seq<Constant>, data: seq<byte>, pos: nat)
    requires pos + 6 <= |data| && NamedBy(pool, data, pos, EXCEPTIONS)
    ensures var r := ReadAttribute(pool, data, pos);
      && (pos + 8 > |data| ==> r == Fail(Truncated))
      && (pos + 8 <= |data| ==>
            var n := ReadU16(data, pos + 6).value;
            && (pos + 8 + 2 * n <= |data| ==>
                  r == Done(Exceptions(NameIndexAt(data, pos), ReadU16s(data, pos + 8, n).value), pos + 8 + 2 * n))
            && (pos + 8 + 2 * n > |data| ==> r == Fail(Truncated)))
  {
    NamesDistinct();
  }

  /** Code: the body is read by `ReadCode` from just after the header; the declared size plays no part. */
  lemma CodeAttribute(pool: seq<Constant>, data: seq<byte>, pos: nat)
    requires pos + 6 <= |data| && NamedBy(pool, data, pos, CODE)
    ensures ReadAttribute(pool, data, pos) == ReadCode(pool, data, pos + 6, NameIndexAt(data, pos))
  {
    NamesDistinct();
  }

  /**
    The tables of a Code body: a u2 row count `n` and `n` rows of 8 bytes,
    then a u2 attribute count `m` and `m` attributes.
  */
  lemma CodeTablesLayout(pool: seq<Constant>, data: seq<byte>, pos: nat)
    requires ReadCodeTables(pool, data, pos).Done?
    ensures pos + 2 <= |data|
    ensures var r, n := ReadCodeTables(pool, data, pos), ReadU16(data, pos).value;
      && ReadExceptionTable(data, pos + 2, n) == Done(r.value.0, pos + 2 + 8 * n)
      && pos + 4 + 8 * n <= |data|
      && var m := ReadU16(data, pos + 2 + 8 * n).value;
      && ReadAttributes(pool, data, pos + 4 + 8 * n, m) == Done(r.value.1, r.next)
  {
  }

  /**
    A decoded Code body: maxStack, maxLocals, a u4 length below 2^31 and
    exactly that many code bytes, then the tables right after them.
  */
  lemma CodeLayout(pool: seq<Constant>, data: seq<byte>, pos: nat, nameIndex: u16)
    requires ReadCode(pool, data, pos, nameIndex).Done?
    ensures pos + 8 <= |data|
    ensures var r := ReadCode(pool, data, pos, nameIndex);
      && r.value.maxStack == ReadU16(data, pos).value
      && r.value.maxLocals == ReadU16(data, pos + 2).value
      && var length := ReadU32(data, pos + 4).value;
      && length < 0x8000_0000
      && pos + 8 + length <= |data|
      && r.value.code == data[pos + 8..pos + 8 + length]
  {
  }

  /** The tables of a decoded Code body start right after its code bytes. */
  lemma CodeTablesAt(pool: seq<Constant>, data: seq<byte>, pos: nat, nameIndex: u16)
    requires ReadCode(pool, data, pos, nameIndex).Done?
    ensures pos + 8 <= |data|
    ensures var r, length := ReadCode(pool, data, pos, nameIndex), ReadU32(data, pos + 4).value;
      ReadCodeTables(pool, data, pos + 8 + length) == Done((r.value.exceptionTable, r.value.attributes), r.next)
  {
  }

  /** A code length of 2^31 or more turns negative under `toInt()`, and the array cannot be made. */
  lemma CodeNegativeLength(pool: seq<Constant>, data: seq<byte>, pos: nat, nameIndex: u16)
    requires pos + 8 <= |data| && ReadU32(data, pos + 4).value >= 0x8000_0000
    ensures ReadCode(pool, data, pos, nameIndex) == Fail(NegativeArraySize(ToInt32(ReadU32(data, pos + 4).value)))
  {
  }

  // ---------------------------------------------------------------------------
  // Lists of attributes

  /** The attribute's name index addresses a Utf8 slot of the pool. */
  predicate NameResolves(pool: seq<Constant>, a: Attribute)
  {
    a.nameIndex < |pool| && pool[a.nameIndex].Utf8?
  }

  /** Every attribute of a decoded list was named by a Utf8 slot, so looking its name up again cannot fail. */
  lemma {:induction false} ReadAttributesResolve(pool: seq<Constant>, data: seq<byte>, pos: nat, n: nat)
    ensures var r := ReadAttributes(pool, data, pos, n);
      r.Done? ==> forall a :: a in r.value ==> NameResolves(pool, a)
    decreases n
  {
    if n > 0 {
      var first := ReadAttribute(pool, data, pos);
      if first.Done? {
        ReadAttributesResolve(pool, data, first.next, n - 1);
      }
    }
  }

  /**
    The attributes of a list sit back to back: the first is read at `pos`
    and the rest start exactly where it ends.
  */
  lemma ReadAttributesCons(pool: seq<Constant>, data: seq<byte>, pos: nat, n: nat)
    requires n > 0 && ReadAttributes(pool, data, pos, n).Done?
    ensures var r, first := ReadAttributes(pool, data, pos, n), ReadAttribute(pool, data, pos);
      && first.Done? && r.value[0] == first.value
      && ReadAttributes(pool, data, first.next, n - 1) == Done(r.value[1..], r.next)
  {
  }
}
