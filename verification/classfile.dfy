/**
  The top level of the decoder (section 4.1 of the Java Virtual Machine
  Specification, Java SE 21 edition): the magic number, the version, the
  constant pool, the class access flags, `this_class` and `super_class`,
  the interfaces, the fields, the methods and the class attributes, in
  that order.
*/
module Classfile {
  import opened ByteReader
  import opened ConstantPool
  import opened Attributes
  import opened AccessFlags

  datatype Field = Field(
    accessFlags: set<FieldAccess>,
    nameIndex: u16,
    descriptorIndex: u16,
    attributes: seq<Attribute>)

  datatype Method = Method(
    accessFlags: set<MethodAccess>,
    nameIndex: u16,
    descriptorIndex: u16,
    attributes: seq<Attribute>)

  datatype Classfile = Classfile(
    minorVersion: u16,
    majorVersion: u16,
    constantPool: seq<Constant>,
    accessFlags: set<ClassAccess>,
    thisClass: u16,
    superClass: u16,
    interfaces: seq<u16>,
    fields: seq<Field>,
    methods: seq<Method>,
    attributes: seq<Attribute>)

  /**
    What fields and methods share: the raw u2 flag word, the name and
    descriptor indices, and the attributes.
  */
  datatype MemberInfo = MemberInfo(flags: u16, nameIndex: u16, descriptorIndex: u16, attributes: seq<Attribute>)

  /** A u2 flag word as the 16 bits `fromMask` tests. */
  function Word(flags: u16): bv16
  {
    flags as bv16
  }

  const MAGIC: u32 := 0xCAFE_BABE
  const MAGIC_BYTES: seq<byte> := [0xCA, 0xFE, 0xBA, 0xBE]

  /** Every attribute of the list is named by a Utf8 slot of `pool`. */
  predicate AllResolve(pool: seq<Constant>, attributes: seq<Attribute>)
  {
    forall a :: a in attributes ==> NameResolves(pool, a)
  }

  /** The indices of a member that the decoder looks up are inside the pool, and so are its attribute names. */
  predicate MemberResolves(pool: seq<Constant>, nameIndex: u16, descriptorIndex: u16, attributes: seq<Attribute>)
  {
    nameIndex < |pool| && descriptorIndex < |pool| && AllResolve(pool, attributes)
  }

  /** Every pool lookup the decoder performs on a decoded class file succeeded. */
  predicate Resolves(c: Classfile)
  {
    && (forall f :: f in c.fields ==>
          MemberResolves(c.constantPool, f.nameIndex, f.descriptorIndex, f.attributes))
    && (forall m :: m in c.methods ==>
          MemberResolves(c.constantPool, m.nameIndex, m.descriptorIndex, m.attributes))
    && AllResolve(c.constantPool, c.attributes)
  }

  // ---------------------------------------------------------------------------
  // Fields and methods

  /**
    One field or method: flags, name index, descriptor index, a u2 count and
    that many attributes. Only once the whole member has been read are its
    name and descriptor looked up in the pool; an index past the end of the
    pool then fails, the name first.
  */
  function ReadMember(pool: seq<Constant>, data: seq<byte>, pos: nat): (r: Read<MemberInfo>)
    ensures r.Done? ==> pos + 8 <= r.next <= |data|
    ensures r.Done? ==> MemberResolves(pool, r.value.nameIndex, r.value.descriptorIndex, r.value.attributes)
    ensures r.Done? ==> r.value.flags == ReadU16(data, pos).value
  {
    var (flags, p1) :- ReadU16(data, pos);
    var (nameIndex, p2) :- ReadU16(data, p1);
    var (descriptorIndex, p3) :- ReadU16(data, p2);
    var (count, p4) :- ReadU16(data, p3);
    var (attributes, p5) :- ReadAttributes(pool, data, p4, count);
    ReadAttributesResolve(pool, data, p4, count);
    if nameIndex >= |pool| then
      Fail(IndexOutOfBounds(nameIndex))
    else if descriptorIndex >= |pool| then
      Fail(IndexOutOfBounds(descriptorIndex))
    else
      Done(MemberInfo(flags, nameIndex, descriptorIndex, attributes), p5)
  }

  /** A field: the member's flag word decoded by `FieldAccess.fromMask`. */
  function ReadField(pool: seq<Constant>, data: seq<byte>, pos: nat): (r: Read<Field>)
    ensures r.Done? ==> pos + 8 <= r.next <= |data|
    ensures r.Done? ==> MemberResolves(pool, r.value.nameIndex, r.value.descriptorIndex, r.value.attributes)
    ensures r.Done? ==> r.value.accessFlags == FieldFlags(Word(ReadU16(data, pos).value))
    ensures var m := ReadMember(pool, data, pos);
      && (r.Done? <==> m.Done?)
      && (r.Fail? ==> r.error == m.error)
      && (r.Done? ==>
            && r.next == m.next
            && r.value.nameIndex == m.value.nameIndex
            && r.value.descriptorIndex == m.value.descriptorIndex
            && r.value.attributes == m.value.attributes)
  {
    var m := ReadMember(pool, data, pos);
    if m.Fail? then Fail(m.error) else
    var info := m.value;
    Done(Field(FieldFlags(Word(info.flags)), info.nameIndex, info.descriptorIndex, info.attributes), m.next)
  }

  /** A method: the member's flag word decoded by `MethodAccess.fromMask`. */
  function ReadMethod(pool: seq<Constant>, data: seq<byte>, pos: nat): (r: Read<Method>)
    ensures r.Done? ==> pos + 8 <= r.next <= |data|
    ensures r.Done? ==> MemberResolves(pool, r.value.nameIndex, r.value.descriptorIndex, r.value.attributes)
    ensures r.Done? ==> r.value.accessFlags == MethodFlags(Word(ReadU16(data, pos).value))
    ensures var m := ReadMember(pool, data, pos);
      && (r.Done? <==> m.Done?)
      && (r.Fail? ==> r.error == m.error)
      && (r.Done? ==>
            && r.next == m.next
            && r.value.nameIndex == m.value.nameIndex
            && r.value.descriptorIndex == m.value.descriptorIndex
            && r.value.attributes == m.value.attributes)
  {
    var m := ReadMember(pool, data, pos);
    if m.Fail? then Fail(m.error) else
    var info := m.value;
    Done(Method(MethodFlags(Word(info.flags)), info.nameIndex, info.descriptorIndex, info.attributes), m.next)
  }

  /** `n` fields in file order. */
  function ReadFields(pool: seq<Constant>, data: seq<byte>, pos: nat, n: nat): (r: Read<seq<Field>>)
    ensures r.Done? ==> |r.value| == n && pos <= r.next && (pos <= |data| ==> r.next <= |data|)
    ensures r.Done? ==> forall f :: f in r.value ==>
      MemberResolves(pool, f.nameIndex, f.descriptorIndex, f.attributes)
    decreases n
  {
    if n == 0 then
      Done([], pos)
    else
      var (f, p) :- ReadField(pool, data, pos);
      var (rest, q) :- ReadFields(pool, data, p, n - 1);
      Done([f] + rest, q)
  }

  /** `n` methods in file order. */
  function ReadMethods(pool: seq<Constant>, data: seq<byte>, pos: nat, n: nat): (r: Read<seq<Method>>)
    ensures r.Done? ==> |r.value| == n && pos <= r.next && (pos <= |data| ==> r.next <= |data|)
    ensures r.Done? ==> forall m :: m in r.value ==>
      MemberResolves(pool, m.nameIndex, m.descriptorIndex, m.attributes)
    decreases n
  {
    if n == 0 then
      Done([], pos)
    else
      var (m, p) :- ReadMethod(pool, data, pos);
      var (rest, q) :- ReadMethods(pool, data, p, n - 1);
      Done([m] + rest, q)
  }

  // ---------------------------------------------------------------------------
  // The whole class file

  /** The u4 magic number, then the minor and major version. */
  function ReadHeader(data: seq<byte>): (r: Read<(u16, u16)>)
    ensures r.Done? ==> r.next == 8 <= |data|
    ensures r.Done? ==> r.value.0 == BigEndian(data[4..6]) && r.value.1 == BigEndian(data[6..8])
  {
    var (magic, p0) :- ReadU32(data, 0);
    if magic != MAGIC then
      Fail(BadMagic)
    else
      var (minorVersion, p1) :- ReadU16(data, p0);
      var (majorVersion, p2) :- ReadU16(data, p1);
      Done((minorVersion, majorVersion), p2)
  }

  /** The end of a class file: the fields, the methods and the class attributes, each a u2 count and a list. */
  function ReadMembers(pool: seq<Constant>, data: seq<byte>, pos: nat)
    : (r: Read<(seq<Field>, seq<Method>, seq<Attribute>)>)
    ensures r.Done? ==> pos + 6 <= r.next <= |data|
    ensures r.Done? ==>
      && (forall f :: f in r.value.0 ==> MemberResolves(pool, f.nameIndex, f.descriptorIndex, f.attributes))
      && (forall m :: m in r.value.1 ==> MemberResolves(pool, m.nameIndex, m.descriptorIndex, m.attributes))
      && AllResolve(pool, r.value.2)
  {
    var (fieldCount, p1) :- ReadU16(data, pos);
    var (fields, p2) :- ReadFields(pool, data, p1, fieldCount);
    var (methodCount, p3) :- ReadU16(data, p2);
    var (methods, p4) :- ReadMethods(pool, data, p3, methodCount);
    var (attributeCount, p5) :- ReadU16(data, p4);
    var (attributes, p6) :- ReadAttributes(pool, data, p5, attributeCount);
    ReadAttributesResolve(pool, data, p5, attributeCount);
    Done((fields, methods, attributes), p6)
  }

  /**
    Everything after the constant pool: the class flags, `this_class`,
    `super_class`, the interfaces, then the members and attributes.
  */
  function ReadClass(pool: seq<Constant>, data: seq<byte>, pos: nat, minorVersion: u16, majorVersion: u16)
    : (r: Read<Classfile>)
    ensures r.Done? ==> pos + 14 <= r.next <= |data|
    ensures r.Done? ==>
      && r.value.minorVersion == minorVersion && r.value.majorVersion == majorVersion
      && r.value.constantPool == pool
    ensures r.Done? ==> Resolves(r.value)
    ensures r.Done? ==> r.value.accessFlags == ClassFlags(Word(ReadU16(data, pos).value))
  {
    if pos + 8 > |data| then Fail(Truncated) else
    var flags, thisClass, superClass := ReadU16(data, pos).value, ReadU16(data, pos + 2).value, ReadU16(data, pos + 4).value;
    var interfaces := ReadU16s(data, pos + 8, ReadU16(data, pos + 6).value);
    if interfaces.Fail? then Fail(interfaces.error) else
    var members := ReadMembers(pool, data, interfaces.next);
    if members.Fail? then Fail(members.error) else
    var (fields, methods, attributes) := members.value;
    Done(Classfile(minorVersion, majorVersion, pool, ClassFlags(Word(flags)), thisClass, superClass,
                   interfaces.value, fields, methods, attributes), members.next)
  }

  /**
    `Classfile.fromFile` on the bytes of a file. Bytes after the class
    attributes are not looked at; `next` says where the class file ended.
  */
  function Decode(data: seq<byte>): (r: Read<Classfile>)
    ensures r.Done? ==> 24 <= r.next <= |data|
    ensures r.Done? ==>
      && r.value.minorVersion == BigEndian(data[4..6])
      && r.value.majorVersion == BigEndian(data[6..8])
    ensures r.Done? ==>
      PoolShaped(r.value.constantPool) && PoolFits(r.value.constantPool, BigEndian(data[8..10]))
    ensures r.Done? ==> Resolves(r.value)
  {
    var header := ReadHeader(data);
    if header.Fail? then Fail(header.error) else
    var pool := ReadPool(data, 8);
    if pool.Fail? then Fail(pool.error) else
    ReadPoolShape(data, 8);
    ReadClass(pool.value, data, pool.next, header.value.0, header.value.1)
  }

  // ---------------------------------------------------------------------------
  // What `fromFile` checks

  /**
    The magic number is checked first: fewer than four bytes fail as
    truncated, four bytes other than CA FE BA BE fail whatever follows them,
    and a decoded class file starts with CA FE BA BE.
  */
  lemma DecodeMagic(data: seq<byte>)
    ensures |data| < 4 ==> Decode(data) == Fail(Truncated)
    ensures |data| >= 4 && data[..4] != MAGIC_BYTES ==> Decode(data) == Fail(BadMagic)
    ensures Decode(data).Done? ==> |data| >= 4 && data[..4] == MAGIC_BYTES
  {
    if |data| >= 4 {
      ReadUIntConsumed(data, 0, 4);
      assert BigEndianBytes(MAGIC, 4) == MAGIC_BYTES;
      assert data[..4] == data[0..4];
    }
  }

  /**
    The pool lookups of a member come after all of its attributes are read,
    so a failing attribute wins; then an out-of-range name index fails,
    then an out-of-range descriptor index.
  */
  lemma MemberLookup(pool: seq<Constant>, data: seq<byte>, pos: nat)
    requires pos + 8 <= |data|
    ensures var r, attributes := ReadMember(pool, data, pos), ReadAttributes(pool, data, pos + 8, ReadU16(data, pos + 6).value);
      var name, descriptor := ReadU16(data, pos + 2).value, ReadU16(data, pos + 4).value;
      && (attributes.Fail? ==> r == Fail(attributes.error))
      && (attributes.Done? && name >= |pool| ==> r == Fail(IndexOutOfBounds(name)))
      && (attributes.Done? && name < |pool| && descriptor >= |pool| ==> r == Fail(IndexOutOfBounds(descriptor)))
      && (attributes.Done? && name < |pool| && descriptor < |pool| ==>
            r == Done(MemberInfo(ReadU16(data, pos).value, name, descriptor, attributes.value), attributes.next))
  {
  }

  /** In a decoded list of fields the first is read at the start and the rest begin where it ends. */
  lemma ReadFieldsCons(pool: seq<Constant>, data: seq<byte>, pos: nat, n: nat)
    requires n > 0 && ReadFields(pool, data, pos, n).Done?
    ensures var r, first := ReadFields(pool, data, pos, n), ReadField(pool, data, pos);
      && first.Done? && r.value[0] == first.value
      && ReadFields(pool, data, first.next, n - 1) == Done(r.value[1..], r.next)
  {
  }

  /** In a decoded list of methods the first is read at the start and the rest begin where it ends. */
  lemma ReadMethodsCons(pool: seq<Constant>, data: seq<byte>, pos: nat, n: nat)
    requires n > 0 && ReadMethods(pool, data, pos, n).Done?
    ensures var r, first := ReadMethods(pool, data, pos, n), ReadMethod(pool, data, pos);
      && first.Done? && r.value[0] == first.value
      && ReadMethods(pool, data, first.next, n - 1) == Done(r.value[1..], r.next)
  {
  }

  /**
    The end of a class file is three counted lists back to back: the field
    count and the fields, the method count and the methods, the attribute
    count and the attributes, each starting where the previous one ends.
  */
  lemma MembersLayout(pool: seq<Constant>, data: seq<byte>, pos: nat)
    requires ReadMembers(pool, data, pos).Done?
    ensures var r, fieldCount := ReadMembers(pool, data, pos), ReadU16(data, pos);
      && fieldCount.Done?
      && var fields := ReadFields(pool, data, fieldCount.next, fieldCount.value);
      && fields.Done? && fields.value == r.value.0
      && var methodCount := ReadU16(data, fields.next);
      && methodCount.Done?
      && var methods := ReadMethods(pool, data, methodCount.next, methodCount.value);
      && methods.Done? && methods.value == r.value.1
      && var attributeCount := ReadU16(data, methods.next);
      && attributeCount.Done?
      && ReadAttributes(pool, data, attributeCount.next, attributeCount.value) == Done(r.value.2, r.next)
  {
  }

  /**
    After the class flags come `this_class` and `super_class`, the interface
    count and the interfaces, then the members and attributes.
  */
  lemma ClassLayout(pool: seq<Constant>, data: seq<byte>, pos: nat, minorVersion: u16, majorVersion: u16)
    requires ReadClass(pool, data, pos, minorVersion, majorVersion).Done?
    ensures var c := ReadClass(pool, data, pos, minorVersion, majorVersion);
      && c.value.thisClass == ReadU16(data, pos + 2).value
      && c.value.superClass == ReadU16(data, pos + 4).value
      && var interfaces := ReadU16s(data, pos + 8, ReadU16(data, pos + 6).value);
      && interfaces == Done(c.value.interfaces, interfaces.next)
      && ReadMembers(pool, data, interfaces.next)
         == Done((c.value.fields, c.value.methods, c.value.attributes), c.next)
  {
  }

  /**
    A decoded class file holds the pool read at offset 8, and the rest of it
    is read from just after the pool.
  */
  lemma DecodeLayout(data: seq<byte>)
    requires Decode(data).Done?
    ensures var c, pool := Decode(data), ReadPool(data, 8);
      && pool.Done? && c.value.constantPool == pool.value
      && ReadClass(pool.value, data, pool.next, c.value.minorVersion, c.value.majorVersion) == c
  {
  }

  // ---------------------------------------------------------------------------
  // `fromFile` step by step

  /**
    `fromFile` as the decoder runs it, advancing through the input one
    field at a time and calling the imperative reader of the pool.
  */
  method FromBytes(data: seq<byte>) returns (r: Read<Classfile>)
    ensures r == Decode(data)
  {
    var magic := ReadU32(data, 0);
    if magic.Fail? {
      return Fail(magic.error);
    }
    if magic.value != MAGIC {
      return Fail(BadMagic);
    }
    var minorVersion := ReadU16(data, 4);
    if minorVersion.Fail? {
      return Fail(minorVersion.error);
    }
    var majorVersion := ReadU16(data, 6);
    if majorVersion.Fail? {
      return Fail(majorVersion.error);
    }
    assert ReadHeader(data) == Done((minorVersion.value, majorVersion.value), 8);
    var pool := ReadConstantPool(data, 8);
    if pool.Fail? {
      return Fail(pool.error);
    }
    r := ClassFrom(pool.value, data, pool.next, minorVersion.value, majorVersion.value);
  }

  /** The rest of `fromFile` after the pool, with the class flags decoded by the `fromMask` loop. */
  method ClassFrom(pool: seq<Constant>, data: seq<byte>, pos: nat, minorVersion: u16, majorVersion: u16)
    returns (r: Read<Classfile>)
    ensures r == ReadClass(pool, data, pos, minorVersion, majorVersion)
  {
    var flags := ReadU16(data, pos);
    var thisClass := ReadU16(data, pos + 2);
    var superClass := ReadU16(data, pos + 4);
    var interfaceCount := ReadU16(data, pos + 6);
    if interfaceCount.Fail? {
      return Fail(Truncated);
    }
    var accessFlags := ClassAccessFromMask(Word(flags.value));
    var interfaces := ReadU16s(data, pos + 8, interfaceCount.value);
    if interfaces.Fail? {
      return Fail(interfaces.error);
    }
    var members := ReadMembers(pool, data, interfaces.next);
    if members.Fail? {
      return Fail(members.error);
    }
    var (fields, methods, attributes) := members.value;
    r := Done(Classfile(minorVersion, majorVersion, pool, accessFlags, thisClass.value,
                        superClass.value, interfaces.value, fields, methods, attributes), members.next);
  }

  // ---------------------------------------------------------------------------
  // A concrete class file

  /**
    The smallest Java 8 class file: version 52.0, a pool count of 1 (no
    entries), flags ACC_PUBLIC | ACC_SUPER, and no interfaces, fields,
    methods or attributes.
  */
  const MINIMAL_JAVA_8: seq<byte> := [
    0xCA, 0xFE, 0xBA, 0xBE, 0x00, 0x00, 0x00, 0x34,
    0x00, 0x01, 0x00, 0x21, 0x00, 0x00, 0x00, 0x00,
    0x00, 0x00, 0x00, 0x00, 0x00, 0x00, 0x00, 0x00]

  /** Two bytes `hi`, `lo` read as a u2. */
  lemma ReadU16At(data: seq<byte>, pos: nat, hi: byte, lo: byte)
    requires pos + 2 <= |data| && data[pos] == hi && data[pos + 1] == lo
    ensures ReadU16(data, pos) == Done(hi * 0x100 + lo, pos + 2)
  {
    var s := data[pos..pos + 2];
    assert s[..1] == [hi] && [hi][..0] == [];
    assert BigEndian([hi]) == hi;
    assert BigEndian(s) == BigEndian(s[..1]) * 0x100 + lo;
  }

  /** Input that starts with CA FE BA BE passes the magic check. */
  lemma MagicRead(data: seq<byte>)
    requires |data| >= 4 && data[..4] == MAGIC_BYTES
    ensures ReadU32(data, 0) == Done(MAGIC, 4)
  {
    assert BigEndianBytes(MAGIC, 4) == MAGIC_BYTES;
    assert data[0..4] == data[..4];
    ReadU32OfEncoding(data, 0, MAGIC);
  }

  lemma MinimalJava8Header()
    ensures ReadHeader(MINIMAL_JAVA_8) == Done((0, 52), 8)
  {
    MagicRead(MINIMAL_JAVA_8);
    ReadU16At(MINIMAL_JAVA_8, 4, 0x00, 0x00);
    ReadU16At(MINIMAL_JAVA_8, 6, 0x00, 0x34);
  }

  lemma MinimalJava8Pool()
    ensures ReadPool(MINIMAL_JAVA_8, 8) == Done([PLACEHOLDER], 10)
  {
    ReadU16At(MINIMAL_JAVA_8, 8, 0x00, 0x01);
  }

  lemma MinimalJava8Members()
    ensures ReadMembers([PLACEHOLDER], MINIMAL_JAVA_8, 18) == Done(([], [], []), 24)
  {
    ReadU16At(MINIMAL_JAVA_8, 18, 0x00, 0x00);
    ReadU16At(MINIMAL_JAVA_8, 20, 0x00, 0x00);
    ReadU16At(MINIMAL_JAVA_8, 22, 0x00, 0x00);
  }

  lemma MinimalJava8Flags()
    ensures ClassFlags(Word(0x21)) == {ClassAccess.Public, ClassAccess.Super}
  {
    ClassFlagsMembers(0x21);
    assert Word(0x21) == 0x21;
  }

  lemma MinimalJava8Words()
    ensures ReadU16(MINIMAL_JAVA_8, 10) == Done(0x21, 12)
    ensures ReadU16(MINIMAL_JAVA_8, 12) == Done(0, 14)
    ensures ReadU16(MINIMAL_JAVA_8, 14) == Done(0, 16)
    ensures ReadU16(MINIMAL_JAVA_8, 16) == Done(0, 18)
  {
    ReadU16At(MINIMAL_JAVA_8, 10, 0x00, 0x21);
    ReadU16At(MINIMAL_JAVA_8, 12, 0x00, 0x00);
    ReadU16At(MINIMAL_JAVA_8, 14, 0x00, 0x00);
    ReadU16At(MINIMAL_JAVA_8, 16, 0x00, 0x00);
  }

  lemma MinimalJava8Class()
    ensures ReadClass([PLACEHOLDER], MINIMAL_JAVA_8, 10, 0, 52)
      == Done(Classfile(0, 52, [PLACEHOLDER], {ClassAccess.Public, ClassAccess.Super}, 0, 0, [], [], [], []), 24)
  {
    MinimalJava8Words();
    MinimalJava8Members();
    MinimalJava8Flags();
  }

  lemma DecodeMinimalJava8()
    ensures Decode(MINIMAL_JAVA_8)
      == Done(Classfile(0, 52, [PLACEHOLDER], {ClassAccess.Public, ClassAccess.Super}, 0, 0, [], [], [], []), 24)
  {
    MinimalJava8Header();
    MinimalJava8Pool();
    MinimalJava8Class();
  }
}
