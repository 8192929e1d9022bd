# A verified model of a JVM class-file decoder

This project models the class-file reader in
`src/main/kotlin/one/wabbit/classfile/ClassfileReader.kt` and proves what it does.
The reader is the decoder behind `Classfile.fromFile`. It follows chapter 4 of the Java Virtual
Machine Specification (Java SE 21 edition). It checks the magic number, then reads these in order:

- the minor and major version;
- the constant pool;
- the class access flags, `this_class` and `super_class`;
- the interfaces;
- the fields and the methods;
- the class attributes.

Attributes are dispatched on their name, which is looked up in the constant pool. The decoder
knows six names: ConstantValue, Code, Exceptions, Synthetic, Signature and SourceFile. Any other
name gives an opaque `Unknown` attribute. A Code attribute holds a nested list of attributes.

The input is an in-memory byte sequence with a read position, in place of the `DataInputStream`
cursor. Every reader returns the decoded value and the position after it (`Done`), or an error
(`Fail`).

The modules:

- `ByteReader` (`byte_reader.dfy`): the big-endian reads of one, two, four and eight bytes. Java's
  `toInt()` and `toLong()` reinterpretations of unsigned values. `readFully`.
- `FlagSets` and `AccessFlags` (`access_flags.dfy`): the three `fromMask` decoders as a `for` loop
  over the declared flags, with each flag's mask bit.
- `JavaVersions` (`java_versions.dfy`): `KnownJavaVersion` and its `toVersion` search loop.
- `ConstantPool` (`constant_pool.dfy`): the tagged pool entries.
  - `readConstantPool` as a `while` loop over the slot index.
  - A recursive function that specifies the loop.
  - An encoder used as the reader's partner.
- `Attributes` (`attributes.dfy`): `readAttribute` and its case-by-case behaviour.
- `Classfile` (`classfile.dfy`): fields, methods and the whole `fromFile` sequence. It is given both
  as a function and as a method that calls the imperative pool reader and the class-flag
  `fromMask` loop.

## Model

| member | source | states |
|---|---|---|
| ByteReader.ReadU8 | src/main/kotlin/one/wabbit/classfile/ClassfileReader.kt:9 | succeeds exactly when a byte is left, returns that byte and advances by one; otherwise fails as truncated |
| ByteReader.ReadU16 | src/main/kotlin/one/wabbit/classfile/ClassfileReader.kt:10 | succeeds exactly when two bytes are left, returns their big-endian value and advances by two; otherwise fails as truncated |
| ByteReader.ReadU32 | src/main/kotlin/one/wabbit/classfile/ClassfileReader.kt:11 | the same for four bytes, read as an unsigned number |
| ByteReader.ReadU64 | src/main/kotlin/one/wabbit/classfile/ClassfileReader.kt:12 | the same for eight bytes, read as an unsigned number |
| ByteReader.ToInt32 | src/main/kotlin/one/wabbit/classfile/ClassfileReader.kt:213 | `toInt()` of a u32 is non-negative exactly when the u32 is below 2^31, is then the same number, and always agrees with it modulo 2^32 |
| ByteReader.ToInt64 | src/main/kotlin/one/wabbit/classfile/ClassfileReader.kt:327 | the 64-bit counterpart: two's complement of the u64 read by `readLong` |
| ByteReader.ReadBytes | src/main/kotlin/one/wabbit/classfile/ClassfileReader.kt:298-299 | `readFully` of `n` bytes returns exactly the next `n` bytes and advances by `n`, or fails as truncated when fewer are left |
| ByteReader.BigEndianRoundTrip | src/main/kotlin/one/wabbit/classfile/ClassfileReader.kt:10-12 | the value of the `width` big-endian bytes of any `v < 256^width` is `v` |
| ByteReader.BigEndianBytesOf | src/main/kotlin/one/wabbit/classfile/ClassfileReader.kt:10-12 | re-encoding the value of any byte string gives back that byte string |
| ByteReader.ReadUIntOfEncoding | src/main/kotlin/one/wabbit/classfile/ClassfileReader.kt:10-12 | reading where the big-endian bytes of `v` occur gives `v` and consumes exactly those bytes |
| FlagSets.FromMask | src/main/kotlin/one/wabbit/classfile/ClassfileReader.kt:26-34 | the loop over the declared flags returns exactly the flags whose mask shares a bit with the word |
| AccessFlags.ClassAccessFromMask | src/main/kotlin/one/wabbit/classfile/ClassfileReader.kt:26-34 | `ClassAccess.fromMask(m)` contains a flag exactly when `m & mask != 0` |
| AccessFlags.FieldAccessFromMask | src/main/kotlin/one/wabbit/classfile/ClassfileReader.kt:50-58 | `FieldAccess.fromMask(m)` contains a flag exactly when `m & mask != 0` |
| AccessFlags.MethodAccessFromMask | src/main/kotlin/one/wabbit/classfile/ClassfileReader.kt:77-85 | `MethodAccess.fromMask(m)` contains a flag exactly when `m & mask != 0` |
| AccessFlags.ClassFlagsMembers | src/main/kotlin/one/wabbit/classfile/ClassfileReader.kt:26-34 | for every class flag: member of the decoded set if and only if its bit is set |
| AccessFlags.FieldFlagsMembers | src/main/kotlin/one/wabbit/classfile/ClassfileReader.kt:50-58 | the same for field flags |
| AccessFlags.MethodFlagsMembers | src/main/kotlin/one/wabbit/classfile/ClassfileReader.kt:77-85 | the same for method flags |
| AccessFlags.ClassMaskOneBit | src/main/kotlin/one/wabbit/classfile/ClassfileReader.kt:15-23 | every class flag's mask has exactly one bit |
| AccessFlags.FieldMaskOneBit | src/main/kotlin/one/wabbit/classfile/ClassfileReader.kt:39-47 | every field flag's mask has exactly one bit |
| AccessFlags.MethodMaskOneBit | src/main/kotlin/one/wabbit/classfile/ClassfileReader.kt:63-74 | every method flag's mask has exactly one bit |
| AccessFlags.ClassFlagsDropUndeclared | src/main/kotlin/one/wabbit/classfile/ClassfileReader.kt:14-34 | bits no class flag declares are dropped: a word decodes like its declared bits, and 0 decodes to the empty set |
| AccessFlags.FieldFlagsDropUndeclared | src/main/kotlin/one/wabbit/classfile/ClassfileReader.kt:38-58 | the same for field flags |
| AccessFlags.MethodFlagsDropUndeclared | src/main/kotlin/one/wabbit/classfile/ClassfileReader.kt:62-85 | the same for method flags |
| AccessFlags.ClassWordOfFlags | src/main/kotlin/one/wabbit/classfile/ClassfileReader.kt:14-34 | re-encoding the decoded set of a word gives exactly the word's declared bits |
| AccessFlags.FieldWordOfFlags | src/main/kotlin/one/wabbit/classfile/ClassfileReader.kt:38-58 | the same for field flags |
| AccessFlags.MethodWordOfFlags | src/main/kotlin/one/wabbit/classfile/ClassfileReader.kt:62-85 | the same for method flags |
| AccessFlags.ClassFlagsOfWord | src/main/kotlin/one/wabbit/classfile/ClassfileReader.kt:14-34 | every set of class flags survives encoding to a word and decoding back |
| AccessFlags.FieldFlagsOfWord | src/main/kotlin/one/wabbit/classfile/ClassfileReader.kt:38-58 | the same for field flags |
| AccessFlags.MethodFlagsOfWord | src/main/kotlin/one/wabbit/classfile/ClassfileReader.kt:62-85 | the same for method flags |
| JavaVersions.ToVersion | src/main/kotlin/one/wabbit/classfile/ClassfileReader.kt:113-120 | returns a release exactly when 45 <= major <= 65, and that release has this major version; returns nothing only when no release has it |
| JavaVersions.EntriesMajors | src/main/kotlin/one/wabbit/classfile/ClassfileReader.kt:89-110 | the 21 entries are listed in order, the k-th with major version 45 + k |
| JavaVersions.EntryOf | src/main/kotlin/one/wabbit/classfile/ClassfileReader.kt:89-110 | every release has a major version in 45..65 and sits at that position of the entries |
| JavaVersions.MajorInjective | src/main/kotlin/one/wabbit/classfile/ClassfileReader.kt:89-110 | two releases share a major version exactly when they are the same release |
| JavaVersions.VersionExists | src/main/kotlin/one/wabbit/classfile/ClassfileReader.kt:89-110 | every major version from 45 to 65 belongs to some release |
| ConstantPool.ReadUtf8 | src/main/kotlin/one/wabbit/classfile/ClassfileReader.kt:319-324 | a Utf8 payload succeeds exactly when 2 bytes plus the length they hold are left, consumes exactly that, and gives a tag-1 Utf8 entry; otherwise fails as truncated |
| ConstantPool.ReadUtf8Bytes | src/main/kotlin/one/wabbit/classfile/ClassfileReader.kt:319-324 | the bytes of a decoded Utf8 entry are exactly the `length` bytes that follow its u2 length |
| ConstantPool.ReadNumber | src/main/kotlin/one/wabbit/classfile/ClassfileReader.kt:325-328 | Integer and Float take 4 bytes, Long and Double 8, and the entry has the tag read |
| ConstantPool.ReadIndexConstant | src/main/kotlin/one/wabbit/classfile/ClassfileReader.kt:329-340 | Class, String, MethodType, Module and Package take 2 bytes and carry the tag read |
| ConstantPool.ReadPairConstant | src/main/kotlin/one/wabbit/classfile/ClassfileReader.kt:331-338 | the three refs, NameAndType, Dynamic and InvokeDynamic take 4 bytes and carry the tag read |
| ConstantPool.ReadMethodHandle | src/main/kotlin/one/wabbit/classfile/ClassfileReader.kt:335 | a MethodHandle takes 3 bytes and is `MethodHandle(kind, index)` with the kind byte at the start and the u2 index after it |
| ConstantPool.ReadConstant | src/main/kotlin/one/wabbit/classfile/ClassfileReader.kt:318-342 | an unknown tag fails as `InvalidConstantTag` before any payload byte; a known tag succeeds exactly when its payload width fits, consumes exactly that width and carries the tag |
| ConstantPool.ReadEntry | src/main/kotlin/one/wabbit/classfile/ClassfileReader.kt:317-342 | an entry consumes its tag byte and more, and is always a well-formed entry |
| ConstantPool.ReadEntries | src/main/kotlin/one/wabbit/classfile/ClassfileReader.kt:315-350 | the slot walk only moves forward and never past the end of the input |
| ConstantPool.ReadPool | src/main/kotlin/one/wabbit/classfile/ClassfileReader.kt:309-352 | a decoded pool ends after its u2 count and inside the input |
| ConstantPool.DecodedEntry | src/main/kotlin/one/wabbit/classfile/ClassfileReader.kt:345 | a decoded entry takes two slots exactly when its tag is 5 or 6, and is never the placeholder |
| ConstantPool.ShapedAppendWide | src/main/kotlin/one/wabbit/classfile/ClassfileReader.kt:344-348 | appending a Long or Double and then the placeholder keeps the pool's shape |
| ConstantPool.ShapedAppendNarrow | src/main/kotlin/one/wabbit/classfile/ClassfileReader.kt:344 | appending any other decoded entry keeps the pool's shape |
| ConstantPool.ReadEntriesShape | src/main/kotlin/one/wabbit/classfile/ClassfileReader.kt:315-350 | the pool walk keeps the pool shaped: slot 0 and exactly the slots after a Long or Double hold the placeholder. It ends with `max(count, 1)` slots, or `count + 1` when a wide entry fills the last slot |
| ConstantPool.ReadPoolShape | src/main/kotlin/one/wabbit/classfile/ClassfileReader.kt:309-351 | every decoded pool is shaped and its length fits the count read |
| ConstantPool.ReadConstantPool | src/main/kotlin/one/wabbit/classfile/ClassfileReader.kt:309-352 | the `while` loop keeps `|pool| == i` and the pool shape at every iteration, and returns what the recursive specification returns |
| ConstantPool.ReadConstantOfEncoding | src/main/kotlin/one/wabbit/classfile/ClassfileReader.kt:318-342 | decoding the encoding of any well-formed entry's payload gives the entry back and consumes exactly the encoding |
| ConstantPool.ReadEntryOfEncoding | src/main/kotlin/one/wabbit/classfile/ClassfileReader.kt:317-342 | the same with the tag byte in front |
| ConstantPool.ReadEntriesOfEncoding | src/main/kotlin/one/wabbit/classfile/ClassfileReader.kt:315-350 | decoding an encoded list of entries appends each entry and a placeholder after each Long or Double, and consumes exactly the encoding |
| ConstantPool.ReadPoolOfEncoding | src/main/kotlin/one/wabbit/classfile/ClassfileReader.kt:309-352 | decoding an encoded pool gives the placeholder followed by the slots of its entries |
| ConstantPool.ToInt32OfBits | src/main/kotlin/one/wabbit/classfile/ClassfileReader.kt:325 | an Integer read back from its 32-bit pattern is the same Integer |
| Attributes.NamesDistinct | src/main/kotlin/one/wabbit/classfile/ClassfileReader.kt:216-297 | the six recognised names are pairwise different, so at most one branch of the dispatch applies |
| Attributes.ReadU16s | src/main/kotlin/one/wabbit/classfile/ClassfileReader.kt:276 | `n` u2 values take exactly 2n bytes, and the k-th is the big-endian value at `pos + 2k` |
| Attributes.ReadExceptionEntry | src/main/kotlin/one/wabbit/classfile/ClassfileReader.kt:230 | a table row takes 8 bytes and holds start, end, handler and catch type in that order |
| Attributes.ReadExceptionTable | src/main/kotlin/one/wabbit/classfile/ClassfileReader.kt:229-231 | `n` rows take exactly 8n bytes, the k-th row read at `pos + 8k` |
| Attributes.ReadAttribute | src/main/kotlin/one/wabbit/classfile/ClassfileReader.kt:211-302 | a decoded attribute consumes at least its 6 header bytes, carries the u2 read at its start, and that index addresses a Utf8 slot |
| Attributes.ReadCode | src/main/kotlin/one/wabbit/classfile/ClassfileReader.kt:223-238 | a decoded Code body is a `Code` with the given name index and takes at least 12 bytes |
| Attributes.ReadCodeTables | src/main/kotlin/one/wabbit/classfile/ClassfileReader.kt:229-235 | the two tables of a Code body take at least their two u2 counts |
| Attributes.ReadAttributes | src/main/kotlin/one/wabbit/classfile/ClassfileReader.kt:233-235 | `n` attributes decode to a list of length `n` that ends inside the input |
| Attributes.AttributeNameLookup | src/main/kotlin/one/wabbit/classfile/ClassfileReader.kt:212-214 | a header cut short fails as truncated; an index past the pool fails with `IndexOutOfBounds`; a slot that is not Utf8 fails with `NotUtf8` |
| Attributes.UnknownAttribute | src/main/kotlin/one/wabbit/classfile/ClassfileReader.kt:297-301 | any other name: a negative size fails, otherwise the attribute is `Unknown(nameIndex, the size bytes after the header)` and the next one starts right after them, or it fails as truncated |
| Attributes.PlaceholderNamesUnknown | src/main/kotlin/one/wabbit/classfile/ClassfileReader.kt:297-301 | a name index that addresses a placeholder slot gives an `Unknown` attribute |
| Attributes.FixedShapeAttribute | src/main/kotlin/one/wabbit/classfile/ClassfileReader.kt:217-221 | ConstantValue, and Signature and SourceFile (:285-295): the u2 is read before the size check, so a short input fails as truncated. Then size != 2 fails, and size 2 gives the attribute with that u2, ending 8 bytes after the start |
| Attributes.SyntheticAttribute | src/main/kotlin/one/wabbit/classfile/ClassfileReader.kt:280-283 | Synthetic succeeds exactly when the size is 0, and then takes only the 6 header bytes |
| Attributes.ExceptionsAttribute | src/main/kotlin/one/wabbit/classfile/ClassfileReader.kt:275-278 | Exceptions takes a u2 count `n` and `n` u2 indices, 8 + 2n bytes, or fails as truncated; the outcome does not depend on the declared size |
| Attributes.CodeAttribute | src/main/kotlin/one/wabbit/classfile/ClassfileReader.kt:223-238 | a Code attribute is its body read from just after the header; the declared size plays no part |
| Attributes.CodeLayout | src/main/kotlin/one/wabbit/classfile/ClassfileReader.kt:224-227 | a decoded Code body holds maxStack and maxLocals as read, a code length below 2^31 and exactly that many code bytes |
| Attributes.CodeTablesAt | src/main/kotlin/one/wabbit/classfile/ClassfileReader.kt:229-235 | the tables of a decoded Code body are read right after its code bytes and end where the attribute ends |
| Attributes.CodeTablesLayout | src/main/kotlin/one/wabbit/classfile/ClassfileReader.kt:229-235 | the tables are a u2 count `n` and `n` 8-byte rows, then a u2 count `m` and `m` nested attributes in file order |
| Attributes.CodeNegativeLength | src/main/kotlin/one/wabbit/classfile/ClassfileReader.kt:226 | a code length of 2^31 or more turns negative under `toInt()`, and the body fails with `NegativeArraySize` |
| Attributes.ReadAttributesResolve | src/main/kotlin/one/wabbit/classfile/ClassfileReader.kt:214 | every attribute of a decoded list is named by a Utf8 slot, so the later `attrs` lookups cannot fail |
| Attributes.ReadAttributesCons | src/main/kotlin/one/wabbit/classfile/ClassfileReader.kt:233-235 | in a decoded list the first attribute is read at the start and the rest begin exactly where it ends |
| Classfile.ReadMember | src/main/kotlin/one/wabbit/classfile/ClassfileReader.kt:157-167 | a decoded member takes at least 8 bytes, keeps the flag word read, and its name index, descriptor index and attribute names lie inside the pool |
| Classfile.MemberLookup | src/main/kotlin/one/wabbit/classfile/ClassfileReader.kt:157-167 | the lookups come after the whole member is read: a failing attribute wins; then an out-of-range name fails, then an out-of-range descriptor; otherwise the member is returned |
| Classfile.ReadField | src/main/kotlin/one/wabbit/classfile/ClassfileReader.kt:157-172 | a field succeeds exactly when its member reading does, failing with the same error; its flags are `FieldAccess.fromMask` of the word read, and its name index, descriptor index, attributes and end are the member's |
| Classfile.ReadMethod | src/main/kotlin/one/wabbit/classfile/ClassfileReader.kt:174-189 | a method succeeds exactly when its member reading does, failing with the same error; its flags are `MethodAccess.fromMask` of the word read, and its name index, descriptor index, attributes and end are the member's |
| Classfile.ReadFields | src/main/kotlin/one/wabbit/classfile/ClassfileReader.kt:156-172 | `n` fields decode to `n` fields, each of whose indices resolve |
| Classfile.ReadMethods | src/main/kotlin/one/wabbit/classfile/ClassfileReader.kt:173-189 | `n` methods decode to `n` methods, each of whose indices resolve |
| Classfile.ReadFieldsCons | src/main/kotlin/one/wabbit/classfile/ClassfileReader.kt:156-172 | in a decoded list of fields the first is read at the start, and the remaining `n - 1` are read from where it ends |
| Classfile.ReadMethodsCons | src/main/kotlin/one/wabbit/classfile/ClassfileReader.kt:173-189 | in a decoded list of methods the first is read at the start, and the remaining `n - 1` are read from where it ends |
| Classfile.MembersLayout | src/main/kotlin/one/wabbit/classfile/ClassfileReader.kt:156-192 | the field count and the fields, the method count and the methods, the attribute count and the attributes follow each other, each starting where the previous one ends |
| Classfile.ClassLayout | src/main/kotlin/one/wabbit/classfile/ClassfileReader.kt:153-192 | `thisClass` and `superClass` are the u2 values after the flags, the interfaces are the counted u2 list after them, and the fields, methods and attributes are read from where the interfaces end |
| Classfile.DecodeLayout | src/main/kotlin/one/wabbit/classfile/ClassfileReader.kt:151-207 | a decoded class file holds the pool read at offset 8, and its remainder is read from just after the pool |
| Classfile.ReadHeader | src/main/kotlin/one/wabbit/classfile/ClassfileReader.kt:141-147 | after the magic check, the versions are the u2 values at offsets 4 and 6 and the pool starts at offset 8 |
| Classfile.ReadMembers | src/main/kotlin/one/wabbit/classfile/ClassfileReader.kt:156-192 | fields, methods and class attributes take at least their three counts, and every lookup into the pool resolved |
| Classfile.ReadClass | src/main/kotlin/one/wabbit/classfile/ClassfileReader.kt:152-207 | the class flags are `ClassAccess.fromMask` of the word read; versions and pool are carried through; every lookup resolved |
| Classfile.Decode | src/main/kotlin/one/wabbit/classfile/ClassfileReader.kt:141-207 | a decoded class file has the versions at offsets 4 and 6, a shaped pool that fits the count at offset 8, and only resolving indices. It takes at least 24 bytes |
| Classfile.DecodeMagic | src/main/kotlin/one/wabbit/classfile/ClassfileReader.kt:141-144 | fewer than 4 bytes fail as truncated; 4 bytes other than CA FE BA BE fail with `BadMagic` whatever follows; a decoded file starts with CA FE BA BE |
| Classfile.MagicRead | src/main/kotlin/one/wabbit/classfile/ClassfileReader.kt:141-144 | input starting with CA FE BA BE passes the magic check |
| Classfile.FromBytes | src/main/kotlin/one/wabbit/classfile/ClassfileReader.kt:141-207 | the step-by-step decoder, using the pool loop, returns exactly `Decode` |
| Classfile.ClassFrom | src/main/kotlin/one/wabbit/classfile/ClassfileReader.kt:152-207 | the part after the pool, using the `fromMask` loop, returns exactly `ReadClass` |
| Classfile.DecodeMinimalJava8 | src/main/kotlin/one/wabbit/classfile/ClassfileReader.kt:141-207 | the 24-byte public Java 8 class with an empty pool decodes to version 52.0, the placeholder pool, flags {Public, Super} and empty lists |

## Left out

- File and stream plumbing (`FileInputStream`, `BufferedInputStream`, `DataInputStream`, `use`).
  The input is a byte sequence held in memory. A read past its end fails as `Truncated`, standing
  for `EOFException`.
- The JVM exception classes are collapsed into one `Error` type. Its cases tell apart an end of
  input, a bad magic number, an unknown tag, an index out of bounds, a failed cast to `Utf8`, a
  failed `require` on a size, and a negative array size.
- Running out of memory on a very large length is not modelled: allocation always succeeds for a
  non-negative size.
- The IEEE 754 meaning of Float and Double constants. They are kept as their raw 32-bit and 64-bit
  patterns; only their width matters to the decoder.
- UTF-8 decoding of names. Attribute names are compared byte for byte with the ASCII spelling of
  the six recognised names. All six are ASCII, so this agrees with comparing decoded text.
- The commented-out StackMapTable decoder and the attribute kinds the dispatch never produces
  (StackMapTable, InnerClasses, EnclosingMethod, and their frame, verification-type and
  inner-class records). Those names fall through to `Unknown`, as in the decoder.
- The commented-out debug printing, and the name, descriptor and attribute-name lookups whose only
  use is that printing. The model keeps their only effect: the member lookups can fail.
  `ReadAttributesResolve` shows that the attribute-name lookups cannot fail.
- `readAttribute` and `fromFile` are functions over a position, not methods moving a shared cursor.
  `FromBytes` and `ClassFrom` give the step-by-step form, calling the pool loop and the
  `fromMask` loop.
- Attributes.ReadCodeTables: this is not a function of the decoder. It is the tail of the Code
  branch (the exception table and the nested attributes), split out so that its layout can be
  stated on its own.
- "The declared size of Code and Exceptions is ignored" is stated by `CodeAttribute` and
  `ExceptionsAttribute`: their outcomes are given without the size. There is no separate lemma
  comparing two inputs that differ only in their size field.
- The test suite's directory walk and SHA-256 reporting are not part of this model.
