/**
  Sets of flags decoded from a 16-bit word, over any enumeration whose
  flags each carry a mask: the loop behind `fromMask`.
*/
module FlagSets {

  /** `(word and mask) != 0`: the test `fromMask` applies to each flag. */
  predicate HasBits(word: bv16, mask: bv16)
  {
    word & mask != 0
  }

  /** The flags among `entries` whose mask shares a bit with `word`. */
  function FlagSet<F(==)>(entries: seq<F>, maskOf: F -> bv16, word: bv16): set<F>
  {
    set f | f in entries && HasBits(word, maskOf(f))
  }

  /** The bits `mask` contributes to a word: all of them when the flag is present, none otherwise. */
  function Bit(present: bool, mask: bv16): bv16
  {
    if present then mask else 0
  }

  /** For a one-bit mask, the masked word is the mask exactly when the bit is set. */
  lemma SingleBit(present: bool, word: bv16, mask: bv16)
    requires mask != 0 && mask & (mask - 1) == 0
    requires present <==> HasBits(word, mask)
    ensures Bit(present, mask) == word & mask
  {
  }

  /** A one-bit flag contributes to a word exactly the bit it was decoded from. */
  lemma FlagSetBit<F>(entries: seq<F>, maskOf: F -> bv16, word: bv16, f: F)
    requires f in entries
    requires maskOf(f) != 0 && maskOf(f) & (maskOf(f) - 1) == 0
    ensures Bit(f in FlagSet(entries, maskOf, word), maskOf(f)) == word & maskOf(f)
  {
    FlagSetMember(entries, maskOf, word, f);
    SingleBit(f in FlagSet(entries, maskOf, word), word, maskOf(f));
  }

  lemma FlagSetMember<F>(entries: seq<F>, maskOf: F -> bv16, word: bv16, f: F)
    ensures f in FlagSet(entries, maskOf, word) <==> f in entries && HasBits(word, maskOf(f))
  {
  }

  /**
    `fromMask`: start from the empty set and walk the entries in declaration
    order, adding each flag whose mask shares a bit with the word.
  */
  method FromMask<F(==)>(entries: seq<F>, maskOf: F -> bv16, word: bv16) returns (s: set<F>)
    ensures s == FlagSet(entries, maskOf, word)
  {
    s := {};
    for k := 0 to |entries|
      invariant forall f :: f in s <==> f in entries[..k] && HasBits(word, maskOf(f))
    {
      assert entries[..k + 1] == entries[..k] + [entries[k]];
      if HasBits(word, maskOf(entries[k])) {
        s := s + {entries[k]};
      }
    }
    assert entries[..|entries|] == entries;
  }
}

/**
  Access-flag words (sections 4.1, 4.5 and 4.6 of the Java Virtual Machine
  Specification, Java SE 21 edition) decoded into sets of named flags.

  Each enumeration lists its flags in declaration order, each with one mask
  bit. Decoding keeps every flag whose bit is set and drops the bits no flag
  declares. The `...Word` functions put a set back into a word; they are
  the partners that the round-trip lemmas at the end relate decoding to.
*/
module AccessFlags {
  import opened FlagSets

  datatype ClassAccess =
    | Public | Final | Super | Interface | Abstract | Synthetic | Annotation | Enum | Module

  datatype FieldAccess =
    | Public | Private | Protected | Static | Final | Volatile | Transient | Synthetic | Enum

  datatype MethodAccess =
    | Public | Private | Protected | Static | Final | Synchronized | Bridge | Varargs
    | Native | Abstract | Strict | Synthetic

  function ClassMask(a: ClassAccess): bv16
  {
    match a
    case Public => 0x0001
    case Final => 0x0010
    case Super => 0x0020
    case Interface => 0x0200
    case Abstract => 0x0400
    case Synthetic => 0x1000
    case Annotation => 0x2000
    case Enum => 0x4000
    case Module => 0x8000
  }

  function FieldMask(a: FieldAccess): bv16
  {
    match a
    case Public => 0x0001
    case Private => 0x0002
    case Protected => 0x0004
    case Static => 0x0008
    case Final => 0x0010
    case Volatile => 0x0040
    case Transient => 0x0080
    case Synthetic => 0x1000
    case Enum => 0x4000
  }

  function MethodMask(a: MethodAccess): bv16
  {
    match a
    case Public => 0x0001
    case Private => 0x0002
    case Protected => 0x0004
    case Static => 0x0008
    case Final => 0x0010
    case Synchronized => 0x0020
    case Bridge => 0x0040
    case Varargs => 0x0080
    case Native => 0x0100
    case Abstract => 0x0400
    case Strict => 0x0800
    case Synthetic => 0x1000
  }

  /** The `entries` of each enumeration, in declaration order. */
  const CLASS_ACCESS: seq<ClassAccess> := [
    ClassAccess.Public, ClassAccess.Final, ClassAccess.Super, ClassAccess.Interface,
    ClassAccess.Abstract, ClassAccess.Synthetic, ClassAccess.Annotation, ClassAccess.Enum,
    ClassAccess.Module]

  const FIELD_ACCESS: seq<FieldAccess> := [
    FieldAccess.Public, FieldAccess.Private, FieldAccess.Protected, FieldAccess.Static,
    FieldAccess.Final, FieldAccess.Volatile, FieldAccess.Transient, FieldAccess.Synthetic,
    FieldAccess.Enum]

  const METHOD_ACCESS: seq<MethodAccess> := [
    MethodAccess.Public, MethodAccess.Private, MethodAccess.Protected, MethodAccess.Static,
    MethodAccess.Final, MethodAccess.Synchronized, MethodAccess.Bridge, MethodAccess.Varargs,
    MethodAccess.Native, MethodAccess.Abstract, MethodAccess.Strict, MethodAccess.Synthetic]

  /** The bits some flag declares. */
  const CLASS_BITS: bv16 := 0xF631
  const FIELD_BITS: bv16 := 0x50DF
  const METHOD_BITS: bv16 := 0x1DFF

  function ClassFlags(word: bv16): set<ClassAccess> { FlagSet(CLASS_ACCESS, ClassMask, word) }
  function FieldFlags(word: bv16): set<FieldAccess> { FlagSet(FIELD_ACCESS, FieldMask, word) }
  function MethodFlags(word: bv16): set<MethodAccess> { FlagSet(METHOD_ACCESS, MethodMask, word) }

  function ClassWord(s: set<ClassAccess>): bv16
  {
    Bit(ClassAccess.Public in s, 0x0001)
    | Bit(ClassAccess.Final in s, 0x0010)
    | Bit(ClassAccess.Super in s, 0x0020)
    | Bit(ClassAccess.Interface in s, 0x0200)
    | Bit(ClassAccess.Abstract in s, 0x0400)
    | Bit(ClassAccess.Synthetic in s, 0x1000)
    | Bit(ClassAccess.Annotation in s, 0x2000)
    | Bit(ClassAccess.Enum in s, 0x4000)
    | Bit(ClassAccess.Module in s, 0x8000)
  }

  function FieldWord(s: set<FieldAccess>): bv16
  {
    Bit(FieldAccess.Public in s, 0x0001)
    | Bit(FieldAccess.Private in s, 0x0002)
    | Bit(FieldAccess.Protected in s, 0x0004)
    | Bit(FieldAccess.Static in s, 0x0008)
    | Bit(FieldAccess.Final in s, 0x0010)
    | Bit(FieldAccess.Volatile in s, 0x0040)
    | Bit(FieldAccess.Transient in s, 0x0080)
    | Bit(FieldAccess.Synthetic in s, 0x1000)
    | Bit(FieldAccess.Enum in s, 0x4000)
  }

  function MethodWord(s: set<MethodAccess>): bv16
  {
    Bit(MethodAccess.Public in s, 0x0001)
    | Bit(MethodAccess.Private in s, 0x0002)
    | Bit(MethodAccess.Protected in s, 0x0004)
    | Bit(MethodAccess.Static in s, 0x0008)
    | Bit(MethodAccess.Final in s, 0x0010)
    | Bit(MethodAccess.Synchronized in s, 0x0020)
    | Bit(MethodAccess.Bridge in s, 0x0040)
    | Bit(MethodAccess.Varargs in s, 0x0080)
    | Bit(MethodAccess.Native in s, 0x0100)
    | Bit(MethodAccess.Abstract in s, 0x0400)
    | Bit(MethodAccess.Strict in s, 0x0800)
    | Bit(MethodAccess.Synthetic in s, 0x1000)
  }

  // ---------------------------------------------------------------------------
  // Every constructor is listed in its enumeration's entries

  lemma ClassAccessListed(a: ClassAccess)
    ensures a in CLASS_ACCESS
  {
    match a
    case Public => assert CLASS_ACCESS[0] == a;
    case Final => assert CLASS_ACCESS[1] == a;
    case Super => assert CLASS_ACCESS[2] == a;
    case Interface => assert CLASS_ACCESS[3] == a;
    case Abstract => assert CLASS_ACCESS[4] == a;
    case Synthetic => assert CLASS_ACCESS[5] == a;
    case Annotation => assert CLASS_ACCESS[6] == a;
    case Enum => assert CLASS_ACCESS[7] == a;
    case Module => assert CLASS_ACCESS[8] == a;
  }

  lemma FieldAccessListed(a: FieldAccess)
    ensures a in FIELD_ACCESS
  {
    match a
    case Public => assert FIELD_ACCESS[0] == a;
    case Private => assert FIELD_ACCESS[1] == a;
    case Protected => assert FIELD_ACCESS[2] == a;
    case Static => assert FIELD_ACCESS[3] == a;
    case Final => assert FIELD_ACCESS[4] == a;
    case Volatile => assert FIELD_ACCESS[5] == a;
    case Transient => assert FIELD_ACCESS[6] == a;
    case Synthetic => assert FIELD_ACCESS[7] == a;
    case Enum => assert FIELD_ACCESS[8] == a;
  }

  lemma MethodAccessListed(a: MethodAccess)
    ensures a in METHOD_ACCESS
  {
    match a
    case Public => assert METHOD_ACCESS[0] == a;
    case Private => assert METHOD_ACCESS[1] == a;
    case Protected => assert METHOD_ACCESS[2] == a;
    case Static => assert METHOD_ACCESS[3] == a;
    case Final => assert METHOD_ACCESS[4] == a;
    case Synchronized => assert METHOD_ACCESS[5] == a;
    case Bridge => assert METHOD_ACCESS[6] == a;
    case Varargs => assert METHOD_ACCESS[7] == a;
    case Native => assert METHOD_ACCESS[8] == a;
    case Abstract => assert METHOD_ACCESS[9] == a;
    case Strict => assert METHOD_ACCESS[10] == a;
    case Synthetic => assert METHOD_ACCESS[11] == a;
  }

  // ---------------------------------------------------------------------------
  // `fromMask` for each enumeration

  /** `ClassAccess.fromMask`: a flag is in the set exactly when its bit is set in the word. */
  method ClassAccessFromMask(word: bv16) returns (s: set<ClassAccess>)
    ensures s == ClassFlags(word)
    ensures forall a :: a in s <==> word & ClassMask(a) != 0
  {
    s := FromMask(CLASS_ACCESS, ClassMask, word);
    ClassFlagsMembers(word);
  }

  /** `FieldAccess.fromMask`. */
  method FieldAccessFromMask(word: bv16) returns (s: set<FieldAccess>)
    ensures s == FieldFlags(word)
    ensures forall a :: a in s <==> word & FieldMask(a) != 0
  {
    s := FromMask(FIELD_ACCESS, FieldMask, word);
    FieldFlagsMembers(word);
  }

  /** `MethodAccess.fromMask`. */
  method MethodAccessFromMask(word: bv16) returns (s: set<MethodAccess>)
    ensures s == MethodFlags(word)
    ensures forall a :: a in s <==> word & MethodMask(a) != 0
  {
    s := FromMask(METHOD_ACCESS, MethodMask, word);
    MethodFlagsMembers(word);
  }

  // ---------------------------------------------------------------------------
  // Membership, dropped bits and round trips

  /** A flag is in the decoded set exactly when the word has one of its mask bits. */
  lemma ClassFlagsMember(word: bv16, a: ClassAccess)
    ensures a in ClassFlags(word) <==> word & ClassMask(a) != 0
  {
    ClassAccessListed(a);
    FlagSetMember(CLASS_ACCESS, ClassMask, word, a);
    var m := ClassMask(a);
    assert HasBits(word, m) <==> word & m != 0;
  }

  /** Every class flag has exactly one mask bit. */
  lemma ClassMaskOneBit(a: ClassAccess)
    ensures ClassMask(a) != 0 && ClassMask(a) & (ClassMask(a) - 1) == 0
  {
    match a
    case Public =>
    case Final =>
    case Super =>
    case Interface =>
    case Abstract =>
    case Synthetic =>
    case Annotation =>
    case Enum =>
    case Module =>
  }

  /** A flag contributes to the re-encoded word exactly the bit it was decoded from. */
  lemma ClassFlagBit(word: bv16, a: ClassAccess)
    ensures Bit(a in ClassFlags(word), ClassMask(a)) == word & ClassMask(a)
  {
    ClassAccessListed(a);
    ClassMaskOneBit(a);
    FlagSetBit(CLASS_ACCESS, ClassMask, word, a);
  }

  lemma ClassFlagsMembers(word: bv16)
    ensures forall a :: a in ClassFlags(word) <==> word & ClassMask(a) != 0
  {
    forall a ensures a in ClassFlags(word) <==> word & ClassMask(a) != 0 {
      ClassFlagsMember(word, a);
    }
  }

  lemma FieldFlagsMember(word: bv16, a: FieldAccess)
    ensures a in FieldFlags(word) <==> word & FieldMask(a) != 0
  {
    FieldAccessListed(a);
    FlagSetMember(FIELD_ACCESS, FieldMask, word, a);
    var m := FieldMask(a);
    assert HasBits(word, m) <==> word & m != 0;
  }

  /** Every field flag has exactly one mask bit. */
  lemma FieldMaskOneBit(a: FieldAccess)
    ensures FieldMask(a) != 0 && FieldMask(a) & (FieldMask(a) - 1) == 0
  {
    match a
    case Public =>
    case Private =>
    case Protected =>
    case Static =>
    case Final =>
    case Volatile =>
    case Transient =>
    case Synthetic =>
    case Enum =>
  }

  /** A flag contributes to the re-encoded word exactly the bit it was decoded from. */
  lemma FieldFlagBit(word: bv16, a: FieldAccess)
    ensures Bit(a in FieldFlags(word), FieldMask(a)) == word & FieldMask(a)
  {
    FieldAccessListed(a);
    FieldMaskOneBit(a);
    FlagSetBit(FIELD_ACCESS, FieldMask, word, a);
  }

  lemma FieldFlagsMembers(word: bv16)
    ensures forall a :: a in FieldFlags(word) <==> word & FieldMask(a) != 0
  {
    forall a ensures a in FieldFlags(word) <==> word & FieldMask(a) != 0 {
      FieldFlagsMember(word, a);
    }
  }

  lemma MethodFlagsMember(word: bv16, a: MethodAccess)
    ensures a in MethodFlags(word) <==> word & MethodMask(a) != 0
  {
    MethodAccessListed(a);
    FlagSetMember(METHOD_ACCESS, MethodMask, word, a);
    var m := MethodMask(a);
    assert HasBits(word, m) <==> word & m != 0;
  }

  /** Every method flag has exactly one mask bit. */
  lemma MethodMaskOneBit(a: MethodAccess)
    ensures MethodMask(a) != 0 && MethodMask(a) & (MethodMask(a) - 1) == 0
  {
    match a
    case Public =>
    case Private =>
    case Protected =>
    case Static =>
    case Final =>
    case Synchronized =>
    case Bridge =>
    case Varargs =>
    case Native =>
    case Abstract =>
    case Strict =>
    case Synthetic =>
  }

  /** A flag contributes to the re-encoded word exactly the bit it was decoded from. */
  lemma MethodFlagBit(word: bv16, a: MethodAccess)
    ensures Bit(a in MethodFlags(word), MethodMask(a)) == word & MethodMask(a)
  {
    MethodAccessListed(a);
    MethodMaskOneBit(a);
    FlagSetBit(METHOD_ACCESS, MethodMask, word, a);
  }

  lemma MethodFlagsMembers(word: bv16)
    ensures forall a :: a in MethodFlags(word) <==> word & MethodMask(a) != 0
  {
    forall a ensures a in MethodFlags(word) <==> word & MethodMask(a) != 0 {
      MethodFlagsMember(word, a);
    }
  }

  /**
    Decoding drops the bits no flag declares: a word and its declared bits
    decode to the same set, and the word 0 decodes to no flags.
  */
  lemma ClassFlagsDropUndeclared(word: bv16)
    ensures ClassFlags(word) == ClassFlags(word & CLASS_BITS)
    ensures ClassFlags(0) == {}
  {
    forall a ensures a in ClassFlags(word) <==> a in ClassFlags(word & CLASS_BITS) {
      ClassFlagsMember(word, a);
      ClassFlagsMember(word & CLASS_BITS, a);
      ClassMaskDeclared(word, a);
    }
    forall a ensures a !in ClassFlags(0) {
      ClassFlagsMember(0, a);
    }
  }

  lemma FieldFlagsDropUndeclared(word: bv16)
    ensures FieldFlags(word) == FieldFlags(word & FIELD_BITS)
    ensures FieldFlags(0) == {}
  {
    forall a ensures a in FieldFlags(word) <==> a in FieldFlags(word & FIELD_BITS) {
      FieldFlagsMember(word, a);
      FieldFlagsMember(word & FIELD_BITS, a);
      FieldMaskDeclared(word, a);
    }
    forall a ensures a !in FieldFlags(0) {
      FieldFlagsMember(0, a);
    }
  }

  lemma MethodFlagsDropUndeclared(word: bv16)
    ensures MethodFlags(word) == MethodFlags(word & METHOD_BITS)
    ensures MethodFlags(0) == {}
  {
    forall a ensures a in MethodFlags(word) <==> a in MethodFlags(word & METHOD_BITS) {
      MethodFlagsMember(word, a);
      MethodFlagsMember(word & METHOD_BITS, a);
      MethodMaskDeclared(word, a);
    }
    forall a ensures a !in MethodFlags(0) {
      MethodFlagsMember(0, a);
    }
  }

  /** Each flag's mask lies within the declared bits. */
  lemma ClassMaskDeclared(word: bv16, a: ClassAccess)
    ensures word & ClassMask(a) != 0 <==> (word & CLASS_BITS) & ClassMask(a) != 0
  {
    match a
    case Public =>
    case Final =>
    case Super =>
    case Interface =>
    case Abstract =>
    case Synthetic =>
    case Annotation =>
    case Enum =>
    case Module =>
  }

  lemma FieldMaskDeclared(word: bv16, a: FieldAccess)
    ensures word & FieldMask(a) != 0 <==> (word & FIELD_BITS) & FieldMask(a) != 0
  {
    match a
    case Public =>
    case Private =>
    case Protected =>
    case Static =>
    case Final =>
    case Volatile =>
    case Transient =>
    case Synthetic =>
    case Enum =>
  }

  lemma MethodMaskDeclared(word: bv16, a: MethodAccess)
    ensures word & MethodMask(a) != 0 <==> (word & METHOD_BITS) & MethodMask(a) != 0
  {
    match a
    case Public =>
    case Private =>
    case Protected =>
    case Static =>
    case Final =>
    case Synchronized =>
    case Bridge =>
    case Varargs =>
    case Native =>
    case Abstract =>
    case Strict =>
    case Synthetic =>
  }

  /** The declared bits of a word, one flag at a time. */
  lemma ClassBitsSplit(word: bv16)
    ensures (word & 0x0001)
      | (word & 0x0010)
      | (word & 0x0020)
      | (word & 0x0200)
      | (word & 0x0400)
      | (word & 0x1000)
      | (word & 0x2000)
      | (word & 0x4000)
      | (word & 0x8000) == word & CLASS_BITS
  {
  }

  /** A set whose flags are exactly the declared bits set in `word` encodes to those bits. */
  lemma ClassWordOf(s: set<ClassAccess>, word: bv16)
    requires Bit(ClassAccess.Public in s, 0x0001) == word & 0x0001
    requires Bit(ClassAccess.Final in s, 0x0010) == word & 0x0010
    requires Bit(ClassAccess.Super in s, 0x0020) == word & 0x0020
    requires Bit(ClassAccess.Interface in s, 0x0200) == word & 0x0200
    requires Bit(ClassAccess.Abstract in s, 0x0400) == word & 0x0400
    requires Bit(ClassAccess.Synthetic in s, 0x1000) == word & 0x1000
    requires Bit(ClassAccess.Annotation in s, 0x2000) == word & 0x2000
    requires Bit(ClassAccess.Enum in s, 0x4000) == word & 0x4000
    requires Bit(ClassAccess.Module in s, 0x8000) == word & 0x8000
    ensures ClassWord(s) == word & CLASS_BITS
  {
    ClassBitsSplit(word);
  }

  /** Re-encoding a decoded set gives the word back without its undeclared bits. */
  lemma ClassWordOfFlags(word: bv16)
    ensures ClassWord(ClassFlags(word)) == word & CLASS_BITS
  {
    var s := ClassFlags(word);
    ClassFlagBit(word, ClassAccess.Public);
    ClassFlagBit(word, ClassAccess.Final);
    ClassFlagBit(word, ClassAccess.Super);
    ClassFlagBit(word, ClassAccess.Interface);
    ClassFlagBit(word, ClassAccess.Abstract);
    ClassFlagBit(word, ClassAccess.Synthetic);
    ClassFlagBit(word, ClassAccess.Annotation);
    ClassFlagBit(word, ClassAccess.Enum);
    ClassFlagBit(word, ClassAccess.Module);
    ClassWordOf(s, word);
  }

  /** The declared bits of a word, one flag at a time. */
  lemma FieldBitsSplit(word: bv16)
    ensures (word & 0x0001)
      | (word & 0x0002)
      | (word & 0x0004)
      | (word & 0x0008)
      | (word & 0x0010)
      | (word & 0x0040)
      | (word & 0x0080)
      | (word & 0x1000)
      | (word & 0x4000) == word & FIELD_BITS
  {
  }

  /** A set whose flags are exactly the declared bits set in `word` encodes to those bits. */
  lemma FieldWordOf(s: set<FieldAccess>, word: bv16)
    requires Bit(FieldAccess.Public in s, 0x0001) == word & 0x0001
    requires Bit(FieldAccess.Private in s, 0x0002) == word & 0x0002
    requires Bit(FieldAccess.Protected in s, 0x0004) == word & 0x0004
    requires Bit(FieldAccess.Static in s, 0x0008) == word & 0x0008
    requires Bit(FieldAccess.Final in s, 0x0010) == word & 0x0010
    requires Bit(FieldAccess.Volatile in s, 0x0040) == word & 0x0040
    requires Bit(FieldAccess.Transient in s, 0x0080) == word & 0x0080
    requires Bit(FieldAccess.Synthetic in s, 0x1000) == word & 0x1000
    requires Bit(FieldAccess.Enum in s, 0x4000) == word & 0x4000
    ensures FieldWord(s) == word & FIELD_BITS
  {
    FieldBitsSplit(word);
  }

  /** Re-encoding a decoded set gives the word back without its undeclared bits. */
  lemma FieldWordOfFlags(word: bv16)
    ensures FieldWord(FieldFlags(word)) == word & FIELD_BITS
  {
    var s := FieldFlags(word);
    FieldFlagBit(word, FieldAccess.Public);
    FieldFlagBit(word, FieldAccess.Private);
    FieldFlagBit(word, FieldAccess.Protected);
    FieldFlagBit(word, FieldAccess.Static);
    FieldFlagBit(word, FieldAccess.Final);
    FieldFlagBit(word, FieldAccess.Volatile);
    FieldFlagBit(word, FieldAccess.Transient);
    FieldFlagBit(word, FieldAccess.Synthetic);
    FieldFlagBit(word, FieldAccess.Enum);
    FieldWordOf(s, word);
  }

  /** The declared bits of a word, one flag at a time. */
  lemma MethodBitsSplit(word: bv16)
    ensures (word & 0x0001)
      | (word & 0x0002)
      | (word & 0x0004)
      | (word & 0x0008)
      | (word & 0x0010)
      | (word & 0x0020)
      | (word & 0x0040)
      | (word & 0x0080)
      | (word & 0x0100)
      | (word & 0x0400)
      | (word & 0x0800)
      | (word & 0x1000) == word & METHOD_BITS
  {
  }

  /** A set whose flags are exactly the declared bits set in `word` encodes to those bits. */
  lemma MethodWordOf(s: set<MethodAccess>, word: bv16)
    requires Bit(MethodAccess.Public in s, 0x0001) == word & 0x0001
    requires Bit(MethodAccess.Private in s, 0x0002) == word & 0x0002
    requires Bit(MethodAccess.Protected in s, 0x0004) == word & 0x0004
    requires Bit(MethodAccess.Static in s, 0x0008) == word & 0x0008
    requires Bit(MethodAccess.Final in s, 0x0010) == word & 0x0010
    requires Bit(MethodAccess.Synchronized in s, 0x0020) == word & 0x0020
    requires Bit(MethodAccess.Bridge in s, 0x0040) == word & 0x0040
    requires Bit(MethodAccess.Varargs in s, 0x0080) == word & 0x0080
    requires Bit(MethodAccess.Native in s, 0x0100) == word & 0x0100
    requires Bit(MethodAccess.Abstract in s, 0x0400) == word & 0x0400
    requires Bit(MethodAccess.Strict in s, 0x0800) == word & 0x0800
    requires Bit(MethodAccess.Synthetic in s, 0x1000) == word & 0x1000
    ensures MethodWord(s) == word & METHOD_BITS
  {
    MethodBitsSplit(word);
  }

  /** Re-encoding a decoded set gives the word back without its undeclared bits. */
  lemma MethodWordOfFlags(word: bv16)
    ensures MethodWord(MethodFlags(word)) == word & METHOD_BITS
  {
    var s := MethodFlags(word);
    MethodFlagBit(word, MethodAccess.Public);
    MethodFlagBit(word, MethodAccess.Private);
    MethodFlagBit(word, MethodAccess.Protected);
    MethodFlagBit(word, MethodAccess.Static);
    MethodFlagBit(word, MethodAccess.Final);
    MethodFlagBit(word, MethodAccess.Synchronized);
    MethodFlagBit(word, MethodAccess.Bridge);
    MethodFlagBit(word, MethodAccess.Varargs);
    MethodFlagBit(word, MethodAccess.Native);
    MethodFlagBit(word, MethodAccess.Abstract);
    MethodFlagBit(word, MethodAccess.Strict);
    MethodFlagBit(word, MethodAccess.Synthetic);
    MethodWordOf(s, word);
  }

  /** Every set of flags survives encoding to a word and decoding back. */
  lemma ClassFlagsOfWord(s: set<ClassAccess>)
    ensures ClassFlags(ClassWord(s)) == s
  {
    var w := ClassWord(s);
    ClassWordBitsLow(s);
    ClassWordBitsHigh(s);
    ClassFlagsMember(w, ClassAccess.Public);
    ClassFlagsMember(w, ClassAccess.Final);
    ClassFlagsMember(w, ClassAccess.Super);
    ClassFlagsMember(w, ClassAccess.Interface);
    ClassFlagsMember(w, ClassAccess.Abstract);
    ClassFlagsMember(w, ClassAccess.Synthetic);
    ClassFlagsMember(w, ClassAccess.Annotation);
    ClassFlagsMember(w, ClassAccess.Enum);
    ClassFlagsMember(w, ClassAccess.Module);
    forall a ensures a in ClassFlags(w) <==> a in s {
      match a
      case Public =>
      case Final =>
      case Super =>
      case Interface =>
      case Abstract =>
      case Synthetic =>
      case Annotation =>
      case Enum =>
      case Module =>
    }
  }

  lemma FieldFlagsOfWord(s: set<FieldAccess>)
    ensures FieldFlags(FieldWord(s)) == s
  {
    var w := FieldWord(s);
    FieldWordBitsLow(s);
    FieldWordBitsHigh(s);
    FieldFlagsMember(w, FieldAccess.Public);
    FieldFlagsMember(w, FieldAccess.Private);
    FieldFlagsMember(w, FieldAccess.Protected);
    FieldFlagsMember(w, FieldAccess.Static);
    FieldFlagsMember(w, FieldAccess.Final);
    FieldFlagsMember(w, FieldAccess.Volatile);
    FieldFlagsMember(w, FieldAccess.Transient);
    FieldFlagsMember(w, FieldAccess.Synthetic);
    FieldFlagsMember(w, FieldAccess.Enum);
    forall a ensures a in FieldFlags(w) <==> a in s {
      match a
      case Public =>
      case Private =>
      case Protected =>
      case Static =>
      case Final =>
      case Volatile =>
      case Transient =>
      case Synthetic =>
      case Enum =>
    }
  }

  lemma MethodFlagsOfWord(s: set<MethodAccess>)
    ensures MethodFlags(MethodWord(s)) == s
  {
    var w := MethodWord(s);
    MethodWordBitsLow(s);
    MethodWordBitsHigh(s);
    MethodFlagsMember(w, MethodAccess.Public);
    MethodFlagsMember(w, MethodAccess.Private);
    MethodFlagsMember(w, MethodAccess.Protected);
    MethodFlagsMember(w, MethodAccess.Static);
    MethodFlagsMember(w, MethodAccess.Final);
    MethodFlagsMember(w, MethodAccess.Synchronized);
    MethodFlagsMember(w, MethodAccess.Bridge);
    MethodFlagsMember(w, MethodAccess.Varargs);
    MethodFlagsMember(w, MethodAccess.Native);
    MethodFlagsMember(w, MethodAccess.Abstract);
    MethodFlagsMember(w, MethodAccess.Strict);
    MethodFlagsMember(w, MethodAccess.Synthetic);
    forall a ensures a in MethodFlags(w) <==> a in s {
      match a
      case Public =>
      case Private =>
      case Protected =>
      case Static =>
      case Final =>
      case Synchronized =>
      case Bridge =>
      case Varargs =>
      case Native =>
      case Abstract =>
      case Strict =>
      case Synthetic =>
    }
  }

  /** The first half of a word's flag bits, each set exactly when its flag is in the set (split to keep the bit-vector queries small). */
  lemma ClassWordBitsLow(s: set<ClassAccess>)
    ensures ClassWord(s) & 0x0001 != 0 <==> ClassAccess.Public in s
    ensures ClassWord(s) & 0x0010 != 0 <==> ClassAccess.Final in s
    ensures ClassWord(s) & 0x0020 != 0 <==> ClassAccess.Super in s
    ensures ClassWord(s) & 0x0200 != 0 <==> ClassAccess.Interface in s
    ensures ClassWord(s) & 0x0400 != 0 <==> ClassAccess.Abstract in s
  {
  }

  /** The second half of a word's flag bits. */
  lemma ClassWordBitsHigh(s: set<ClassAccess>)
    ensures ClassWord(s) & 0x1000 != 0 <==> ClassAccess.Synthetic in s
    ensures ClassWord(s) & 0x2000 != 0 <==> ClassAccess.Annotation in s
    ensures ClassWord(s) & 0x4000 != 0 <==> ClassAccess.Enum in s
    ensures ClassWord(s) & 0x8000 != 0 <==> ClassAccess.Module in s
  {
  }

  /** The first half of a word's flag bits, each set exactly when its flag is in the set (split to keep the bit-vector queries small). */
  lemma FieldWordBitsLow(s: set<FieldAccess>)
    ensures FieldWord(s) & 0x0001 != 0 <==> FieldAccess.Public in s
    ensures FieldWord(s) & 0x0002 != 0 <==> FieldAccess.Private in s
    ensures FieldWord(s) & 0x0004 != 0 <==> FieldAccess.Protected in s
    ensures FieldWord(s) & 0x0008 != 0 <==> FieldAccess.Static in s
    ensures FieldWord(s) & 0x0010 != 0 <==> FieldAccess.Final in s
  {
  }

  /** The second half of a word's flag bits. */
  lemma FieldWordBitsHigh(s: set<FieldAccess>)
    ensures FieldWord(s) & 0x0040 != 0 <==> FieldAccess.Volatile in s
    ensures FieldWord(s) & 0x0080 != 0 <==> FieldAccess.Transient in s
    ensures FieldWord(s) & 0x1000 != 0 <==> FieldAccess.Synthetic in s
    ensures FieldWord(s) & 0x4000 != 0 <==> FieldAccess.Enum in s
  {
  }

  /** The first half of a word's flag bits, each set exactly when its flag is in the set (split to keep the bit-vector queries small). */
  lemma MethodWordBitsLow(s: set<MethodAccess>)
    ensures MethodWord(s) & 0x0001 != 0 <==> MethodAccess.Public in s
    ensures MethodWord(s) & 0x0002 != 0 <==> MethodAccess.Private in s
    ensures MethodWord(s) & 0x0004 != 0 <==> MethodAccess.Protected in s
    ensures MethodWord(s) & 0x0008 != 0 <==> MethodAccess.Static in s
    ensures MethodWord(s) & 0x0010 != 0 <==> MethodAccess.Final in s
    ensures MethodWord(s) & 0x0020 != 0 <==> MethodAccess.Synchronized in s
  {
  }

  /** The second half of a word's flag bits. */
  lemma MethodWordBitsHigh(s: set<MethodAccess>)
    ensures MethodWord(s) & 0x0040 != 0 <==> MethodAccess.Bridge in s
    ensures MethodWord(s) & 0x0080 != 0 <==> MethodAccess.Varargs in s
    ensures MethodWord(s) & 0x0100 != 0 <==> MethodAccess.Native in s
    ensures MethodWord(s) & 0x0400 != 0 <==> MethodAccess.Abstract in s
    ensures MethodWord(s) & 0x0800 != 0 <==> MethodAccess.Strict in s
    ensures MethodWord(s) & 0x1000 != 0 <==> MethodAccess.Synthetic in s
  {
  }
}
