/** The opcode classification of the Code attribute's debug listing: the
    sixteen cases of the listing's switch are listed with the constant-pool
    entry their operand names, every other instruction with its length only.
    invokedynamic (0xba), which chapter 6 of the Java Virtual Machine
    Specification also gives a constant-pool operand, is not among them. */
module Opcodes {
  import opened Bytes

  /** The switch of the listing: true for the sixteen opcodes listed with
      their constant-pool entry, which are exactly the opcodes of the
      instructions MnemonicOf names. */
  predicate ReferencesConstantPool(opcode: byte)
    ensures ReferencesConstantPool(opcode) <==> MnemonicOf(opcode).Some?
  {
    || opcode == 0x12 || opcode == 0x13 || opcode == 0x14
    || opcode == 0xb2 || opcode == 0xb3 || opcode == 0xb4 || opcode == 0xb5
    || opcode == 0xb6 || opcode == 0xb7 || opcode == 0xb8 || opcode == 0xb9
    || opcode == 0xbb || opcode == 0xbd || opcode == 0xc0 || opcode == 0xc1
    || opcode == 0xc5
  }

  /** How the listing shows one instruction. */
  datatype Listing = WithConstantPoolEntry | WithLength

  /** An instruction is listed with its entry exactly when it is one of the
      sixteen named instructions. */
  function ListingOf(opcode: byte): (l: Listing)
    ensures l == WithConstantPoolEntry <==> exists m: Mnemonic :: OpcodeOf(m) == opcode
  {
    ConstantPoolOpcodes(opcode);
    if ReferencesConstantPool(opcode) then WithConstantPoolEntry else WithLength
  }

  /** The instructions the switch names, by their mnemonics. */
  datatype Mnemonic =
    | Ldc | LdcW | Ldc2W
    | Getstatic | Putstatic | Getfield | Putfield
    | Invokevirtual | Invokespecial | Invokestatic | Invokeinterface
    | New | Anewarray | Checkcast | Instanceof | Multianewarray

  /** Each mnemonic's opcode, as chapter 6 of the Java Virtual Machine
      Specification assigns it. */
  function OpcodeOf(m: Mnemonic): byte {
    match m
    case Ldc => 0x12
    case LdcW => 0x13
    case Ldc2W => 0x14
    case Getstatic => 0xb2
    case Putstatic => 0xb3
    case Getfield => 0xb4
    case Putfield => 0xb5
    case Invokevirtual => 0xb6
    case Invokespecial => 0xb7
    case Invokestatic => 0xb8
    case Invokeinterface => 0xb9
    case New => 0xbb
    case Anewarray => 0xbd
    case Checkcast => 0xc0
    case Instanceof => 0xc1
    case Multianewarray => 0xc5
  }

  /** The mnemonic of an opcode the switch names, and None for the rest. */
  function MnemonicOf(opcode: byte): (m: Option<Mnemonic>)
    ensures m.Some? ==> OpcodeOf(m.value) == opcode
  {
    if opcode == 0x12 then Some(Ldc)
    else if opcode == 0x13 then Some(LdcW)
    else if opcode == 0x14 then Some(Ldc2W)
    else if opcode == 0xb2 then Some(Getstatic)
    else if opcode == 0xb3 then Some(Putstatic)
    else if opcode == 0xb4 then Some(Getfield)
    else if opcode == 0xb5 then Some(Putfield)
    else if opcode == 0xb6 then Some(Invokevirtual)
    else if opcode == 0xb7 then Some(Invokespecial)
    else if opcode == 0xb8 then Some(Invokestatic)
    else if opcode == 0xb9 then Some(Invokeinterface)
    else if opcode == 0xbb then Some(New)
    else if opcode == 0xbd then Some(Anewarray)
    else if opcode == 0xc0 then Some(Checkcast)
    else if opcode == 0xc1 then Some(Instanceof)
    else if opcode == 0xc5 then Some(Multianewarray)
    else None
  }

  /** The switch names exactly the opcodes of the sixteen instructions. */
  lemma {:induction false} ConstantPoolOpcodes(opcode: byte)
    ensures ReferencesConstantPool(opcode) <==> exists m: Mnemonic :: OpcodeOf(m) == opcode
  {
    if ReferencesConstantPool(opcode) {
      assert OpcodeOf(MnemonicOf(opcode).value) == opcode;
    }
  }

  /** Distinct instructions have distinct opcodes, so MnemonicOf inverts OpcodeOf. */
  lemma {:induction false} MnemonicRoundTrip(m: Mnemonic)
    ensures MnemonicOf(OpcodeOf(m)) == Some(m)
  {
  }

  /** invokedynamic is listed with its length only. */
  lemma {:induction false} InvokedynamicByLength()
    ensures ListingOf(0xba) == WithLength
  {
  }

  /** The sixteen opcodes, and no others. */
  lemma {:induction false} SixteenOpcodes()
    ensures (set opcode: byte | ReferencesConstantPool(opcode))
         == {0x12, 0x13, 0x14, 0xb2, 0xb3, 0xb4, 0xb5, 0xb6, 0xb7, 0xb8, 0xb9, 0xbb, 0xbd, 0xc0, 0xc1, 0xc5}
  {
  }
}
