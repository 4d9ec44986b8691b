/** A reference encoder for the instructions the decoder recognises, written
    from the 8086 machine-instruction encoding tables (opcode, then the
    mod-reg-r/m byte, then a little-endian displacement, then a little-endian
    immediate), and the round trip that ties it to `Decode`. */
module Encoding {
  import opened Basics
  import opened Cursor
  import opened Operands
  import opened Instructions
  import opened Decoder

  /** The operation selectors of the reg/mem and accumulator forms the
      decoder dispatches on: 0x00 (add), 0x28 (sub) and 0x38 (cmp). */
  predicate DispatchedOperation(op: Octal) { op == 0 || op == 5 || op == 7 }

  /** A memory operand some encoding produces: no register mode, no
      displacement in mode 00 except for the direct address, and a byte
      displacement in mode 01. */
  predicate EncodableAddress(ea: EffectiveAddress)
  {
    && ea.mode != RegisterToRegister
    && (ea.mode == Memory && ea.index != 6 ==> ea.displacement == 0)
    && (ea.mode == MemoryDisp8 ==> ea.displacement < 0x100)
  }

  /** A register of the given width, or an encodable memory operand. */
  predicate OperandOfWidth(p: Place, wordMode: bool)
  {
    match p
    case Byte(_) => !wordMode
    case Word(_) => wordMode
    case Address(ea) => EncodableAddress(ea)
  }

  predicate IsRegister(p: Place) { p.Byte? || p.Word? }

  /** The 3-bit code of a register operand. */
  function RegisterCode(p: Place): Octal
    requires IsRegister(p)
  {
    if p.Byte? then ByteCode(p.byteReg) else WordCode(p.wordReg)
  }

  function ModRmByte(mode: nat, reg: Octal, rm: Octal): u8
    requires mode < 4
  {
    mode * 64 + reg * 8 + rm
  }

  /** `value` as `width` little-endian bytes. */
  function LittleEndianBytes(value: nat, width: nat): (bs: seq<u8>)
    requires width <= 2 && value < Pow256(width)
    ensures |bs| == width && LittleEndian(bs) == value
  {
    if width == 0 then []
    else if width == 1 then [value]
    else
      var bs: seq<u8> := [value % 0x100, value / 0x100];
      assert bs[1..][1..] == [];
      bs
  }

  /** The mod-reg-r/m byte for operand `p` with `reg` in the reg field,
      followed by the displacement the operand needs. */
  function RmBytes(p: Place, reg: Octal): (bs: seq<u8>)
    requires p.Address? ==> EncodableAddress(p.ea)
    ensures |bs| >= 1
  {
    match p
    case Byte(r) => [ModRmByte(3, reg, ByteCode(r))]
    case Word(r) => [ModRmByte(3, reg, WordCode(r))]
    case Address(ea) =>
      var width := DisplacementWidth(ea.mode, ea.index);
      [ModRmByte(ModeCode(ea.mode), reg, ea.index)] + LittleEndianBytes(ea.displacement, width)
  }

  lemma ModRmByteFields(mode: nat, reg: Octal, rm: Octal)
    requires mode < 4
    ensures var b := ModRmByte(mode, reg, rm); b / 64 == mode && b / 8 % 8 == reg && b % 8 == rm
  {
    ModRegRmFields(ModRmByte(mode, reg, rm), mode, reg, rm);
  }

  /** A register code read back at its own width names the same register. */
  lemma RegisterPlaceOfCode(p: Place)
    requires IsRegister(p)
    ensures RegisterPlace(p.Word?, RegisterCode(p)) == p
  {
    match p
    case Byte(r) => FromOctalInvertsCode(r, AX);
    case Word(r) => FromOctalInvertsCode(AL, r);
  }

  /** An operand read back from its encoding, whatever follows it. */
  lemma RmTargetRoundTrip(wordMode: bool, reg: Octal, p: Place, rest: seq<u8>)
    requires OperandOfWidth(p, wordMode)
    ensures RmTarget(wordMode, RmBytes(p, reg) + rest) == Some((reg, p, |RmBytes(p, reg)|))
  {
    if IsRegister(p) {
      RegisterRmRoundTrip(reg, p, rest);
    } else {
      AddressRmRoundTrip(wordMode, reg, p.ea, rest);
    }
  }

  lemma RegisterRmRoundTrip(reg: Octal, p: Place, rest: seq<u8>)
    requires IsRegister(p)
    ensures RmTarget(p.Word?, RmBytes(p, reg) + rest) == Some((reg, p, 1))
  {
    var memory := RmBytes(p, reg) + rest;
    var b := ModRmByte(3, reg, RegisterCode(p));
    assert RmBytes(p, reg) == [b];
    assert Head(memory) == b;
    ModRmByteFields(3, reg, RegisterCode(p));
    assert ModeOf(b) == RegisterToRegister;
    RegisterPlaceOfCode(p);
    assert RmOperand(b % 8, ModeOf(b), p.Word?, memory[1..]) == Some((p, 0));
  }

  lemma AddressRmRoundTrip(wordMode: bool, reg: Octal, ea: EffectiveAddress, rest: seq<u8>)
    requires EncodableAddress(ea)
    ensures RmTarget(wordMode, RmBytes(Address(ea), reg) + rest) == Some((reg, Address(ea), |RmBytes(Address(ea), reg)|))
  {
    var width := DisplacementWidth(ea.mode, ea.index);
    var displacement := LittleEndianBytes(ea.displacement, width);
    var b := ModRmByte(ModeCode(ea.mode), reg, ea.index);
    var memory := RmBytes(Address(ea), reg) + rest;
    assert memory == [b] + (displacement + rest);
    assert Head(memory) == b;
    ModRmByteFields(ModeCode(ea.mode), reg, ea.index);
    ModeFromDiscriminantInvertsCode(ea.mode);
    assert ModeOf(b) == ea.mode;
    assert memory[1..][..width] == displacement;
    assert RmOperand(b % 8, ModeOf(b), wordMode, memory[1..]) == Some((Address(ea), width));
  }

  /** The instructions the encoder covers: every shape the decoder can
      produce from an opcode it dispatches on, with operands that fit. */
  predicate Encodable(i: Instruction)
  {
    match i
    case Arithmetic(op, target, source) => DispatchedOperation(op) && OperandPair(target, source)
    case ArithmeticImmediate(op, target, immediate) =>
      DispatchedOperation(op) && (target == Word(AX) || (target == Byte(AL) && immediate < 0x100))
    case ArithmeticImmediateToMemory(wordMode, _, target, immediate) =>
      OperandOfWidth(target, wordMode) && (!wordMode ==> immediate < 0x100)
    case Jump(marker, _) => IsJump(marker)
    case Loop(marker, _) => IsLoop(marker)
    case Mov(target, source) => OperandPair(target, source)
    case MovImmediate(target, immediate) => IsRegister(target) && (target.Byte? ==> immediate < 0x100)
    case MovImmediateToMemory(wordMode, target, immediate) =>
      OperandOfWidth(target, wordMode) && (!wordMode ==> immediate < 0x100)
    case Unrecognized(byte) => !IsRecognized(byte)
  }

  /** A register and a register of the same width or a memory operand, in either order. */
  predicate OperandPair(target: Place, source: Place)
  {
    || (IsRegister(target) && OperandOfWidth(source, target.Word?))
    || (target.Address? && IsRegister(source) && OperandOfWidth(target, source.Word?))
  }

  function Bit(b: bool): nat { if b then 1 else 0 }

  /** The reg/mem forms: the register goes in the reg field, and the `d` bit
      says whether it is the target. */
  function RegMemBytes(base: u8, target: Place, source: Place): (bs: seq<u8>)
    requires base % 4 == 0 && base <= 0xFC && OperandPair(target, source)
  {
    if IsRegister(target) then
      [base + 2 + Bit(target.Word?)] + RmBytes(source, RegisterCode(target))
    else
      [base + Bit(source.Word?)] + RmBytes(target, RegisterCode(source))
  }

  function Encode(i: Instruction): (bs: seq<u8>)
    requires Encodable(i)
    ensures |bs| >= 1
  {
    match i
    case Arithmetic(op, target, source) => RegMemBytes(op * 8, target, source)
    case ArithmeticImmediate(op, target, immediate) =>
      var wordMode := target.Word?;
      [op * 8 + 4 + Bit(wordMode)] + LittleEndianBytes(immediate, ImmediateWidth(wordMode))
    case ArithmeticImmediateToMemory(wordMode, op, target, immediate) =>
      [0x80 + Bit(wordMode)] + RmBytes(target, op) + LittleEndianBytes(immediate, ImmediateWidth(wordMode))
    case Jump(marker, offset) => [marker, Unsigned8(offset)]
    case Loop(marker, offset) => [marker, Unsigned8(offset)]
    case Mov(target, source) => RegMemBytes(0x88, target, source)
    case MovImmediate(target, immediate) =>
      var wordMode := target.Word?;
      [0xB0 + 8 * Bit(wordMode) + RegisterCode(target)] + LittleEndianBytes(immediate, ImmediateWidth(wordMode))
    case MovImmediateToMemory(wordMode, target, immediate) =>
      [0xC6 + Bit(wordMode)] + RmBytes(target, 0) + LittleEndianBytes(immediate, ImmediateWidth(wordMode))
    case Unrecognized(byte) => [byte]
  }

  /** With the `d` bit set, the reg field names the target. */
  lemma RegisterTargetOperands(target: Place, source: Place, rest: seq<u8>)
    requires IsRegister(target) && OperandOfWidth(source, target.Word?)
    ensures var bs := RmBytes(source, RegisterCode(target));
      RegMemOperands(target.Word?, true, bs + rest) == Some((target, source, |bs|))
  {
    RmTargetRoundTrip(target.Word?, RegisterCode(target), source, rest);
    RegisterPlaceOfCode(target);
  }

  /** With the `d` bit clear, the reg field names the source. */
  lemma AddressTargetOperands(target: Place, source: Place, rest: seq<u8>)
    requires target.Address? && IsRegister(source) && OperandOfWidth(target, source.Word?)
    ensures var bs := RmBytes(target, RegisterCode(source));
      RegMemOperands(source.Word?, false, bs + rest) == Some((target, source, |bs|))
  {
    RmTargetRoundTrip(source.Word?, RegisterCode(source), target, rest);
    RegisterPlaceOfCode(source);
  }

  /** The reg/mem forms read back their operands after the opcode byte. */
  lemma RegMemRoundTrip(base: u8, target: Place, source: Place, rest: seq<u8>)
    requires base % 4 == 0 && base <= 0xFC && OperandPair(target, source)
    ensures var bs := RegMemBytes(base, target, source);
      && bs[0] / 4 == base / 4
      && RegMemOperands(bs[0] % 2 == 1, bs[0] / 2 % 2 == 1, (bs + rest)[1..]) == Some((target, source, |bs| - 1))
  {
    if IsRegister(target) {
      RegisterTargetRoundTrip(base, target, source, rest);
    } else {
      AddressTargetRoundTrip(base, target, source, rest);
    }
  }

  lemma RegisterTargetRoundTrip(base: u8, target: Place, source: Place, rest: seq<u8>)
    requires base % 4 == 0 && base <= 0xFC && IsRegister(target) && OperandOfWidth(source, target.Word?)
    ensures var bs := RegMemBytes(base, target, source);
      && bs[0] / 4 == base / 4
      && RegMemOperands(bs[0] % 2 == 1, bs[0] / 2 % 2 == 1, (bs + rest)[1..]) == Some((target, source, |bs| - 1))
  {
    var operand := RmBytes(source, RegisterCode(target));
    var b: u8 := base + 2 * Bit(true) + Bit(target.Word?);
    assert RegMemBytes(base, target, source) == [b] + operand;
    RegMemOpcodeFields(base, true, target.Word?);
    TailAfterOpcode(b, operand, rest);
    RegisterTargetOperands(target, source, rest);
  }

  lemma AddressTargetRoundTrip(base: u8, target: Place, source: Place, rest: seq<u8>)
    requires base % 4 == 0 && base <= 0xFC
    requires target.Address? && IsRegister(source) && OperandOfWidth(target, source.Word?)
    ensures var bs := RegMemBytes(base, target, source);
      && bs[0] / 4 == base / 4
      && RegMemOperands(bs[0] % 2 == 1, bs[0] / 2 % 2 == 1, (bs + rest)[1..]) == Some((target, source, |bs| - 1))
  {
    var operand := RmBytes(target, RegisterCode(source));
    var b: u8 := base + 2 * Bit(false) + Bit(source.Word?);
    assert RegMemBytes(base, target, source) == [b] + operand;
    RegMemOpcodeFields(base, false, source.Word?);
    TailAfterOpcode(b, operand, rest);
    AddressTargetOperands(target, source, rest);
  }

  /** The opcode byte of a reg/mem form keeps the operation in bits 7-2 and
      carries `d` in bit 1 and `w` in bit 0. */
  lemma RegMemOpcodeFields(base: u8, d: bool, w: bool)
    requires base % 4 == 0 && base <= 0xFC
    ensures var b := base + 2 * Bit(d) + Bit(w);
      b <= 0xFF && b / 4 == base / 4 && (b % 2 == 1 <==> w) && (b / 2 % 2 == 1 <==> d)
  {
    var q := base / 4;
    var b := base + 2 * Bit(d) + Bit(w);
    assert b == 4 * q + 2 * Bit(d) + Bit(w);
    assert b / 2 == 2 * q + Bit(d);
  }

  lemma TailAfterOpcode(b: u8, operand: seq<u8>, rest: seq<u8>)
    ensures ([b] + operand + rest)[1..] == operand + rest
  {
  }

  /** Decoding is the opcode byte followed by what its arm reads. */
  lemma DecodeAfterOpcode(memory: seq<u8>, n: nat, i: Instruction)
    requires |memory| > 0 && AfterOpcode(memory[0], memory[1..]) == Some((n, i))
    ensures Decode(memory) == Decoded(1 + n, i)
  {
  }

  lemma ArithmeticRoundTrip(op: Octal, target: Place, source: Place, rest: seq<u8>)
    requires Encodable(Arithmetic(op, target, source))
    ensures Decode(Encode(Arithmetic(op, target, source)) + rest)
         == Decoded(|Encode(Arithmetic(op, target, source))|, Arithmetic(op, target, source))
  {
    var bs := Encode(Arithmetic(op, target, source));
    RegMemRoundTrip(op * 8, target, source, rest);
    ArithmeticOpcode(op, bs[0]);
    assert (bs + rest)[0] == bs[0];
    DecodeArithmeticRegMem(bs + rest, target, source, |bs| - 1);
  }

  /** An opcode byte with add, sub or cmp in bits 5-3 and 0 in bit 2 is one
      of the reg/mem arithmetic forms, and names that operation. */
  lemma ArithmeticOpcode(op: Octal, b: u8)
    requires DispatchedOperation(op) && b / 4 == op * 8 / 4
    ensures IsArithmeticRegMem(b) && b / 8 % 8 == op
  {
  }

  /** 0x00-0x03, 0x28-0x2B, 0x38-0x3B decode through `target_source`. */
  lemma DecodeArithmeticRegMem(memory: seq<u8>, target: Place, source: Place, n: nat)
    requires |memory| > 0 && IsArithmeticRegMem(memory[0])
    requires RegMemOperands(memory[0] % 2 == 1, memory[0] / 2 % 2 == 1, memory[1..]) == Some((target, source, n))
    ensures Decode(memory) == Decoded(1 + n, Arithmetic(memory[0] / 8 % 8, target, source))
  {
    DecodeAfterOpcode(memory, n, Arithmetic(memory[0] / 8 % 8, target, source));
  }

  /** 0x88-0x8B decode through `target_source`. */
  lemma DecodeMovRegMem(memory: seq<u8>, target: Place, source: Place, n: nat)
    requires |memory| > 0 && 0x88 <= memory[0] <= 0x8B
    requires RegMemOperands(memory[0] % 2 == 1, memory[0] / 2 % 2 == 1, memory[1..]) == Some((target, source, n))
    ensures Decode(memory) == Decoded(1 + n, Mov(target, source))
  {
    assert AfterOpcode(memory[0], memory[1..]) == MovRegMemForm(memory[0], memory[1..]);
    DecodeAfterOpcode(memory, n, Mov(target, source));
  }

  lemma MovRoundTrip(target: Place, source: Place, rest: seq<u8>)
    requires Encodable(Mov(target, source))
    ensures Decode(Encode(Mov(target, source)) + rest) == Decoded(|Encode(Mov(target, source))|, Mov(target, source))
  {
    var bs := Encode(Mov(target, source));
    RegMemRoundTrip(0x88, target, source, rest);
    assert (bs + rest)[0] == bs[0];
    assert 0x88 <= bs[0] <= 0x8B;
    DecodeMovRegMem(bs + rest, target, source, |bs| - 1);
  }

  lemma AccumulatorRoundTrip(op: Octal, target: Place, immediate: u16, rest: seq<u8>)
    requires Encodable(ArithmeticImmediate(op, target, immediate))
    ensures var i := ArithmeticImmediate(op, target, immediate);
      Decode(Encode(i) + rest) == Decoded(|Encode(i)|, i)
  {
    var i := ArithmeticImmediate(op, target, immediate);
    var bs := Encode(i);
    var width := ImmediateWidth(target.Word?);
    assert (bs + rest)[1..][..width] == bs[1..];
    assert IsArithmeticAccumulator(bs[0]) && bs[0] / 8 % 8 == op && (bs[0] % 2 == 1 <==> target.Word?);
    DecodeAfterOpcode(bs + rest, width, i);
  }

  lemma MovImmediateRoundTrip(target: Place, immediate: u16, rest: seq<u8>)
    requires Encodable(MovImmediate(target, immediate))
    ensures var i := MovImmediate(target, immediate);
      Decode(Encode(i) + rest) == Decoded(|Encode(i)|, i)
  {
    var i := MovImmediate(target, immediate);
    var bs := Encode(i);
    var width := ImmediateWidth(target.Word?);
    assert (bs + rest)[1..][..width] == bs[1..];
    assert IsMovImmediate(bs[0]) && bs[0] % 8 == RegisterCode(target) && (bs[0] / 8 % 2 == 1 <==> target.Word?);
    RegisterPlaceOfCode(target);
    DecodeAfterOpcode(bs + rest, width, i);
  }

  lemma ImmediateToOperandRoundTrip(opcode: u8, wordMode: bool, reg: Octal, target: Place, immediate: nat, rest: seq<u8>)
    requires OperandOfWidth(target, wordMode) && immediate < Pow256(ImmediateWidth(wordMode))
    ensures var bs := [opcode] + RmBytes(target, reg) + LittleEndianBytes(immediate, ImmediateWidth(wordMode));
      var n := |RmBytes(target, reg)|;
      && RmTarget(wordMode, (bs + rest)[1..]) == Some((reg, target, n))
      && (bs + rest)[1..][n..n + ImmediateWidth(wordMode)] == LittleEndianBytes(immediate, ImmediateWidth(wordMode))
      && |bs| == 1 + n + ImmediateWidth(wordMode)
  {
    var operand := RmBytes(target, reg);
    var imm := LittleEndianBytes(immediate, ImmediateWidth(wordMode));
    var bs := [opcode] + operand + imm;
    assert (bs + rest)[1..] == operand + (imm + rest);
    assert (operand + (imm + rest))[|operand|..|operand| + |imm|] == imm;
    RmTargetRoundTrip(wordMode, reg, target, imm + rest);
  }

  lemma ArithmeticImmediateRoundTrip(wordMode: bool, op: Octal, target: Place, immediate: u16, rest: seq<u8>)
    requires Encodable(ArithmeticImmediateToMemory(wordMode, op, target, immediate))
    ensures var i := ArithmeticImmediateToMemory(wordMode, op, target, immediate);
      Decode(Encode(i) + rest) == Decoded(|Encode(i)|, i)
  {
    var i := ArithmeticImmediateToMemory(wordMode, op, target, immediate);
    var opcode: u8 := 0x80 + Bit(wordMode);
    RegMemOpcodeFields(0x80, false, wordMode);
    ImmediateFormRoundTrip(opcode, wordMode, op, target, immediate, rest, i, Encode(i));
  }

  lemma MovImmediateToMemoryRoundTrip(wordMode: bool, target: Place, immediate: u16, rest: seq<u8>)
    requires Encodable(MovImmediateToMemory(wordMode, target, immediate))
    ensures var i := MovImmediateToMemory(wordMode, target, immediate);
      Decode(Encode(i) + rest) == Decoded(|Encode(i)|, i)
  {
    var i := MovImmediateToMemory(wordMode, target, immediate);
    var opcode: u8 := 0xC6 + Bit(wordMode);
    RegMemOpcodeFields(0xC4, true, wordMode);
    ImmediateFormRoundTrip(opcode, wordMode, 0, target, immediate, rest, i, Encode(i));
  }

  /** The immediate forms: opcode, r/m operand, immediate, read back. */
  lemma ImmediateFormRoundTrip(opcode: u8, wordMode: bool, op: Octal, target: Place, immediate: nat, rest: seq<u8>,
                               i: Instruction, bs: seq<u8>)
    requires OperandOfWidth(target, wordMode) && immediate < Pow256(ImmediateWidth(wordMode))
    requires IsArithmeticImmediate(opcode) || IsMovImmediateToMemory(opcode)
    requires wordMode == (opcode % 2 == 1) && !(IsArithmeticImmediate(opcode) && opcode / 2 % 2 == 1)
    requires i == if IsArithmeticImmediate(opcode) then ArithmeticImmediateToMemory(wordMode, op, target, immediate)
      else MovImmediateToMemory(wordMode, target, immediate)
    requires bs == [opcode] + RmBytes(target, op) + LittleEndianBytes(immediate, ImmediateWidth(wordMode))
    ensures Decode(bs + rest) == Decoded(|bs|, i)
  {
    ImmediateToOperandRoundTrip(opcode, wordMode, op, target, immediate, rest);
    ImmediateToOperandDecodes(bs + rest, wordMode, op, target, |RmBytes(target, op)|, ImmediateWidth(wordMode), immediate, i);
  }

  /** Decoding an immediate form once its r/m operand and immediate are known. */
  lemma ImmediateToOperandDecodes(memory: seq<u8>, wordMode: bool, op: Octal, target: Place, n: nat, width: nat,
                                  immediate: nat, i: Instruction)
    requires |memory| > 0 && (IsArithmeticImmediate(memory[0]) || IsMovImmediateToMemory(memory[0]))
    requires wordMode == (memory[0] % 2 == 1)
    requires width == if wordMode && !(IsArithmeticImmediate(memory[0]) && memory[0] / 2 % 2 == 1) then 2 else 1
    requires RmTarget(wordMode, memory[1..]) == Some((op, target, n))
    requires |memory| >= 1 + n + width && LittleEndian(memory[1..][n..n + width]) == immediate
    requires i == if IsArithmeticImmediate(memory[0]) then ArithmeticImmediateToMemory(wordMode, op, target, immediate)
      else MovImmediateToMemory(wordMode, target, immediate)
    ensures Decode(memory) == Decoded(1 + n + width, i)
  {
    ImmediateFormAfterOpcode(memory[0], memory[1..]);
    ImmediateFormCases(memory[0], memory[1..], wordMode, width, op, target, n);
    DecodeThroughAfterOpcode(memory);
  }

  /** Decoding an encoding gives back the instruction and its exact length,
      whatever bytes follow. */
  lemma EncodeDecode(i: Instruction, rest: seq<u8>)
    requires Encodable(i)
    ensures Decode(Encode(i) + rest) == Decoded(|Encode(i)|, i)
  {
    match i
    case Arithmetic(op, target, source) => ArithmeticRoundTrip(op, target, source, rest);
    case Mov(target, source) => MovRoundTrip(target, source, rest);
    case ArithmeticImmediate(op, target, immediate) => AccumulatorRoundTrip(op, target, immediate, rest);
    case MovImmediate(target, immediate) => MovImmediateRoundTrip(target, immediate, rest);
    case ArithmeticImmediateToMemory(wordMode, op, target, immediate) =>
      ArithmeticImmediateRoundTrip(wordMode, op, target, immediate, rest);
    case MovImmediateToMemory(wordMode, target, immediate) =>
      MovImmediateToMemoryRoundTrip(wordMode, target, immediate, rest);
    case Jump(marker, offset) =>
      SignedUnsignedInverse(0, offset);
      DecodeAfterOpcode(Encode(i) + rest, 1, i);
    case Loop(marker, offset) =>
      SignedUnsignedInverse(0, offset);
      DecodeAfterOpcode(Encode(i) + rest, 1, i);
    case Unrecognized(byte) =>
      DecodeAfterOpcode(Encode(i) + rest, 0, i);
  }

  /** Two encodable instructions never share an encoding. */
  lemma EncodeInjective(i: Instruction, j: Instruction)
    requires Encodable(i) && Encodable(j) && Encode(i) == Encode(j)
    ensures i == j
  {
    EncodeDecode(i, []);
    EncodeDecode(j, []);
    assert Encode(i) + [] == Encode(j) + [];
  }

  /** The converse of `EncodeDecode` does not hold byte for byte: the d bit
      lets a register-to-register form name either operand in its reg field,
      so `01 C8` and `03 C1` both decode to `add ax, cx`, and no encoder can
      give back both. */
  lemma TwoEncodingsOfAddAxCx()
    ensures Decode([0x01, 0xC8]) == Decoded(2, Arithmetic(0, Word(AX), Word(CX)))
    ensures Decode([0x03, 0xC1]) == Decoded(2, Arithmetic(0, Word(AX), Word(CX)))
  {
    RegisterToRegisterLayout([0x01, 0xC8]);
    RegisterToRegisterLayout([0x03, 0xC1]);
  }

  /** Every r/m operand the decoder reads has the width it was asked for, or is
      a memory operand whose displacement fits the bytes it was read from. */
  lemma RmTargetEncodable(wordMode: bool, memory: seq<u8>)
    requires RmTarget(wordMode, memory).Some?
    ensures OperandOfWidth(RmTarget(wordMode, memory).value.1, wordMode)
  {
    var b := Head(memory);
    var bytes := memory[AdvanceCount(memory)..];
    RmOperandConsumption(b % 8, ModeOf(b), wordMode, bytes);
    if ModeOf(b) != RegisterToRegister {
      var n := DisplacementWidth(ModeOf(b), b % 8);
      assert LittleEndian(bytes[..n]) < Pow256(n);
    }
  }

  /** The two operands of a decoded reg/mem form pair a register with an
      operand of its width. */
  lemma RegMemEncodable(wordMode: bool, destMode: bool, memory: seq<u8>)
    requires RegMemOperands(wordMode, destMode, memory).Some?
    ensures var (target, source, _) := RegMemOperands(wordMode, destMode, memory).value; OperandPair(target, source)
  {
    RmTargetEncodable(wordMode, memory);
  }

  /** An immediate read from one byte is below 0x100. */
  lemma OneByteImmediate(bytes: seq<u8>)
    requires |bytes| == 1
    ensures LittleEndian(bytes) < 0x100
  {
  }

  lemma ArithmeticRegMemEncodable(byte: u8, after: seq<u8>)
    requires IsArithmeticRegMem(byte) && ArithmeticRegMemForm(byte, after).Some?
    ensures Encodable(ArithmeticRegMemForm(byte, after).value.1)
  {
    RegMemEncodable(byte % 2 == 1, byte / 2 % 2 == 1, after);
    assert DispatchedOperation(byte / 8 % 8);
  }

  lemma AccumulatorEncodable(byte: u8, after: seq<u8>)
    requires IsArithmeticAccumulator(byte) && ArithmeticAccumulatorForm(byte, after).Some?
    ensures Encodable(ArithmeticAccumulatorForm(byte, after).value.1)
  {
    if byte % 2 == 0 {
      OneByteImmediate(after[..1]);
    }
    assert DispatchedOperation(byte / 8 % 8);
  }

  lemma ImmediateFormEncodable(byte: u8, after: seq<u8>)
    requires IsArithmeticImmediate(byte) || IsMovImmediateToMemory(byte)
    requires AfterOpcode(byte, after).Some?
    ensures Encodable(AfterOpcode(byte, after).value.1)
  {
    var wordMode := byte % 2 == 1;
    ImmediateFormAfterOpcode(byte, after);
    RmTargetEncodable(wordMode, after);
    var (op, target, n) := RmTarget(wordMode, after).value;
    var width := if wordMode && !(IsArithmeticImmediate(byte) && byte / 2 % 2 == 1) then 2 else 1;
    ImmediateFormCases(byte, after, wordMode, width, op, target, n);
    if !wordMode {
      OneByteImmediate(after[n..n + width]);
    }
  }

  lemma MovRegMemEncodable(byte: u8, after: seq<u8>)
    requires MovRegMemForm(byte, after).Some?
    ensures Encodable(MovRegMemForm(byte, after).value.1)
  {
    RegMemEncodable(byte % 2 == 1, byte / 2 % 2 == 1, after);
  }

  lemma MovImmediateEncodable(byte: u8, after: seq<u8>)
    requires MovImmediateForm(byte, after).Some?
    ensures Encodable(MovImmediateForm(byte, after).value.1)
  {
    if byte / 8 % 2 == 0 {
      OneByteImmediate(after[..1]);
    }
  }

  /** Every arm of the dispatch yields an instruction the encoder can write. */
  lemma AfterOpcodeEncodable(byte: u8, after: seq<u8>)
    requires AfterOpcode(byte, after).Some?
    ensures Encodable(AfterOpcode(byte, after).value.1)
  {
    if IsArithmeticRegMem(byte) {
      ArithmeticRegMemEncodable(byte, after);
    } else if IsArithmeticAccumulator(byte) {
      AccumulatorEncodable(byte, after);
    } else if IsJump(byte) || IsLoop(byte) {
    } else if IsArithmeticImmediate(byte) || IsMovImmediateToMemory(byte) {
      ImmediateFormEncodable(byte, after);
    } else if IsMovRegMem(byte) {
      MovRegMemEncodable(byte, after);
    } else if IsMovImmediate(byte) {
      MovImmediateEncodable(byte, after);
    }
  }

  /** Whatever the decoder produces, the encoder can write, and decoding what
      it writes gives the same instruction back: the round trip from bytes,
      up to the choice of encoding that `TwoEncodingsOfAddAxCx` shows. */
  lemma DecodedIsEncodable(memory: seq<u8>)
    requires Decode(memory).Decoded?
    ensures Encodable(Decode(memory).instruction)
    ensures var i := Decode(memory).instruction; Decode(Encode(i)) == Decoded(|Encode(i)|, i)
  {
    AfterOpcodeEncodable(Head(memory), memory[AdvanceCount(memory)..]);
    var i := Decode(memory).instruction;
    EncodeDecode(i, []);
    assert Encode(i) + [] == Encode(i);
  }
}
