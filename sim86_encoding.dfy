/** An encoder for the instructions the `sim86` parser produces, and the
    proof that parsing reads back every encoded instruction.  The encoder
    gives the 8086 layouts: `100010dw mod reg r/m [disp]` for a
    register/memory move and `1011wreg imm` for an immediate-to-register
    move, displacements and immediates low byte first. */
module Sim86Encoding {
  import opened Basics
  import opened Sim86
  import opened Sim86Parser

  /** The mode field that selects an r/m operand. */
  function RmMode(l: Location): (mode: nat)
    ensures mode <= 3
  {
    match l
    case Reg(_) => 3
    case Addr(Bare(_)) => 0
    case Addr(WithOffset(_, Byte(_))) => 1
    case Addr(WithOffset(_, Word(_))) => 2
  }

  /** The r/m field of an r/m operand. */
  function RmCode(l: Location): (code: nat)
    ensures code < 8
  {
    match l
    case Reg(r) => RegisterCode(r)
    case Addr(e) => AddressCode(e.base)
  }

  /** The displacement bits that follow the mod-reg-r/m byte. */
  function DisplacementBits(l: Location): Bits
  {
    match l
    case Addr(WithOffset(_, offset)) => ImmediateBits(offset)
    case _ => []
  }

  /** The instructions the encoder handles: every instruction the parser can
      produce, with the widths of register operands agreeing. */
  predicate Encodable(i: Instruction)
  {
    match i.operation
    case MovRegRM =>
      (i.destination.Reg? && i.source.Loc? &&
        (i.source.loc.Reg? ==> IsWordRegister(i.source.loc.reg) == IsWordRegister(i.destination.reg)))
      || (i.destination.Addr? && i.source.Loc? && i.source.loc.Reg?)
    case MovImmediateReg =>
      i.destination.Reg? && i.source.Imm? && i.source.imm.Word? == IsWordRegister(i.destination.reg)
    case _ => false
  }

  /** The register in the reg field and the operand in the r/m field, and
      whether the reg field is the destination (the d bit). */
  function MovOperands(i: Instruction): (Register, Location, bool)
    requires Encodable(i) && i.operation == MovRegRM
  {
    if i.destination.Reg? then (i.destination.reg, i.source.loc, true)
    else (i.source.loc.reg, i.destination, false)
  }

  /** The bits of an encodable instruction. */
  function EncodeBits(i: Instruction): (bs: Bits)
    requires Encodable(i)
  {
    match i.operation
    case MovRegRM =>
      var (reg, rm, d) := MovOperands(i);
      BitsOf(0x22, 6) + [d] + [IsWordRegister(reg)] + BitsOf(RmMode(rm), 2) + BitsOf(RegisterCode(reg), 3)
        + BitsOf(RmCode(rm), 3) + DisplacementBits(rm)
    case MovImmediateReg =>
      var reg := i.destination.reg;
      BitsOf(0xB, 4) + [IsWordRegister(reg)] + BitsOf(RegisterCode(reg), 3) + ImmediateBits(i.source.imm)
  }

  // ---------------------------------------------------------------------------
  // Parsing reads back every field

  lemma ParseRegRoundTrip(r: Register, rest: Bits)
    ensures ParseReg(IsWordRegister(r), BitsOf(RegisterCode(r), 3) + rest) == Parsed(rest, r)
  {
    TakeBitsOf(RegisterCode(r), 3, rest);
    RegisterReadersInvertCode(r, 0);
  }

  lemma ParseImmediateRoundTrip(imm: Immediate, rest: Bits)
    ensures ParseImmediate(ImmediateBits(imm) + rest, imm.Word?) == Parsed(rest, imm)
  {
    match imm
    case Byte(b) =>
      TakeBitsOf(b, 8, rest);
    case Word(w) =>
      var low, high := BitsOf(w % 0x100, 8), BitsOf(w / 0x100, 8);
      assert ImmediateBits(imm) == low + high;
      Regroup(low, high, rest);
      TakeBitsOf(w % 0x100, 8, high + rest);
      TakeBitsOf(w / 0x100, 8, rest);
  }

  lemma ParseRmRoundTrip(l: Location, wBit: bool, rest: Bits)
    requires l.Reg? ==> IsWordRegister(l.reg) == wBit
    ensures ParseRm(RmMode(l), wBit, BitsOf(RmCode(l), 3) + DisplacementBits(l) + rest) == Parsed(rest, l)
  {
    match l
    case Reg(r) =>
      assert RmCode(l) == RegisterCode(r) && DisplacementBits(l) == [];
      NothingBetween(BitsOf(RegisterCode(r), 3), rest);
      ParseRegRoundTrip(r, rest);
    case Addr(Bare(a)) =>
      assert RmCode(l) == AddressCode(a) && DisplacementBits(l) == [];
      NothingBetween(BitsOf(AddressCode(a), 3), rest);
      ParseBareRoundTrip(a, wBit, rest);
    case Addr(WithOffset(a, offset)) =>
      assert RmCode(l) == AddressCode(a) && DisplacementBits(l) == ImmediateBits(offset);
      Regroup(BitsOf(AddressCode(a), 3), ImmediateBits(offset), rest);
      ParseOffsetRoundTrip(a, offset, wBit, rest);
  }

  lemma Regroup(x: Bits, y: Bits, rest: Bits)
    ensures x + y + rest == x + (y + rest)
  {
  }

  lemma NothingBetween(x: Bits, rest: Bits)
    ensures x + [] + rest == x + rest
  {
  }

  lemma ParseAddrRoundTrip(a: Address, rest: Bits)
    ensures ParseAddr(BitsOf(AddressCode(a), 3) + rest) == Parsed(rest, a)
  {
    TakeBitsOf(AddressCode(a), 3, rest);
  }

  lemma ParseBareRoundTrip(a: Address, wBit: bool, rest: Bits)
    ensures ParseRm(0, wBit, BitsOf(AddressCode(a), 3) + rest) == Parsed(rest, Addr(Bare(a)))
  {
    ParseAddrRoundTrip(a, rest);
  }

  lemma ParseOffsetRoundTrip(a: Address, offset: Immediate, wBit: bool, rest: Bits)
    ensures ParseRm(if offset.Word? then 2 else 1, wBit, BitsOf(AddressCode(a), 3) + (ImmediateBits(offset) + rest))
      == Parsed(rest, Addr(WithOffset(a, offset)))
  {
    ParseAddrRoundTrip(a, ImmediateBits(offset) + rest);
    ParseImmediateRoundTrip(offset, rest);
  }

  /** The fields after the opcode of a register/memory move read back. */
  lemma ParseMovRegRmFields(i: Instruction, rest: Bits)
    requires Encodable(i) && i.operation == MovRegRM
    ensures
      var (reg, rm, d) := MovOperands(i);
      ParseMovRegRm([d] + [IsWordRegister(reg)] + BitsOf(RmMode(rm), 2) + BitsOf(RegisterCode(reg), 3)
        + BitsOf(RmCode(rm), 3) + DisplacementBits(rm) + rest) == Parsed(rest, i)
  {
    var (reg, rm, d) := MovOperands(i);
    var w := IsWordRegister(reg);
    var afterReg := BitsOf(RmCode(rm), 3) + DisplacementBits(rm) + rest;
    var afterMode := BitsOf(RegisterCode(reg), 3) + afterReg;
    var afterW := BitsOf(RmMode(rm), 2) + afterMode;
    RegroupFields([d], [w], BitsOf(RmMode(rm), 2), BitsOf(RegisterCode(reg), 3),
      BitsOf(RmCode(rm), 3), DisplacementBits(rm), rest);
    TakeBitsOf(RmMode(rm), 2, afterMode);
    ParseRegRoundTrip(reg, afterReg);
    ParseRmRoundTrip(rm, w, rest);
    ParseMovRegRmSteps([d] + ([w] + afterW), d, w, afterW, RmMode(rm), afterMode, reg, afterReg, rm, rest);
  }

  /** `ParseMovRegRm` once each of its fields is known. */
  lemma ParseMovRegRmSteps(bits: Bits, d: bool, w: bool, afterW: Bits, mode: nat, afterMode: Bits,
                           reg: Register, afterReg: Bits, rm: Location, rest: Bits)
    requires bits == [d] + ([w] + afterW)
    requires Take(afterW, 2) == Parsed(afterMode, mode) && mode <= 3
    requires ParseReg(w, afterMode) == Parsed(afterReg, reg)
    requires ParseRm(mode, w, afterReg) == Parsed(rest, rm)
    ensures ParseMovRegRm(bits)
      == Parsed(rest, if d then Instruction(MovRegRM, Reg(reg), Loc(rm)) else Instruction(MovRegRM, rm, Loc(Reg(reg))))
  {
    assert TakeFlag(bits) == Parsed([w] + afterW, d);
    assert TakeFlag([w] + afterW) == Parsed(afterW, w);
  }

  /** The opcode 100010 is the nibble 1000 followed by the two bits 10. */
  lemma MovOpcodeBits()
    ensures BitsOf(0x22, 6) == BitsOf(8, 4) + BitsOf(2, 2)
  {
    assert BitsOf(2, 2) == [true, false];
    assert BitsOf(8, 4) == [true, false, false, false];
    assert BitsOf(0x22, 6) == [true, false, false, false, true, false];
  }

  /** The opcode 100010 parses as a register/memory move. */
  lemma ParseMovRegRmOpcode(afterOpcode: Bits)
    ensures ParseOpcode(BitsOf(0x22, 6) + afterOpcode) == Parsed(afterOpcode, MovRegRM)
  {
    var afterNibble := BitsOf(2, 2) + afterOpcode;
    MovOpcodeBits();
    assert BitsOf(0x22, 6) + afterOpcode == BitsOf(8, 4) + afterNibble;
    TakeBitsOf(8, 4, afterNibble);
    TakeBitsOf(2, 2, afterOpcode);
  }

  lemma ParseMovRegRmRoundTrip(i: Instruction, rest: Bits)
    requires Encodable(i) && i.operation == MovRegRM
    ensures ParseInstruction(EncodeBits(i) + rest) == Parsed(rest, i)
  {
    var (reg, rm, d) := MovOperands(i);
    var afterOpcode := [d] + [IsWordRegister(reg)] + BitsOf(RmMode(rm), 2) + BitsOf(RegisterCode(reg), 3)
        + BitsOf(RmCode(rm), 3) + DisplacementBits(rm) + rest;
    MovRegRmBits(i, rest);
    ParseInstructionMovRegRm(afterOpcode);
    ParseMovRegRmFields(i, rest);
  }

  /** The bits of a register/memory move are its opcode and then its fields. */
  lemma MovRegRmBits(i: Instruction, rest: Bits)
    requires Encodable(i) && i.operation == MovRegRM
    ensures var (reg, rm, d) := MovOperands(i);
      EncodeBits(i) + rest == BitsOf(0x22, 6) + ([d] + [IsWordRegister(reg)] + BitsOf(RmMode(rm), 2)
        + BitsOf(RegisterCode(reg), 3) + BitsOf(RmCode(rm), 3) + DisplacementBits(rm) + rest)
  {
    var (reg, rm, d) := MovOperands(i);
    MovRegRmBitsOf(i, reg, rm, d);
    RegroupOpcode(BitsOf(0x22, 6), [d], [IsWordRegister(reg)], BitsOf(RmMode(rm), 2),
      BitsOf(RegisterCode(reg), 3), BitsOf(RmCode(rm), 3), DisplacementBits(rm), rest);
  }

  /** The opcode split off the front of an instruction's fields. */
  lemma RegroupOpcode(a: Bits, b: Bits, c: Bits, e: Bits, f: Bits, g: Bits, h: Bits, rest: Bits)
    ensures a + b + c + e + f + g + h + rest == a + (b + c + e + f + g + h + rest)
  {
  }

  /** The fields of a register/memory move, as its parser reads them off. */
  lemma RegroupFields(d: Bits, w: Bits, mode: Bits, reg: Bits, rm: Bits, disp: Bits, rest: Bits)
    ensures d + w + mode + reg + rm + disp + rest == d + (w + (mode + (reg + (rm + disp + rest))))
  {
  }

  lemma ParseInstructionMovRegRm(afterOpcode: Bits)
    ensures ParseInstruction(BitsOf(0x22, 6) + afterOpcode) == ParseMovRegRm(afterOpcode)
  {
    ParseMovRegRmOpcode(afterOpcode);
  }

  lemma ParseMovImmediateRegRoundTrip(i: Instruction, rest: Bits)
    requires Encodable(i) && i.operation == MovImmediateReg
    ensures ParseInstruction(EncodeBits(i) + rest) == Parsed(rest, i)
  {
    var reg := i.destination.reg;
    var imm := i.source.imm;
    var afterReg := ImmediateBits(imm) + rest;
    var afterW := BitsOf(RegisterCode(reg), 3) + afterReg;
    var afterOpcode := [IsWordRegister(reg)] + afterW;
    assert EncodeBits(i) + rest == BitsOf(0xB, 4) + afterOpcode;
    TakeBitsOf(0xB, 4, afterOpcode);
    assert ParseOpcode(EncodeBits(i) + rest) == Parsed(afterOpcode, MovImmediateReg);
    ParseRegRoundTrip(reg, afterReg);
    ParseImmediateRoundTrip(imm, rest);
  }

  /** Parsing reads back every encodable instruction and stops right after it. */
  lemma EncodeParse(i: Instruction, rest: Bits)
    requires Encodable(i)
    ensures ParseInstruction(EncodeBits(i) + rest) == Parsed(rest, i)
  {
    if i.operation == MovRegRM {
      ParseMovRegRmRoundTrip(i, rest);
    } else {
      ParseMovImmediateRegRoundTrip(i, rest);
    }
  }

  /** Every instruction the parser produces is one the encoder handles. */
  lemma ParsedIsEncodable(bits: Bits)
    requires ParseInstruction(bits).Parsed?
    ensures Encodable(ParseInstruction(bits).value)
  {
    match ParseOpcode(bits)
    case Parsed(afterOpcode, MovRegRM) => MovRegRmEncodable(afterOpcode);
    case Parsed(afterOpcode, MovImmediateReg) => MovImmediateRegEncodable(afterOpcode);
    case _ =>
  }

  lemma MovRegRmEncodable(bits: Bits)
    requires ParseMovRegRm(bits).Parsed?
    ensures Encodable(ParseMovRegRm(bits).value)
  {
  }

  lemma MovImmediateRegEncodable(bits: Bits)
    requires ParseMovImmediateReg(bits).Parsed?
    ensures Encodable(ParseMovImmediateReg(bits).value)
  {
  }

  /** An instruction is consumed in whole bytes: two, three or four for a
      register/memory move (none, one or two displacement bytes), two or
      three for an immediate-to-register move. */
  lemma WholeBytesConsumed(bits: Bits)
    requires ParseInstruction(bits).Parsed?
    ensures var r := ParseInstruction(bits);
      var used := |bits| - |r.rest|;
      && (r.value.operation == MovRegRM ==> used in {16, 24, 32})
      && (r.value.operation == MovImmediateReg ==> used in {16, 24})
  {
  }

  // ---------------------------------------------------------------------------
  // Bytes

  /** The bytes of an immediate, low byte first. */
  function ImmediateBytes(imm: Immediate): seq<u8>
  {
    match imm
    case Byte(b) => [b]
    case Word(w) => [w % 0x100, w / 0x100]
  }

  function DisplacementBytes(l: Location): seq<u8>
  {
    match l
    case Addr(WithOffset(_, offset)) => ImmediateBytes(offset)
    case _ => []
  }

  /** The machine code of an encodable instruction, byte by byte:
      `88+2d+w`, then `mod reg r/m`, then the displacement, or `B0+8w+reg`
      followed by the immediate. */
  function EncodeBytes(i: Instruction): (bytes: seq<u8>)
    requires Encodable(i)
    ensures 2 <= |bytes| <= 4
  {
    match i.operation
    case MovRegRM =>
      var (reg, rm, d) := MovOperands(i);
      [0x88 + 2 * Bit(d) + Bit(IsWordRegister(reg)), 64 * RmMode(rm) + 8 * RegisterCode(reg) + RmCode(rm)]
        + DisplacementBytes(rm)
    case MovImmediateReg =>
      var reg := i.destination.reg;
      [0xB0 + 8 * Bit(IsWordRegister(reg)) + RegisterCode(reg)] + ImmediateBytes(i.source.imm)
  }

  /** Two encodings side by side are the encoding of the combined value. */
  lemma {:induction false} BitsOfSplit(a: nat, m: nat, b: nat, n: nat)
    requires a < Pow2(m) && b < Pow2(n)
    ensures a * Pow2(n) + b < Pow2(m + n)
    ensures BitsOf(a * Pow2(n) + b, m + n) == BitsOf(a, m) + BitsOf(b, n)
    decreases n
  {
    if n == 0 {
    } else {
      var v := a * Pow2(n) + b;
      assert a * Pow2(n) == 2 * (a * Pow2(n - 1));
      assert v / 2 == a * Pow2(n - 1) + b / 2;
      assert v % 2 == b % 2;
      BitsOfSplit(a, m, b / 2, n - 1);
      PowAdd(m, n);
    }
  }

  lemma {:induction false} PowAdd(m: nat, n: nat)
    ensures Pow2(m + n) == Pow2(m) * Pow2(n)
    decreases n
  {
    if n > 0 {
      PowAdd(m, n - 1);
    }
  }

  /** The bits of a byte string are the bits of its parts. */
  lemma {:induction false} ByteBitsAppend(a: seq<u8>, b: seq<u8>)
    ensures ByteBits(a + b) == ByteBits(a) + ByteBits(b)
    decreases |a|
  {
    if |a| == 0 {
      assert a + b == b;
    } else {
      assert (a + b)[0] == a[0];
      assert (a + b)[1..] == a[1..] + b;
      ByteBitsAppend(a[1..], b);
    }
  }

  lemma ImmediateBytesBits(imm: Immediate)
    ensures ByteBits(ImmediateBytes(imm)) == ImmediateBits(imm)
  {
  }

  /** One more bit after an encoding doubles the value and adds the bit. */
  lemma AppendBit(v: nat, n: nat, b: bool, total: nat)
    requires v < Pow2(n) && total == 2 * v + Bit(b)
    ensures total < Pow2(n + 1)
    ensures BitsOf(total, n + 1) == BitsOf(v, n) + [b]
  {
  }

  /** Three more bits after an encoding multiply the value by eight and add
      their value. */
  lemma AppendThreeBits(v: nat, n: nat, x: nat, total: nat)
    requires v < Pow2(n) && x < 8 && total == 8 * v + x
    ensures total < Pow2(n + 3)
    ensures BitsOf(total, n + 3) == BitsOf(v, n) + BitsOf(x, 3)
  {
    assert Pow2(3) == 8;
    BitsOfSplit(v, n, x, 3);
  }

  /** The first byte of a register/memory move. */
  lemma MovRegRmFirstByte(d: bool, w: bool, first: nat)
    requires first == 0x88 + 2 * Bit(d) + Bit(w)
    ensures first < Pow2(8)
    ensures BitsOf(first, 8) == BitsOf(0x22, 6) + [d] + [w]
  {
    AppendBit(0x22, 6, d, 0x44 + Bit(d));
    AppendBit(0x44 + Bit(d), 7, w, 0x88 + 2 * Bit(d) + Bit(w));
  }

  /** The mod-reg-r/m byte. */
  lemma ModRegRmByte(mode: nat, reg: nat, rm: nat, second: nat)
    requires mode < 4 && reg < 8 && rm < 8 && second == 64 * mode + 8 * reg + rm
    ensures second < Pow2(8)
    ensures BitsOf(second, 8) == BitsOf(mode, 2) + BitsOf(reg, 3) + BitsOf(rm, 3)
  {
    var high := 8 * mode + reg;
    ModeRegBits(mode, reg, high);
    AppendThreeBits(high, 5, rm, second);
    Substitute(BitsOf(second, 8), BitsOf(high, 5), BitsOf(mode, 2), BitsOf(reg, 3), BitsOf(rm, 3));
  }

  /** The mode and reg fields: the top five bits of the mod-reg-r/m byte. */
  lemma ModeRegBits(mode: nat, reg: nat, high: nat)
    requires mode < 4 && reg < 8 && high == 8 * mode + reg
    ensures high < Pow2(5) && BitsOf(high, 5) == BitsOf(mode, 2) + BitsOf(reg, 3)
  {
    assert Pow2(2) == 4;
    AppendThreeBits(mode, 2, reg, high);
  }

  lemma Substitute(x: Bits, y: Bits, a: Bits, b: Bits, c: Bits)
    requires x == y + c && y == a + b
    ensures x == a + b + c
  {
  }

  /** The first byte of an immediate-to-register move. */
  lemma MovImmediateRegFirstByte(w: bool, reg: nat)
    requires reg < 8
    ensures BitsOf(0xB0 + 8 * Bit(w) + reg, 8) == BitsOf(0xB, 4) + [w] + BitsOf(reg, 3)
  {
    assert Pow2(4) == 16;
    AppendBit(0xB, 4, w, 0x16 + Bit(w));
    AppendThreeBits(0x16 + Bit(w), 5, reg, 0xB0 + 8 * Bit(w) + reg);
  }

  lemma ByteBitsPrefix(b: u8, tail: seq<u8>)
    ensures ByteBits([b] + tail) == BitsOf(b, 8) + ByteBits(tail)
  {
    assert ([b] + tail)[1..] == tail;
  }

  lemma DisplacementBytesBits(l: Location)
    ensures ByteBits(DisplacementBytes(l)) == DisplacementBits(l)
  {
    match l
    case Addr(WithOffset(_, offset)) => ImmediateBytesBits(offset);
    case _ =>
  }

  /** The bytes of a register/memory move, field by field. */
  lemma MovRegRmBytesBits(d: bool, w: bool, mode: nat, reg: nat, rm: nat, first: u8, second: u8, disp: seq<u8>, dispBits: Bits)
    requires mode < 4 && reg < 8 && rm < 8 && ByteBits(disp) == dispBits
    requires first == 0x88 + 2 * Bit(d) + Bit(w) && second == 64 * mode + 8 * reg + rm
    ensures ByteBits([first, second] + disp)
      == BitsOf(0x22, 6) + [d] + [w] + BitsOf(mode, 2) + BitsOf(reg, 3) + BitsOf(rm, 3) + dispBits
  {
    MovRegRmFirstByte(d, w, first);
    ModRegRmByte(mode, reg, rm, second);
    TwoBytesBits(first, second, disp);
    Reassociate(BitsOf(first, 8), BitsOf(second, 8), dispBits,
      BitsOf(0x22, 6), [d], [w], BitsOf(mode, 2), BitsOf(reg, 3), BitsOf(rm, 3));
  }

  lemma TwoBytesBits(first: u8, second: u8, tail: seq<u8>)
    ensures ByteBits([first, second] + tail) == BitsOf(first, 8) + (BitsOf(second, 8) + ByteBits(tail))
  {
    assert [first, second] + tail == [first] + ([second] + tail);
    ByteBitsPrefix(first, [second] + tail);
    ByteBitsPrefix(second, tail);
  }

  lemma Reassociate(x: Bits, y: Bits, z: Bits, a: Bits, b: Bits, c: Bits, e: Bits, f: Bits, g: Bits)
    requires x == a + b + c && y == e + f + g
    ensures x + (y + z) == a + b + c + e + f + g + z
  {
  }

  /** The bytes of a register/memory move, over its operands. */
  lemma MovRegRmBytesOf(i: Instruction, reg: Register, rm: Location, d: bool)
    requires Encodable(i) && i.operation == MovRegRM && MovOperands(i) == (reg, rm, d)
    ensures 0x88 + 2 * Bit(d) + Bit(IsWordRegister(reg)) < 0x100 && 64 * RmMode(rm) + 8 * RegisterCode(reg) + RmCode(rm) < 0x100
    ensures EncodeBytes(i) == [0x88 + 2 * Bit(d) + Bit(IsWordRegister(reg)), 64 * RmMode(rm) + 8 * RegisterCode(reg) + RmCode(rm)]
      + DisplacementBytes(rm)
  {
  }

  /** The bits of a register/memory move, over its operands. */
  lemma MovRegRmBitsOf(i: Instruction, reg: Register, rm: Location, d: bool)
    requires Encodable(i) && i.operation == MovRegRM && MovOperands(i) == (reg, rm, d)
    ensures EncodeBits(i) == BitsOf(0x22, 6) + [d] + [IsWordRegister(reg)] + BitsOf(RmMode(rm), 2)
      + BitsOf(RegisterCode(reg), 3) + BitsOf(RmCode(rm), 3) + DisplacementBits(rm)
  {
  }

  lemma EncodeBytesBitsMov(i: Instruction)
    requires Encodable(i) && i.operation == MovRegRM
    ensures ByteBits(EncodeBytes(i)) == EncodeBits(i)
  {
    var (reg, rm, d) := MovOperands(i);
    MovRegRmBytesOf(i, reg, rm, d);
    MovRegRmBitsOf(i, reg, rm, d);
    DisplacementBytesBits(rm);
    var first: u8 := 0x88 + 2 * Bit(d) + Bit(IsWordRegister(reg));
    var second: u8 := 64 * RmMode(rm) + 8 * RegisterCode(reg) + RmCode(rm);
    MovRegRmBytesBits(d, IsWordRegister(reg), RmMode(rm), RegisterCode(reg), RmCode(rm), first, second,
      DisplacementBytes(rm), DisplacementBits(rm));
    SameBits(EncodeBytes(i), EncodeBits(i), [first, second] + DisplacementBytes(rm),
      BitsOf(0x22, 6) + [d] + [IsWordRegister(reg)] + BitsOf(RmMode(rm), 2)
        + BitsOf(RegisterCode(reg), 3) + BitsOf(RmCode(rm), 3) + DisplacementBits(rm));
  }

  /** Bytes and bits that are known to spell the same thing. */
  lemma SameBits(bytes: seq<u8>, bits: Bits, spelled: seq<u8>, spelledBits: Bits)
    requires bytes == spelled && bits == spelledBits && ByteBits(spelled) == spelledBits
    ensures ByteBits(bytes) == bits
  {
  }

  lemma EncodeBytesBitsImmediate(i: Instruction)
    requires Encodable(i) && i.operation == MovImmediateReg
    ensures ByteBits(EncodeBytes(i)) == EncodeBits(i)
  {
    var reg := i.destination.reg;
    var first := 0xB0 + 8 * Bit(IsWordRegister(reg)) + RegisterCode(reg);
    MovImmediateRegFirstByte(IsWordRegister(reg), RegisterCode(reg));
    assert EncodeBytes(i) == [first] + ImmediateBytes(i.source.imm);
    ByteBitsPrefix(first, ImmediateBytes(i.source.imm));
    ImmediateBytesBits(i.source.imm);
  }

  /** The bytes and the bits of an instruction agree. */
  lemma EncodeBytesBits(i: Instruction)
    requires Encodable(i)
    ensures ByteBits(EncodeBytes(i)) == EncodeBits(i)
  {
    if i.operation == MovRegRM {
      EncodeBytesBitsMov(i);
    } else {
      EncodeBytesBitsImmediate(i);
    }
  }
}
