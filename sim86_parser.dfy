/** The `sim86` bit-level instruction parser.  Its input is a byte string
    read bit by bit, most significant bit of each byte first, as nom's bit
    parsers read it; here that input is the sequence of bits still unread.
    Every parser either reads a prefix of its input and returns the rest, or
    fails because too few bits remain (nom's complete `take`), or reaches a
    `todo!()`. */
module Sim86Parser {
  import opened Basics
  import opened Sim86

  type Bits = seq<bool>

  function Bit(b: bool): nat { if b then 1 else 0 }

  function Pow2(n: nat): (p: nat)
    ensures p >= 1
  {
    if n == 0 then 1 else 2 * Pow2(n - 1)
  }

  /** The unsigned value of a run of bits, most significant first. */
  function BitsValue(bs: Bits): (v: nat)
    ensures v < Pow2(|bs|)
  {
    if |bs| == 0 then 0 else 2 * BitsValue(bs[..|bs| - 1]) + Bit(bs[|bs| - 1])
  }

  /** The `n`-bit encoding of `v`, most significant bit first. */
  function BitsOf(v: nat, n: nat): (bs: Bits)
    requires v < Pow2(n)
    ensures |bs| == n
  {
    if n == 0 then [] else BitsOf(v / 2, n - 1) + [v % 2 == 1]
  }

  /** Reading back an encoding gives the value. */
  lemma {:induction false} ValueOfBitsOf(v: nat, n: nat)
    requires v < Pow2(n)
    ensures BitsValue(BitsOf(v, n)) == v
  {
    if n > 0 {
      var bs := BitsOf(v, n);
      assert bs[..n - 1] == BitsOf(v / 2, n - 1);
      ValueOfBitsOf(v / 2, n - 1);
    }
  }

  /** Encoding the value of a run of bits gives the run back. */
  lemma {:induction false} BitsOfValue(bs: Bits)
    ensures BitsOf(BitsValue(bs), |bs|) == bs
  {
    if |bs| > 0 {
      var n := |bs|;
      var v := BitsValue(bs);
      assert v / 2 == BitsValue(bs[..n - 1]);
      BitsOfValue(bs[..n - 1]);
      assert bs == bs[..n - 1] + [bs[n - 1]];
    }
  }

  /** The bit input of a byte string. */
  function ByteBits(bytes: seq<u8>): (bs: Bits)
    ensures |bs| == 8 * |bytes|
  {
    if |bytes| == 0 then [] else BitsOf(bytes[0], 8) + ByteBits(bytes[1..])
  }

  /** What a bit parser returns. */
  datatype Parse<T> = Parsed(rest: Bits, value: T) | Failed | Todo

  /** `bits::complete::take(n)`: the next `n` bits as an unsigned number. */
  function Take(bits: Bits, n: nat): (r: Parse<nat>)
    ensures r.Parsed? <==> n <= |bits|
    ensures !r.Todo?
    ensures r.Parsed? ==> r.value < Pow2(n) && bits == BitsOf(r.value, n) + r.rest
  {
    if |bits| < n then Failed
    else
      BitsOfValue(bits[..n]);
      assert bits == bits[..n] + bits[n..];
      Parsed(bits[n..], BitsValue(bits[..n]))
  }

  /** Taking the bits of an encoding reads back its value. */
  lemma TakeBitsOf(v: nat, n: nat, rest: Bits)
    requires v < Pow2(n)
    ensures Take(BitsOf(v, n) + rest, n) == Parsed(rest, v)
  {
    var bits := BitsOf(v, n) + rest;
    assert bits[..n] == BitsOf(v, n);
    assert bits[n..] == rest;
    ValueOfBitsOf(v, n);
  }

  /** `bits::complete::bool`: the next bit as a flag. */
  function TakeFlag(bits: Bits): (r: Parse<bool>)
    ensures r.Parsed? <==> |bits| >= 1
    ensures !r.Todo?
    ensures r.Parsed? ==> bits == [r.value] + r.rest
  {
    if |bits| < 1 then Failed else Parsed(bits[1..], bits[0])
  }

  /** `parse_reg`: three bits naming a register of the given width. */
  function ParseReg(wBit: bool, bits: Bits): (r: Parse<Register>)
    ensures r.Parsed? <==> |bits| >= 3
    ensures !r.Todo?
    ensures r.Parsed? ==> IsWordRegister(r.value) == wBit && bits == BitsOf(RegisterCode(r.value), 3) + r.rest
  {
    match Take(bits, 3)
    case Parsed(rest, code) =>
      RegisterReadersInvertCode(Al, code);
      Parsed(rest, if wBit then WordRegister(code) else ByteRegister(code))
    case _ => Failed
  }

  /** `parse_addr`: three bits naming the base of a memory operand. */
  function ParseAddr(bits: Bits): (r: Parse<Address>)
    ensures r.Parsed? <==> |bits| >= 3
    ensures !r.Todo?
    ensures r.Parsed? ==> bits == BitsOf(AddressCode(r.value), 3) + r.rest
  {
    match Take(bits, 3)
    case Parsed(rest, code) =>
      Parsed(rest,
        if code == 0 then BxSi
        else if code == 1 then BxDi
        else if code == 2 then BpSi
        else if code == 3 then BpDi
        else if code == 4 then Address.Si
        else if code == 5 then Address.Di
        else if code == 6 then Address.Bp
        else Address.Bx)
    case _ => Failed
  }

  /** How an immediate is laid out: one byte, or the low byte then the high byte. */
  function ImmediateBits(imm: Immediate): (bs: Bits)
    ensures |bs| == if imm.Word? then 16 else 8
  {
    match imm
    case Byte(b) => BitsOf(b, 8)
    case Word(w) => BitsOf(w % 0x100, 8) + BitsOf(w / 0x100, 8)
  }

  /** `parse_immediate`: a byte, or a little-endian word. */
  function ParseImmediate(bits: Bits, isWord: bool): (r: Parse<Immediate>)
    ensures r.Parsed? <==> |bits| >= if isWord then 16 else 8
    ensures !r.Todo?
    ensures r.Parsed? ==> r.value.Word? == isWord && bits == ImmediateBits(r.value) + r.rest
  {
    match Take(bits, 8)
    case Parsed(afterLow, low) =>
      if !isWord then Parsed(afterLow, Byte(low))
      else
        (match Take(afterLow, 8)
         case Parsed(rest, high) =>
           var word := high * 0x100 + low;
           assert word % 0x100 == low && word / 0x100 == high;
           Parsed(rest, Word(word))
         case _ => Failed)
    case _ => Failed
  }

  /** `parse_eaddr`: mode 0 has no displacement, mode 1 an 8-bit one and any
      other mode a 16-bit one. */
  function ParseEaddr(bits: Bits, mode: nat, addr: Address): (r: Parse<EAddress>)
    ensures !r.Todo?
    ensures r.Parsed? ==> r.value.base == addr
    ensures r.Parsed? && mode == 0 ==> r.value == Bare(addr) && r.rest == bits
    ensures r.Parsed? && mode != 0 ==>
      r.value.WithOffset? && (r.value.offset.Word? <==> mode == 2) && bits == ImmediateBits(r.value.offset) + r.rest
    ensures r.Failed? <==> mode != 0 && |bits| < (if mode == 2 then 16 else 8)
  {
    if mode == 0 then Parsed(bits, Bare(addr))
    else
      match ParseImmediate(bits, mode == 2)
      case Parsed(rest, imm) => Parsed(rest, WithOffset(addr, imm))
      case _ => Failed
  }

  /** `parse_rm`: a register for mode 3, otherwise a memory operand.  Mode 0
      always gives a bare base, r/m 110 included, so `[bp]` is what a direct
      address reads as. */
  function ParseRm(mode: nat, wBit: bool, bits: Bits): (r: Parse<Location>)
    requires mode <= 3
    ensures !r.Todo?
    ensures r.Parsed? ==> (r.value.Reg? <==> mode == 3)
    ensures r.Parsed? && mode == 3 ==> IsWordRegister(r.value.reg) == wBit
    ensures r.Parsed? && mode == 0 ==> r.value.eaddr.Bare?
    ensures r.Parsed? && mode == 1 ==> r.value.eaddr.WithOffset? && r.value.eaddr.offset.Byte?
    ensures r.Parsed? && mode == 2 ==> r.value.eaddr.WithOffset? && r.value.eaddr.offset.Word?
    ensures r.Failed? <==> |bits| < 3 + (if mode == 1 then 8 else if mode == 2 then 16 else 0)
    ensures r.Parsed? ==> |bits| - |r.rest| == 3 + (if mode == 1 then 8 else if mode == 2 then 16 else 0)
  {
    if mode == 3 then
      match ParseReg(wBit, bits)
      case Parsed(rest, reg) => Parsed(rest, Reg(reg))
      case _ => Failed
    else
      match ParseAddr(bits)
      case Parsed(afterAddr, addr) =>
        (match ParseEaddr(afterAddr, mode, addr)
         case Parsed(rest, eaddr) => Parsed(rest, Addr(eaddr))
         case _ => Failed)
      case _ => Failed
  }

  /** `parse_opcode`: the high nibble selects the form.  1000 is a
      register/memory move whatever the two bits after it; 1011 is an
      immediate-to-register move; 1100 and 1010 are `todo!()`; every other
      nibble parses as `Unimplemented`. */
  function ParseOpcode(bits: Bits): (r: Parse<Operation>)
    ensures r.Failed? <==> |bits| < 4 || (BitsValue(bits[..4]) == 8 && |bits| < 6)
    ensures r.Todo? <==> |bits| >= 4 && BitsValue(bits[..4]) in {10, 12}
    ensures r.Parsed? ==>
      var nibble := BitsValue(bits[..4]);
      && (nibble == 8 ==> r.value == MovRegRM && r.rest == bits[6..])
      && (nibble == 11 ==> r.value == MovImmediateReg && r.rest == bits[4..])
      && (nibble !in {8, 10, 11, 12} ==> r.value == Unimplemented && r.rest == bits[4..])
  {
    match Take(bits, 4)
    case Parsed(rest, nibble) =>
      assert bits[..4] == BitsOf(nibble, 4) by { assert bits == BitsOf(nibble, 4) + rest; }
      ValueOfBitsOf(nibble, 4);
      if nibble == 8 then
        (match Take(rest, 2)
         case Parsed(afterSkip, _) =>
           assert afterSkip == bits[6..] by { assert bits == BitsOf(nibble, 4) + rest; }
           Parsed(afterSkip, MovRegRM)
         case _ => Failed)
      else if nibble == 11 then Parsed(rest, MovImmediateReg)
      else if nibble == 12 || nibble == 10 then Todo
      else Parsed(rest, Unimplemented)
    case _ => Failed
  }

  /** The fields of a register/memory move after its opcode: d, w, mode,
      reg and r/m in that order; the d bit decides whether the reg field is
      the destination. */
  function ParseMovRegRm(bits: Bits): (r: Parse<Instruction>)
    ensures !r.Todo?
    ensures r.Parsed? ==> r.value.operation == MovRegRM && |bits| - |r.rest| in {10, 18, 26}
  {
    match TakeFlag(bits)
    case Parsed(afterD, dBit) =>
      (match TakeFlag(afterD)
       case Parsed(afterW, isWord) =>
         (match Take(afterW, 2)
          case Parsed(afterMode, mode) =>
            assert Pow2(2) == 4;
            (match ParseReg(isWord, afterMode)
             case Parsed(afterReg, reg) =>
               (match ParseRm(mode, isWord, afterReg)
                case Parsed(rest, rm) =>
                  if dBit then Parsed(rest, Instruction(MovRegRM, Reg(reg), Loc(rm)))
                  else Parsed(rest, Instruction(MovRegRM, rm, Loc(Reg(reg))))
                case _ => Failed)
             case _ => Failed)
          case _ => Failed)
       case _ => Failed)
    case _ => Failed
  }

  /** The fields of an immediate-to-register move after its opcode: w, reg
      and the immediate. */
  function ParseMovImmediateReg(bits: Bits): (r: Parse<Instruction>)
    ensures !r.Todo?
    ensures r.Parsed? ==> r.value.operation == MovImmediateReg && |bits| - |r.rest| in {12, 20}
  {
    match TakeFlag(bits)
    case Parsed(afterW, isWord) =>
      (match ParseReg(isWord, afterW)
       case Parsed(afterReg, reg) =>
         (match ParseImmediate(afterReg, isWord)
          case Parsed(rest, imm) => Parsed(rest, Instruction(MovImmediateReg, Reg(reg), Imm(imm)))
          case _ => Failed)
       case _ => Failed)
    case _ => Failed
  }

  /** `parse_instruction`: the opcode, then the fields of its form; every
      operation other than the two moves is `todo!()`. */
  function ParseInstruction(bits: Bits): (r: Parse<Instruction>)
    ensures r.Parsed? ==> !r.value.operation.Unimplemented? && !r.value.operation.MovImmediateRM?
    ensures r.Parsed? ==> |r.rest| < |bits|
  {
    match ParseOpcode(bits)
    case Parsed(afterOpcode, MovRegRM) => ParseMovRegRm(afterOpcode)
    case Parsed(afterOpcode, MovImmediateReg) => ParseMovImmediateReg(afterOpcode)
    case Parsed(_, _) => Todo
    case Failed => Failed
    case Todo => Todo
  }
}
