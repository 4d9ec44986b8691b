/** `disassemble`: reads instructions off the bit input until no byte is
    left and writes a NASM listing, the header `bits 16` and a blank line
    followed by one line per instruction.  A parse that fails or reaches a
    `todo!()` makes the original panic; here the result is `None`. */
module Sim86Disassembler {
  import opened Basics
  import opened Sim86
  import opened Sim86Parser
  import opened Sim86Encoding

  const Header: string := "bits 16\n\n"

  /** The listing lines of the instructions read off `bits`, one per line,
      or `None` when reading stops on a failure or a `todo!()`. */
  function Lines(bits: Bits): (r: Option<string>)
    ensures r.Some? ==> (|bits| == 0 <==> r.value == "")
    ensures r.Some? && |bits| > 0 ==> r.value[|r.value| - 1] == '\n'
    decreases |bits|
  {
    if |bits| == 0 then Some("")
    else
      match ParseInstruction(bits)
      case Parsed(rest, i) =>
        (match Lines(rest)
         case Some(more) => Some(InstructionText(i) + "\n" + more)
         case None => None)
      case _ => None
  }

  /** The listing NASM gets for a sequence of instructions. */
  function Listing(instrs: seq<Instruction>): (r: string)
    ensures |instrs| > 0 ==> |r| > 0 && r[|r| - 1] == '\n'
  {
    if |instrs| == 0 then "" else InstructionText(instrs[0]) + "\n" + Listing(instrs[1..])
  }

  /** The listing has exactly one line per instruction: as many line breaks
      as instructions, since no instruction's text holds one. */
  lemma {:induction false} ListingLines(instrs: seq<Instruction>)
    ensures multiset(Listing(instrs))['\n'] == |instrs|
  {
    if |instrs| > 0 {
      ListingLines(instrs[1..]);
      var text := InstructionText(instrs[0]);
      assert multiset(text)['\n'] == 0;
      assert Listing(instrs) == text + "\n" + Listing(instrs[1..]);
    }
  }

  predicate AllEncodable(instrs: seq<Instruction>)
  {
    forall k :: 0 <= k < |instrs| ==> Encodable(instrs[k])
  }

  /** The machine code of a sequence of instructions, one after another. */
  function EncodeProgram(instrs: seq<Instruction>): Bits
    requires AllEncodable(instrs)
  {
    if |instrs| == 0 then [] else EncodeBits(instrs[0]) + EncodeProgram(instrs[1..])
  }

  /** Disassembling an assembled program gives its listing back.  This is
      the converse of the round trip the listing tests check, which
      reassemble the listing and compare the bytes; `ParsedIsEncodable`
      gives that direction for each instruction. */
  lemma {:induction false} ListingRoundTrip(instrs: seq<Instruction>)
    requires AllEncodable(instrs)
    ensures Lines(EncodeProgram(instrs)) == Some(Listing(instrs))
  {
    if |instrs| > 0 {
      var rest := EncodeProgram(instrs[1..]);
      EncodeParse(instrs[0], rest);
      assert |EncodeBits(instrs[0])| > 0;
      ListingRoundTrip(instrs[1..]);
    }
  }

  /** The machine code of a sequence of instructions, as bytes. */
  function EncodeProgramBytes(instrs: seq<Instruction>): seq<u8>
    requires AllEncodable(instrs)
  {
    if |instrs| == 0 then [] else EncodeBytes(instrs[0]) + EncodeProgramBytes(instrs[1..])
  }

  /** The bit input of an assembled program is the instructions' bits. */
  lemma {:induction false} EncodeProgramBytesBits(instrs: seq<Instruction>)
    requires AllEncodable(instrs)
    ensures ByteBits(EncodeProgramBytes(instrs)) == EncodeProgram(instrs)
  {
    if |instrs| > 0 {
      ByteBitsAppend(EncodeBytes(instrs[0]), EncodeProgramBytes(instrs[1..]));
      EncodeBytesBits(instrs[0]);
      EncodeProgramBytesBits(instrs[1..]);
    }
  }

  /** Disassembling the bytes of an assembled program gives its listing. */
  lemma DisassembleRoundTrip(instrs: seq<Instruction>)
    requires AllEncodable(instrs)
    ensures Lines(ByteBits(EncodeProgramBytes(instrs))) == Some(Listing(instrs))
  {
    EncodeProgramBytesBits(instrs);
    ListingRoundTrip(instrs);
  }

  /** One turn of the loop: the lines of a non-empty input are the line of
      its first instruction and the lines of the rest. */
  lemma LinesStep(bits: Bits)
    requires |bits| > 0
    ensures !ParseInstruction(bits).Parsed? ==> Lines(bits).None?
    ensures ParseInstruction(bits).Parsed? ==>
      var r := ParseInstruction(bits);
      && (Lines(bits).Some? <==> Lines(r.rest).Some?)
      && (Lines(bits).Some? ==> Lines(bits).value == InstructionText(r.value) + "\n" + Lines(r.rest).value)
  {
  }

  lemma AppendLine(text: string, line: string, more: string)
    ensures text + (line + "\n" + more) == text + line + "\n" + more
  {
  }

  /** The `disassemble` loop: parse one instruction, append its line, go on
      with the rest of the input while any byte remains. */
  method Disassemble(program: seq<u8>) returns (asm: Option<string>)
    ensures asm.Some? <==> Lines(ByteBits(program)).Some?
    ensures asm.Some? ==> asm.value == Header + Lines(ByteBits(program)).value
  {
    ghost var all := Lines(ByteBits(program));
    var stream := ByteBits(program);
    var text := Header;
    while |stream| > 0
      invariant all.Some? <==> Lines(stream).Some?
      invariant all.Some? ==> Header + all.value == text + Lines(stream).value
      decreases |stream|
    {
      LinesStep(stream);
      match ParseInstruction(stream)
      case Parsed(rest, i) =>
        if all.Some? {
          AppendLine(text, InstructionText(i), Lines(rest).value);
        }
        text := text + InstructionText(i) + "\n";
        stream := rest;
      case _ =>
        return None;
    }
    assert Lines(stream) == Some("");
    assert text + "" == text;
    return Some(text);
  }

  // ---------------------------------------------------------------------------
  // The listing 39 examples, as NASM assembles them
  //
  // Each example (`...Example`) is proved from small steps that state one
  // literal fact each: `...Text` is the text of one instruction, `...Line`
  // and `...Lines` join literal lines, `Decimal...` spells one number and
  // `...Bytes` gives one encoding.  They are kept apart from the examples
  // only so that every proof obligation stays small for the solver.

  /** The listing of two instructions. */
  lemma ListingOfTwo(a: Instruction, b: Instruction, textA: string, textB: string)
    requires InstructionText(a) == textA && InstructionText(b) == textB
    ensures Listing([a, b]) == textA + "\n" + textB + "\n"
  {
    ListingOfOne(b, textB);
    assert [a, b][1..] == [b];
  }

  lemma ListingOfOne(b: Instruction, textB: string)
    requires InstructionText(b) == textB
    ensures Listing([b]) == textB + "\n"
  {
    assert [b][1..] == [];
    assert textB + "\n" + "" == textB + "\n";
  }

  /** The bytes of two instructions. */
  lemma EncodeTwo(a: Instruction, b: Instruction, bytesA: seq<u8>, bytesB: seq<u8>)
    requires Encodable(a) && Encodable(b)
    requires EncodeBytes(a) == bytesA && EncodeBytes(b) == bytesB
    ensures AllEncodable([a, b]) && EncodeProgramBytes([a, b]) == bytesA + bytesB
  {
    assert [a, b][1..] == [b];
    assert [b][1..] == [];
    assert EncodeProgramBytes([b]) == bytesB + [];
    assert bytesB + [] == bytesB;
  }

  /** The text of a move from the texts of its operands. */
  lemma MovText(i: Instruction, destination: string, source: string)
    requires i.operation in {MovRegRM, MovImmediateReg}
    requires LocationText(i.destination) == destination && SourceText(i.source) == source
    ensures InstructionText(i) == "mov " + destination + ", " + source
  {
  }

  /** The decimal text of a number of two or more digits from that of its
      leading digits. */
  lemma DecimalAppend(n: nat, leading: string)
    requires n >= 10 && DecimalText(n / 10) == leading
    ensures DecimalText(n) == leading + [DigitChar(n % 10)]
  {
  }

  lemma MovClText()
    ensures InstructionText(Instruction(MovImmediateReg, Reg(Cl), Imm(Byte(12)))) == "mov cl, 12"
  {
    assert DecimalText(12) == "12";
  }

  lemma MovChText()
    ensures InstructionText(Instruction(MovImmediateReg, Reg(Ch), Imm(Byte(0xF4)))) == "mov ch, 244"
  {
    assert DecimalText(244) == "244";
  }

  /** `mov cl, 12` and `mov ch, -12`: the negative byte comes back as its
      unsigned value, which NASM assembles to the same byte. */
  lemma ByteImmediateExample()
    ensures Lines(ByteBits([0xB1, 0x0C, 0xB5, 0xF4])) == Some("mov cl, 12\nmov ch, 244\n")
  {
    var a := Instruction(MovImmediateReg, Reg(Cl), Imm(Byte(12)));
    var b := Instruction(MovImmediateReg, Reg(Ch), Imm(Byte(0xF4)));
    EncodeTwo(a, b, [0xB1, 0x0C], [0xB5, 0xF4]);
    DisassembleRoundTrip([a, b]);
    MovClText();
    MovChText();
    ListingOfTwo(a, b, "mov cl, 12", "mov ch, 244");
    ByteImmediateLines();
  }

  lemma ByteImmediateLines()
    ensures "mov cl, 12" + "\n" + "mov ch, 244" + "\n" == "mov cl, 12\nmov ch, 244\n"
  {
  }

  lemma MovCx12Text()
    ensures InstructionText(Instruction(MovImmediateReg, Reg(Cx), Imm(Word(12)))) == "mov cx, 12"
  {
    assert DecimalText(12) == "12";
    MovText(Instruction(MovImmediateReg, Reg(Cx), Imm(Word(12))), "cx", "12");
  }

  lemma MovCx65524Text()
    ensures InstructionText(Instruction(MovImmediateReg, Reg(Cx), Imm(Word(0xFFF4)))) == "mov cx, 65524"
  {
    Decimal65524();
    MovText(Instruction(MovImmediateReg, Reg(Cx), Imm(Word(0xFFF4))), "cx", "65524");
    MovCx65524Line();
  }

  lemma MovCx65524Line()
    ensures "mov " + "cx" + ", " + "65524" == "mov cx, 65524"
  {
  }

  lemma Decimal65524()
    ensures SourceText(Imm(Word(0xFFF4))) == "65524"
  {
    DecimalAppend(65, "6");
    DecimalAppend(655, "65");
    DecimalAppend(6552, "655");
    DecimalAppend(65524, "6552");
  }

  lemma WordImmediateBytes()
    ensures var program := [Instruction(MovImmediateReg, Reg(Cx), Imm(Word(12))),
                            Instruction(MovImmediateReg, Reg(Cx), Imm(Word(0xFFF4)))];
      AllEncodable(program) && EncodeProgramBytes(program) == [0xB9, 0x0C, 0x00, 0xB9, 0xF4, 0xFF]
  {
    var a := Instruction(MovImmediateReg, Reg(Cx), Imm(Word(12)));
    var b := Instruction(MovImmediateReg, Reg(Cx), Imm(Word(0xFFF4)));
    EncodeTwo(a, b, [0xB9, 0x0C, 0x00], [0xB9, 0xF4, 0xFF]);
  }

  lemma WordImmediateLines()
    ensures "mov cx, 12" + "\n" + "mov cx, 65524" + "\n" == "mov cx, 12\nmov cx, 65524\n"
  {
  }

  /** `mov cx, 12` and `mov cx, -12`: word immediates, low byte first. */
  lemma WordImmediateExample()
    ensures Lines(ByteBits([0xB9, 0x0C, 0x00, 0xB9, 0xF4, 0xFF])) == Some("mov cx, 12\nmov cx, 65524\n")
  {
    var a := Instruction(MovImmediateReg, Reg(Cx), Imm(Word(12)));
    var b := Instruction(MovImmediateReg, Reg(Cx), Imm(Word(0xFFF4)));
    WordImmediateBytes();
    DisassembleRoundTrip([a, b]);
    MovCx12Text();
    MovCx65524Text();
    ListingOfTwo(a, b, "mov cx, 12", "mov cx, 65524");
    WordImmediateLines();
  }

  /** The listing of three instructions. */
  lemma ListingOfThree(a: Instruction, b: Instruction, c: Instruction, textA: string, textB: string, textC: string)
    requires InstructionText(a) == textA && InstructionText(b) == textB && InstructionText(c) == textC
    ensures Listing([a, b, c]) == textA + "\n" + textB + "\n" + textC + "\n"
  {
    assert [a, b, c][1..] == [b, c];
    ListingOfTwo(b, c, textB, textC);
    LinesThen(textA, textB, textC);
  }

  lemma LinesThen(x: string, y: string, z: string)
    ensures x + "\n" + (y + "\n" + z + "\n") == x + "\n" + y + "\n" + z + "\n"
  {
  }

  lemma EncodeThree(a: Instruction, b: Instruction, c: Instruction, bytesA: seq<u8>, bytesB: seq<u8>, bytesC: seq<u8>)
    requires Encodable(a) && Encodable(b) && Encodable(c)
    requires EncodeBytes(a) == bytesA && EncodeBytes(b) == bytesB && EncodeBytes(c) == bytesC
    ensures AllEncodable([a, b, c]) && EncodeProgramBytes([a, b, c]) == bytesA + bytesB + bytesC
  {
    assert [a, b, c][1..] == [b, c];
    EncodeTwo(b, c, bytesB, bytesC);
  }

  lemma MovAlBxSiText()
    ensures InstructionText(Instruction(MovRegRM, Reg(Al), Loc(Addr(Bare(BxSi))))) == "mov al, [bx + si]"
  {
    assert LocationText(Addr(Bare(BxSi))) == "[bx + si]";
    MovText(Instruction(MovRegRM, Reg(Al), Loc(Addr(Bare(BxSi)))), "al", "[bx + si]");
  }

  lemma MovBxBpDiText()
    ensures InstructionText(Instruction(MovRegRM, Reg(Register.Bx), Loc(Addr(Bare(BpDi))))) == "mov bx, [bp + di]"
  {
    assert LocationText(Addr(Bare(BpDi))) == "[bp + di]";
    MovText(Instruction(MovRegRM, Reg(Register.Bx), Loc(Addr(Bare(BpDi)))), "bx", "[bp + di]");
  }

  lemma MovDxBpText()
    ensures InstructionText(Instruction(MovRegRM, Reg(Dx), Loc(Addr(WithOffset(Address.Bp, Byte(0))))))
      == "mov dx, [bp + 0]"
  {
    assert ImmediateText(Byte(0)) == "0";
    OffsetText(Address.Bp, Byte(0), "bp", "0");
    BpZeroLine();
    MovText(Instruction(MovRegRM, Reg(Dx), Loc(Addr(WithOffset(Address.Bp, Byte(0))))), "dx", "[bp + 0]");
  }

  lemma BpZeroLine()
    ensures "[" + "bp" + " + " + "0" + "]" == "[bp + 0]"
  {
  }

  lemma SourceAddressBytes()
    ensures var program := [Instruction(MovRegRM, Reg(Al), Loc(Addr(Bare(BxSi)))),
                            Instruction(MovRegRM, Reg(Register.Bx), Loc(Addr(Bare(BpDi)))),
                            Instruction(MovRegRM, Reg(Dx), Loc(Addr(WithOffset(Address.Bp, Byte(0)))))];
      AllEncodable(program) && EncodeProgramBytes(program) == [0x8A, 0x00, 0x8B, 0x1B, 0x8B, 0x56, 0x00]
  {
    var a := Instruction(MovRegRM, Reg(Al), Loc(Addr(Bare(BxSi))));
    var b := Instruction(MovRegRM, Reg(Register.Bx), Loc(Addr(Bare(BpDi))));
    var c := Instruction(MovRegRM, Reg(Dx), Loc(Addr(WithOffset(Address.Bp, Byte(0)))));
    EncodeThree(a, b, c, [0x8A, 0x00], [0x8B, 0x1B], [0x8B, 0x56, 0x00]);
  }

  lemma SourceAddressLines()
    ensures "mov al, [bx + si]" + "\n" + "mov bx, [bp + di]" + "\n" + "mov dx, [bp + 0]" + "\n"
      == "mov al, [bx + si]\nmov bx, [bp + di]\nmov dx, [bp + 0]\n"
  {
  }

  /** `mov al, [bx + si]`, `mov bx, [bp + di]` and `mov dx, [bp]`; NASM
      writes the last with a zero byte displacement, which comes back as
      `[bp + 0]`. */
  lemma SourceAddressExample()
    ensures Lines(ByteBits([0x8A, 0x00, 0x8B, 0x1B, 0x8B, 0x56, 0x00]))
      == Some("mov al, [bx + si]\nmov bx, [bp + di]\nmov dx, [bp + 0]\n")
  {
    var a := Instruction(MovRegRM, Reg(Al), Loc(Addr(Bare(BxSi))));
    var b := Instruction(MovRegRM, Reg(Register.Bx), Loc(Addr(Bare(BpDi))));
    var c := Instruction(MovRegRM, Reg(Dx), Loc(Addr(WithOffset(Address.Bp, Byte(0)))));
    SourceAddressBytes();
    DisassembleRoundTrip([a, b, c]);
    MovAlBxSiText();
    MovBxBpDiText();
    MovDxBpText();
    ListingOfThree(a, b, c, "mov al, [bx + si]", "mov bx, [bp + di]", "mov dx, [bp + 0]");
    SourceAddressLines();
  }

  lemma BxSi4999Text()
    ensures LocationText(Addr(WithOffset(BxSi, Word(4999)))) == "[bx + si + 4999]"
  {
    Decimal4999();
    OffsetText(BxSi, Word(4999), "bx + si", "4999");
    BxSi4999Line();
  }

  lemma Decimal4999()
    ensures ImmediateText(Word(4999)) == "4999"
  {
    DecimalAppend(49, "4");
    DecimalAppend(499, "49");
    DecimalAppend(4999, "499");
  }

  /** The text of an address with an offset from the texts of its parts. */
  lemma OffsetText(a: Address, offset: Immediate, base: string, digits: string)
    requires AddressText(a) == base && ImmediateText(offset) == digits
    ensures LocationText(Addr(WithOffset(a, offset))) == "[" + base + " + " + digits + "]"
  {
  }

  lemma BxSi4999Line()
    ensures "[" + "bx + si" + " + " + "4999" + "]" == "[bx + si + 4999]"
  {
  }

  lemma WordOffsetText()
    ensures InstructionText(Instruction(MovRegRM, Reg(Al), Loc(Addr(WithOffset(BxSi, Word(4999))))))
      == "mov al, [bx + si + 4999]"
  {
    BxSi4999Text();
    MovText(Instruction(MovRegRM, Reg(Al), Loc(Addr(WithOffset(BxSi, Word(4999))))), "al", "[bx + si + 4999]");
    WordOffsetLine();
  }

  lemma WordOffsetLine()
    ensures "mov " + "al" + ", " + "[bx + si + 4999]" == "mov al, [bx + si + 4999]"
  {
  }

  lemma WordOffsetBytes()
    ensures var program := [Instruction(MovRegRM, Reg(Al), Loc(Addr(WithOffset(BxSi, Word(4999)))))];
      AllEncodable(program) && EncodeProgramBytes(program) == [0x8A, 0x80, 0x87, 0x13]
  {
    var a := Instruction(MovRegRM, Reg(Al), Loc(Addr(WithOffset(BxSi, Word(4999)))));
    assert EncodeBytes(a) == [0x8A, 0x80, 0x87, 0x13];
    assert [a][1..] == [];
    assert EncodeProgramBytes([a]) == [0x8A, 0x80, 0x87, 0x13] + [];
  }

  lemma WordOffsetLines()
    ensures "mov al, [bx + si + 4999]" + "\n" + "" == "mov al, [bx + si + 4999]\n"
  {
  }

  /** `mov al, [bx + si + 4999]`: a 16-bit displacement. */
  lemma WordOffsetExample()
    ensures Lines(ByteBits([0x8A, 0x80, 0x87, 0x13])) == Some("mov al, [bx + si + 4999]\n")
  {
    var a := Instruction(MovRegRM, Reg(Al), Loc(Addr(WithOffset(BxSi, Word(4999)))));
    WordOffsetBytes();
    DisassembleRoundTrip([a]);
    WordOffsetText();
    assert [a][1..] == [];
    assert Listing([a]) == "mov al, [bx + si + 4999]" + "\n" + "";
    WordOffsetLines();
  }
}
