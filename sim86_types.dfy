/** The `sim86` MOV disassembler's instruction model and its NASM rendering:
    the operation, a destination location and a source that is a location
    or an immediate.  Every name is rendered in lower case, a memory operand
    in brackets, and numbers in unsigned decimal. */
module Sim86 {
  import opened Basics

  datatype Register = Al | Dl | Cl | Bl | Ah | Dh | Ch | Bh | Ax | Dx | Cx | Bx | Sp | Bp | Si | Di

  /** The eight base registers or register pairs of a memory operand. */
  datatype Address = BxSi | BxDi | BpSi | BpDi | Si | Di | Bp | Bx

  datatype Immediate = Byte(byte: u8) | Word(word: u16)

  datatype EAddress = Bare(base: Address) | WithOffset(base: Address, offset: Immediate)

  datatype Location = Reg(reg: Register) | Addr(eaddr: EAddress)

  datatype Source = Loc(loc: Location) | Imm(imm: Immediate)

  datatype Operation = MovRegRM | MovImmediateRM | MovImmediateReg | Unimplemented

  /** An instruction; the `_address` and `_size` fields the code always
      sets to 0 are not kept. */
  datatype Instruction = Instruction(operation: Operation, destination: Location, source: Source)

  predicate IsWordRegister(r: Register)
  {
    r.Ax? || r.Cx? || r.Dx? || r.Bx? || r.Sp? || r.Bp? || r.Si? || r.Di?
  }

  /** `Register::byte`: the byte register a 3-bit code names; any code from
      7 on names BH. */
  function ByteRegister(code: nat): (r: Register)
    ensures !IsWordRegister(r)
    ensures code >= 7 ==> r == Bh
  {
    if code == 0 then Al
    else if code == 1 then Cl
    else if code == 2 then Dl
    else if code == 3 then Bl
    else if code == 4 then Ah
    else if code == 5 then Ch
    else if code == 6 then Dh
    else Bh
  }

  /** `Register::word`: the word register a 3-bit code names; any code from
      7 on names DI. */
  function WordRegister(code: nat): (r: Register)
    ensures IsWordRegister(r)
    ensures code >= 7 ==> r == Register.Di
  {
    if code == 0 then Ax
    else if code == 1 then Cx
    else if code == 2 then Dx
    else if code == 3 then Register.Bx
    else if code == 4 then Sp
    else if code == 5 then Register.Bp
    else if code == 6 then Register.Si
    else Register.Di
  }

  /** The 3-bit code of a register in the 8086 encoding (AL, CL, DL, BL, AH,
      CH, DH, BH and AX, CX, DX, BX, SP, BP, SI, DI). */
  function RegisterCode(r: Register): (code: nat)
    ensures code < 8
  {
    match r
    case Al => 0 case Cl => 1 case Dl => 2 case Bl => 3
    case Ah => 4 case Ch => 5 case Dh => 6 case Bh => 7
    case Ax => 0 case Cx => 1 case Dx => 2 case Bx => 3
    case Sp => 4 case Bp => 5 case Si => 6 case Di => 7
  }

  /** The two readers invert the register code: each of the sixteen
      registers is named by exactly one (width, code) pair. */
  lemma RegisterReadersInvertCode(r: Register, code: nat)
    ensures IsWordRegister(r) ==> WordRegister(RegisterCode(r)) == r
    ensures !IsWordRegister(r) ==> ByteRegister(RegisterCode(r)) == r
    ensures code < 8 ==> RegisterCode(WordRegister(code)) == code && RegisterCode(ByteRegister(code)) == code
  {
  }

  /** The r/m code of a memory base in the 8086 encoding. */
  function AddressCode(a: Address): (code: nat)
    ensures code < 8
  {
    match a
    case BxSi => 0 case BxDi => 1 case BpSi => 2 case BpDi => 3
    case Si => 4 case Di => 5 case Bp => 6 case Bx => 7
  }

  // ---------------------------------------------------------------------------
  // Display

  /** `Display for Register`: the lower-case register name. */
  function RegisterText(r: Register): (s: string)
    ensures |s| == 2
  {
    match r
    case Al => "al" case Dl => "dl" case Cl => "cl" case Bl => "bl"
    case Ah => "ah" case Dh => "dh" case Ch => "ch" case Bh => "bh"
    case Ax => "ax" case Dx => "dx" case Cx => "cx" case Bx => "bx"
    case Sp => "sp" case Bp => "bp" case Si => "si" case Di => "di"
  }

  /** Different registers have different names. */
  lemma RegisterTextInjective(a: Register, b: Register)
    requires RegisterText(a) == RegisterText(b)
    ensures a == b
  {
  }

  /** `Display for Address`: registers joined by " + ". */
  function AddressText(a: Address): (s: string)
    ensures |s| == 2 || |s| == 7
  {
    match a
    case BxSi => "bx + si" case BxDi => "bx + di" case BpSi => "bp + si" case BpDi => "bp + di"
    case Si => "si" case Di => "di" case Bp => "bp" case Bx => "bx"
  }

  lemma AddressTextInjective(a: Address, b: Address)
    requires AddressText(a) == AddressText(b)
    ensures a == b
  {
  }

  /** `Display for Immediate`: the unsigned value in decimal, whatever its width. */
  function ImmediateText(imm: Immediate): (s: string)
    ensures forall k :: 0 <= k < |s| ==> IsDigit(s[k])
  {
    match imm
    case Byte(b) => DecimalText(b)
    case Word(w) => DecimalText(w)
  }

  /** `Display for Location`: a register name, `[base]`, or `[base + offset]`. */
  function LocationText(l: Location): (s: string)
    ensures |s| >= 2
    ensures l.Reg? <==> s[0] != '['
    ensures l.Addr? ==> s[|s| - 1] == ']'
  {
    match l
    case Reg(r) => RegisterText(r)
    case Addr(Bare(a)) => "[" + AddressText(a) + "]"
    case Addr(WithOffset(a, offset)) => "[" + AddressText(a) + " + " + ImmediateText(offset) + "]"
  }

  /** `Display for Source`: an immediate is exactly the source whose text
      starts with a digit, and either kind prints on one line. */
  function SourceText(s: Source): (r: string)
    ensures |r| > 0 && (s.Imm? <==> IsDigit(r[0]))
    ensures '\n' !in r
  {
    match s
    case Loc(l) =>
      LocationOnOneLine(l);
      LocationText(l)
    case Imm(imm) =>
      var r := ImmediateText(imm);
      assert |r| > 0 by { assert r == DecimalText(if imm.Byte? then imm.byte else imm.word); }
      DigitsOnOneLine(r);
      r
  }

  /** A location prints on one line. */
  lemma LocationOnOneLine(l: Location)
    ensures '\n' !in LocationText(l)
  {
    match l
    case Reg(r) =>
    case Addr(Bare(a)) =>
    case Addr(WithOffset(a, offset)) => DigitsOnOneLine(ImmediateText(offset));
  }

  /** `Display for Operation`: "mov" for the three moves, "unimplemented!" otherwise. */
  function OperationText(op: Operation): (s: string)
    ensures s == "mov" <==> !op.Unimplemented?
  {
    match op
    case Unimplemented => "unimplemented!"
    case _ => "mov"
  }

  /** `Display for Instruction`: "<operation> <destination>, <source>". */
  function InstructionText(i: Instruction): (s: string)
    ensures '\n' !in s
  {
    LocationOnOneLine(i.destination);
    assert '\n' !in SourceText(i.source);
    OperationText(i.operation) + " " + LocationText(i.destination) + ", " + SourceText(i.source)
  }
}
