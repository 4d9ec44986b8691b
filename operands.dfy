/** The 8086 operand model: byte and word registers, the addressing-mode
    class of a mod-reg-r/m byte, effective addresses and the `Place` an
    operand denotes, with their NASM-style text. */
module Operands {
  import opened Basics
  import opened Cursor

  /** The byte registers, in the order of their 3-bit codes. */
  datatype RegisterByte = AL | CL | DL | BL | AH | CH | DH | BH

  /** The word registers, in the order of their 3-bit codes. */
  datatype RegisterWord = AX | CX | DX | BX | SP | BP | SI | DI

  const ByteRegisters: seq<RegisterByte> := [AL, CL, DL, BL, AH, CH, DH, BH]
  const WordRegisters: seq<RegisterWord> := [AX, CX, DX, BX, SP, BP, SI, DI]

  /** The discriminant of a byte register (`as u8` on the `#[repr(u8)]` enum). */
  function ByteCode(r: RegisterByte): Octal
  {
    match r
    case AL => 0 case CL => 1 case DL => 2 case BL => 3
    case AH => 4 case CH => 5 case DH => 6 case BH => 7
  }

  function WordCode(r: RegisterWord): Octal
  {
    match r
    case AX => 0 case CX => 1 case DX => 2 case BX => 3
    case SP => 4 case BP => 5 case SI => 6 case DI => 7
  }

  /** `RegisterByte::from_octal`: None exactly for codes above 7, otherwise the
      register whose discriminant is the code. */
  function ByteFromOctal(octal: u8): (r: Option<RegisterByte>)
    ensures r.None? <==> octal > 7
    ensures r.Some? ==> ByteCode(r.value) == octal
  {
    if octal > 7 then None else Some(ByteRegisters[octal])
  }

  /** `RegisterWord::from_octal`, likewise for the word registers. */
  function WordFromOctal(octal: u8): (r: Option<RegisterWord>)
    ensures r.None? <==> octal > 7
    ensures r.Some? ==> WordCode(r.value) == octal
  {
    if octal > 7 then None else Some(WordRegisters[octal])
  }

  /** The lookups invert the discriminants: every register comes back from its code. */
  lemma FromOctalInvertsCode(b: RegisterByte, w: RegisterWord)
    ensures ByteFromOctal(ByteCode(b)) == Some(b)
    ensures WordFromOctal(WordCode(w)) == Some(w)
  {
  }

  /** The addressing-mode class held in bits 7-6 of a mod-reg-r/m byte.  In the
      Rust code these are `EffectiveAdress` (00, no displacement except the
      direct address), `EffectiveAdressByte` (01), `EffectiveAdressWord` (10)
      and `RegisterToRegister` (11). */
  datatype Mode = Memory | MemoryDisp8 | MemoryDisp16 | RegisterToRegister

  function ModeCode(m: Mode): nat
  {
    match m
    case Memory => 0 case MemoryDisp8 => 1 case MemoryDisp16 => 2 case RegisterToRegister => 3
  }

  /** `Mode::from_u8_discriminant`: None exactly for values above 3. */
  function ModeFromDiscriminant(discriminant: u8): (r: Option<Mode>)
    ensures r.None? <==> discriminant > 3
    ensures r.Some? ==> ModeCode(r.value) == discriminant
  {
    if discriminant > 3 then None
    else Some([Memory, MemoryDisp8, MemoryDisp16, RegisterToRegister][discriminant])
  }

  lemma ModeFromDiscriminantInvertsCode(m: Mode)
    ensures ModeFromDiscriminant(ModeCode(m) as u8) == Some(m)
  {
  }

  /** A memory operand: the base-register combination selected by `index`,
      the mode it was encoded with, and the 16-bit displacement. */
  datatype EffectiveAddress = EffectiveAddress(index: Octal, mode: Mode, displacement: u16)

  /** Mode 00 with r/m 110 is not "BP with no displacement" but a direct
      16-bit address. */
  predicate IsDirectAddress(ea: EffectiveAddress)
  {
    ea.mode == Memory && ea.index == 6
  }

  datatype Place = Byte(byteReg: RegisterByte) | Word(wordReg: RegisterWord) | Address(ea: EffectiveAddress)

  /** `Place::register`: the register a 3-bit code names at the given width.
      The Rust code unwraps `from_octal`, which panics above 7. */
  function RegisterPlace(wordMode: bool, code: u8): (p: Place)
    requires code < 8
    ensures p.Word? <==> wordMode
    ensures p.Byte? <==> !wordMode
    ensures p.Word? ==> WordCode(p.wordReg) == code
    ensures p.Byte? ==> ByteCode(p.byteReg) == code
  {
    if wordMode then Word(WordFromOctal(code).value) else Byte(ByteFromOctal(code).value)
  }

  /** How many displacement bytes follow the mod-reg-r/m byte: the mode's
      own number (0, 1 or 2, and 3 for mode 11, which never reaches it),
      except for the direct address, which always has two. */
  function DisplacementWidth(mode: Mode, rm: Octal): nat
  {
    if mode == Memory && rm == 6 then 2 else ModeCode(mode)
  }

  /** The operand an r/m field denotes, read from the bytes that follow the
      mod-reg-r/m byte, with the number of those bytes it takes; None when
      the displacement does not fit (where `split_at` panics). */
  function RmOperand(rm: Octal, mode: Mode, wordMode: bool, bytes: seq<u8>): Option<(Place, nat)>
  {
    if mode == RegisterToRegister then Some((RegisterPlace(wordMode, rm), 0))
    else
      var width := DisplacementWidth(mode, rm);
      if |bytes| < width then None
      else Some((Address(EffectiveAddress(rm, mode, LittleEndian(bytes[..width]) % 0x1_0000)), width))
  }

  /** Register mode takes no bytes and names a register of the requested width;
      every memory mode takes its displacement width; only a short cursor fails. */
  lemma RmOperandConsumption(rm: Octal, mode: Mode, wordMode: bool, bytes: seq<u8>)
    ensures mode == RegisterToRegister ==>
      RmOperand(rm, mode, wordMode, bytes) == Some((RegisterPlace(wordMode, rm), 0))
    ensures mode != RegisterToRegister ==>
      (RmOperand(rm, mode, wordMode, bytes).None? <==> |bytes| < DisplacementWidth(mode, rm))
    ensures mode != RegisterToRegister && RmOperand(rm, mode, wordMode, bytes).Some? ==>
      var (p, n) := RmOperand(rm, mode, wordMode, bytes).value;
      && n == DisplacementWidth(mode, rm) <= 2
      && p == Address(EffectiveAddress(rm, mode, LittleEndian(bytes[..n])))
  {
  }

  /** The direct address reads a full little-endian 16-bit displacement. */
  lemma DirectAddressTakesTwoBytes(wordMode: bool, bytes: seq<u8>)
    requires |bytes| >= 2
    ensures RmOperand(6, Memory, wordMode, bytes)
         == Some((Address(EffectiveAddress(6, Memory, bytes[0] as int + 0x100 * bytes[1] as int)), 2))
  {
    var two := bytes[..2];
    assert two[1..][1..] == [];
    assert LittleEndian(two) == bytes[0] as int + 0x100 * bytes[1] as int;
  }

  /** `Place::address`: reads the displacement (two bytes for the direct
      address, otherwise as many as the mode's number) and truncates it to
      16 bits (`as u16`). */
  method AddressOperand(rm: Octal, mode: Mode, memory: seq<u8>) returns (p: Place, rest: seq<u8>)
    requires DisplacementWidth(mode, rm) <= |memory|
    ensures memory == memory[..DisplacementWidth(mode, rm)] + rest
    ensures p == Address(EffectiveAddress(rm, mode, LittleEndian(memory[..DisplacementWidth(mode, rm)]) % 0x1_0000))
  {
    var displacement;
    if mode == Memory && rm == 6 {
      displacement, rest := AdvanceBy(memory, 2);
    } else {
      displacement, rest := AdvanceBy(memory, ModeCode(mode));
    }
    p := Address(EffectiveAddress(rm, mode, displacement % 0x1_0000));
  }

  /** `Place::resolve_rm`: a register for mode 11, otherwise a memory operand. */
  method ResolveRm(rm: Octal, mode: Mode, wordMode: bool, memory: seq<u8>) returns (p: Place, rest: seq<u8>)
    requires RmOperand(rm, mode, wordMode, memory).Some?
    ensures |rest| <= |memory| && rest == memory[|memory| - |rest|..]
    ensures RmOperand(rm, mode, wordMode, memory) == Some((p, |memory| - |rest|))
  {
    if mode == RegisterToRegister {
      RmOperandConsumption(rm, mode, wordMode, memory);
      p := RegisterPlace(wordMode, rm);
      rest := memory;
      assert rest == memory[0..];
    } else {
      p, rest := AddressOperand(rm, mode, memory);
      RmOperandAddress(rm, mode, wordMode, memory, p, rest);
    }
  }

  /** `RmOperand` in memory mode, from what `Place::address` read. */
  lemma RmOperandAddress(rm: Octal, mode: Mode, wordMode: bool, memory: seq<u8>, p: Place, rest: seq<u8>)
    requires mode != RegisterToRegister && DisplacementWidth(mode, rm) <= |memory|
    requires memory == memory[..DisplacementWidth(mode, rm)] + rest
    requires p == Address(EffectiveAddress(rm, mode, LittleEndian(memory[..DisplacementWidth(mode, rm)]) % 0x1_0000))
    ensures |rest| <= |memory| && rest == memory[|memory| - |rest|..]
    ensures RmOperand(rm, mode, wordMode, memory) == Some((p, |memory| - |rest|))
  {
    SplitOff(memory, DisplacementWidth(mode, rm), rest);
  }

  // ---------------------------------------------------------------------------
  // Text

  /** Registers print in their debug format, their upper-case variant names. */
  function ByteRegisterName(r: RegisterByte): string
  {
    ["AL", "CL", "DL", "BL", "AH", "CH", "DH", "BH"][ByteCode(r)]
  }

  function WordRegisterName(r: RegisterWord): string
  {
    ["AX", "CX", "DX", "BX", "SP", "BP", "SI", "DI"][WordCode(r)]
  }

  /** `EffectiveAdress::ADRESS_CALCULATION`, indexed by the r/m code. */
  const AddressCalculation: seq<string> :=
    ["BX + SI", "BX + DI", "BP + SI", "BP + DI", "SI", "DI", "BP", "BX"]

  /** The `Display` of an effective address: `[disp]` for the direct address,
      `[<registers> + disp]` otherwise. */
  function EffectiveAddressText(ea: EffectiveAddress): (s: string)
    ensures |s| >= 3 && s[0] == '[' && s[|s| - 1] == ']'
    ensures IsDirectAddress(ea) <==> '+' !in s
  {
    var digits := DecimalText(ea.displacement);
    assert '+' !in digits by {
      forall k | 0 <= k < |digits| ensures digits[k] != '+' { assert IsDigit(digits[k]); }
    }
    if IsDirectAddress(ea) then
      "[" + digits + "]"
    else
      var s := "[" + AddressCalculation[ea.index] + " + " + digits + "]";
      assert s[|AddressCalculation[ea.index]| + 2] == '+';
      s
  }

  /** The `Display` of an operand: a register name, or a bracketed memory
      operand; either way on one line. */
  function PlaceText(p: Place): (s: string)
    ensures |s| >= 2 && (p.Address? <==> s[0] == '[')
    ensures '\n' !in s
  {
    match p
    case Byte(r) => ByteRegisterName(r)
    case Word(r) => WordRegisterName(r)
    case Address(ea) =>
      var s := EffectiveAddressText(ea);
      NumbersOnOneLine(ea.displacement, 0, 0);
      assert '\n' !in AddressCalculation[ea.index];
      s
  }

  /** The sixteen register names are pairwise distinct, so a rendered register
      operand names exactly one register. */
  lemma RegisterNamesDistinct(p: Place, q: Place)
    requires !p.Address? && !q.Address? && p != q
    ensures PlaceText(p) != PlaceText(q)
  {
  }
}
