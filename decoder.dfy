/** The byte-stream decoder: one instruction from the front of a cursor, and
    the listing of a whole stream.  `Decode` states the layout of every
    recognised encoding; the methods thread the cursor exactly as the Rust
    functions do and are proved to agree with it. */
module Decoder {
  import opened Basics
  import opened Cursor
  import opened Operands
  import opened Instructions

  /** What decoding one instruction gives: the instruction and the number of
      bytes it took, or `OutOfBytes` where `advance_by` would panic on a
      cursor too short for a displacement or an immediate. */
  datatype Decoding = Decoded(length: nat, instruction: Instruction) | OutOfBytes

  /** Bytes the cursor loses to one `advance`: one, or none when it is empty. */
  function AdvanceCount(memory: seq<u8>): (n: nat)
    ensures n <= |memory| && Tail(memory) == memory[n..]
    ensures n == 0 <==> |memory| == 0
  {
    if |memory| == 0 then 0 else 1
  }

  /** The mode in bits 7-6 of a mod-reg-r/m byte (the `.unwrap()` of
      `Mode::from_u8_discriminant`, which cannot fail on a 2-bit value). */
  function ModeOf(b: u8): (m: Mode)
    ensures ModeCode(m) == b / 64
  {
    ModeFromDiscriminant(b / 64).value
  }

  /** Immediate width for a `w` bit: one byte, or two for a word. */
  function ImmediateWidth(wordMode: bool): nat { if wordMode then 2 else 1 }

  /** A mod-reg-r/m byte and the displacement it calls for: the reg field,
      the operand the r/m field names, and the bytes taken, counting the
      mod-reg-r/m byte itself. */
  function RmTarget(wordMode: bool, memory: seq<u8>): (r: Option<(Octal, Place, nat)>)
    ensures r.Some? ==> r.value.2 <= |memory|
  {
    var b := Head(memory);
    var k := AdvanceCount(memory);
    match RmOperand(b % 8, ModeOf(b), wordMode, memory[k..])
    case None => None
    case Some((place, n)) =>
      RmOperandConsumption(b % 8, ModeOf(b), wordMode, memory[k..]);
      Some((b / 8 % 8, place, k + n))
  }

  /** The two operands of a reg/mem form (`target_source`): the register of
      the reg field is the target when the `d` bit is set, the source
      otherwise. */
  function RegMemOperands(wordMode: bool, destMode: bool, memory: seq<u8>): (r: Option<(Place, Place, nat)>)
    ensures r.Some? ==> r.value.2 <= |memory|
  {
    match RmTarget(wordMode, memory)
    case None => None
    case Some((reg, rmPlace, n)) =>
      var regPlace := RegisterPlace(wordMode, reg);
      Some(if destMode then (regPlace, rmPlace, n) else (rmPlace, regPlace, n))
  }

  predicate IsArithmeticRegMem(byte: u8) { byte <= 0x03 || 0x28 <= byte <= 0x2B || 0x38 <= byte <= 0x3B }
  predicate IsArithmeticAccumulator(byte: u8) { 0x04 <= byte <= 0x05 || 0x2C <= byte <= 0x2D || 0x3C <= byte <= 0x3D }
  predicate IsJump(byte: u8) { 0x70 <= byte <= 0x7F }
  predicate IsLoop(byte: u8) { 0xE0 <= byte <= 0xE3 }
  predicate IsArithmeticImmediate(byte: u8) { 0x80 <= byte <= 0x83 }
  predicate IsMovRegMem(byte: u8) { 0x88 <= byte <= 0x8C }
  predicate IsMovImmediate(byte: u8) { 0xB0 <= byte <= 0xBF }
  predicate IsMovImmediateToMemory(byte: u8) { byte == 0xC6 || byte == 0xC7 }

  /** The leading bytes `single_instruction` dispatches on. */
  predicate IsRecognized(byte: u8)
  {
    IsArithmeticRegMem(byte) || IsArithmeticAccumulator(byte) || IsJump(byte) || IsLoop(byte)
    || IsArithmeticImmediate(byte) || IsMovRegMem(byte) || IsMovImmediate(byte) || IsMovImmediateToMemory(byte)
  }

  // One function per opcode group: the instruction and the number of bytes
  // it takes after the opcode byte, or None where `advance_by` would panic.

  /** 0x00-0x03, 0x28-0x2B, 0x38-0x3B: add, sub or cmp between a register
      and a register or memory operand; the operation is bits 5-3. */
  function ArithmeticRegMemForm(byte: u8, after: seq<u8>): Option<(nat, Instruction)>
  {
    match RegMemOperands(byte % 2 == 1, byte / 2 % 2 == 1, after)
    case None => None
    case Some((target, source, n)) => Some((n, Arithmetic(byte / 8 % 8, target, source)))
  }

  /** 0x04-0x05, 0x2C-0x2D, 0x3C-0x3D: an immediate to AX (two bytes) or AL (one). */
  function ArithmeticAccumulatorForm(byte: u8, after: seq<u8>): Option<(nat, Instruction)>
  {
    var wordMode := byte % 2 == 1;
    var width := ImmediateWidth(wordMode);
    if |after| < width then None
    else
      var target := if wordMode then Word(AX) else Byte(AL);
      Some((width, ArithmeticImmediate(byte / 8 % 8, target, LittleEndian(after[..width]))))
  }

  /** 0x70-0x7F and 0xE0-0xE3: the opcode and one offset byte read as `i8`. */
  function RelativeForm(byte: u8, after: seq<u8>): Option<(nat, Instruction)>
  {
    var offset := Signed8(Head(after));
    Some((AdvanceCount(after), if IsJump(byte) then Jump(byte, offset) else Loop(byte, offset)))
  }

  /** 0x80-0x83: an immediate to a register or memory operand; two immediate
      bytes only when `w` is set and `s` is clear, never sign-extended. */
  function ArithmeticImmediateForm(byte: u8, after: seq<u8>): Option<(nat, Instruction)>
  {
    var wordMode := byte % 2 == 1;
    var signExtension := byte / 2 % 2 == 1;
    match RmTarget(wordMode, after)
    case None => None
    case Some((op, target, n)) =>
      var width := ImmediateWidth(wordMode && !signExtension);
      if |after| - n < width then None
      else Some((n + width, ArithmeticImmediateToMemory(wordMode, op, target, LittleEndian(after[n..n + width]))))
  }

  /** 0x88-0x8C: mov between a register and a register or memory operand. */
  function MovRegMemForm(byte: u8, after: seq<u8>): Option<(nat, Instruction)>
  {
    match RegMemOperands(byte % 2 == 1, byte / 2 % 2 == 1, after)
    case None => None
    case Some((target, source, n)) => Some((n, Mov(target, source)))
  }

  /** 0xB0-0xBF: an immediate to the register in bits 2-0, width in bit 3. */
  function MovImmediateForm(byte: u8, after: seq<u8>): Option<(nat, Instruction)>
  {
    var wordMode := byte / 8 % 2 == 1;
    var width := ImmediateWidth(wordMode);
    if |after| < width then None
    else Some((width, MovImmediate(RegisterPlace(wordMode, byte % 8), LittleEndian(after[..width]))))
  }

  /** 0xC6/0xC7: an immediate to a register or memory operand; the reg field is ignored. */
  function MovImmediateToMemoryForm(byte: u8, after: seq<u8>): Option<(nat, Instruction)>
  {
    var wordMode := byte % 2 == 1;
    match RmTarget(wordMode, after)
    case None => None
    case Some((_, target, n)) =>
      var width := ImmediateWidth(wordMode);
      if |after| - n < width then None
      else Some((n + width, MovImmediateToMemory(wordMode, target, LittleEndian(after[n..n + width]))))
  }

  /** The dispatch of `single_instruction` on the opcode byte. */
  function AfterOpcode(byte: u8, after: seq<u8>): (r: Option<(nat, Instruction)>)
    ensures r.Some? ==> r.value.0 <= |after|
  {
    if IsArithmeticRegMem(byte) then ArithmeticRegMemForm(byte, after)
    else if IsArithmeticAccumulator(byte) then ArithmeticAccumulatorForm(byte, after)
    else if IsJump(byte) || IsLoop(byte) then RelativeForm(byte, after)
    else if IsArithmeticImmediate(byte) then ArithmeticImmediateForm(byte, after)
    else if IsMovRegMem(byte) then MovRegMemForm(byte, after)
    else if IsMovImmediate(byte) then MovImmediateForm(byte, after)
    else if IsMovImmediateToMemory(byte) then MovImmediateToMemoryForm(byte, after)
    else Some((0, Unrecognized(byte)))
  }

  /** The instruction at the front of `memory` and its length in bytes.
      Every `advance` on an exhausted cursor reads 0 rather than failing, so
      only a short displacement or immediate gives `OutOfBytes`. */
  function Decode(memory: seq<u8>): (d: Decoding)
    ensures d.Decoded? ==> d.length <= |memory|
    ensures d.Decoded? && |memory| > 0 ==> d.length >= 1
  {
    var k := AdvanceCount(memory);
    match AfterOpcode(Head(memory), memory[k..])
    case None => OutOfBytes
    case Some((n, instruction)) => Decoded(k + n, instruction)
  }

  // ---------------------------------------------------------------------------
  // The cursor-threading implementation

  /** `target_source`: one mod-reg-r/m byte, its displacement, and the two
      operands in the order the `d` bit gives. */
  method TargetSource(wordMode: bool, destMode: bool, memory: seq<u8>) returns (target: Place, source: Place, rest: seq<u8>)
    requires RegMemOperands(wordMode, destMode, memory).Some?
    ensures |rest| <= |memory| && rest == memory[|memory| - |rest|..]
    ensures RegMemOperands(wordMode, destMode, memory) == Some((target, source, |memory| - |rest|))
  {
    RegMemOperandsSome(wordMode, destMode, memory);
    var mode, reg, rm, afterModRm := ModRegRm(memory);
    ModRegRmFields(Head(memory), mode, reg, rm);
    var m := ModeFromDiscriminant(mode).value;
    assert m == ModeOf(Head(memory));
    var regPlace := RegisterPlace(wordMode, reg);
    var rmPlace;
    rmPlace, rest := ResolveRm(rm, m, wordMode, afterModRm);
    TargetSourceOk(wordMode, destMode, memory, reg, rmPlace, afterModRm, rest);
    if destMode {
      target, source := regPlace, rmPlace;
    } else {
      target, source := rmPlace, regPlace;
    }
  }

  /** `target_source` on the fields it read and the operand it resolved. */
  lemma TargetSourceOk(wordMode: bool, destMode: bool, memory: seq<u8>, reg: Octal, rmPlace: Place,
                       afterModRm: seq<u8>, rest: seq<u8>)
    requires afterModRm == Tail(memory) && reg == Head(memory) / 8 % 8
    requires |rest| <= |afterModRm| && rest == afterModRm[|afterModRm| - |rest|..]
    requires RmOperand(Head(memory) % 8, ModeOf(Head(memory)), wordMode, afterModRm) == Some((rmPlace, |afterModRm| - |rest|))
    ensures |rest| <= |memory| && rest == memory[|memory| - |rest|..]
    ensures destMode ==> RegMemOperands(wordMode, destMode, memory) == Some((RegisterPlace(wordMode, reg), rmPlace, |memory| - |rest|))
    ensures !destMode ==> RegMemOperands(wordMode, destMode, memory) == Some((rmPlace, RegisterPlace(wordMode, reg), |memory| - |rest|))
  {
    SuffixOfSuffix(memory, afterModRm, rest);
    RmTargetOk(wordMode, memory, rmPlace, |afterModRm| - |rest|);
    RegMemOperandsOk(wordMode, destMode, memory, reg, rmPlace, |memory| - |rest|);
  }

  /** The mod-reg-r/m byte and operand of the immediate forms (0x80-0x83,
      0xC6/0xC7), which read it inline rather than through `target_source`. */
  method RmTargetOperand(wordMode: bool, memory: seq<u8>) returns (reg: Octal, target: Place, rest: seq<u8>)
    requires RmTarget(wordMode, memory).Some?
    ensures |rest| <= |memory| && rest == memory[|memory| - |rest|..]
    ensures RmTarget(wordMode, memory) == Some((reg, target, |memory| - |rest|))
  {
    var mode, rm, afterModRm;
    mode, reg, rm, afterModRm := ModRegRm(memory);
    ModRegRmFields(Head(memory), mode, reg, rm);
    var m := ModeFromDiscriminant(mode).value;
    assert m == ModeOf(Head(memory)) && afterModRm == memory[AdvanceCount(memory)..];
    target, rest := ResolveRm(rm, m, wordMode, afterModRm);
    SuffixOfSuffix(memory, afterModRm, rest);
    RmTargetOk(wordMode, memory, target, |afterModRm| - |rest|);
  }

  /** When the operands of a reg/mem form are there, so is the r/m operand
      after the mod-reg-r/m byte. */
  lemma RegMemOperandsSome(wordMode: bool, destMode: bool, memory: seq<u8>)
    requires RegMemOperands(wordMode, destMode, memory).Some?
    ensures RmOperand(Head(memory) % 8, ModeOf(Head(memory)), wordMode, memory[AdvanceCount(memory)..]).Some?
  {
  }

  /** `RegMemOperands` once the reg field and the r/m operand are known. */
  lemma RegMemOperandsOk(wordMode: bool, destMode: bool, memory: seq<u8>, reg: Octal, rmPlace: Place, n: nat)
    requires RmTarget(wordMode, memory) == Some((reg, rmPlace, n))
    ensures destMode ==> RegMemOperands(wordMode, destMode, memory) == Some((RegisterPlace(wordMode, reg), rmPlace, n))
    ensures !destMode ==> RegMemOperands(wordMode, destMode, memory) == Some((rmPlace, RegisterPlace(wordMode, reg), n))
  {
  }

  /** `RmTarget` once the operand after the mod-reg-r/m byte is known. */
  lemma RmTargetOk(wordMode: bool, memory: seq<u8>, place: Place, n: nat)
    requires RmOperand(Head(memory) % 8, ModeOf(Head(memory)), wordMode, memory[AdvanceCount(memory)..]) == Some((place, n))
    ensures RmTarget(wordMode, memory) == Some((Head(memory) / 8 % 8, place, AdvanceCount(memory) + n))
  {
  }

  /** The arm for 0x00-0x03, 0x28-0x2B, 0x38-0x3B. */
  method DecodeArithmeticRegMem(byte: u8, memory: seq<u8>) returns (instruction: Instruction, rest: seq<u8>)
    requires ArithmeticRegMemForm(byte, memory).Some?
    ensures |rest| <= |memory| && rest == memory[|memory| - |rest|..]
    ensures ArithmeticRegMemForm(byte, memory) == Some((|memory| - |rest|, instruction))
  {
    var target, source;
    target, source, rest := TargetSource(byte % 2 == 1, byte / 2 % 2 == 1, memory);
    instruction := Arithmetic(byte / 8 % 8, target, source);
  }

  /** The arm for 0x04-0x05, 0x2C-0x2D, 0x3C-0x3D. */
  method DecodeArithmeticAccumulator(byte: u8, memory: seq<u8>) returns (instruction: Instruction, rest: seq<u8>)
    requires ArithmeticAccumulatorForm(byte, memory).Some?
    ensures |rest| <= |memory| && rest == memory[|memory| - |rest|..]
    ensures ArithmeticAccumulatorForm(byte, memory) == Some((|memory| - |rest|, instruction))
  {
    var wordMode := byte % 2 == 1;
    var immediate;
    immediate, rest := AdvanceBy(memory, ImmediateWidth(wordMode));
    var register := if wordMode then Word(AX) else Byte(AL);
    instruction := ArithmeticImmediate(byte / 8 % 8, register, immediate);
  }

  /** The arms for 0x70-0x7F and 0xE0-0xE3. */
  method DecodeRelative(byte: u8, memory: seq<u8>) returns (instruction: Instruction, rest: seq<u8>)
    requires RelativeForm(byte, memory).Some?
    ensures |rest| <= |memory| && rest == memory[|memory| - |rest|..]
    ensures RelativeForm(byte, memory) == Some((|memory| - |rest|, instruction))
  {
    var next;
    next, rest := Advance(memory);
    if IsJump(byte) {
      instruction := Jump(byte, Signed8(next));
    } else {
      instruction := Loop(byte, Signed8(next));
    }
  }

  /** The arm for 0x80-0x83. */
  method DecodeArithmeticImmediate(byte: u8, memory: seq<u8>) returns (instruction: Instruction, rest: seq<u8>)
    requires ArithmeticImmediateForm(byte, memory).Some?
    ensures |rest| <= |memory| && rest == memory[|memory| - |rest|..]
    ensures ArithmeticImmediateForm(byte, memory) == Some((|memory| - |rest|, instruction))
  {
    var wordMode := byte % 2 == 1;
    var signExtension := byte / 2 % 2 == 1;
    var op, target, afterTarget := RmTargetOperand(wordMode, memory);
    var width, n := ImmediateWidth(wordMode && !signExtension), |memory| - |afterTarget|;
    var immediate;
    immediate, rest := AdvanceBy(afterTarget, width);
    assert afterTarget[..width] == memory[n..n + width];
    instruction := ArithmeticImmediateToMemory(wordMode, op, target, immediate);
  }

  /** The arm for 0x88-0x8C. */
  method DecodeMovRegMem(byte: u8, memory: seq<u8>) returns (instruction: Instruction, rest: seq<u8>)
    requires MovRegMemForm(byte, memory).Some?
    ensures |rest| <= |memory| && rest == memory[|memory| - |rest|..]
    ensures MovRegMemForm(byte, memory) == Some((|memory| - |rest|, instruction))
  {
    var target, source;
    target, source, rest := TargetSource(byte % 2 == 1, byte / 2 % 2 == 1, memory);
    instruction := Mov(target, source);
  }

  /** The arm for 0xB0-0xBF. */
  method DecodeMovImmediate(byte: u8, memory: seq<u8>) returns (instruction: Instruction, rest: seq<u8>)
    requires MovImmediateForm(byte, memory).Some?
    ensures |rest| <= |memory| && rest == memory[|memory| - |rest|..]
    ensures MovImmediateForm(byte, memory) == Some((|memory| - |rest|, instruction))
  {
    var wordMode := byte / 8 % 2 == 1;
    var target := RegisterPlace(wordMode, byte % 8);
    var immediate;
    immediate, rest := AdvanceBy(memory, ImmediateWidth(wordMode));
    instruction := MovImmediate(target, immediate);
  }

  /** The arm for 0xC6/0xC7. */
  method DecodeMovImmediateToMemory(byte: u8, memory: seq<u8>) returns (instruction: Instruction, rest: seq<u8>)
    requires MovImmediateToMemoryForm(byte, memory).Some?
    ensures |rest| <= |memory| && rest == memory[|memory| - |rest|..]
    ensures MovImmediateToMemoryForm(byte, memory) == Some((|memory| - |rest|, instruction))
  {
    var wordMode := byte % 2 == 1;
    var unusedReg, target, afterTarget := RmTargetOperand(wordMode, memory);
    var width, n := ImmediateWidth(wordMode), |memory| - |afterTarget|;
    var immediate;
    immediate, rest := AdvanceBy(afterTarget, width);
    assert afterTarget[..width] == memory[n..n + width];
    instruction := MovImmediateToMemory(wordMode, target, immediate);
  }

  /** The `match` of `single_instruction` on the opcode byte: everything
      read after that byte. */
  method OperandsAfterOpcode(byte: u8, memory: seq<u8>) returns (instruction: Instruction, rest: seq<u8>)
    requires AfterOpcode(byte, memory).Some?
    ensures |rest| <= |memory| && rest == memory[|memory| - |rest|..]
    ensures AfterOpcode(byte, memory) == Some((|memory| - |rest|, instruction))
  {
    if IsArithmeticRegMem(byte) {
      instruction, rest := DecodeArithmeticRegMem(byte, memory);
    } else if IsArithmeticAccumulator(byte) {
      instruction, rest := DecodeArithmeticAccumulator(byte, memory);
    } else if IsJump(byte) || IsLoop(byte) {
      instruction, rest := DecodeRelative(byte, memory);
    } else if IsArithmeticImmediate(byte) {
      instruction, rest := DecodeArithmeticImmediate(byte, memory);
    } else if IsMovRegMem(byte) {
      instruction, rest := DecodeMovRegMem(byte, memory);
    } else if IsMovImmediate(byte) {
      instruction, rest := DecodeMovImmediate(byte, memory);
    } else if IsMovImmediateToMemory(byte) {
      instruction, rest := DecodeMovImmediateToMemory(byte, memory);
    } else {
      instruction, rest := Unrecognized(byte), memory;
    }
  }

  /** `single_instruction`: decodes one instruction off the cursor and
      returns how many bytes it took. */
  method SingleInstruction(memory: seq<u8>) returns (offset: nat, instruction: Instruction, rest: seq<u8>)
    requires Decode(memory).Decoded?
    ensures offset == Decode(memory).length && instruction == Decode(memory).instruction
    ensures offset <= |memory| && rest == memory[offset..]
  {
    var memLeftPrior := |memory|;
    var byte, afterOpcode := Advance(memory);
    instruction, rest := OperandsAfterOpcode(byte, afterOpcode);
    offset := memLeftPrior - |rest|;
  }

  // ---------------------------------------------------------------------------
  // Whole listings

  /** The text `all_instructions_into` appends for a byte stream: one rendered
      line per instruction, decoding until the stream is empty; None when
      some instruction runs out of bytes. */
  function Listing(memory: seq<u8>): (r: Option<string>)
    ensures r.Some? ==> (r.value == "" <==> |memory| == 0)
    decreases |memory|
  {
    if |memory| == 0 then Some("")
    else match Decode(memory)
      case OutOfBytes => None
      case Decoded(n, instruction) =>
        match Listing(memory[n..])
        case None => None
        case Some(text) => Some(Text(instruction) + "\n" + text)
  }

  /** A listing that exists goes on after the first instruction. */
  lemma ListingRest(memory: seq<u8>)
    requires |memory| > 0 && Listing(memory).Some?
    ensures Decode(memory).Decoded? && Listing(memory[Decode(memory).length..]).Some?
  {
  }

  /** The listing of a stream is the first instruction's line, then the
      listing of the bytes after it. */
  lemma ListingStep(memory: seq<u8>)
    requires |memory| > 0 && Decode(memory).Decoded? && Listing(memory[Decode(memory).length..]).Some?
    ensures Listing(memory)
      == Some(Text(Decode(memory).instruction) + "\n" + Listing(memory[Decode(memory).length..]).value)
  {
  }

  lemma AppendAssociates(a: string, b: string, c: string)
    ensures (a + b) + c == a + (b + c)
  {
  }

  /** One turn of `all_instructions_into` keeps what is appended so far,
      followed by the listing of what is left, the same. */
  lemma ListingAdvance(memory: seq<u8>, out: string, whole: string)
    requires |memory| > 0 && Listing(memory).Some? && out + Listing(memory).value == whole
    ensures Decode(memory).Decoded? && Listing(memory[Decode(memory).length..]).Some?
    ensures (out + (Text(Decode(memory).instruction) + "\n")) + Listing(memory[Decode(memory).length..]).value == whole
  {
    ListingRest(memory);
    ListingStep(memory);
    AppendAssociates(out, Text(Decode(memory).instruction) + "\n", Listing(memory[Decode(memory).length..]).value);
  }

  /** `all_instructions_into`: appends the listing of `memory` to `disassembly`. */
  method AllInstructionsInto(memory: seq<u8>, disassembly: string) returns (out: string)
    requires Listing(memory).Some?
    ensures out == disassembly + Listing(memory).value
  {
    var cursor := memory;
    out := disassembly;
    while |cursor| > 0
      invariant Listing(cursor).Some?
      invariant out + Listing(cursor).value == disassembly + Listing(memory).value
      decreases |cursor|
    {
      ListingAdvance(cursor, out, disassembly + Listing(memory).value);
      var _, instruction, rest := SingleInstruction(cursor);
      out := out + (Text(instruction) + "\n");
      cursor := rest;
    }
  }

  /** `all_instructions`: the listing behind NASM's `bits 16` header. */
  method AllInstructions(memory: seq<u8>) returns (disassembly: string)
    requires Listing(memory).Some?
    ensures disassembly == "bits 16\n" + Listing(memory).value
  {
    disassembly := AllInstructionsInto(memory, "bits 16\n");
  }

  // ---------------------------------------------------------------------------
  // Properties of the layout

  /** A leading byte outside every dispatched range is one byte long and
      reported as unrecognised. */
  lemma UnrecognizedLayout(memory: seq<u8>)
    requires |memory| > 0 && !IsRecognized(memory[0])
    ensures Decode(memory) == Decoded(1, Unrecognized(memory[0]))
  {
  }

  /** The recognised opcodes are exactly the ones listed in the dispatch:
      a single byte decodes to `Unrecognized` exactly when it is outside them. */
  lemma UnrecognizedExactly(memory: seq<u8>)
    requires |memory| > 0
    ensures Decode(memory).Decoded? && Decode(memory).instruction.Unrecognized? <==> !IsRecognized(memory[0])
  {
  }

  /** Reg/mem arithmetic and mov with mode 11 are two bytes long; both operands
      are registers of the width in bit 0, and bit 1 makes the reg field the target. */
  lemma RegisterToRegisterLayout(memory: seq<u8>)
    requires |memory| >= 2 && memory[1] / 64 == 3
    requires IsArithmeticRegMem(memory[0]) || IsMovRegMem(memory[0])
    ensures Decode(memory).Decoded? && Decode(memory).length == 2
    ensures
      var wordMode := memory[0] % 2 == 1;
      var reg := RegisterPlace(wordMode, memory[1] / 8 % 8);
      var rm := RegisterPlace(wordMode, memory[1] % 8);
      var (target, source) := if memory[0] / 2 % 2 == 1 then (reg, rm) else (rm, reg);
      Decode(memory).instruction ==
        if IsMovRegMem(memory[0]) then Mov(target, source)
        else Arithmetic(memory[0] / 8 % 8, target, source)
  {
    assert memory[1..][1..] == memory[2..];
  }

  /** The accumulator forms target AX with a two-byte immediate or AL with a
      one-byte immediate, and run out of bytes exactly when the immediate is cut short. */
  lemma AccumulatorLayout(memory: seq<u8>)
    requires |memory| > 0 && IsArithmeticAccumulator(memory[0])
    ensures
      var wordMode := memory[0] % 2 == 1;
      var width := if wordMode then 2 else 1;
      && (Decode(memory).OutOfBytes? <==> |memory| < 1 + width)
      && (|memory| >= 1 + width ==>
            Decode(memory) == Decoded(1 + width, ArithmeticImmediate(memory[0] / 8 % 8,
              if wordMode then Word(AX) else Byte(AL), LittleEndian(memory[1..1 + width]))))
  {
    var width := if memory[0] % 2 == 1 then 2 else 1;
    if |memory| >= 1 + width {
      assert memory[1..][..width] == memory[1..1 + width];
    }
  }

  /** 0xB0-0xBF: the register comes from bits 2-0, the width from bit 3. */
  lemma MovImmediateLayout(memory: seq<u8>)
    requires |memory| > 0 && IsMovImmediate(memory[0])
    ensures
      var wordMode := memory[0] / 8 % 2 == 1;
      var width := if wordMode then 2 else 1;
      && (Decode(memory).OutOfBytes? <==> |memory| < 1 + width)
      && (|memory| >= 1 + width ==>
            Decode(memory) == Decoded(1 + width,
              MovImmediate(RegisterPlace(wordMode, memory[0] % 8), LittleEndian(memory[1..1 + width]))))
  {
    var width := if memory[0] / 8 % 2 == 1 then 2 else 1;
    if |memory| >= 1 + width {
      assert memory[1..][..width] == memory[1..1 + width];
    }
  }

  /** 0x80-0x83 read a two-byte immediate only for `w` = 1, `s` = 0, and
      0xC6/0xC7 read one or two by bit 0: the length is the opcode, the
      mod-reg-r/m byte with its displacement, and that immediate. */
  lemma ImmediateToOperandLayout(memory: seq<u8>)
    requires |memory| > 0 && (IsArithmeticImmediate(memory[0]) || IsMovImmediateToMemory(memory[0]))
    requires RmTarget(memory[0] % 2 == 1, memory[1..]).Some?
    ensures
      var wordMode := memory[0] % 2 == 1;
      var signExtension := IsArithmeticImmediate(memory[0]) && memory[0] / 2 % 2 == 1;
      var width := if wordMode && !signExtension then 2 else 1;
      var (op, target, n) := RmTarget(wordMode, memory[1..]).value;
      && (Decode(memory).OutOfBytes? <==> |memory| < 1 + n + width)
      && (|memory| >= 1 + n + width ==>
            Decode(memory) == Decoded(1 + n + width,
              if IsArithmeticImmediate(memory[0])
              then ArithmeticImmediateToMemory(wordMode, op, target, LittleEndian(memory[1 + n..1 + n + width]))
              else MovImmediateToMemory(wordMode, target, LittleEndian(memory[1 + n..1 + n + width]))))
  {
    var b, after := memory[0], memory[1..];
    var wordMode := b % 2 == 1;
    var signExtension := IsArithmeticImmediate(b) && b / 2 % 2 == 1;
    var width := if wordMode && !signExtension then 2 else 1;
    var (op, target, n) := RmTarget(wordMode, after).value;
    DecodeThroughAfterOpcode(memory);
    ImmediateFormAfterOpcode(b, after);
    ImmediateFormCases(b, after, wordMode, width, op, target, n);
    if |memory| >= 1 + n + width {
      SliceOfSuffix(memory, 1, n, n + width);
    }
  }

  /** Decoding reads the opcode byte, then what its arm reads. */
  lemma DecodeThroughAfterOpcode(memory: seq<u8>)
    requires |memory| > 0
    ensures Decode(memory).OutOfBytes? <==> AfterOpcode(memory[0], memory[1..]).None?
    ensures AfterOpcode(memory[0], memory[1..]).Some? ==>
      Decode(memory) == Decoded(1 + AfterOpcode(memory[0], memory[1..]).value.0, AfterOpcode(memory[0], memory[1..]).value.1)
  {
  }

  /** 0x80-0x83 and 0xC6/0xC7 reach their own arms. */
  lemma ImmediateFormAfterOpcode(b: u8, after: seq<u8>)
    requires IsArithmeticImmediate(b) || IsMovImmediateToMemory(b)
    ensures AfterOpcode(b, after)
      == if IsArithmeticImmediate(b) then ArithmeticImmediateForm(b, after) else MovImmediateToMemoryForm(b, after)
  {
  }

  /** The arms of the immediate forms once their r/m operand is known. */
  lemma ImmediateFormCases(b: u8, after: seq<u8>, wordMode: bool, width: nat, op: Octal, target: Place, n: nat)
    requires IsArithmeticImmediate(b) || IsMovImmediateToMemory(b)
    requires wordMode == (b % 2 == 1) && RmTarget(wordMode, after) == Some((op, target, n))
    requires width == if wordMode && !(IsArithmeticImmediate(b) && b / 2 % 2 == 1) then 2 else 1
    ensures var form := if IsArithmeticImmediate(b) then ArithmeticImmediateForm(b, after) else MovImmediateToMemoryForm(b, after);
      && (form.None? <==> |after| < n + width)
      && (|after| >= n + width ==> form == Some((n + width,
            if IsArithmeticImmediate(b)
            then ArithmeticImmediateToMemory(wordMode, op, target, LittleEndian(after[n..n + width]))
            else MovImmediateToMemory(wordMode, target, LittleEndian(after[n..n + width])))))
  {
  }

  /** A slice of a suffix is a slice of the whole. */
  lemma SliceOfSuffix(memory: seq<u8>, k: nat, i: nat, j: nat)
    requires k <= |memory| && i <= j <= |memory| - k
    ensures memory[k..][i..j] == memory[k + i..k + j]
  {
  }

  /** 0x83 does not sign-extend its byte immediate: `add ax, -1` encoded as
      83 C0 FF decodes to an immediate of 255. */
  lemma ImmediateNotSignExtended()
    ensures Decode([0x83, 0xC0, 0xFF]) == Decoded(3, ArithmeticImmediateToMemory(true, 0, Word(AX), 255))
  {
    var m: seq<u8> := [0x83, 0xC0, 0xFF];
    assert m[1..][1..] == [0xFF];
    assert LittleEndian(m[1..][1..][0..1]) == 255;
  }

  /** Jumps and loops are two bytes long: the opcode kept as the marker and
      the next byte read as a signed offset. */
  lemma RelativeLayout(memory: seq<u8>)
    requires |memory| >= 2 && (IsJump(memory[0]) || IsLoop(memory[0]))
    ensures Decode(memory) == Decoded(2,
      if IsJump(memory[0]) then Jump(memory[0], Signed8(memory[1])) else Loop(memory[0], Signed8(memory[1])))
  {
  }

  /** Every recognised form other than the immediates with their panicking
      `advance_by` decodes from any cursor: only a cut-short displacement or
      immediate runs out of bytes. */
  lemma OutOfBytesOnlyWhenShort(memory: seq<u8>)
    requires Decode(memory).OutOfBytes?
    ensures |memory| > 0 && IsRecognized(memory[0])
    ensures !IsJump(memory[0]) && !IsLoop(memory[0])
  {
  }

  /** The listing has one line per decoded instruction: its text ends in a
      newline whenever the stream is not empty. */
  lemma {:induction false} ListingEndsInNewline(memory: seq<u8>)
    requires Listing(memory).Some? && |memory| > 0
    ensures |Listing(memory).value| > 0 && Listing(memory).value[|Listing(memory).value| - 1] == '\n'
    decreases |memory|
  {
    var n := Decode(memory).length;
    if |memory[n..]| > 0 {
      ListingEndsInNewline(memory[n..]);
    }
  }
}
