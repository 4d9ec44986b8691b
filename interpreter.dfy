/** `Instruction::run`: what one instruction does to the machine.  `Step`
    states it on values, one function per instruction kind; `Run` updates a
    `State` in place and is proved to do what `Step` says.

    Only a few forms are implemented by the code; every `todo!()` arm is the
    `Unimplemented` outcome here.  The `Panicked` outcome stands for the
    arithmetic and indexing panics of a debug build: a `u16` address sum
    that overflows, an index past the 65535-cell memory, `abs()` of -128 and
    an instruction pointer moved below zero.  Every such outcome is decided
    before the first write, so neither changes the machine. */
module Interpreter {
  import opened Basics
  import opened Operands
  import opened Instructions
  import opened RegisterFile
  import opened Machine

  datatype Outcome<T> = Ok(value: T) | Unimplemented | Panicked

  /** `wrapping_add` / `wrapping_sub` on `u16`. */
  function Wrap16(x: int): (r: u16)
    ensures (r - x) % 0x1_0000 == 0
  {
    x % 0x1_0000
  }

  /** The flags after an arithmetic result: sign is bit 15, zero is `result == 0`. */
  function WithFlags(s: MachineState, result: u16): MachineState
  {
    s.(registers := s.registers.(flagSign := result >= 0x8000, flagZero := result == 0))
  }

  function WithWord(s: MachineState, r: RegisterWord, v: u16): (after: MachineState)
    requires WellFormedState(s)
    ensures WellFormedState(after)
  {
    s.(registers := WriteWord(s.registers, r, v))
  }

  function Reg(s: MachineState, r: RegisterWord): u16
    requires WellFormedState(s)
  {
    ReadWord(s.registers, r)
  }

  /** A sum of address parts as a `u16`: the Rust `+` panics on overflow. */
  function CheckedAddress(sum: nat): Outcome<nat>
  {
    if sum < 0x1_0000 then Ok(sum) else Panicked
  }

  /** Where `add reg, [ea]` and `mov reg, [ea]` read: the direct address, or
      BP + SI; every other form is `todo!()`. */
  function LoadAddress(s: MachineState, ea: EffectiveAddress): Outcome<nat>
    requires WellFormedState(s)
  {
    if ea.mode != Memory then Unimplemented
    else if ea.index == 6 then Ok(ea.displacement)
    else if ea.index == 2 then CheckedAddress(Reg(s, BP) + Reg(s, SI))
    else Unimplemented
  }

  /** The big-endian word a load from `ea` reads; the second byte must be in memory. */
  function LoadWord(s: MachineState, ea: EffectiveAddress): Outcome<u16>
    requires WellFormedState(s)
  {
    match LoadAddress(s, ea)
    case Ok(i) => if i + 1 < MemorySize then Ok(BigEndianWord(s.memory, i)) else Panicked
    case Unimplemented => Unimplemented
    case Panicked => Panicked
  }

  /** `mov`, or an immediate, into a register. */
  function StepMovImmediate(s: MachineState, target: Place, immediate: u16): (r: Outcome<MachineState>)
    requires WellFormedState(s)
    ensures r.Ok? ==> WellFormedState(r.value)
  {
    match target
    case Byte(reg) => Ok(s.(registers := WriteByte(s.registers, reg, immediate % 0x100)))
    case Word(reg) => Ok(WithWord(s, reg, immediate))
    case Address(_) => Unimplemented
  }

  /** Word add, sub and cmp between registers, and the add from memory that
      loads instead of adding. */
  function StepArithmetic(s: MachineState, op: Octal, target: Place, source: Place): (r: Outcome<MachineState>)
    requires WellFormedState(s)
    ensures r.Ok? ==> WellFormedState(r.value)
  {
    if !target.Word? then Unimplemented
    else
      var t := target.wordReg;
      if op == 0 && source.Word? then
        var result := Wrap16(Reg(s, t) + Reg(s, source.wordReg));
        Ok(WithFlags(WithWord(s, t, result), result))
      else if op == 0 && source.Address? then
        match LoadWord(s, source.ea)
        case Ok(value) => Ok(WithFlags(WithWord(s, t, value), value))
        case Unimplemented => Unimplemented
        case Panicked => Panicked
      else if op == 5 && source.Word? then
        var result := Wrap16(Reg(s, t) - Reg(s, source.wordReg));
        Ok(WithFlags(WithWord(s, t, result), result))
      else if op == 7 && source.Word? then
        Ok(WithFlags(s, Wrap16(Reg(s, t) - Reg(s, source.wordReg))))
      else Unimplemented
  }

  /** add, sub and cmp of an immediate with a word register (0x80-0x83). */
  function StepArithmeticImmediate(s: MachineState, op: Octal, target: Place, immediate: u16): (r: Outcome<MachineState>)
    requires WellFormedState(s)
    ensures r.Ok? ==> WellFormedState(r.value)
  {
    if !target.Word? then Unimplemented
    else
      var t := target.wordReg;
      if op == 0 then
        var result := Wrap16(Reg(s, t) + immediate);
        Ok(WithFlags(WithWord(s, t, result), result))
      else if op == 5 then
        var result := Wrap16(Reg(s, t) - immediate);
        Ok(WithFlags(WithWord(s, t, result), result))
      else if op == 7 then
        Ok(WithFlags(s, Wrap16(Reg(s, t) - immediate)))
      else Unimplemented
  }

  /** Conditional jumps: only `jz`/`jnz` are implemented.  The jump is taken
      when the zero flag differs from the opcode's low bit, and then moves
      the instruction pointer by the signed offset. */
  function StepJump(s: MachineState, marker: u8, offset: i8): (r: Outcome<MachineState>)
    requires WellFormedState(s)
    ensures r.Ok? ==> WellFormedState(r.value)
  {
    var negated := marker % 2 == 1;
    if JumpKinds[marker / 2 % 8] != "z" then Unimplemented
    else if s.registers.flagZero == negated then Ok(s)
    else if offset > 0 then Ok(s.(instructionPointer := s.instructionPointer + offset))
    else if offset == -0x80 then Panicked
    else if s.instructionPointer < -offset then Panicked
    else Ok(s.(instructionPointer := s.instructionPointer + offset))
  }

  /** `mov` between a word register and a word register or memory. */
  function StepMov(s: MachineState, target: Place, source: Place): (r: Outcome<MachineState>)
    requires WellFormedState(s)
    ensures r.Ok? ==> WellFormedState(r.value)
  {
    match (target, source)
    case (Word(t), Word(src)) => Ok(WithWord(s, t, Reg(s, src)))
    case (Word(t), Address(ea)) =>
      (match LoadWord(s, ea)
       case Ok(value) => Ok(WithWord(s, t, value))
       case Unimplemented => Unimplemented
       case Panicked => Panicked)
    case (Address(ea), Word(src)) => StepStoreRegister(s, ea, Reg(s, src))
    case _ => Unimplemented
  }

  /** `mov [ea], reg` for a word register: a big-endian word at BP + SI, or a
      single low byte at BP for `[bp + d8]`, whose displacement is ignored. */
  function StepStoreRegister(s: MachineState, ea: EffectiveAddress, value: u16): (r: Outcome<MachineState>)
    requires WellFormedState(s)
    ensures r.Ok? ==> WellFormedState(r.value)
    ensures r.Ok? ==> r.value.registers == s.registers && r.value.instructionPointer == s.instructionPointer
    ensures r.Ok? ==> r.value.programEnd == s.programEnd && |r.value.memory| == |s.memory|
  {
    if ea.mode == Memory && ea.index == 2 then
      match CheckedAddress(Reg(s, BP) + Reg(s, SI))
      case Ok(i) =>
        if i + 2 <= MemorySize then Ok(s.(memory := StoreBigEndianWord(s.memory, i, value))) else Panicked
      case _ => Panicked
    else if ea.mode == MemoryDisp8 && ea.index == 6 then
      var i := Reg(s, BP);
      if i < MemorySize then Ok(s.(memory := s.memory[i := value % 0x100])) else Panicked
    else Unimplemented
  }

  /** Where `mov [ea], imm` writes: the direct address, or BP or BX plus an
      8-bit displacement. */
  function StoreImmediateAddress(s: MachineState, ea: EffectiveAddress): Outcome<nat>
    requires WellFormedState(s)
  {
    if ea.mode == Memory && ea.index == 6 then Ok(ea.displacement)
    else if ea.mode == MemoryDisp8 && ea.index == 6 then CheckedAddress(Reg(s, BP) + ea.displacement)
    else if ea.mode == MemoryDisp8 && ea.index == 7 then CheckedAddress(Reg(s, BX) + ea.displacement)
    else Unimplemented
  }

  /** `mov [ea], imm`: always a big-endian word, even for the byte form. */
  function StepMovImmediateToMemory(s: MachineState, target: Place, immediate: u16): (r: Outcome<MachineState>)
    requires WellFormedState(s)
    ensures r.Ok? ==> WellFormedState(r.value)
    ensures r.Ok? ==> r.value.registers == s.registers && r.value.instructionPointer == s.instructionPointer
    ensures r.Ok? ==> r.value.programEnd == s.programEnd && |r.value.memory| == |s.memory|
  {
    if !target.Address? then Unimplemented
    else
      match StoreImmediateAddress(s, target.ea)
      case Ok(i) =>
        if i + 2 <= MemorySize then Ok(s.(memory := StoreBigEndianWord(s.memory, i, immediate))) else Panicked
      case Unimplemented => Unimplemented
      case Panicked => Panicked
  }

  /** What `run` does to the machine. */
  function Step(s: MachineState, i: Instruction): (r: Outcome<MachineState>)
    requires WellFormedState(s)
    ensures r.Ok? ==> WellFormedState(r.value)
    ensures r.Ok? ==> r.value.programEnd == s.programEnd
    ensures r.Ok? && !i.Jump? ==> r.value.instructionPointer == s.instructionPointer
    ensures r.Ok? && i.Jump? ==> r.value.memory == s.memory && r.value.registers == s.registers
  {
    match i
    case MovImmediate(target, immediate) => StepMovImmediate(s, target, immediate)
    case Arithmetic(op, target, source) => StepArithmetic(s, op, target, source)
    case ArithmeticImmediate(_, _, _) => Unimplemented
    case ArithmeticImmediateToMemory(_, op, target, immediate) => StepArithmeticImmediate(s, op, target, immediate)
    case Jump(marker, offset) => StepJump(s, marker, offset)
    case Loop(_, _) => Unimplemented
    case Mov(target, source) => StepMov(s, target, source)
    case MovImmediateToMemory(_, target, immediate) => StepMovImmediateToMemory(s, target, immediate)
    case Unrecognized(_) => Unimplemented
  }

  // ---------------------------------------------------------------------------
  // In place

  /** `state.registers[reg] = value` followed by the flag update, as one step. */
  method SetWordAndFlags(state: State, r: RegisterWord, value: u16, result: u16, store: bool)
    requires state.Valid()
    modifies state, state.registers, state.registers.dataGroup, state.registers.metaGroup, state.memory
    ensures state.Valid() && state.registers == old(state.registers) && state.memory == old(state.memory)
    ensures state.registers.dataGroup == old(state.registers.dataGroup) && state.registers.metaGroup == old(state.registers.metaGroup)
    ensures state.View() == WithFlags(if store then WithWord(old(state.View()), r, value) else old(state.View()), result)
  {
    if store {
      state.registers.SetWord(r, value);
    }
    state.registers.SetFlags(result >= 0x8000, result == 0);
  }

  /** Writes a big-endian word into the memory array. */
  method StoreWord(state: State, i: nat, value: u16)
    requires state.Valid() && i + 2 <= MemorySize
    modifies state, state.registers, state.registers.dataGroup, state.registers.metaGroup, state.memory
    ensures state.Valid() && state.registers == old(state.registers) && state.memory == old(state.memory)
    ensures state.registers.dataGroup == old(state.registers.dataGroup) && state.registers.metaGroup == old(state.registers.metaGroup)
    ensures state.View() == old(state.View()).(memory := StoreBigEndianWord(old(state.View()).memory, i, value))
  {
    state.memory[i] := value / 0x100;
    state.memory[i + 1] := value % 0x100;
  }

  /** The load of `add reg, [ea]` and `mov reg, [ea]`. */
  method LoadWordAt(state: State, ea: EffectiveAddress) returns (value: u16)
    requires state.Valid() && LoadWord(state.View(), ea).Ok?
    ensures value == LoadWord(state.View(), ea).value
  {
    var i: nat;
    if ea.index == 6 {
      i := ea.displacement;
    } else {
      i := state.registers.Word(BP) + state.registers.Word(SI);
    }
    var hi := state.memory[i];
    var lo := state.memory[i + 1];
    value := hi as int * 0x100 + lo as int;
  }

  method RunMovImmediate(state: State, target: Place, immediate: u16)
    requires state.Valid() && StepMovImmediate(state.View(), target, immediate).Ok?
    modifies state, state.registers, state.registers.dataGroup, state.registers.metaGroup, state.memory
    ensures state.Valid() && state.registers == old(state.registers) && state.memory == old(state.memory)
    ensures state.registers.dataGroup == old(state.registers.dataGroup) && state.registers.metaGroup == old(state.registers.metaGroup)
    ensures state.View() == StepMovImmediate(old(state.View()), target, immediate).value
  {
    match target
    case Byte(reg) => state.registers.SetByte(reg, immediate % 0x100);
    case Word(reg) => state.registers.SetWord(reg, immediate);
  }

  method RunArithmetic(state: State, op: Octal, target: Place, source: Place)
    requires state.Valid() && StepArithmetic(state.View(), op, target, source).Ok?
    modifies state, state.registers, state.registers.dataGroup, state.registers.metaGroup, state.memory
    ensures state.Valid() && state.registers == old(state.registers) && state.memory == old(state.memory)
    ensures state.registers.dataGroup == old(state.registers.dataGroup) && state.registers.metaGroup == old(state.registers.metaGroup)
    ensures state.View() == StepArithmetic(old(state.View()), op, target, source).value
  {
    var t := target.wordReg;
    if op == 0 && source.Word? {
      var result := Wrap16(state.registers.Word(t) + state.registers.Word(source.wordReg));
      SetWordAndFlags(state, t, result, result, true);
    } else if op == 0 {
      var value := LoadWordAt(state, source.ea);
      SetWordAndFlags(state, t, value, value, true);
    } else if op == 5 {
      var result := Wrap16(state.registers.Word(t) - state.registers.Word(source.wordReg));
      SetWordAndFlags(state, t, result, result, true);
    } else {
      var result := Wrap16(state.registers.Word(t) - state.registers.Word(source.wordReg));
      SetWordAndFlags(state, t, result, result, false);
    }
  }

  method RunArithmeticImmediate(state: State, op: Octal, target: Place, immediate: u16)
    requires state.Valid() && StepArithmeticImmediate(state.View(), op, target, immediate).Ok?
    modifies state, state.registers, state.registers.dataGroup, state.registers.metaGroup, state.memory
    ensures state.Valid() && state.registers == old(state.registers) && state.memory == old(state.memory)
    ensures state.registers.dataGroup == old(state.registers.dataGroup) && state.registers.metaGroup == old(state.registers.metaGroup)
    ensures state.View() == StepArithmeticImmediate(old(state.View()), op, target, immediate).value
  {
    var t := target.wordReg;
    if op == 0 {
      var result := Wrap16(state.registers.Word(t) + immediate);
      SetWordAndFlags(state, t, result, result, true);
    } else if op == 5 {
      var result := Wrap16(state.registers.Word(t) - immediate);
      SetWordAndFlags(state, t, result, result, true);
    } else {
      var result := Wrap16(state.registers.Word(t) - immediate);
      SetWordAndFlags(state, t, result, result, false);
    }
  }

  method RunJump(state: State, marker: u8, offset: i8)
    requires state.Valid() && StepJump(state.View(), marker, offset).Ok?
    modifies state, state.registers, state.registers.dataGroup, state.registers.metaGroup, state.memory
    ensures state.Valid() && state.registers == old(state.registers) && state.memory == old(state.memory)
    ensures state.registers.dataGroup == old(state.registers.dataGroup) && state.registers.metaGroup == old(state.registers.metaGroup)
    ensures state.View() == StepJump(old(state.View()), marker, offset).value
  {
    var negated := marker % 2 == 1;
    if state.registers.flagZero != negated {
      if offset > 0 {
        state.instructionPointer := state.instructionPointer + offset;
      } else {
        state.instructionPointer := state.instructionPointer - (-offset);
      }
    }
  }

  method RunMov(state: State, target: Place, source: Place)
    requires state.Valid() && StepMov(state.View(), target, source).Ok?
    modifies state, state.registers, state.registers.dataGroup, state.registers.metaGroup, state.memory
    ensures state.Valid() && state.registers == old(state.registers) && state.memory == old(state.memory)
    ensures state.registers.dataGroup == old(state.registers.dataGroup) && state.registers.metaGroup == old(state.registers.metaGroup)
    ensures state.View() == StepMov(old(state.View()), target, source).value
  {
    match (target, source)
    case (Word(t), Word(src)) =>
      state.registers.SetWord(t, state.registers.Word(src));
    case (Word(t), Address(ea)) =>
      var value := LoadWordAt(state, ea);
      state.registers.SetWord(t, value);
    case (Address(ea), Word(src)) =>
      var value := state.registers.Word(src);
      if ea.mode == Memory {
        StoreWord(state, state.registers.Word(BP) + state.registers.Word(SI), value);
      } else {
        state.memory[state.registers.Word(BP)] := value % 0x100;
      }
  }

  method RunMovImmediateToMemory(state: State, target: Place, immediate: u16)
    requires state.Valid() && StepMovImmediateToMemory(state.View(), target, immediate).Ok?
    modifies state, state.registers, state.registers.dataGroup, state.registers.metaGroup, state.memory
    ensures state.Valid() && state.registers == old(state.registers) && state.memory == old(state.memory)
    ensures state.registers.dataGroup == old(state.registers.dataGroup) && state.registers.metaGroup == old(state.registers.metaGroup)
    ensures state.View() == StepMovImmediateToMemory(old(state.View()), target, immediate).value
  {
    var ea := target.ea;
    var i: nat;
    if ea.mode == Memory {
      i := ea.displacement;
    } else if ea.index == 6 {
      i := state.registers.Word(BP) + ea.displacement;
    } else {
      i := state.registers.Word(BX) + ea.displacement;
    }
    StoreWord(state, i, immediate);
  }

  /** `Instruction::run`: applies one instruction to the machine in place. */
  method Run(state: State, i: Instruction)
    requires state.Valid() && Step(state.View(), i).Ok?
    modifies state, state.registers, state.registers.dataGroup, state.registers.metaGroup, state.memory
    ensures state.Valid() && state.registers == old(state.registers) && state.memory == old(state.memory)
    ensures state.registers.dataGroup == old(state.registers.dataGroup) && state.registers.metaGroup == old(state.registers.metaGroup)
    ensures state.View() == Step(old(state.View()), i).value
  {
    match i
    case MovImmediate(target, immediate) => RunMovImmediate(state, target, immediate);
    case Arithmetic(op, target, source) => RunArithmetic(state, op, target, source);
    case ArithmeticImmediateToMemory(_, op, target, immediate) => RunArithmeticImmediate(state, op, target, immediate);
    case Jump(marker, offset) => RunJump(state, marker, offset);
    case Mov(target, source) => RunMov(state, target, source);
    case MovImmediateToMemory(_, target, immediate) => RunMovImmediateToMemory(state, target, immediate);
  }

  // ---------------------------------------------------------------------------
  // Properties of one step

  /** Word add and sub between registers store the 16-bit wrapping result in
      the target and nothing else; cmp computes the difference and stores
      nothing.  Either way the sign flag is bit 15 of the result and the zero
      flag says whether it is 0, and memory and the instruction pointer stay. */
  lemma RegisterArithmetic(s: MachineState, op: Octal, t: RegisterWord, src: RegisterWord)
    requires WellFormedState(s) && (op == 0 || op == 5 || op == 7)
    ensures Step(s, Arithmetic(op, Word(t), Word(src))).Ok?
    ensures
      var after := Step(s, Arithmetic(op, Word(t), Word(src))).value;
      var result := if op == 0 then Wrap16(Reg(s, t) + Reg(s, src)) else Wrap16(Reg(s, t) - Reg(s, src));
      && (op != 7 ==> Reg(after, t) == result)
      && (forall q :: q != t || op == 7 ==> Reg(after, q) == Reg(s, q))
      && after.registers.flagSign == (result >= 0x8000)
      && after.registers.flagZero == (result == 0)
      && after.memory == s.memory && after.instructionPointer == s.instructionPointer
  {
    var after := Step(s, Arithmetic(op, Word(t), Word(src))).value;
    forall q: RegisterWord ensures (q != t || op == 7) ==> Reg(after, q) == Reg(s, q) {
      if op != 7 { WordWriteThenRead(s.registers, t, Reg(after, t), q); }
    }
  }

  /** The same for an immediate operand (0x80-0x83 with a register target). */
  lemma ImmediateArithmetic(s: MachineState, op: Octal, t: RegisterWord, immediate: u16)
    requires WellFormedState(s) && (op == 0 || op == 5 || op == 7)
    ensures
      var r := Step(s, ArithmeticImmediateToMemory(true, op, Word(t), immediate));
      var result := if op == 0 then Wrap16(Reg(s, t) + immediate) else Wrap16(Reg(s, t) - immediate);
      && r.Ok?
      && (op != 7 ==> Reg(r.value, t) == result)
      && (forall q :: q != t || op == 7 ==> Reg(r.value, q) == Reg(s, q))
      && r.value.registers.flagSign == (result >= 0x8000)
      && r.value.registers.flagZero == (result == 0)
      && r.value.memory == s.memory
  {
    var after := Step(s, ArithmeticImmediateToMemory(true, op, Word(t), immediate)).value;
    forall q: RegisterWord ensures (q != t || op == 7) ==> Reg(after, q) == Reg(s, q) {
      if op != 7 { WordWriteThenRead(s.registers, t, Reg(after, t), q); }
    }
  }

  /** `add reg, [ea]` does not add: the target receives the big-endian word
      at the address, whatever it held before, and the flags follow that
      word.  The address is the displacement for r/m 110 and BP + SI for r/m
      010; the sum's overflow and a word past the end of memory both panic,
      and every other r/m is `todo!()`. */
  lemma AddFromMemoryOverwrites(s: MachineState, t: RegisterWord, index: Octal, displacement: u16)
    requires WellFormedState(s)
    ensures
      var r := Step(s, Arithmetic(0, Word(t), Address(EffectiveAddress(index, Memory, displacement))));
      var a := if index == 6 then displacement else Reg(s, BP) + Reg(s, SI);
      && (index != 2 && index != 6 ==> r.Unimplemented?)
      && (index == 2 || index == 6 ==>
            && (r.Panicked? <==> (index == 2 && a >= 0x1_0000) || a + 1 >= MemorySize)
            && (r.Ok? <==> !r.Panicked?))
      && (r.Ok? ==>
            && Reg(r.value, t) == BigEndianWord(s.memory, a)
            && (forall q :: q != t ==> Reg(r.value, q) == Reg(s, q))
            && r.value.registers.flagZero == (BigEndianWord(s.memory, a) == 0)
            && r.value.registers.flagSign == (BigEndianWord(s.memory, a) >= 0x8000)
            && r.value.memory == s.memory
            && r.value.instructionPointer == s.instructionPointer)
  {
    var r := Step(s, Arithmetic(0, Word(t), Address(EffectiveAddress(index, Memory, displacement))));
    if r.Ok? {
      var a := if index == 6 then displacement else Reg(s, BP) + Reg(s, SI);
      forall q: RegisterWord ensures q != t ==> Reg(r.value, q) == Reg(s, q) {
        WordWriteThenRead(s.registers, t, BigEndianWord(s.memory, a), q);
      }
    }
  }

  /** An immediate to a byte register stores its low byte there and changes
      no other byte register, no pointer register and no flag; to a word
      register it stores the whole immediate and changes no other register. */
  lemma MovImmediateToRegister(s: MachineState, target: Place, immediate: u16)
    requires WellFormedState(s) && !target.Address?
    ensures Step(s, MovImmediate(target, immediate)).Ok?
    ensures var after := Step(s, MovImmediate(target, immediate)).value;
      && after.memory == s.memory
      && after.registers.flagZero == s.registers.flagZero && after.registers.flagSign == s.registers.flagSign
      && (target.Byte? ==> ReadByte(after.registers, target.byteReg) == immediate % 0x100
                           && after.registers.metaGroup == s.registers.metaGroup
                           && forall q :: q != target.byteReg ==> ReadByte(after.registers, q) == ReadByte(s.registers, q))
      && (target.Word? ==> Reg(after, target.wordReg) == immediate
                           && forall q :: q != target.wordReg ==> Reg(after, q) == Reg(s, q))
  {
    var after := Step(s, MovImmediate(target, immediate)).value;
    if target.Byte? {
      forall q ensures ReadByte(after.registers, q) == if q == target.byteReg then immediate % 0x100 else ReadByte(s.registers, q) {
        ByteWriteThenRead(s.registers, target.byteReg, immediate % 0x100, q);
      }
    } else {
      forall q ensures Reg(after, q) == if q == target.wordReg then immediate else Reg(s, q) {
        WordWriteThenRead(s.registers, target.wordReg, immediate, q);
      }
    }
  }

  /** `mov word, word` copies the source register into the target and
      changes nothing else. */
  lemma MovRegisterCopies(s: MachineState, t: RegisterWord, src: RegisterWord)
    requires WellFormedState(s)
    ensures Step(s, Mov(Word(t), Word(src))).Ok?
    ensures var after := Step(s, Mov(Word(t), Word(src))).value;
      && Reg(after, t) == Reg(s, src)
      && (forall q :: q != t ==> Reg(after, q) == Reg(s, q))
      && after.registers.flagZero == s.registers.flagZero && after.registers.flagSign == s.registers.flagSign
      && after.memory == s.memory
  {
    var after := Step(s, Mov(Word(t), Word(src))).value;
    forall q ensures Reg(after, q) == if q == t then Reg(s, src) else Reg(s, q) {
      WordWriteThenRead(s.registers, t, Reg(s, src), q);
    }
  }

  /** `jz`/`jnz` jump exactly when the zero flag differs from the opcode's
      low bit (set for `jnz`), moving the instruction pointer by the signed
      offset; otherwise nothing changes.  Every other condition is unimplemented. */
  lemma ConditionalJump(s: MachineState, marker: u8, offset: i8)
    requires WellFormedState(s)
    ensures marker / 2 % 8 != 2 ==> Step(s, Jump(marker, offset)) == Unimplemented
    ensures marker / 2 % 8 == 2 && s.registers.flagZero == (marker % 2 == 1) ==> Step(s, Jump(marker, offset)) == Ok(s)
    ensures marker / 2 % 8 == 2 && s.registers.flagZero != (marker % 2 == 1) ==>
      (Step(s, Jump(marker, offset)).Ok? <==> offset > -0x80 && s.instructionPointer + offset >= 0)
    ensures marker / 2 % 8 == 2 && s.registers.flagZero != (marker % 2 == 1) && Step(s, Jump(marker, offset)).Ok? ==>
      Step(s, Jump(marker, offset)) == Ok(s.(instructionPointer := s.instructionPointer + offset))
  {
    assert forall k :: 0 <= k < 8 && k != 2 ==> JumpKinds[k] != "z";
  }

  /** `mov [bp + si], reg` stores the register big-endian at BP + SI, and a
      following `mov reg', [bp + si]` reads the same value back. */
  lemma StoreThenLoadRegister(s: MachineState, src: RegisterWord, dst: RegisterWord)
    requires WellFormedState(s) && Reg(s, BP) + Reg(s, SI) + 2 <= MemorySize
    ensures var ea := EffectiveAddress(2, Memory, 0);
      var stored := Step(s, Mov(Address(ea), Word(src)));
      && stored == Ok(s.(memory := StoreBigEndianWord(s.memory, Reg(s, BP) + Reg(s, SI), Reg(s, src))))
      && Step(stored.value, Mov(Word(dst), Address(ea))).Ok?
      && Reg(Step(stored.value, Mov(Word(dst), Address(ea))).value, dst) == Reg(s, src)
  {
    var i := Reg(s, BP) + Reg(s, SI);
    StoreThenLoad(s.memory, i, Reg(s, src));
    var stored := s.(memory := StoreBigEndianWord(s.memory, i, Reg(s, src)));
    WordWriteThenRead(stored.registers, dst, Reg(s, src), dst);
  }

  /** `mov [bp + d8], reg` writes only the low byte of the register, at BP
      itself: the displacement plays no part and no other cell changes. */
  lemma StoreByteIgnoresDisplacement(s: MachineState, src: RegisterWord, displacement: u16)
    requires WellFormedState(s) && Reg(s, BP) < MemorySize
    ensures Step(s, Mov(Address(EffectiveAddress(6, MemoryDisp8, displacement)), Word(src)))
         == Ok(s.(memory := s.memory[Reg(s, BP) := Reg(s, src) % 0x100]))
  {
  }

  /** `mov byte [disp], imm` and `mov word [disp], imm` both write two bytes. */
  lemma ImmediateStoreWritesWord(s: MachineState, wordMode: bool, displacement: u16, immediate: u16)
    requires WellFormedState(s) && displacement + 2 <= MemorySize
    ensures Step(s, MovImmediateToMemory(wordMode, Address(EffectiveAddress(6, Memory, displacement)), immediate))
         == Ok(s.(memory := StoreBigEndianWord(s.memory, displacement, immediate)))
  {
  }

  /** `mov [ea], reg` for every effective address.  `[bp + si]` stores the
      register big-endian at BP + SI, and panics when that sum overflows
      `u16` or the word runs past the end of memory.  `[bp + d8]` stores the
      low byte at BP, and panics when BP is past the end of memory.  Every
      other form is `todo!()`.  No register, flag or instruction pointer
      changes. */
  lemma StoreRegisterCases(s: MachineState, ea: EffectiveAddress, src: RegisterWord)
    requires WellFormedState(s)
    ensures
      var r := Step(s, Mov(Address(ea), Word(src)));
      var a := Reg(s, BP) + Reg(s, SI);
      && (ea.mode == Memory && ea.index == 2 ==>
            && (r.Panicked? <==> a >= 0x1_0000 || a + 2 > MemorySize)
            && (!r.Panicked? ==> r == Ok(s.(memory := StoreBigEndianWord(s.memory, a, Reg(s, src))))))
      && (ea.mode == MemoryDisp8 && ea.index == 6 ==>
            && (r.Panicked? <==> Reg(s, BP) >= MemorySize)
            && (!r.Panicked? ==> r == Ok(s.(memory := s.memory[Reg(s, BP) := Reg(s, src) % 0x100]))))
      && (!(ea.mode == Memory && ea.index == 2) && !(ea.mode == MemoryDisp8 && ea.index == 6) ==>
            r == Unimplemented)
  {
  }

  /** `mov [ea], imm` for every target.  The direct address, BP + d8 and
      BX + d8 get the immediate as a big-endian word, in byte mode too; the
      sum with BP or BX panics when it overflows `u16`, and the store panics
      when the word runs past the end of memory.  Register targets and every
      other address form are `todo!()`.  Only memory changes. */
  lemma ImmediateStoreCases(s: MachineState, wordMode: bool, target: Place, immediate: u16)
    requires WellFormedState(s)
    ensures
      var r := Step(s, MovImmediateToMemory(wordMode, target, immediate));
      && (!target.Address? ==> r == Unimplemented)
      && (target.Address? ==>
            var ea := target.ea;
            var direct := ea.mode == Memory && ea.index == 6;
            var based := ea.mode == MemoryDisp8 && (ea.index == 6 || ea.index == 7);
            var a := if direct then ea.displacement
                     else (if ea.index == 6 then Reg(s, BP) else Reg(s, BX)) + ea.displacement;
            && (!direct && !based ==> r == Unimplemented)
            && (direct || based ==>
                  && (r.Panicked? <==> (based && a >= 0x1_0000) || a + 2 > MemorySize)
                  && (!r.Panicked? ==> r == Ok(s.(memory := StoreBigEndianWord(s.memory, a, immediate))))))
  {
  }

  /** Forms the code leaves as `todo!()`. */
  lemma UnimplementedForms(s: MachineState, i: Instruction)
    requires WellFormedState(s)
    requires i.ArithmeticImmediate? || i.Loop? || i.Unrecognized?
      || (i.Arithmetic? && i.op != 0 && i.op != 5 && i.op != 7)
      || (i.Arithmetic? && (i.target.Byte? || i.source.Byte?))
      || (i.Mov? && (i.target.Byte? || i.source.Byte?))
    ensures Step(s, i) == Unimplemented
  {
  }
}
