/** The fetch, advance, execute loop of `all_instructions_and_print`: while
    the instruction pointer is below the end of the program, decode at the
    instruction pointer, move the pointer past the instruction, and run it.
    The trace it prints is left out; the memory reads the trace makes around
    `run` are kept, because they can stop the loop. */
module Driver {
  import opened Basics
  import opened Cursor
  import opened Operands
  import opened Instructions
  import opened Decoder
  import opened RegisterFile
  import opened Machine
  import opened Interpreter

  /** The reads the trace makes of a memory target before and after `run`:
      the direct address, BP + SI + disp, or BX or BP plus an 8-bit
      displacement, each a big-endian word that must lie inside memory, with
      the `u16` sums that compute it not overflowing.  Other memory targets
      are `todo!()`; register targets are read without fail. */
  function TraceProbe(s: MachineState, target: Place): (r: Outcome<()>)
    requires WellFormedState(s)
    ensures !target.Address? ==> r.Ok?
    ensures target.Address? && target.ea.mode == Memory
            && (target.ea.index == 6 || (target.ea.index == 2 && target.ea.displacement == 0)) ==>
              (r.Ok? <==> LoadWord(s, target.ea).Ok?) && (r.Panicked? <==> LoadWord(s, target.ea).Panicked?)
  {
    match target
    case Byte(_) => Ok(())
    case Word(_) => Ok(())
    case Address(ea) =>
      var address :=
        if ea.mode == Memory && ea.index == 6 then Ok(ea.displacement)
        else if ea.mode == Memory && ea.index == 2 then
          (if Reg(s, BP) + Reg(s, SI) >= 0x1_0000 then Panicked
           else CheckedAddress(Reg(s, BP) + Reg(s, SI) + ea.displacement))
        else if ea.mode == MemoryDisp8 && ea.index == 7 then CheckedAddress(Reg(s, BX) + ea.displacement)
        else if ea.mode == MemoryDisp8 && ea.index == 6 then CheckedAddress(Reg(s, BP) + ea.displacement)
        else Unimplemented;
      match address
      case Ok(i) => if i + 1 < MemorySize then Ok(()) else Panicked
      case Unimplemented => Unimplemented
      case Panicked => Panicked
  }

  /** The decoding of the bytes from `ip` on, stepping through memory one
      byte at a time. */
  function DecodeAt(memory: seq<u8>, ip: nat): (d: Decoding)
    requires ip <= |memory|
    ensures d.Decoded? ==> d.length <= |memory| - ip
    ensures d.Decoded? && ip < |memory| ==> d.length >= 1
    decreases ip
  {
    if ip == 0 then Decode(memory) else DecodeAt(memory[1..], ip - 1)
  }

  /** It is `Decode` applied to the suffix of memory at `ip`. */
  lemma {:induction false} DecodeAtIsDecodeOfSuffix(memory: seq<u8>, ip: nat)
    requires ip <= |memory|
    ensures DecodeAt(memory, ip) == Decode(memory[ip..])
    decreases ip
  {
    if ip > 0 {
      DecodeAtIsDecodeOfSuffix(memory[1..], ip - 1);
      assert memory[1..][ip - 1..] == memory[ip..];
    }
  }

  /** One iteration of the loop, for an instruction pointer below the end of
      the program: decode at `memory[ip..]`, add the decoded length to the
      instruction pointer, then run the instruction. */
  function Cycle(s: MachineState): (r: Outcome<MachineState>)
    requires WellFormedState(s)
    ensures r.Ok? ==> WellFormedState(r.value) && r.value.programEnd == s.programEnd
  {
    if s.instructionPointer > MemorySize then Panicked
    else match DecodeAt(s.memory, s.instructionPointer)
      case OutOfBytes => Panicked
      case Decoded(n, instruction) =>
        AfterFetch(s.(instructionPointer := s.instructionPointer + n), instruction)
  }

  /** The rest of the body of the loop, once the instruction pointer is past
      the instruction: the trace's reads of the target, then `run`. */
  function AfterFetch(advanced: MachineState, instruction: Instruction): (r: Outcome<MachineState>)
    requires WellFormedState(advanced)
    ensures r.Ok? ==> r == Step(advanced, instruction)
  {
    var probe := if Target(instruction).Some? then TraceProbe(advanced, Target(instruction).value) else Ok(());
    match probe
    case Ok(_) => Step(advanced, instruction)
    case Unimplemented => Unimplemented
    case Panicked => Panicked
  }

  /** How the loop ends: past the end of the program, after the given number
      of iterations, or at a `todo!()` or a panic. */
  datatype Execution = Halted(state: MachineState) | OutOfFuel(state: MachineState) | HitTodo | HitPanic

  /** The loop, run for at most `fuel` iterations. */
  function Execute(s: MachineState, fuel: nat): (r: Execution)
    requires WellFormedState(s)
    ensures (r.Halted? || r.OutOfFuel?) ==> WellFormedState(r.state) && r.state.programEnd == s.programEnd
    ensures r.Halted? ==> r.state.instructionPointer >= r.state.programEnd
    decreases fuel
  {
    if s.instructionPointer >= s.programEnd then Halted(s)
    else if fuel == 0 then OutOfFuel(s)
    else match Cycle(s)
      case Ok(next) => Execute(next, fuel - 1)
      case Unimplemented => HitTodo
      case Panicked => HitPanic
  }

  /** One pass through the body of the loop: fetch at the instruction
      pointer, advance it past the instruction, run the instruction. */
  method RunCycle(state: State)
    requires state.Valid() && Cycle(state.View()).Ok?
    modifies state, state.registers, state.registers.dataGroup, state.registers.metaGroup, state.memory
    ensures state.Valid() && state.registers == old(state.registers) && state.memory == old(state.memory)
    ensures state.registers.dataGroup == old(state.registers.dataGroup) && state.registers.metaGroup == old(state.registers.metaGroup)
    ensures state.View() == Cycle(old(state.View())).value
  {
    ghost var before := state.View();
    DecodesAtPointer(before);
    DecodeAtIsDecodeOfSuffix(before.memory, before.instructionPointer);
    var window := state.memory[state.instructionPointer..];
    assert window == before.memory[before.instructionPointer..];
    var offset, instruction, _ := SingleInstruction(window);
    CycleRunsDecoded(before, offset, instruction);
    state.instructionPointer := state.instructionPointer + offset;
    assert state.View() == before.(instructionPointer := before.instructionPointer + offset);
    Run(state, instruction);
  }

  /** `all_instructions_and_print` without its trace, for at most `fuel` iterations. */
  method AllInstructions(state: State, fuel: nat)
    requires state.Valid()
    requires Execute(state.View(), fuel).Halted? || Execute(state.View(), fuel).OutOfFuel?
    modifies state, state.registers, state.registers.dataGroup, state.registers.metaGroup, state.memory
    ensures state.Valid() && state.registers == old(state.registers) && state.memory == old(state.memory)
    ensures state.registers.dataGroup == old(state.registers.dataGroup) && state.registers.metaGroup == old(state.registers.metaGroup)
    ensures state.View() == Execute(old(state.View()), fuel).state
  {
    var remaining := fuel;
    ghost var final := Execute(state.View(), fuel);
    while state.instructionPointer < state.programEnd && remaining > 0
      invariant state.Valid() && state.registers == old(state.registers) && state.memory == old(state.memory)
      invariant state.registers.dataGroup == old(state.registers.dataGroup) && state.registers.metaGroup == old(state.registers.metaGroup)
      invariant Execute(state.View(), remaining) == final
      decreases remaining
    {
      ghost var before := state.View();
      ExecuteOneCycle(before, remaining, final);
      RunCycle(state);
      assert state.View() == Cycle(before).value;
      remaining := remaining - 1;
    }
    ExecuteStops(state.View(), remaining);
    StoppedState(state.View(), remaining, final);
  }

  /** A loop that has stopped ends in the state it stopped in. */
  lemma StoppedState(s: MachineState, fuel: nat, final: Execution)
    requires WellFormedState(s) && (s.instructionPointer >= s.programEnd || fuel == 0)
    requires Execute(s, fuel) == if s.instructionPointer >= s.programEnd then Halted(s) else OutOfFuel(s)
    requires Execute(s, fuel) == final
    ensures final.Halted? || final.OutOfFuel?
    ensures final.state == s
  {
  }

  /** One pass of a loop that goes on to end in `final` survives its cycle
      and leaves a loop that ends in `final` too. */
  lemma ExecuteOneCycle(s: MachineState, fuel: nat, final: Execution)
    requires WellFormedState(s) && s.instructionPointer < s.programEnd && fuel > 0
    requires Execute(s, fuel) == final && (final.Halted? || final.OutOfFuel?)
    ensures Cycle(s).Ok? && Execute(Cycle(s).value, fuel - 1) == final
  {
  }

  /** A loop whose condition is false stops where it is. */
  lemma ExecuteStops(s: MachineState, fuel: nat)
    requires WellFormedState(s) && (s.instructionPointer >= s.programEnd || fuel == 0)
    ensures Execute(s, fuel) == if s.instructionPointer >= s.programEnd then Halted(s) else OutOfFuel(s)
  {
  }

  /** A cycle that survives found an instruction at the instruction pointer. */
  lemma DecodesAtPointer(s: MachineState)
    requires WellFormedState(s) && Cycle(s).Ok?
    ensures s.instructionPointer <= MemorySize && DecodeAt(s.memory, s.instructionPointer).Decoded?
  {
  }

  /** A cycle that survives runs the decoded instruction from just past it. */
  lemma CycleRunsDecoded(s: MachineState, length: nat, instruction: Instruction)
    requires WellFormedState(s) && s.instructionPointer <= MemorySize && Cycle(s).Ok?
    requires DecodeAt(s.memory, s.instructionPointer) == Decoded(length, instruction)
    ensures Cycle(s) == Step(s.(instructionPointer := s.instructionPointer + length), instruction)
  {
    assert Cycle(s) == AfterFetch(s.(instructionPointer := s.instructionPointer + length), instruction);
  }

  /** Unfolds one iteration of a loop that survives it. */
  lemma ExecuteUnfold(s: MachineState, fuel: nat)
    requires WellFormedState(s) && s.instructionPointer < s.programEnd && fuel > 0 && Cycle(s).Ok?
    ensures Execute(s, fuel) == Execute(Cycle(s).value, fuel - 1)
  {
  }

  /** A cycle that reaches the end of the program is the last one. */
  lemma ExecuteLast(s: MachineState)
    requires WellFormedState(s) && s.instructionPointer < s.programEnd && Cycle(s).Ok?
    requires Cycle(s).value.instructionPointer >= Cycle(s).value.programEnd
    ensures Execute(s, 1) == Halted(Cycle(s).value)
  {
    ExecuteUnfold(s, 1);
  }

  // ---------------------------------------------------------------------------
  // Properties of the loop

  /** Branch offsets count from the next instruction: an iteration that
      runs anything but a jump leaves the instruction pointer just past the
      decoded instruction. */
  lemma CycleAdvancesPastInstruction(s: MachineState)
    requires WellFormedState(s) && s.instructionPointer <= MemorySize
    requires Decode(s.memory[s.instructionPointer..]).Decoded?
    requires !Decode(s.memory[s.instructionPointer..]).instruction.Jump?
    requires Cycle(s).Ok?
    ensures Cycle(s).value.instructionPointer == s.instructionPointer + Decode(s.memory[s.instructionPointer..]).length
  {
    DecodeAtIsDecodeOfSuffix(s.memory, s.instructionPointer);
  }

  /** With `74 02` (`jz $+2+2`) at address 0: a set zero flag sends the
      instruction pointer to 4, a clear one leaves it just past the jump, at 2. */
  lemma JzExample(s: MachineState)
    requires WellFormedState(s) && s.instructionPointer == 0 && s.programEnd >= 2
    requires s.memory[0] == 0x74 && s.memory[1] == 0x02
    ensures Cycle(s).Ok?
    ensures Cycle(s).value.instructionPointer == if s.registers.flagZero then 4 else 2
    ensures Cycle(s).value.registers == s.registers && Cycle(s).value.memory == s.memory
  {
    var window := s.memory[0..];
    DecodeAtIsDecodeOfSuffix(s.memory, s.instructionPointer);
    assert window[0] == 0x74 && window[1] == 0x02;
    RelativeLayout(window);
    ConditionalJump(s.(instructionPointer := 2), 0x74, 2);
  }

  /** An iteration over `mov reg16, imm16` (B8+r, low byte, high byte):
      the register gets the little-endian immediate and the instruction
      pointer moves three bytes on. */
  lemma MovImmediateWordCycle(s: MachineState)
    requires WellFormedState(s) && s.instructionPointer + 3 <= MemorySize
    requires 0xB8 <= s.memory[s.instructionPointer] <= 0xBF
    ensures Cycle(s) == Ok(WithWord(s.(instructionPointer := s.instructionPointer + 3),
                                    RegisterPlace(true, s.memory[s.instructionPointer] % 8).wordReg,
                                    s.memory[s.instructionPointer + 1] as int + 0x100 * s.memory[s.instructionPointer + 2] as int))
  {
    var ip := s.instructionPointer;
    var window := s.memory[ip..];
    DecodeAtIsDecodeOfSuffix(s.memory, ip);
    WordMoveDecodes(window);
    assert window[0] == s.memory[ip] && window[1] == s.memory[ip + 1] && window[2] == s.memory[ip + 2];
    CycleOfWordMove(s, 3, RegisterPlace(true, s.memory[ip] % 8).wordReg,
      s.memory[ip + 1] as int + 0x100 * s.memory[ip + 2] as int);
  }

  /** B8+r with two more bytes decodes as a move of their little-endian
      value into the 16-bit register r. */
  lemma WordMoveDecodes(window: seq<u8>)
    requires |window| >= 3 && 0xB8 <= window[0] <= 0xBF
    ensures Decode(window) == Decoded(3, MovImmediate(Word(RegisterPlace(true, window[0] % 8).wordReg),
                                                      window[1] as int + 0x100 * window[2] as int))
  {
    MovImmediateLayout(window);
    assert window[1..3] == [window[1], window[2]];
    assert LittleEndian(window[1..3]) == window[1] as int + 0x100 * window[2] as int by {
      assert window[1..3][1..] == [window[2]];
      assert window[1..3][1..][1..] == [];
    }
  }

  /** An iteration over a move of an immediate into a 16-bit register. */
  lemma CycleOfWordMove(s: MachineState, length: nat, r: RegisterWord, value: u16)
    requires WellFormedState(s) && s.instructionPointer <= MemorySize
    requires DecodeAt(s.memory, s.instructionPointer) == Decoded(length, MovImmediate(Word(r), value))
    ensures Cycle(s) == Ok(WithWord(s.(instructionPointer := s.instructionPointer + length), r, value))
  {
  }

  /** An iteration over `add ax, cx` (01 C8): AX gets the 16-bit sum,
      CX is kept, the flags follow the sum and the pointer moves two bytes on. */
  lemma AddAxCxCycle(s: MachineState)
    requires WellFormedState(s) && s.instructionPointer + 2 <= MemorySize
    requires s.memory[s.instructionPointer] == 0x01 && s.memory[s.instructionPointer + 1] == 0xC8
    ensures Cycle(s).Ok?
    ensures var next := Cycle(s).value;
      var sum := Wrap16(Reg(s, AX) + Reg(s, CX));
      && Reg(next, AX) == sum && Reg(next, CX) == Reg(s, CX)
      && next.registers.flagZero == (sum == 0) && next.registers.flagSign == (sum >= 0x8000)
      && next.instructionPointer == s.instructionPointer + 2 && next.programEnd == s.programEnd
  {
    var window := s.memory[s.instructionPointer..];
    DecodeAtIsDecodeOfSuffix(s.memory, s.instructionPointer);
    RegisterToRegisterLayout(window);
    var modrm: u8 := 0xC8;
    assert modrm % 8 == 0 && modrm / 8 % 8 == 1;
    assert RegisterPlace(true, 0) == Word(AX) && RegisterPlace(true, 1) == Word(CX);
    assert Decode(window) == Decoded(2, Arithmetic(0, Word(AX), Word(CX)));
    RegisterArithmetic(s.(instructionPointer := s.instructionPointer + 2), 0, AX, CX);
  }

  /** The first two instructions of `mov ax, 5; mov cx, 2; add ax, cx`. */
  lemma MovesOfAddProgram(s0: MachineState) returns (s2: MachineState)
    requires WellFormedState(s0) && s0.instructionPointer == 0 && s0.programEnd == 8 && s0.registers == Cleared
    requires s0.memory[0] == 0xB8 && s0.memory[1] == 0x05 && s0.memory[2] == 0x00
    requires s0.memory[3] == 0xB9 && s0.memory[4] == 0x02 && s0.memory[5] == 0x00
    ensures WellFormedState(s2) && Execute(s0, 3) == Execute(s2, 1)
    ensures s2.instructionPointer == 6 && s2.programEnd == 8 && s2.memory == s0.memory
    ensures Reg(s2, AX) == 5 && Reg(s2, CX) == 2
  {
    MovImmediateWordCycle(s0);
    assert RegisterPlace(true, 0xB8 % 8) == Word(AX);
    var s1 := WithWord(s0.(instructionPointer := 3), AX, 5);
    assert Cycle(s0) == Ok(s1);
    ExecuteUnfold(s0, 3);
    MovImmediateWordCycle(s1);
    assert RegisterPlace(true, 0xB9 % 8) == Word(CX);
    s2 := WithWord(s1.(instructionPointer := 6), CX, 2);
    assert Cycle(s1) == Ok(s2);
    ExecuteUnfold(s1, 2);
    WordWriteThenRead(s1.registers, CX, 2, AX);
  }

  /** The last instruction of `mov ax, 5; mov cx, 2; add ax, cx`. */
  lemma AddOfAddProgram(s2: MachineState)
    requires WellFormedState(s2) && s2.instructionPointer == 6 && s2.programEnd == 8
    requires s2.memory[6] == 0x01 && s2.memory[7] == 0xC8
    requires Reg(s2, AX) == 5 && Reg(s2, CX) == 2
    ensures var r := Execute(s2, 1);
      && r.Halted?
      && Reg(r.state, AX) == 7 && Reg(r.state, CX) == 2
      && !r.state.registers.flagZero && !r.state.registers.flagSign
  {
    AddAxCxCycle(s2);
    ExecuteLast(s2);
    SumOfAddProgram(s2, Cycle(s2).value, Execute(s2, 1));
  }

  /** The state `add ax, cx` leaves with AX = 5 and CX = 2. */
  lemma SumOfAddProgram(s2: MachineState, s3: MachineState, r: Execution)
    requires WellFormedState(s2) && WellFormedState(s3) && r == Halted(s3)
    requires Reg(s2, AX) == 5 && Reg(s2, CX) == 2
    requires var sum := Wrap16(Reg(s2, AX) + Reg(s2, CX));
      && Reg(s3, AX) == sum && Reg(s3, CX) == Reg(s2, CX)
      && s3.registers.flagZero == (sum == 0) && s3.registers.flagSign == (sum >= 0x8000)
    ensures r.Halted? && Reg(r.state, AX) == 7 && Reg(r.state, CX) == 2
    ensures !r.state.registers.flagZero && !r.state.registers.flagSign
  {
    assert Wrap16(7) == 7;
  }

  /** The program `mov ax, 5; mov cx, 2; add ax, cx` at address 0 of a
      machine with cleared registers runs to its end with AX = 7, CX = 2
      and both flags clear. */
  lemma AddProgramRuns(s0: MachineState)
    requires WellFormedState(s0) && s0.instructionPointer == 0 && s0.programEnd == 8 && s0.registers == Cleared
    requires s0.memory[..8] == [0xB8, 0x05, 0x00, 0xB9, 0x02, 0x00, 0x01, 0xC8]
    ensures var r := Execute(s0, 3);
      && r.Halted?
      && Reg(r.state, AX) == 7 && Reg(r.state, CX) == 2
      && !r.state.registers.flagZero && !r.state.registers.flagSign
  {
    assert s0.memory[0] == 0xB8 && s0.memory[1] == 0x05 && s0.memory[2] == 0x00;
    assert s0.memory[3] == 0xB9 && s0.memory[4] == 0x02 && s0.memory[5] == 0x00;
    assert s0.memory[6] == 0x01 && s0.memory[7] == 0xC8;
    var s2 := MovesOfAddProgram(s0);
    AddOfAddProgram(s2);
  }

  /** The same program loaded into a fresh machine. */
  lemma AddExample()
    ensures var program: seq<u8> := [0xB8, 0x05, 0x00, 0xB9, 0x02, 0x00, 0x01, 0xC8];
      var r := Execute(Loaded(DefaultState(), program), 3);
      && r.Halted?
      && Reg(r.state, AX) == 7 && Reg(r.state, CX) == 2
      && !r.state.registers.flagZero && !r.state.registers.flagSign
  {
    var program: seq<u8> := [0xB8, 0x05, 0x00, 0xB9, 0x02, 0x00, 0x01, 0xC8];
    var s0 := Loaded(DefaultState(), program);
    assert s0.memory[..8] == program;
    AddProgramRuns(s0);
  }
}
