/** The interpreter's machine state: registers, a flat byte memory, the end
    of the loaded program and the instruction pointer. */
module Machine {
  import opened Basics
  import opened RegisterFile

  /** The memory array has `u16::MAX` cells, one fewer than a 16-bit address
      space, so address 0xFFFF is out of bounds. */
  const MemorySize: nat := 0xFFFF

  datatype MachineState = MachineState(registers: RegisterValues, memory: seq<u8>, programEnd: nat, instructionPointer: nat)

  predicate WellFormedState(s: MachineState)
  {
    RegisterFile.WellFormed(s.registers) && |s.memory| == MemorySize
  }

  /** `State::default()`: cleared registers, zeroed memory, nothing loaded. */
  function DefaultState(): (s: MachineState)
    ensures WellFormedState(s)
  {
    MachineState(Cleared, seq(MemorySize, _ => 0), 0, 0)
  }

  /** The machine after `load_program` has read a program image: the image
      is copied to the bottom of memory and `program_end` is its length.
      The copy panics on an image longer than the memory. */
  function Loaded(s: MachineState, program: seq<u8>): (after: MachineState)
    requires WellFormedState(s) && |program| <= MemorySize
    ensures WellFormedState(after)
  {
    s.(memory := program + s.memory[|program|..], programEnd := |program|)
  }

  /** A word as memory holds it here: high byte first (`from_be_bytes`). */
  function BigEndianWord(memory: seq<u8>, i: nat): (w: u16)
    requires i + 1 < |memory|
    ensures w / 0x100 == memory[i] && w % 0x100 == memory[i + 1]
  {
    memory[i] as int * 0x100 + memory[i + 1] as int
  }

  /** `memory[i..i + 2].copy_from_slice(&value.to_be_bytes())`. */
  function StoreBigEndianWord(memory: seq<u8>, i: nat, value: u16): (after: seq<u8>)
    requires i + 2 <= |memory|
    ensures |after| == |memory|
  {
    memory[i := value / 0x100][i + 1 := value % 0x100]
  }

  /** A word store writes the high byte then the low byte, touches no other
      cell, and a load from the same address reads the value back. */
  lemma StoreThenLoad(memory: seq<u8>, i: nat, value: u16)
    requires i + 2 <= |memory|
    ensures var after := StoreBigEndianWord(memory, i, value);
      && after[i] == value / 0x100 && after[i + 1] == value % 0x100
      && (forall j :: 0 <= j < |memory| && j != i && j != i + 1 ==> after[j] == memory[j])
      && BigEndianWord(after, i) == value
  {
  }

  /** `State`: the machine the interpreter and the driver loop update in place. */
  class State {
    var registers: Registers
    var memory: array<u8>
    var programEnd: nat
    var instructionPointer: nat

    predicate Valid()
      reads this, registers
    {
      registers.Valid() && memory.Length == MemorySize
    }

    function View(): (s: MachineState)
      reads this, registers, registers.dataGroup, registers.metaGroup, memory
      requires Valid()
      ensures WellFormedState(s)
    {
      MachineState(registers.View(), memory[..], programEnd, instructionPointer)
    }

    /** `State::default()`. */
    constructor ()
      ensures Valid() && View() == DefaultState()
      ensures fresh(registers) && fresh(registers.dataGroup) && fresh(registers.metaGroup) && fresh(memory)
    {
      var cleared := new Registers();
      var cells := new u8[MemorySize](_ => 0);
      assert cells[..] == seq(MemorySize, _ => 0);
      registers, memory := cleared, cells;
      programEnd, instructionPointer := 0, 0;
    }

    /** `load_program` with the file's contents already read into `program`. */
    method LoadProgram(program: seq<u8>)
      requires Valid() && |program| <= MemorySize
      modifies this, memory
      ensures Valid() && registers == old(registers) && memory == old(memory)
      ensures View() == Loaded(old(View()), program)
    {
      programEnd := |program|;
      var k := 0;
      while k < |program|
        invariant 0 <= k <= |program|
        invariant registers == old(registers) && memory == old(memory) && programEnd == |program|
        invariant instructionPointer == old(instructionPointer)
        invariant memory[..] == program[..k] + old(memory[..])[k..]
      {
        ghost var before := memory[..];
        memory[k] := program[k];
        CopyStep(before, program, old(memory[..]), k);
        k := k + 1;
      }
      CopyDone(program, old(memory[..]));
    }
  }

  /** Copying one more byte of the image extends the copied prefix. */
  lemma CopyStep(cells: seq<u8>, program: seq<u8>, original: seq<u8>, k: nat)
    requires k < |program| <= |original| && cells == program[..k] + original[k..]
    ensures cells[k := program[k]] == program[..k + 1] + original[k + 1..]
  {
  }

  /** Once every byte of the image is copied, memory is the image followed by
      what was above it. */
  lemma CopyDone(program: seq<u8>, original: seq<u8>)
    requires |program| <= |original|
    ensures program[..|program|] + original[|program|..] == program + original[|program|..]
  {
  }
}
